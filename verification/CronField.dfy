/** One field of a cron expression: parseCronField and the set of values it allows. */
module CronField {
  import opened Wrappers
  import opened Text

  const TWO_64 := 0x1_0000_0000_0000_0000

  /** Go's int addition wraps around at 64 bits. */
  function AddInt64(a: int, b: int): int
    requires MIN_INT64 <= a <= MAX_INT64 && 0 < b <= MAX_INT64
  {
    if a + b <= MAX_INT64 then a + b else a + b - TWO_64
  }

  // ---------- what a segment means ----------

  predicate IsStep(part: string) {
    "*/" <= part
  }

  /** The step of a segment that starts with "*" and "/"; None when parsing refuses it. */
  function StepOf(part: string): Option<int>
    requires IsStep(part)
  {
    match Atoi(part[2..])
    case Some(k) => if k > 0 then Some(k) else None
    case None => None
  }

  predicate SegmentValid(part: string, min: int, max: int) {
    if part == "*" then true
    else if IsStep(part) then StepOf(part).Some?
    else Atoi(part).Some? && min <= Atoi(part).value <= max
  }

  predicate Denotes(part: string, min: int, max: int, v: int)
    requires SegmentValid(part, min, max)
  {
    if part == "*" then min <= v <= max
    else if IsStep(part) then min <= v <= max && (v - min) % StepOf(part).value == 0
    else v == Atoi(part).value
  }

  /** Values that a step near 2^63 adds below the range once the loop counter has wrapped around. */
  function WrappedValues(min: int, step: int): set<int> {
    if min + step > MAX_INT64 then {MIN_INT64, -1} else {}
  }

  /** The integers from lo up to, but not including, hi. */
  function Range(lo: int, hi: int): (s: set<int>)
    ensures forall v :: v in s <==> lo <= v < hi
    decreases hi - lo
  {
    if lo >= hi then {} else Range(lo, hi - 1) + {hi - 1}
  }

  function Multiples(min: int, step: int, limit: int): set<int>
    requires step > 0
  {
    set v | v in Range(min, limit) && (v - min) % step == 0
  }

  function SegmentValues(part: string, min: int, max: int): set<int>
    requires SegmentValid(part, min, max)
  {
    if part == "*" then Range(min, max + 1)
    else if IsStep(part) then Multiples(min, StepOf(part).value, max + 1) + WrappedValues(min, StepOf(part).value)
    else {Atoi(part).value}
  }

  predicate AllValid(parts: seq<string>, min: int, max: int) {
    forall part :: part in parts ==> SegmentValid(Trim(part), min, max)
  }

  function AllValues(parts: seq<string>, min: int, max: int): set<int>
    requires AllValid(parts, min, max)
  {
    if parts == [] then {}
    else AllValues(parts[..|parts| - 1], min, max) + SegmentValues(Trim(parts[|parts| - 1]), min, max)
  }

  /** The outcome of parsing a whole field. */
  function Parsed(value: string, min: int, max: int): Option<set<int>> {
    var parts := Split(value, ',');
    if AllValid(parts, min, max) then Some(AllValues(parts, min, max)) else None
  }

  // ---------- the parser ----------

  /** The ranges the program passes: 0-59, 0-23, 1-31, 1-12 and 0-6. */
  predicate FieldRange(min: int, max: int) {
    0 <= min <= 1 && min <= max <= 59
  }

  method ParseField(value: string, min: int, max: int) returns (r: Option<set<int>>)
    requires FieldRange(min, max)
    ensures r == Parsed(value, min, max)
  {
    hide SegmentValid, SegmentValues, Trim, Split;
    var allowed: set<int> := {};
    var parts := Split(value, ',');
    for n := 0 to |parts|
      invariant AllValid(parts[..n], min, max)
      invariant allowed == AllValues(parts[..n], min, max)
    {
      assert parts[..n + 1][..n] == parts[..n];
      assert parts[..n + 1][n] == parts[n];
      var extended := AddSegment(allowed, Trim(parts[n]), min, max);
      if extended == None {
        return None;
      }
      allowed := extended.value;
    }
    assert parts[..|parts|] == parts;
    return Some(allowed);
  }

  /** The body of the loop over segments. */
  method AddSegment(before: set<int>, part: string, min: int, max: int) returns (r: Option<set<int>>)
    requires FieldRange(min, max)
    ensures r == if SegmentValid(part, min, max) then Some(before + SegmentValues(part, min, max)) else None
  {
    if part == "" {
      return None;
    }
    if part == "*" {
      var allowed := before;
      for i := min to max + 1
        invariant allowed == before + Range(min, i)
      {
        allowed := allowed + {i};
      }
      return Some(allowed);
    }
    if IsStep(part) {
      var step := Atoi(part[2..]);
      if step == None || step.value <= 0 {
        return None;
      }
      var allowed := AddSteps(before, min, max, step.value);
      return Some(allowed);
    }
    var number := Atoi(part);
    if number == None || number.value < min || number.value > max {
      return None;
    }
    return Some(before + {number.value});
  }

  /** The inner loop of a step segment: i runs from min in steps, as a 64-bit counter. */
  method AddSteps(before: set<int>, min: int, max: int, step: int) returns (allowed: set<int>)
    requires FieldRange(min, max) && 0 < step <= MAX_INT64
    ensures allowed == before + (Multiples(min, step, max + 1) + WrappedValues(min, step))
  {
    allowed := before;
    var i := min;
    ghost var wrapped := false;
    while i <= max
      invariant MIN_INT64 <= i <= MAX_INT64
      invariant !wrapped ==> min <= i && (i - min) % step == 0 && (i == min || i - min >= step)
      invariant !wrapped ==> allowed == before + Multiples(min, step, Least(i, max + 1))
      invariant wrapped ==> min == 1 && step == MAX_INT64
      invariant wrapped ==>
        || (i == MIN_INT64 && allowed == before + {1})
        || (i == -1 && allowed == before + {1, MIN_INT64})
        || (i == MAX_INT64 - 1 && allowed == before + {1, MIN_INT64, -1})
      decreases !wrapped, max - i
    {
      if !wrapped {
        NextMultiple(min, step, i, max);
        if i + step > MAX_INT64 {
          assert i == min == 1 && step == MAX_INT64;
          assert Multiples(1, MAX_INT64, 2) == {1};
        }
      }
      allowed := allowed + {i};
      wrapped := wrapped || i + step > MAX_INT64;
      i := AddInt64(i, step);
    }
    if wrapped {
      assert Multiples(1, MAX_INT64, max + 1) == {1};
    }
  }

  function Least(a: int, b: int): int {
    if a < b then a else b
  }

  lemma NextMultiple(min: int, step: int, i: int, max: int)
    requires 0 < step && min <= i <= max && (i - min) % step == 0
    ensures Multiples(min, step, Least(i + step, max + 1)) == Multiples(min, step, i) + {i}
    ensures (i + step - min) % step == 0
  {
    ModAfter(i - min, step, step);
    forall v | v in Multiples(min, step, Least(i + step, max + 1))
      ensures v in Multiples(min, step, i) + {i}
    {
      if v > i {
        ModAfter(i - min, step, v - i);
      }
    }
  }

  /** After a multiple of `step`, the next one is `step` further on. */
  lemma ModAfter(x: int, step: int, gap: int)
    requires 0 < step && x % step == 0 && 0 < gap <= step
    ensures (x + gap) % step == 0 <==> gap == step
  {
    var q, y := x / step, x + gap;
    assert x == q * step;
    assert y == y / step * step + y % step;
    if gap == step {
      assert y == (q + 1) * step;
      QuotientUnique(step, q + 1, 0, y / step, y % step);
    } else {
      QuotientUnique(step, q, gap, y / step, y % step);
    }
  }

  lemma QuotientUnique(d: int, q: int, r: int, q': int, r': int)
    requires 0 <= r < d && 0 <= r' < d && q * d + r == q' * d + r'
    ensures q == q' && r == r'
  {
    if q > q' {
      AtLeastOnce(q - q', d);
    } else if q < q' {
      AtLeastOnce(q' - q, d);
    }
  }

  lemma AtLeastOnce(k: int, d: int)
    requires k >= 1 && d > 0
    ensures k * d >= d
  {
  }

  // ---------- what a parsed field means ----------

  /** Inside the range a value is allowed exactly when some segment denotes it. */
  lemma FieldMeaning(value: string, min: int, max: int, v: int)
    requires FieldRange(min, max) && Parsed(value, min, max).Some? && min <= v <= max
    ensures v in Parsed(value, min, max).value
       <==> exists part :: part in Split(value, ',') && Denotes(Trim(part), min, max, v)
  {
    SegmentsMeaning(Split(value, ','), min, max, v);
  }

  lemma SegmentMeaning(part: string, min: int, max: int, v: int)
    requires FieldRange(min, max) && SegmentValid(part, min, max) && min <= v <= max
    ensures v in SegmentValues(part, min, max) <==> Denotes(part, min, max, v)
  {
    hide Atoi;
  }

  lemma {:induction false} SegmentsMeaning(parts: seq<string>, min: int, max: int, v: int)
    requires FieldRange(min, max) && AllValid(parts, min, max) && min <= v <= max
    ensures v in AllValues(parts, min, max) <==> exists part :: part in parts && Denotes(Trim(part), min, max, v)
  {
    if parts != [] {
      var n := |parts| - 1;
      assert parts == parts[..n] + [parts[n]];
      SegmentMeaning(Trim(parts[n]), min, max, v);
      hide Denotes, SegmentValues, SegmentValid, Trim;
      SegmentsMeaning(parts[..n], min, max, v);
    }
  }

  /** A field that parses always allows some value of its range. */
  lemma FieldNotEmpty(value: string, min: int, max: int)
    requires FieldRange(min, max) && Parsed(value, min, max).Some?
    ensures exists v :: min <= v <= max && v in Parsed(value, min, max).value
  {
    var parts := Split(value, ',');
    var part := Trim(parts[0]);
    assert parts[0] in parts;
    var v := if part == "*" || IsStep(part) then min else Atoi(part).value;
    assert Denotes(part, min, max, v);
    FieldMeaning(value, min, max, v);
  }

  function DecimalList(vs: seq<nat>): seq<string> {
    if vs == [] then [] else [Decimal(vs[0])] + DecimalList(vs[1..])
  }

  /** Any non-empty list of values of the range, written with commas, parses back to its set. */
  lemma FieldRoundTrip(vs: seq<nat>, min: int, max: int)
    requires FieldRange(min, max) && vs != [] && forall v :: v in vs ==> min <= v <= max
    ensures Parsed(Join(DecimalList(vs), ','), min, max) == Some(set v | v in vs)
  {
    DecimalListFacts(vs);
    SplitOfJoin(DecimalList(vs), ',');
    DecimalListValues(vs, min, max);
  }

  lemma {:induction false} DecimalListFacts(vs: seq<nat>)
    ensures |DecimalList(vs)| == |vs|
    ensures forall i :: 0 <= i < |vs| ==> DecimalList(vs)[i] == Decimal(vs[i])
    ensures FreeOf(',', DecimalList(vs))
  {
    if vs != [] {
      DecimalListFacts(vs[1..]);
      DecimalFacts(vs[0]);
    }
  }

  lemma {:induction false} DecimalListValues(vs: seq<nat>, min: int, max: int)
    requires FieldRange(min, max) && forall v :: v in vs ==> min <= v <= max
    ensures AllValid(DecimalList(vs), min, max)
    ensures AllValues(DecimalList(vs), min, max) == set v | v in vs
  {
    if vs != [] {
      hide Decimal, Trim, SegmentValid, SegmentValues;
      var n := |vs| - 1;
      DecimalListFacts(vs);
      DecimalListFacts(vs[..n]);
      assert DecimalList(vs)[..n] == DecimalList(vs[..n]);
      assert vs == vs[..n] + [vs[n]] && vs[n] in vs;
      assert forall v :: v in vs[..n] ==> v in vs;
      assert DecimalList(vs) == DecimalList(vs[..n]) + [Decimal(vs[n])];
      DecimalListValues(vs[..n], min, max);
      DecimalSegment(vs[n], min, max);
    }
  }

  lemma DecimalSegment(n: nat, min: int, max: int)
    requires FieldRange(min, max) && min <= n <= max
    ensures Trim(Decimal(n)) == Decimal(n)
    ensures SegmentValid(Decimal(n), min, max) && SegmentValues(Decimal(n), min, max) == {n}
  {
    DecimalFacts(n);
    AtoiOfDecimal(n);
    var s := Decimal(n);
    assert s[0] in s && s[|s| - 1] in s;
    TrimOfTrimmed(s);
  }

  /** `*` allows the whole range. */
  lemma StarMeaning(min: int, max: int, v: int)
    requires FieldRange(min, max) && min <= v <= max
    ensures Parsed("*", min, max).Some? && v in Parsed("*", min, max).value
  {
    OneSegment("*", min, max);
    assert Trimmed("*");
    TrimOfTrimmed("*");
  }

  /** A step allows the values a whole number of steps above the minimum; a step of 0 does not parse. */
  lemma StepMeaning(k: nat, min: int, max: int, v: int)
    requires FieldRange(min, max) && k <= MAX_INT64 && min <= v <= max
    ensures Parsed("*/" + Decimal(k), min, max).Some? <==> k > 0
    ensures k > 0 ==> (v in Parsed("*/" + Decimal(k), min, max).value <==> (v - min) % k == 0)
  {
    var part := "*/" + Decimal(k);
    DecimalFacts(k);
    AtoiOfDecimal(k);
    assert part[2..] == Decimal(k);
    assert part[|part| - 1] == Decimal(k)[|Decimal(k)| - 1];
    hide Decimal, Atoi, Value;
    TrimOfTrimmed(part);
    OneSegment(part, min, max);
    if k > 0 {
      SegmentMeaning(part, min, max, v);
    }
  }

  /** A field without a comma is one segment. */
  lemma OneSegment(part: string, min: int, max: int)
    requires ',' !in part
    ensures Parsed(part, min, max) ==
      if SegmentValid(Trim(part), min, max) then Some(SegmentValues(Trim(part), min, max)) else None
  {
    hide SegmentValid, SegmentValues, Trim;
    SplitAtFirst(part, "", ',');
    assert Split(part, ',') == [part] && [part][..0] == [];
    if SegmentValid(Trim(part), min, max) {
      var parts := [part];
      assert AllValid(parts, min, max) && parts[..|parts| - 1] == [];
      var none: set<int> := {};
      assert AllValues(parts, min, max) == none + SegmentValues(Trim(part), min, max);
      assert none + SegmentValues(Trim(part), min, max) == SegmentValues(Trim(part), min, max);
    } else {
      assert part in [part];
    }
  }

  /** A number allows itself, and numbers outside the range do not parse. */
  lemma NumberMeaning(n: nat, min: int, max: int)
    requires FieldRange(min, max) && n <= MAX_INT64
    ensures Parsed(Decimal(n), min, max) == if min <= n <= max then Some({n}) else None
  {
    DecimalFacts(n);
    AtoiOfDecimal(n);
    assert Decimal(n)[0] in Decimal(n) && Decimal(n)[|Decimal(n)| - 1] in Decimal(n);
    hide Decimal, Atoi, Value;
    assert Decimal(n) != "*" && !IsStep(Decimal(n)) by {
      assert Decimal(n)[0] != '*';
    }
    TrimOfTrimmed(Decimal(n));
    OneSegment(Decimal(n), min, max);
  }
}
