/** Cron schedules: parsing, the bounded search for the next slot, and when that search succeeds. */
module Cron {
  import opened Wrappers
  import opened Text
  import opened Calendar
  import CronField

  datatype Schedule = Schedule(minute: set<int>, hour: set<int>, day: set<int>, month: set<int>, weekday: set<int>)

  // ---------- ParseCronExpression ----------

  function ParsedExpression(expression: string): Option<Schedule> {
    var f := Fields(expression);
    if |f| != 5 then None
    else
      var minute, hour := CronField.Parsed(f[0], 0, 59), CronField.Parsed(f[1], 0, 23);
      var day, month := CronField.Parsed(f[2], 1, 31), CronField.Parsed(f[3], 1, 12);
      var weekday := CronField.Parsed(f[4], 0, 6);
      if minute.Some? && hour.Some? && day.Some? && month.Some? && weekday.Some? then
        Some(Schedule(minute.value, hour.value, day.value, month.value, weekday.value))
      else None
  }

  method ParseExpression(expression: string) returns (r: Option<Schedule>)
    ensures r == ParsedExpression(expression)
  {
    var fields := Fields(expression);
    if |fields| != 5 {
      return None;
    }
    var minute := CronField.ParseField(fields[0], 0, 59);
    if minute == None {
      return None;
    }
    var hour := CronField.ParseField(fields[1], 0, 23);
    if hour == None {
      return None;
    }
    var day := CronField.ParseField(fields[2], 1, 31);
    if day == None {
      return None;
    }
    var month := CronField.ParseField(fields[3], 1, 12);
    if month == None {
      return None;
    }
    var weekday := CronField.ParseField(fields[4], 0, 6);
    if weekday == None {
      return None;
    }
    return Some(Schedule(minute.value, hour.value, day.value, month.value, weekday.value));
  }

  /** Every field allows at least one value of its range. */
  predicate Usable(s: Schedule) {
    && (exists v :: v in s.minute && 0 <= v <= 59)
    && (exists v :: v in s.hour && 0 <= v <= 23)
    && (exists v :: v in s.day && 1 <= v <= 31)
    && (exists v :: v in s.month && 1 <= v <= 12)
    && (exists v :: v in s.weekday && 0 <= v <= 6)
  }

  lemma ParsedIsUsable(expression: string)
    requires ParsedExpression(expression).Some?
    ensures Usable(ParsedExpression(expression).value)
  {
    hide CronField.Parsed, Fields;
    var f := Fields(expression);
    CronField.FieldNotEmpty(f[0], 0, 59);
    CronField.FieldNotEmpty(f[1], 0, 23);
    CronField.FieldNotEmpty(f[2], 1, 31);
    CronField.FieldNotEmpty(f[3], 1, 12);
    CronField.FieldNotEmpty(f[4], 0, 6);
  }

  // ---------- what an expression means ----------

  /** A word of an expression: not empty, no white space. */
  predicate IsWord(s: string) {
    s != "" && forall c :: c in s ==> !IsSpace(c)
  }

  predicate AllWords(words: seq<string>) {
    forall w :: w in words ==> IsWord(w)
  }

  lemma {:induction false} LeadingWordOf(word: string, rest: string)
    requires forall c :: c in word ==> !IsSpace(c)
    requires rest == "" || IsSpace(rest[0])
    ensures LeadingWord(word + rest) == word
  {
    hide IsSpace;
    if word == "" {
      assert word + rest == rest;
    } else {
      assert (word + rest)[1..] == word[1..] + rest;
      LeadingWordOf(word[1..], rest);
    }
  }

  /** Splitting at white space undoes joining words by single spaces. */
  lemma {:induction false} FieldsOfJoin(words: seq<string>)
    requires AllWords(words)
    ensures Fields(Join(words, ' ')) == words
  {
    hide IsSpace, LeadingWord;
    if words != [] {
      var w := words[0];
      var rest := if |words| == 1 then "" else [' '] + Join(words[1..], ' ');
      assert IsSpace(' ') by { SpaceIsSpace(); }
      assert Join(words, ' ') == w + rest;
      assert w in words && IsWord(w);
      LeadingWordOf(w, rest);
      assert w[0] in w && (w + rest)[0] == w[0] && (w + rest)[|w|..] == rest;
      FieldsOfJoin(words[1..]);
      if |words| > 1 {
        assert rest[1..] == Join(words[1..], ' ');
      } else {
        assert words[1..] == [] && words == [w];
      }
    }
  }

  lemma SpaceIsSpace()
    ensures IsSpace(' ')
  {
  }

  /** Word i of an expression parses in the range of field i. */
  predicate WordParses(words: seq<string>, i: int, min: int, max: int)
    requires 0 <= i < |words|
  {
    CronField.AllValid(Split(words[i], ','), min, max)
  }

  /** Some comma segment of word i denotes the value. */
  ghost predicate WordDenotes(words: seq<string>, i: int, min: int, max: int, v: int)
    requires 0 <= i < |words| && WordParses(words, i, min, max)
  {
    exists part :: part in Split(words[i], ',') && CronField.Denotes(Trim(part), min, max, v)
  }

  /**
   * Words joined by single spaces parse exactly when there are five and each parses in its own range: minute, hour,
   * day of the month, month, day of the week, in this order. Each field then allows what its word denotes.
   */
  lemma ExpressionMeaning(words: seq<string>, v: int)
    requires AllWords(words)
    ensures var r := ParsedExpression(Join(words, ' '));
      && (r.Some? <==>
        && |words| == 5 && WordParses(words, 0, 0, 59) && WordParses(words, 1, 0, 23) && WordParses(words, 2, 1, 31)
        && WordParses(words, 3, 1, 12) && WordParses(words, 4, 0, 6))
      && (r.Some? && 0 <= v <= 59 ==> (v in r.value.minute <==> WordDenotes(words, 0, 0, 59, v)))
      && (r.Some? && 0 <= v <= 23 ==> (v in r.value.hour <==> WordDenotes(words, 1, 0, 23, v)))
      && (r.Some? && 1 <= v <= 31 ==> (v in r.value.day <==> WordDenotes(words, 2, 1, 31, v)))
      && (r.Some? && 1 <= v <= 12 ==> (v in r.value.month <==> WordDenotes(words, 3, 1, 12, v)))
      && (r.Some? && 0 <= v <= 6 ==> (v in r.value.weekday <==> WordDenotes(words, 4, 0, 6, v)))
  {
    hide CronField.AllValid, CronField.AllValues, CronField.Denotes, Fields, Join;
    FieldsOfJoin(words);
    if ParsedExpression(Join(words, ' ')).Some? {
      if 0 <= v <= 59 {
        CronField.FieldMeaning(words[0], 0, 59, v);
      }
      if 0 <= v <= 23 {
        CronField.FieldMeaning(words[1], 0, 23, v);
      }
      if 1 <= v <= 31 {
        CronField.FieldMeaning(words[2], 1, 31, v);
      }
      if 1 <= v <= 12 {
        CronField.FieldMeaning(words[3], 1, 12, v);
      }
      if 0 <= v <= 6 {
        CronField.FieldMeaning(words[4], 0, 6, v);
      }
    }
  }

  function Daily(m: nat, h: nat): seq<string> {
    [Decimal(m), Decimal(h), "*", "*", "*"]
  }

  lemma DailyWords(m: nat, h: nat)
    ensures AllWords(Daily(m, h))
  {
    DecimalIsWord(m);
    DecimalIsWord(h);
    hide Decimal;
  }

  lemma DecimalIsWord(n: nat)
    ensures IsWord(Decimal(n))
  {
    DecimalFacts(n);
    hide Decimal;
  }

  /** `m h * * *` fires every day at h:m, and at no other minute. */
  lemma DailyMeaning(m: nat, h: nat, t: int)
    requires m < 60 && h < 24
    ensures ParsedExpression(Join(Daily(m, h), ' ')).Some?
    ensures Matches(ParsedExpression(Join(Daily(m, h), ' ')).value, t) <==> MinuteOf(t) == m && HourOf(t) == h
    ensures WholeMinute(t) ==>
      (Matches(ParsedExpression(Join(Daily(m, h), ' ')).value, t) <==>
       t % (24 * 3600 * 1_000_000_000) == (h * 3600 + m * 60) * 1_000_000_000)
  {
    hide CronField.Parsed, Decimal, Fields, Join, Matches, IsWord;
    DailyWords(m, h);
    FieldsOfJoin(Daily(m, h));
    CronField.NumberMeaning(m, 0, 59);
    CronField.NumberMeaning(h, 0, 23);
    CronField.StarMeaning(1, 31, 1);
    CronField.StarMeaning(1, 12, 1);
    CronField.StarMeaning(0, 6, 0);
    DailySchedule(ParsedExpression(Join(Daily(m, h), ' ')).value, m, h, t);
    if WholeMinute(t) {
      hide HourOf, MinuteOf, WholeMinute;
      TimeOfDay(t, h, m);
    }
  }

  lemma TimeOfDay(t: int, h: nat, m: nat)
    requires WholeMinute(t) && h < 24 && m < 60
    ensures MinuteOf(t) == m && HourOf(t) == h <==>
      t % (24 * 3600 * 1_000_000_000) == (h * 3600 + m * 60) * 1_000_000_000
  {
    FieldsOfSlot(t);
    DayParts(DayIndex(t), HourOf(t) * HOUR + MinuteOf(t) * MINUTE);
    hide DayIndex, HourOf, MinuteOf, WholeMinute;
    OneTimeOfDay(HourOf(t), MinuteOf(t), h, m);
  }

  lemma OneTimeOfDay(h: int, m: int, h': int, m': int)
    requires 0 <= m < 60 && 0 <= m' < 60
    ensures h * HOUR + m * MINUTE == h' * HOUR + m' * MINUTE <==> h == h' && m == m'
  {
  }

  lemma DailySchedule(s: Schedule, m: nat, h: nat, t: int)
    requires s.minute == {m as int} && s.hour == {h as int}
    requires Some(s.day) == CronField.Parsed("*", 1, 31) && Some(s.month) == CronField.Parsed("*", 1, 12)
    requires Some(s.weekday) == CronField.Parsed("*", 0, 6)
    ensures Matches(s, t) <==> MinuteOf(t) == m && HourOf(t) == h
  {
    hide CronField.Parsed, Weekday, DateOf;
    var n := DayIndex(t);
    var d := DateOf(n);
    CronField.StarMeaning(1, 31, d.day);
    CronField.StarMeaning(1, 12, d.month);
    WeekdayRange(n);
    CronField.StarMeaning(0, 6, Weekday(n));
    hide MinuteOf, HourOf, DayIndex;
  }

  // ---------- (CronSchedule).matches and Next ----------

  predicate DayAllowed(s: Schedule, n: int) {
    var d := DateOf(n);
    d.day in s.day && d.month in s.month && Weekday(n) in s.weekday
  }

  predicate Matches(s: Schedule, t: int) {
    MinuteOf(t) in s.minute && HourOf(t) in s.hour && DayAllowed(s, DayIndex(t))
  }

  const HORIZON_DAYS := 366 * 5
  const HORIZON := HORIZON_DAYS * 24 * 60

  /** The first candidate: the whole minute after `after`. */
  function First(after: int): int {
    after / MINUTE * MINUTE + MINUTE
  }

  function HorizonEnd(after: int): int {
    First(after) + HORIZON * MINUTE
  }

  predicate WholeMinute(t: int) {
    t % MINUTE == 0
  }

  /** The least matching whole minute after `after`, or the end of the horizon when none comes before it. */
  ghost predicate IsNext(s: Schedule, after: int, r: int) {
    && WholeMinute(r) && after < r <= HorizonEnd(after)
    && (forall t :: WholeMinute(t) && after < t < r ==> !Matches(s, t))
    && (r == HorizonEnd(after) || Matches(s, r))
  }

  method Next(s: Schedule, after: int) returns (r: int)
    ensures IsNext(s, after, r)
  {
    hide Matches, WholeMinute, First;
    var candidate := First(after);
    FirstCandidate(after);
    for i := 0 to HORIZON
      invariant candidate == First(after) + i * MINUTE && after < candidate && WholeMinute(candidate)
      invariant forall t :: WholeMinute(t) && after < t < candidate ==> !Matches(s, t)
    {
      MinuteGap(candidate);
      if Matches(s, candidate) {
        return candidate;
      }
      candidate := candidate + MINUTE;
    }
    return candidate;
  }

  lemma FirstCandidate(after: int)
    ensures after < First(after) && WholeMinute(First(after))
    ensures forall t :: WholeMinute(t) && after < t ==> First(after) <= t
  {
    forall t | WholeMinute(t) && after < t
      ensures First(after) <= t
    {
      assert t == t / MINUTE * MINUTE;
    }
  }

  lemma MinuteGap(candidate: int)
    requires WholeMinute(candidate)
    ensures WholeMinute(candidate + MINUTE)
    ensures forall t :: WholeMinute(t) && t < candidate + MINUTE ==> t <= candidate
  {
    FirstCandidate(candidate);
  }

  /** The specification leaves no choice. */
  lemma NextIsUnique(s: Schedule, after: int, r: int, r': int)
    requires IsNext(s, after, r) && IsNext(s, after, r')
    ensures r == r'
  {
    hide Matches;
  }

  /**
   * The slots of successive loop turns: each turn reads the clock no earlier than the slot the
   * previous turn waited for, so the slots strictly increase and none is taken twice.
   */
  lemma {:induction false} SlotsIncrease(s: Schedule, nows: seq<int>, slots: seq<int>, i: int, j: int)
    requires |nows| == |slots|
    requires forall k :: 0 <= k < |slots| ==> IsNext(s, nows[k], slots[k])
    requires forall k :: 0 < k < |slots| ==> slots[k - 1] <= nows[k]
    requires 0 <= i < j < |slots|
    ensures slots[i] < slots[j]
    decreases j
  {
    hide Matches;
    assert slots[j - 1] <= nows[j] < slots[j];
    if i < j - 1 {
      SlotsIncrease(s, nows, slots, i, j - 1);
    }
  }

  // ---------- when the horizon suffices ----------

  /** Some matching minute lies within the horizon. */
  ghost predicate Found(s: Schedule, after: int) {
    exists t :: WholeMinute(t) && after < t < HorizonEnd(after) && Matches(s, t)
  }

  /** Next returns a match before the end of its horizon exactly when there is one. */
  lemma NextFindsIff(s: Schedule, after: int, r: int)
    requires IsNext(s, after, r)
    ensures r < HorizonEnd(after) <==> Found(s, after)
    ensures Found(s, after) ==> Matches(s, r)
  {
    hide Matches;
    if Found(s, after) {
      var t :| WholeMinute(t) && after < t < HorizonEnd(after) && Matches(s, t);
      assert r <= t;
    }
  }

  function SlotOf(n: int, h: int, m: int): int {
    n * DAY + h * HOUR + m * MINUTE
  }

  lemma SlotFields(n: int, h: int, m: int)
    requires 0 <= h < 24 && 0 <= m < 60
    ensures var t := SlotOf(n, h, m);
      WholeMinute(t) && DayIndex(t) == n && HourOf(t) == h && MinuteOf(t) == m
  {
    var t := SlotOf(n, h, m);
    DayParts(n, h * HOUR + m * MINUTE);
    HourParts(h, m * MINUTE);
    HourParts(24 * n + h, m * MINUTE);
    MinuteParts(m, 0);
    MinuteParts(1440 * n + 60 * h + m, 0);
    assert t == n * DAY + (h * HOUR + m * MINUTE);
    assert t == (24 * n + h) * HOUR + m * MINUTE;
    assert t == (1440 * n + 60 * h + m) * MINUTE;
  }

  /** Every whole minute is a slot of its day. */
  lemma FieldsOfSlot(t: int)
    requires WholeMinute(t)
    ensures t == SlotOf(DayIndex(t), HourOf(t), MinuteOf(t))
    ensures 0 <= HourOf(t) < 24 && 0 <= MinuteOf(t) < 60
  {
    var k := t / MINUTE;
    var h, m := k / 60 % 24, k % 60;
    var n := k / 60 / 24;
    assert k == 1440 * n + 60 * h + m by {
      assert k == k / 60 * 60 + m;
      assert k / 60 == n * 24 + h;
    }
    SlotFields(n, h, m);
  }

  /** Some allowed time of day satisfies `from <= time < to`, counted in nanoseconds since midnight. */
  ghost predicate TimeOfDayIn(s: Schedule, from: int, to: int) {
    exists h, m :: h in s.hour && m in s.minute && 0 <= h < 24 && 0 <= m < 60 && from <= h * HOUR + m * MINUTE < to
  }

  /** Day n has an allowed time of day inside the window: it opens and closes at the same time of day. */
  ghost predicate SlotInWindow(s: Schedule, after: int, n: int) {
    var d, c := DayIndex(First(after)), First(after) % DAY;
    && d <= n <= d + HORIZON_DAYS
    && TimeOfDayIn(s, if n == d then c else 0, if n == d + HORIZON_DAYS then c else DAY)
  }

  /** The search over 2,635,200 minutes reduced to at most 1831 days. */
  lemma FoundByDays(s: Schedule, after: int)
    ensures Found(s, after) <==> exists n :: DayAllowed(s, n) && SlotInWindow(s, after, n)
  {
    hide Found, DayAllowed, SlotInWindow;
    if Found(s, after) {
      var n := DayOfFoundSlot(s, after);
    }
    forall n | DayAllowed(s, n) && SlotInWindow(s, after, n)
      ensures Found(s, after)
    {
      SlotOfDay(s, after, n);
    }
  }

  lemma DayOfFoundSlot(s: Schedule, after: int) returns (n: int)
    requires Found(s, after)
    ensures DayAllowed(s, n) && SlotInWindow(s, after, n)
  {
    hide DayAllowed, First;
    var d, c := DayIndex(First(after)), First(after) % DAY;
    var t :| WholeMinute(t) && after < t < HorizonEnd(after) && Matches(s, t);
    FirstCandidate(after);
    FieldsOfSlot(t);
    n := DayIndex(t);
    var h, m := HourOf(t), MinuteOf(t);
    hide WholeMinute, Matches, HourOf, MinuteOf;
    assert First(after) == d * DAY + c;
    DayWindow(d, c, n, h * HOUR + m * MINUTE);
  }

  lemma SlotOfDay(s: Schedule, after: int, n: int)
    requires DayAllowed(s, n) && SlotInWindow(s, after, n)
    ensures Found(s, after)
  {
    hide DayAllowed, First;
    var d, c := DayIndex(First(after)), First(after) % DAY;
    var from, to := if n == d then c else 0, if n == d + HORIZON_DAYS then c else DAY;
    var h, m :| h in s.hour && m in s.minute && 0 <= h < 24 && 0 <= m < 60 && from <= h * HOUR + m * MINUTE < to;
    SlotFields(n, h, m);
    var t := SlotOf(n, h, m);
    assert Matches(s, t);
    FirstCandidate(after);
    assert First(after) == d * DAY + c;
    hide WholeMinute, Matches, DayIndex, HourOf, MinuteOf;
    assert after < t < HorizonEnd(after);
  }

  lemma DayWindow(d: int, c: int, n: int, time: int)
    requires 0 <= c < DAY && 0 <= time < DAY
    requires d * DAY + c <= n * DAY + time < d * DAY + c + HORIZON_DAYS * DAY
    ensures d <= n <= d + HORIZON_DAYS && (n == d ==> c <= time) && (n == d + HORIZON_DAYS ==> time < c)
  {
  }

  /** A usable schedule is found if some allowed day falls strictly inside the window. */
  lemma FoundOnDay(s: Schedule, after: int, n: int)
    requires Usable(s) && DayAllowed(s, n)
    requires DayIndex(First(after)) < n < DayIndex(First(after)) + HORIZON_DAYS
    ensures Found(s, after)
  {
    hide DayAllowed, Found;
    var h :| h in s.hour && 0 <= h <= 23;
    var m :| m in s.minute && 0 <= m <= 59;
    assert 0 <= h * HOUR + m * MINUTE < DAY;
    assert TimeOfDayIn(s, 0, DAY);
    FoundByDays(s, after);
  }

  predicate AnyWeekday(s: Schedule) {
    forall w :: 0 <= w <= 6 ==> w in s.weekday
  }

  predicate AnyMonth(s: Schedule) {
    forall m :: 1 <= m <= 12 ==> m in s.month
  }

  /** Some allowed day and month exist together in every year. */
  predicate HasYearlyDate(s: Schedule) {
    exists m, d :: m in s.month && d in s.day && 1 <= m <= 12 && 1 <= d <= DaysInMonth(1, m)
  }

  predicate AllowsLeapDay(s: Schedule) {
    2 in s.month && 29 in s.day
  }

  lemma WeekdayRange(n: int)
    ensures 0 <= Weekday(n) <= 6
  {
  }

  lemma AllowedOn(s: Schedule, d: Date)
    requires Valid(d) && d.day in s.day && d.month in s.month
    requires Weekday(DayNumber(d.year, d.month, d.day)) in s.weekday
    ensures DayAllowed(s, DayNumber(d.year, d.month, d.day))
  {
    hide DayNumber, DateOf, Weekday;
    DayOfDate(d);
  }

  /** Where a date of year y + k falls, seen from a day n of year y. */
  lemma DaysAhead(n: int, year: int, month: int, day: int)
    requires 1 <= month <= 12 && 1 <= day <= DaysInMonth(year, month)
    requires YearOf(n) < year
    ensures n < DayNumber(year, month, day) < n + 366 * (year - YearOf(n)) + 366
  {
    var y := YearOf(n);
    YearOfBrackets(n);
    YearStartMonotone(y + 1, year);
    YearStartMonotone(y, year + 1);
    YearLength(year);
    MonthBounds(year, month);
    DateInsideYear(year, month, day);
  }

  lemma DateInsideYear(year: int, month: int, day: int)
    requires 1 <= month <= 12 && 1 <= day <= DaysInMonth(year, month)
    ensures YearStart(year) <= DayNumber(year, month, day) < YearStart(year + 1)
  {
    YearLength(year);
    hide YearStart;
    MonthBounds(year, month);
  }

  /** Weekday unrestricted: a date that exists every year is found from any starting time. */
  lemma YearlyDateFound(s: Schedule, after: int)
    requires Usable(s) && AnyWeekday(s) && HasYearlyDate(s)
    ensures Found(s, after)
  {
    hide Found, DayAllowed, DayNumber, YearOf, Weekday;
    var m, d :| m in s.month && d in s.day && 1 <= m <= 12 && 1 <= d <= DaysInMonth(1, m);
    var start := DayIndex(First(after));
    var year := YearOf(start) + 1;
    DaysAhead(start, year, m, d);
    WeekdayRange(DayNumber(year, m, d));
    AllowedOn(s, Date(year, m, d));
    FoundOnDay(s, after, DayNumber(year, m, d));
  }

  /** Month unrestricted: a day that every month has is found from any starting time, whatever the weekdays. */
  lemma MonthlyDayFound(s: Schedule, after: int)
    requires Usable(s) && AnyMonth(s) && exists d :: d in s.day && 1 <= d <= 28
    ensures Found(s, after)
  {
    hide Found, DayAllowed, DayNumber, YearOf, Weekday;
    var d :| d in s.day && 1 <= d <= 28;
    var w :| w in s.weekday && 0 <= w <= 6;
    var start := DayIndex(First(after));
    var year := YearOf(start) + 1;
    var m := MonthWithWeekday(year, d, w);
    DaysAhead(start, year, m, d);
    AllowedOn(s, Date(year, m, d));
    FoundOnDay(s, after, DayNumber(year, m, d));
  }

  /** The first days of a year's months fall on all seven weekdays. */
  lemma MonthWithWeekday(year: int, day: int, w: int) returns (m: int)
    requires 1 <= day <= 28 && 0 <= w <= 6
    ensures 1 <= m <= 12 && day <= DaysInMonth(year, m) && Weekday(DayNumber(year, m, day)) == w
  {
    var base := YearStart(year) + day + 5;
    var shift := (w - base) % 7;
    m := if Leap(year) then [1, 10, 5, 2, 3, 6, 9][shift] else [1, 5, 8, 2, 6, 9, 4][shift];
    MonthShift(year, m, shift);
    WeekdayShift(base, shift, MonthStart(year, m), w);
    assert DayNumber(year, m, day) + 6 == base + MonthStart(year, m);
  }

  lemma MonthShift(year: int, m: int, shift: int)
    requires 0 <= shift < 7
    requires m == if Leap(year) then [1, 10, 5, 2, 3, 6, 9][shift] else [1, 5, 8, 2, 6, 9, 4][shift]
    ensures 1 <= m <= 12 && MonthStart(year, m) % 7 == shift
  {
  }

  lemma WeekdayShift(base: int, shift: int, offset: int, w: int)
    requires 0 <= w <= 6 && shift == (w - base) % 7 && offset % 7 == shift
    ensures (base + offset) % 7 == w
  {
    var q, p := (w - base) / 7, offset / 7;
    assert w - base == 7 * q + shift && offset == 7 * p + shift;
    assert base + offset == w + 7 * (p - q);
  }

  /** A valid date whose day and month are allowed recurs every year unless it is 29 February. */
  lemma YearlyOrLeapDay(s: Schedule, n: int)
    requires DayAllowed(s, n) && !HasYearlyDate(s)
    ensures AllowsLeapDay(s) && DateOf(n) == Date(YearOf(n), 2, 29) && Leap(YearOf(n))
  {
    hide DateOf, DayNumber, YearOf, Weekday;
    var d := DateOf(n);
    assert d.month in s.month && d.day in s.day;
    assert d.day > DaysInMonth(1, d.month);
  }

  /** Only 29 February: found exactly when some leap day has an allowed time inside the window. */
  lemma LeapDayFoundIff(s: Schedule, after: int)
    requires Usable(s) && AnyWeekday(s) && !HasYearlyDate(s) && AllowsLeapDay(s)
    ensures Found(s, after) <==> exists y :: Leap(y) && SlotInWindow(s, after, DayNumber(y, 2, 29))
  {
    hide DayAllowed, Found, DayNumber, YearOf, Weekday, SlotInWindow, HasYearlyDate, Usable;
    FoundByDays(s, after);
    forall n | DayAllowed(s, n)
      ensures Leap(YearOf(n)) && n == DayNumber(YearOf(n), 2, 29)
    {
      YearlyOrLeapDay(s, n);
    }
    forall y | Leap(y)
      ensures DayAllowed(s, DayNumber(y, 2, 29))
    {
      WeekdayRange(DayNumber(y, 2, 29));
      AllowedOn(s, Date(y, 2, 29));
    }
  }

  /** Without a non-leap century among the next four years a leap day always lies in the window. */
  lemma LeapDayFound(s: Schedule, after: int)
    requires Usable(s) && AnyWeekday(s) && AllowsLeapDay(s)
    requires var y := YearOf(DayIndex(First(after)));
      forall c :: y < c <= y + 4 && c % 100 == 0 ==> c % 400 == 0
    ensures Found(s, after)
  {
    hide Found, DayAllowed, DayNumber, YearOf, Weekday;
    var start := DayIndex(First(after));
    var y := YearOf(start);
    var leap := y + 4 - y % 4;
    assert Leap(leap);
    DaysAhead(start, leap, 2, 29);
    LeapDayNear(start, leap);
    WeekdayRange(DayNumber(leap, 2, 29));
    AllowedOn(s, Date(leap, 2, 29));
    FoundOnDay(s, after, DayNumber(leap, 2, 29));
  }

  lemma LeapDayNear(n: int, leap: int)
    requires YearOf(n) < leap <= YearOf(n) + 4
    ensures DayNumber(leap, 2, 29) < n + HORIZON_DAYS
  {
    YearOfBrackets(n);
    YearStartMonotone(YearOf(n), leap);
    hide YearOf, YearStart;
  }

  /** Every stretch of days as long as the horizon, wherever it starts, has an allowed day. */
  ghost predicate NoGap(s: Schedule) {
    forall d: int :: AllowedWithin(s, d)
  }

  /** Some allowed day among the HORIZON_DAYS days from d on. */
  ghost predicate AllowedWithin(s: Schedule, d: int) {
    exists n :: d <= n < d + HORIZON_DAYS && DayAllowed(s, n)
  }

  /**
   * The horizon is long enough from every start exactly when the allowed days leave no gap as long as it.
   * The window of a start meets the first and the last day of its stretch only partly, but at complementary
   * times of day.
   */
  lemma HorizonAdequateIff(s: Schedule)
    requires Usable(s)
    ensures (forall after :: Found(s, after)) <==> NoGap(s)
  {
    hide Found, DayAllowed, Usable, AllowedWithin;
    if NoGap(s) {
      forall after
        ensures Found(s, after)
      {
        FoundWithoutGap(s, after);
      }
    }
    if forall after :: Found(s, after) {
      forall d
        ensures AllowedWithin(s, d)
      {
        assert Found(s, d * DAY - MINUTE);
        AllowedFromMidnight(s, d);
      }
    }
  }

  lemma FoundWithoutGap(s: Schedule, after: int)
    requires Usable(s) && NoGap(s)
    ensures Found(s, after)
  {
    hide Found, DayAllowed;
    var d, c := DayIndex(First(after)), First(after) % DAY;
    assert AllowedWithin(s, d) && AllowedWithin(s, d + 1);
    var n :| d <= n < d + HORIZON_DAYS && DayAllowed(s, n);
    var n' :| d + 1 <= n' < d + 1 + HORIZON_DAYS && DayAllowed(s, n');
    if n > d {
      FoundOnDay(s, after, n);
    } else if n' < d + HORIZON_DAYS {
      FoundOnDay(s, after, n');
    } else {
      EdgesCoverTheDay(s, c);
      FoundByDays(s, after);
      assert SlotInWindow(s, after, d) || SlotInWindow(s, after, d + HORIZON_DAYS);
    }
  }

  lemma EdgesCoverTheDay(s: Schedule, c: int)
    requires Usable(s)
    ensures TimeOfDayIn(s, c, DAY) || TimeOfDayIn(s, 0, c)
  {
    var h :| h in s.hour && 0 <= h <= 23;
    var m :| m in s.minute && 0 <= m <= 59;
    var time := h * HOUR + m * MINUTE;
    assert 0 <= time < DAY;
    assert if c <= time then c <= time < DAY else 0 <= time < c;
  }

  lemma AllowedFromMidnight(s: Schedule, d: int)
    requires Found(s, d * DAY - MINUTE)
    ensures AllowedWithin(s, d)
  {
    hide Found, DayAllowed, TimeOfDayIn;
    var after := d * DAY - MINUTE;
    FoundByDays(s, after);
    var n :| DayAllowed(s, n) && SlotInWindow(s, after, n);
    MidnightFirst(d);
    NoTimeOfDay(s);
  }

  lemma MidnightFirst(d: int)
    ensures First(d * DAY - MINUTE) == d * DAY
    ensures DayIndex(First(d * DAY - MINUTE)) == d && First(d * DAY - MINUTE) % DAY == 0
  {
    assert d * DAY - MINUTE == (d * 1440 - 1) * MINUTE;
    MinuteParts(d * 1440 - 1, 0);
    DayParts(d, 0);
  }

  /** Allowed days repeat every 400 years. */
  lemma AllowedDaysRepeat(s: Schedule, n: int)
    ensures DayAllowed(s, n + CYCLE) <==> DayAllowed(s, n)
  {
    hide DateOf, Weekday;
    CalendarRepeats(n);
  }

  lemma WithinRepeats(s: Schedule, d: int)
    ensures AllowedWithin(s, d + CYCLE) <==> AllowedWithin(s, d)
  {
    hide DayAllowed;
    if n :| d <= n < d + HORIZON_DAYS && DayAllowed(s, n) {
      AllowedDaysRepeat(s, n);
      assert DayAllowed(s, n + CYCLE);
    }
    if n :| d + CYCLE <= n < d + CYCLE + HORIZON_DAYS && DayAllowed(s, n) {
      AllowedDaysRepeat(s, n - CYCLE);
      assert DayAllowed(s, n - CYCLE);
    }
  }

  lemma {:induction false} WithinShifts(s: Schedule, d: int, k: nat)
    ensures AllowedWithin(s, d + k * CYCLE) <==> AllowedWithin(s, d)
    ensures AllowedWithin(s, d - k * CYCLE) <==> AllowedWithin(s, d)
  {
    hide AllowedWithin;
    if k > 0 {
      WithinShifts(s, d, k - 1);
      WithinRepeats(s, d + (k - 1) * CYCLE);
      WithinRepeats(s, d - k * CYCLE);
      assert d + (k - 1) * CYCLE + CYCLE == d + k * CYCLE;
      assert d - k * CYCLE + CYCLE == d - (k - 1) * CYCLE;
    }
  }

  /** So the starts of one 400-year cycle decide whether the horizon is long enough. */
  lemma OneCycleDecides(s: Schedule)
    requires Usable(s)
    ensures (forall after :: Found(s, after)) <==> forall d :: 0 <= d < CYCLE ==> AllowedWithin(s, d)
  {
    hide Found, Usable, AllowedWithin;
    HorizonAdequateIff(s);
    if forall d :: 0 <= d < CYCLE ==> AllowedWithin(s, d) {
      forall d: int
        ensures AllowedWithin(s, d)
      {
        var k, r := d / CYCLE, d % CYCLE;
        assert d == r + k * CYCLE && 0 <= r < CYCLE;
        if k >= 0 {
          WithinShifts(s, r, k);
        } else {
          WithinShifts(s, r, -k);
          assert r - (-k) * CYCLE == d;
        }
      }
    }
  }

  /** With the weekday unrestricted the allowed days leave no gap exactly when some date exists in every year. */
  lemma NoGapOfDates(s: Schedule)
    requires Usable(s) && AnyWeekday(s)
    ensures NoGap(s) <==> HasYearlyDate(s)
    ensures (forall after :: Found(s, after)) <==> HasYearlyDate(s)
  {
    hide Found, HasYearlyDate, Usable, NoGap;
    HorizonAdequateIff(s);
    if HasYearlyDate(s) {
      forall after
        ensures Found(s, after)
      {
        YearlyDateFound(s, after);
      }
    } else {
      NothingAfterLeapDay1896(s);
    }
  }

  const LEAP_DAY_1896 := DayNumber(1896, 2, 29)

  /** From the end of 29 February 1896 the next leap day is eight years away: 1900 was not a leap year. */
  lemma NothingAfterLeapDay1896(s: Schedule)
    requires !HasYearlyDate(s)
    ensures !Found(s, (LEAP_DAY_1896 + 1) * DAY - 1)
  {
    hide DayAllowed, Found, TimeOfDayIn, HasYearlyDate, DateOf, YearOf;
    var after := (LEAP_DAY_1896 + 1) * DAY - 1;
    assert First(after) == (LEAP_DAY_1896 + 1) * DAY;
    var d := DayIndex(First(after));
    assert d == LEAP_DAY_1896 + 1 && First(after) % DAY == 0;
    FoundByDays(s, after);
    assert !TimeOfDayIn(s, 0, 0) by {
      NoTimeOfDay(s);
    }
    forall n | d <= n < d + HORIZON_DAYS
      ensures !DayAllowed(s, n)
    {
      if DayAllowed(s, n) {
        YearlyOrLeapDay(s, n);
        LeapDaysAround1900(YearOf(n));
      }
    }
  }

  lemma NoTimeOfDay(s: Schedule)
    ensures !TimeOfDayIn(s, 0, 0)
  {
  }

  lemma LeapDaysAround1900(y: int)
    requires Leap(y)
    ensures DayNumber(y, 2, 29) <= LEAP_DAY_1896 || DayNumber(y, 2, 29) > LEAP_DAY_1896 + HORIZON_DAYS
  {
    if y <= 1896 {
      YearStartMonotone(y, 1896);
    } else {
      assert y >= 1904;
      YearStartMonotone(1904, y);
      assert YearStart(1904) == YearStart(1896) + 2921;
    }
  }

  /**
   * Restricting the weekday of a yearly date defeats the horizon: 1 January fell on a Monday in 2018 and
   * not again before 2024, so after that Monday's slot "0 0 1 1 1" gives a time that does not match.
   */
  lemma NewYearMondayNotFound(r: int)
    requires IsNext(Schedule({0}, {0}, {1}, {1}, {1}), DayNumber(2018, 1, 1) * DAY, r)
    ensures r == HorizonEnd(DayNumber(2018, 1, 1) * DAY)
    ensures !Matches(Schedule({0}, {0}, {1}, {1}, {1}), r)
  {
    hide DayAllowed, Found, TimeOfDayIn, DateOf;
    var s, d := Schedule({0}, {0}, {1}, {1}, {1}), DayNumber(2018, 1, 1);
    var after := d * DAY;
    assert First(after) == d * DAY + MINUTE;
    assert DayIndex(First(after)) == d && First(after) % DAY == MINUTE;
    FoundByDays(s, after);
    NoLaterMidnight();
    forall n | d < n <= d + HORIZON_DAYS
      ensures !DayAllowed(s, n)
    {
      if DayAllowed(s, n) {
        NewYearMonday(n);
      }
    }
    NextFindsIff(s, after, r);
    assert DayIndex(r) == d + HORIZON_DAYS;
  }

  lemma NoLaterMidnight()
    ensures !TimeOfDayIn(Schedule({0}, {0}, {1}, {1}, {1}), MINUTE, DAY)
  {
  }

  lemma NewYearMonday(n: int)
    requires DayAllowed(Schedule({0}, {0}, {1}, {1}, {1}), n)
    ensures !(DayNumber(2018, 1, 1) < n <= DayNumber(2018, 1, 1) + HORIZON_DAYS)
  {
    hide YearStart, DayNumber, YearOf;
    var y := YearOf(n);
    assert DateOf(n) == Date(y, 1, 1);
    NewYearOutside(y);
  }

  lemma NewYearOutside(y: int)
    ensures var n := DayNumber(y, 1, 1);
      Weekday(n) == 1 ==> !(DayNumber(2018, 1, 1) < n <= DayNumber(2018, 1, 1) + HORIZON_DAYS)
  {
    NewYears();
    if y <= 2018 {
      YearStartMonotone(y, 2018);
    } else if y >= 2024 {
      YearStartMonotone(2024, y);
    }
    hide YearStart;
  }

  lemma NewYears()
    ensures YearStart(2018) == 737060 && YearStart(2019) == 737425 && YearStart(2020) == 737790
    ensures YearStart(2021) == 738156 && YearStart(2022) == 738521 && YearStart(2023) == 738886
    ensures YearStart(2024) == 739251
  {
  }

  // ---------- a slot that is found ----------

  /** The horizon in minutes. */
  lemma HorizonInMinutes(after: int)
    ensures HorizonEnd(after) == First(after) + 2_635_200 * 60 * 1_000_000_000
  {
  }

  /** A schedule of one weekday and one time of day. */
  predicate Weekly(s: Schedule, w: int, h: int, m: int) {
    && s.minute == {m} && s.hour == {h} && s.weekday == {w} && 0 <= w <= 6 && 0 <= h < 24 && 0 <= m < 60
    && (forall d :: 1 <= d <= 31 ==> d in s.day) && (forall d :: 1 <= d <= 12 ==> d in s.month)
  }

  lemma WeeklyDay(s: Schedule, w: int, h: int, m: int, n: int)
    requires Weekly(s, w, h, m)
    ensures DayAllowed(s, n) <==> Weekday(n) == w
  {
    hide DateOf, Weekday;
  }

  lemma {:induction false} WeekdayAfter(n: int, k: nat)
    ensures Weekday(n + k) == (Weekday(n) + k) % 7
  {
    hide Weekday;
    WeekdaysFollow(n);
    if k > 0 {
      WeekdayAfter(n, k - 1);
      WeekdaysFollow(n + (k - 1));
      NextMod(Weekday(n) + (k - 1));
    }
  }

  lemma NextMod(a: int)
    ensures (a % 7 + 1) % 7 == (a + 1) % 7
  {
  }

  /** Its next slot is at that time of day on that weekday, at most seven days ahead. */
  lemma WeeklySlot(s: Schedule, w: int, h: int, m: int, after: int, r: int)
    requires Weekly(s, w, h, m) && IsNext(s, after, r)
    ensures Weekday(DayIndex(r)) == w && HourOf(r) == h && MinuteOf(r) == m
    ensures after < r <= after + 7 * 24 * 3600 * 1_000_000_000
  {
    hide Weekday, DateOf, DayIndex, HourOf, MinuteOf, WholeMinute;
    var t := NextWeekly(w, h, m, after);
    WeeklyDay(s, w, h, m, DayIndex(t));
    assert Matches(s, t);
    assert t < HorizonEnd(after) by { FirstCandidate(after); }
    assert r <= t;
    WeeklyDay(s, w, h, m, DayIndex(r));
  }

  lemma NextWeekly(w: int, h: int, m: int, after: int) returns (t: int)
    requires 0 <= w <= 6 && 0 <= h < 24 && 0 <= m < 60
    ensures WholeMinute(t) && Weekday(DayIndex(t)) == w && HourOf(t) == h && MinuteOf(t) == m
    ensures after < t <= after + 7 * DAY
  {
    hide Weekday, HourOf, MinuteOf, WholeMinute, SlotOf;
    var d := DayIndex(after);
    assert d * DAY <= after < d * DAY + DAY;
    hide DayIndex;
    var k := DaysUntil(d, w);
    WithinWeek(d, k, h, m, after);
    t := if SlotOf(d + k, h, m) > after then SlotOf(d + k, h, m) else SlotOf(d + (k + 7), h, m);
    SlotFields(d + k, h, m);
    SlotFields(d + (k + 7), h, m);
  }

  lemma DaysUntil(d: int, w: int) returns (k: nat)
    requires 0 <= w <= 6
    ensures k <= 6 && Weekday(d + k) == w && Weekday(d + (k + 7)) == w
  {
    WeekdayRange(d);
    hide Weekday;
    k := DaysBetween(Weekday(d), w);
    WeekdayAfter(d, k);
    WeekdayAfter(d, k + 7);
  }

  lemma DaysBetween(from: int, to: int) returns (k: nat)
    requires 0 <= from <= 6 && 0 <= to <= 6
    ensures k <= 6 && (from + k) % 7 == to && (from + (k + 7)) % 7 == to
  {
    k := if from <= to then to - from else to - from + 7;
  }

  lemma WithinWeek(d: int, k: int, h: int, m: int, after: int)
    requires 0 <= k <= 6 && 0 <= h < 24 && 0 <= m < 60 && d * DAY <= after < d * DAY + DAY
    ensures SlotOf(d + k, h, m) > after ==> SlotOf(d + k, h, m) <= after + 7 * DAY
    ensures SlotOf(d + k, h, m) <= after ==> after < SlotOf(d + (k + 7), h, m) <= after + 7 * DAY
  {
  }

  /** From midnight on Monday, 1 January 2024, `0 3 * * 1` fires at 03:00 of the same day. */
  lemma MondayMorning(s: Schedule, r: int)
    requires ParsedExpression("0 3 * * 1") == Some(s) && IsNext(s, DayNumber(2024, 1, 1) * DAY, r)
    ensures r == DayNumber(2024, 1, 1) * DAY + 3 * 3600 * 1_000_000_000
  {
    hide ParsedExpression, Join, Decimal, DayNumber, IsNext, Weekday, Weekly;
    WeeklyExpression(0, 3, 1);
    SmallDecimals();
    FiveJoined("0", "3", "*", "*", "1");
    assert "0" + " " + "3" + " " + "*" + " " + "*" + " " + "1" == "0 3 * * 1";
    NewYearsDay2024();
    SameDay(s, DayNumber(2024, 1, 1), r);
  }

  lemma SmallDecimals()
    ensures Decimal(0) == "0" && Decimal(1) == "1" && Decimal(3) == "3"
  {
  }

  lemma FiveJoined(a: string, b: string, c: string, d: string, e: string)
    ensures Join([a, b, c, d, e], ' ') == a + " " + b + " " + c + " " + d + " " + e
  {
    assert Join([d, e], ' ') == d + " " + e by { JoinStep(d, [e]); }
    assert Join([c, d, e], ' ') == c + " " + d + " " + e by { JoinStep(c, [d, e]); }
    assert Join([b, c, d, e], ' ') == b + " " + c + " " + d + " " + e by { JoinStep(b, [c, d, e]); }
    JoinStep(a, [b, c, d, e]);
  }

  lemma JoinStep(word: string, words: seq<string>)
    requires words != []
    ensures Join([word] + words, ' ') == word + " " + Join(words, ' ')
  {
    assert ([word] + words)[1..] == words;
  }

  lemma StarAllowsAll(min: int, max: int)
    requires CronField.FieldRange(min, max)
    ensures CronField.Parsed("*", min, max).Some?
    ensures forall d :: min <= d <= max ==> d in CronField.Parsed("*", min, max).value
  {
    hide CronField.Parsed;
    CronField.StarMeaning(min, max, min);
    forall d | min <= d <= max
      ensures d in CronField.Parsed("*", min, max).value
    {
      CronField.StarMeaning(min, max, d);
    }
  }

  /** `m h * * w` is the schedule of weekday w at h:m. */
  lemma WeeklyExpression(m: nat, h: nat, w: nat)
    requires m < 60 && h < 24 && w <= 6
    ensures var r := ParsedExpression(Join([Decimal(m), Decimal(h), "*", "*", Decimal(w)], ' '));
      r.Some? && Weekly(r.value, w, h, m)
  {
    hide Decimal, Fields, Join, CronField.Parsed;
    DecimalIsWord(m);
    DecimalIsWord(h);
    DecimalIsWord(w);
    FieldsOfJoin([Decimal(m), Decimal(h), "*", "*", Decimal(w)]);
    CronField.NumberMeaning(m, 0, 59);
    CronField.NumberMeaning(h, 0, 23);
    CronField.NumberMeaning(w, 0, 6);
    StarAllowsAll(1, 31);
    StarAllowsAll(1, 12);
  }

  lemma SameDay(s: Schedule, n: int, r: int)
    requires Weekly(s, 1, 3, 0) && Weekday(n) == 1 && IsNext(s, n * DAY, r)
    ensures r == n * DAY + 3 * 3600 * 1_000_000_000
  {
    hide Weekday, DateOf, HourOf, MinuteOf, DayIndex, WholeMinute, DayAllowed, First;
    var t := SlotOf(n, 3, 0);
    SlotFields(n, 3, 0);
    WeeklyDay(s, 1, 3, 0, n);
    assert Matches(s, t);
    assert n * DAY < t;
    assert r <= t;
    WeeklySlot(s, 1, 3, 0, n * DAY, r);
    FieldsInside(n, r);
  }

  lemma NewYearsDay2024()
    ensures Weekday(DayNumber(2024, 1, 1)) == 1
  {
    hide Weekday;
    assert DayNumber(2018, 1, 1) == 737060 && DayNumber(2024, 1, 1) == 737060 + 2191;
    WeekdaysFollow(0);
    WeekdayAfter(737060, 2191);
  }

  lemma FieldsInside(n: int, r: int)
    requires n * DAY < r <= SlotOf(n, 3, 0) && WholeMinute(r) && HourOf(r) == 3 && MinuteOf(r) == 0
    ensures r == SlotOf(n, 3, 0)
  {
    FieldsOfSlot(r);
    hide HourOf, MinuteOf, WholeMinute, DayIndex;
  }
}
