/** Timestamps as the program stores them: "2006-01-02 15:04:05" text, compared by SQLite as text. */
module TimeText {
  import opened Wrappers
  import opened Text
  import opened Calendar

  // ---------- printing: (Time).Format and SQLite's datetime('now') ----------

  /** Go pads a number on the left with zeros; a wider number keeps all its digits. */
  function Pad(n: nat, width: nat): string {
    if width <= 1 then Decimal(n) else Pad(n / 10, width - 1) + [Digit(n % 10)]
  }

  function YearText(year: int): string {
    if year < 0 then "-" + Pad(-year, 4) else Pad(year, 4)
  }

  function DateText(d: Date): string
    requires Valid(d)
  {
    YearText(d.year) + "-" + (Pad(d.month, 2) + "-" + Pad(d.day, 2))
  }

  /** `s` is the number of seconds since midnight. */
  function ClockText(s: int): string
    requires 0 <= s < 86400
  {
    Pad(s / 3600, 2) + ":" + (Pad(s / 60 % 60, 2) + ":" + Pad(s % 60, 2))
  }

  function Format(t: int): string {
    Stamp(DateOfInstant(t), ClockOfInstant(t))
  }

  // ---------- parsing: parseSQLiteTime's first layout ----------

  predicate WellShaped(s: string) {
    && |s| == 19
    && s[4] == '-' && s[7] == '-' && s[10] == ' ' && s[13] == ':' && s[16] == ':'
    && AllDigits(s[..4]) && AllDigits(s[5..7]) && AllDigits(s[8..10])
    && AllDigits(s[11..13]) && AllDigits(s[14..16]) && AllDigits(s[17..])
  }

  function Parse(s: string): Option<int> {
    if !WellShaped(s) then None
    else
      var d := Date(Value(s[..4]), Value(s[5..7]), Value(s[8..10]));
      var hour, minute, second := Value(s[11..13]), Value(s[14..16]), Value(s[17..]);
      if Valid(d) && hour < 24 && minute < 60 && second < 60 then
        Some(DayNumber(d.year, d.month, d.day) * DAY + hour * HOUR + minute * MINUTE + second * SECOND)
      else None
  }

  function FloorSecond(t: int): int {
    t / SECOND * SECOND
  }

  /** The instants whose year has four digits. */
  predicate InRange(t: int) {
    0 <= t < YearStart(10000) * DAY
  }

  lemma YearsBetween(n: int, year: int)
    requires YearStart(year) <= n < YearStart(year + 1)
    ensures 0 <= n < YearStart(10000) <==> 0 <= year <= 9999
  {
    if year < 0 {
      YearStartMonotone(year + 1, 0);
    } else if year > 9999 {
      YearStartMonotone(10000, year);
    } else {
      YearStartMonotone(0, year);
      YearStartMonotone(year + 1, 10000);
    }
  }

  lemma DayInRange(n: int)
    ensures 0 <= n < YearStart(10000) <==> 0 <= YearOf(n) <= 9999
  {
    YearOfBrackets(n);
    YearsBetween(n, YearOf(n));
  }

  // ---------- padded numbers ----------

  function Power10(w: nat): nat {
    if w == 0 then 1 else 10 * Power10(w - 1)
  }

  lemma {:induction false} PadFacts(n: nat, w: nat)
    requires 1 <= w && n < Power10(w)
    ensures |Pad(n, w)| == w && AllDigits(Pad(n, w)) && Value(Pad(n, w)) == n
  {
    if w == 1 {
      assert Power10(1) == 10 * Power10(0);
      DecimalFacts(n);
    } else {
      PadFacts(n / 10, w - 1);
      assert Pad(n, w)[..w - 1] == Pad(n / 10, w - 1);
    }
  }

  lemma {:induction false} PadOfValue(s: string)
    requires s != "" && AllDigits(s)
    ensures Value(s) < Power10(|s|) && Pad(Value(s), |s|) == s
  {
    var front := s[..|s| - 1];
    assert s == front + [s[|s| - 1]];
    if front == "" {
      assert Value(front) == 0;
      assert Power10(1) == 10 * Power10(0);
      assert Pad(Value(s), 1) == [Digit(DigitValue(s[0]))];
    } else {
      PadOfValue(front);
    }
  }

  // ---------- text order ----------

  /** SQLite's `a < b` on TEXT. */
  predicate TextBefore(a: string, b: string) {
    b != "" && (a == "" || a[0] < b[0] || (a[0] == b[0] && TextBefore(a[1..], b[1..])))
  }

  lemma {:induction false} TextBeforeConcat(a: string, a': string, b: string, b': string)
    requires |a| == |b|
    ensures TextBefore(a + a', b + b') <==> TextBefore(a, b) || (a == b && TextBefore(a', b'))
  {
    if a == "" {
      assert a + a' == a' && b + b' == b';
    } else {
      assert (a + a')[1..] == a[1..] + a' && (b + b')[1..] == b[1..] + b';
      TextBeforeConcat(a[1..], a', b[1..], b');
      assert a == [a[0]] + a[1..] && b == [b[0]] + b[1..];
    }
  }

  lemma {:induction false} TextBeforeIrreflexive(a: string)
    ensures !TextBefore(a, a)
  {
    if a != "" {
      TextBeforeIrreflexive(a[1..]);
    }
  }

  /** Digit strings of one length compare as the numbers they denote. */
  lemma {:induction false} DigitOrder(a: string, b: string)
    requires |a| == |b| && AllDigits(a) && AllDigits(b)
    ensures TextBefore(a, b) <==> Value(a) < Value(b)
  {
    if a != "" {
      var n := |a| - 1;
      assert a == a[..n] + [a[n]] && b == b[..n] + [b[n]];
      DigitOrder(a[..n], b[..n]);
      TextBeforeConcat(a[..n], [a[n]], b[..n], [b[n]]);
      if Value(a[..n]) == Value(b[..n]) && n > 0 {
        PadOfValue(a[..n]);
        PadOfValue(b[..n]);
      }
    }
  }

  lemma PadOrder(m: nat, n: nat, w: nat)
    requires 1 <= w && m < Power10(w) && n < Power10(w)
    ensures TextBefore(Pad(m, w), Pad(n, w)) <==> m < n
    ensures Pad(m, w) == Pad(n, w) <==> m == n
  {
    PadFacts(m, w);
    PadFacts(n, w);
    DigitOrder(Pad(m, w), Pad(n, w));
  }

  lemma Powers()
    ensures Power10(2) == 100 && Power10(4) == 10000
  {
    assert Power10(1) == 10;
    assert Power10(3) == 1000;
  }

  /** Two printed groups with a separator between them compare left group first. */
  lemma GroupOrder(a: string, sep: string, a': string, b: string, b': string)
    requires |a| == |b|
    ensures TextBefore(a + sep + a', b + sep + b') <==> TextBefore(a, b) || (a == b && TextBefore(a', b'))
  {
    assert a + sep + a' == a + (sep + a') && b + sep + b' == b + (sep + b');
    TextBeforeConcat(a, sep + a', b, sep + b');
    TextBeforeConcat(sep, a', sep, b');
    TextBeforeIrreflexive(sep);
  }

  predicate FourDigitDate(d: Date) {
    Valid(d) && 0 <= d.year <= 9999
  }

  lemma DateTextOrder(a: Date, b: Date)
    requires FourDigitDate(a) && FourDigitDate(b)
    ensures |DateText(a)| == |DateText(b)| == 10
    ensures TextBefore(DateText(a), DateText(b)) <==> DateBefore(a, b)
    ensures DateText(a) == DateText(b) ==> a == b
  {
    Powers();
    PadFacts(a.year, 4);
    PadFacts(b.year, 4);
    PadFacts(a.month, 2);
    PadFacts(b.month, 2);
    PadFacts(a.day, 2);
    PadFacts(b.day, 2);
    PadOrder(a.year, b.year, 4);
    PadOrder(a.month, b.month, 2);
    PadOrder(a.day, b.day, 2);
    var aTail, bTail := Pad(a.month, 2) + "-" + Pad(a.day, 2), Pad(b.month, 2) + "-" + Pad(b.day, 2);
    GroupOrder(Pad(a.month, 2), "-", Pad(a.day, 2), Pad(b.month, 2), Pad(b.day, 2));
    GroupOrder(Pad(a.year, 4), "-", aTail, Pad(b.year, 4), bTail);
    if DateText(a) == DateText(b) {
      TextBeforeIrreflexive(DateText(a));
      assert !DateBefore(a, b) && !DateBefore(b, a) by {
        GroupOrder(Pad(b.month, 2), "-", Pad(b.day, 2), Pad(a.month, 2), Pad(a.day, 2));
        GroupOrder(Pad(b.year, 4), "-", bTail, Pad(a.year, 4), aTail);
        PadOrder(b.year, a.year, 4);
        PadOrder(b.month, a.month, 2);
        PadOrder(b.day, a.day, 2);
      }
    }
  }

  function HmsText(h: nat, m: nat, s: nat): string {
    Pad(h, 2) + ":" + (Pad(m, 2) + ":" + Pad(s, 2))
  }

  lemma HmsTextOrder(h: nat, m: nat, s: nat, h': nat, m': nat, s': nat)
    requires h < 100 && m < 100 && s < 100 && h' < 100 && m' < 100 && s' < 100
    ensures TextBefore(HmsText(h, m, s), HmsText(h', m', s'))
       <==> h < h' || (h == h' && (m < m' || (m == m' && s < s')))
  {
    Powers();
    PadFacts(h, 2);
    PadFacts(h', 2);
    PadFacts(m, 2);
    PadFacts(m', 2);
    PadOrder(h, h', 2);
    PadOrder(m, m', 2);
    PadOrder(s, s', 2);
    GroupOrder(Pad(m, 2), ":", Pad(s, 2), Pad(m', 2), Pad(s', 2));
    GroupOrder(Pad(h, 2), ":", Pad(m, 2) + ":" + Pad(s, 2), Pad(h', 2), Pad(m', 2) + ":" + Pad(s', 2));
  }

  lemma ClockParts(c: int)
    requires 0 <= c < 86400
    ensures c == c / 3600 * 3600 + c / 60 % 60 * 60 + c % 60
    ensures 0 <= c / 3600 < 24 && 0 <= c / 60 % 60 < 60
  {
    assert c / 3600 == c / 60 / 60;
  }

  lemma PartsOrder(h: int, m: int, s: int, h': int, m': int, s': int)
    requires 0 <= m < 60 && 0 <= s < 60 && 0 <= m' < 60 && 0 <= s' < 60
    ensures h * 3600 + m * 60 + s < h' * 3600 + m' * 60 + s'
       <==> h < h' || (h == h' && (m < m' || (m == m' && s < s')))
  {
  }

  lemma ClockTextOrder(a: int, b: int)
    requires 0 <= a < 86400 && 0 <= b < 86400
    ensures TextBefore(ClockText(a), ClockText(b)) <==> a < b
  {
    ClockParts(a);
    ClockParts(b);
    HmsTextOrder(a / 3600, a / 60 % 60, a % 60, b / 3600, b / 60 % 60, b % 60);
    PartsOrder(a / 3600, a / 60 % 60, a % 60, b / 3600, b / 60 % 60, b % 60);
  }

  /** A date and a time of day, in seconds, as one timestamp. */
  function Stamp(d: Date, c: int): string
    requires Valid(d) && 0 <= c < 86400
  {
    DateText(d) + " " + ClockText(c)
  }

  lemma StampOrder(a: Date, c: int, b: Date, e: int)
    requires FourDigitDate(a) && FourDigitDate(b) && 0 <= c < 86400 && 0 <= e < 86400
    ensures TextBefore(Stamp(a, c), Stamp(b, e)) <==> DateBefore(a, b) || (a == b && c < e)
  {
    DateTextOrder(a, b);
    ClockTextOrder(c, e);
    GroupOrder(DateText(a), " ", ClockText(c), DateText(b), ClockText(e));
  }

  function DateOfInstant(t: int): (d: Date)
    ensures Valid(d) && DayNumber(d.year, d.month, d.day) == DayIndex(t)
  {
    DateOf(DayIndex(t))
  }

  function ClockOfInstant(t: int): (c: int)
    ensures 0 <= c < 86400
    ensures FloorSecond(t) == DayIndex(t) * DAY + c * SECOND
  {
    assert t == DayIndex(t) * DAY + t % DAY;
    assert t / SECOND == DayIndex(t) * 86400 + t % DAY / SECOND;
    t % DAY / SECOND
  }

  lemma DateOrderOfInstants(t: int, u: int)
    ensures DayIndex(t) < DayIndex(u) <==> DateBefore(DateOfInstant(t), DateOfInstant(u))
    ensures DateOfInstant(t) == DateOfInstant(u) <==> DayIndex(t) == DayIndex(u)
  {
    hide DateOf, DayNumber;
    DateOrder(DayIndex(t), DayIndex(u));
  }

  lemma FourDigits(t: int)
    ensures InRange(t) <==> FourDigitDate(DateOfInstant(t))
  {
    hide DateOf, DayNumber, YearStart, YearOf;
    DayInRange(DayIndex(t));
  }

  /** Comparing stored timestamps as text is comparing the instants, floored to the second. */
  lemma FormatOrder(t: int, u: int)
    requires InRange(t) && InRange(u)
    ensures TextBefore(Format(t), Format(u)) <==> FloorSecond(t) < FloorSecond(u)
  {
    hide DateOfInstant, ClockOfInstant, Stamp, InRange;
    FourDigits(t);
    FourDigits(u);
    StampOrder(DateOfInstant(t), ClockOfInstant(t), DateOfInstant(u), ClockOfInstant(u));
    DateOrderOfInstants(t, u);
  }

  /** Parsing undoes printing, up to the fraction of a second that printing drops. */
  lemma ParseOfFormat(t: int)
    requires InRange(t)
    ensures Parse(Format(t)) == Some(FloorSecond(t))
  {
    hide DateOfInstant, ClockOfInstant, Stamp, DayNumber, InRange, Parse;
    FourDigits(t);
    StampShape(DateOfInstant(t), ClockOfInstant(t));
  }

  lemma StampShape(d: Date, c: int)
    requires FourDigitDate(d) && 0 <= c < 86400
    ensures Parse(Stamp(d, c)) == Some(DayNumber(d.year, d.month, d.day) * DAY + c * SECOND)
  {
    hide Stamp, Pad, Value, DayNumber, DaysInMonth, WellShaped;
    StampPieces(d, c);
    ClockParts(c);
    ParsedClock(c / 3600, c / 60 % 60, c % 60);
  }

  lemma StampPieces(d: Date, c: int)
    requires FourDigitDate(d) && 0 <= c < 86400
    ensures var s := Stamp(d, c);
      && WellShaped(s)
      && Value(s[..4]) == d.year && Value(s[5..7]) == d.month && Value(s[8..10]) == d.day
      && Value(s[11..13]) == c / 3600 && Value(s[14..16]) == c / 60 % 60 && Value(s[17..]) == c % 60
  {
    ClockParts(c);
    hide Pad, Value, Decimal, DaysInMonth, Power10;
    Powers();
    PadFacts(d.year, 4);
    PadFacts(d.month, 2);
    PadFacts(d.day, 2);
    var h, i, e := c / 3600, c / 60 % 60, c % 60;
    PadFacts(h, 2);
    PadFacts(i, 2);
    PadFacts(e, 2);
    PiecesOf(Pad(d.year, 4), Pad(d.month, 2), Pad(d.day, 2), Pad(h, 2), Pad(i, 2), Pad(e, 2));
  }

  lemma PiecesOf(y: string, m: string, d: string, h: string, i: string, s: string)
    requires |y| == 4 && |m| == |d| == |h| == |i| == |s| == 2
    ensures var t := y + "-" + (m + "-" + d) + " " + (h + ":" + (i + ":" + s));
      && |t| == 19 && t[4] == '-' && t[7] == '-' && t[10] == ' ' && t[13] == ':' && t[16] == ':'
      && t[..4] == y && t[5..7] == m && t[8..10] == d && t[11..13] == h && t[14..16] == i && t[17..] == s
  {
  }

  lemma PiecesJoin(t: string)
    requires |t| == 19 && t[4] == '-' && t[7] == '-' && t[10] == ' ' && t[13] == ':' && t[16] == ':'
    ensures t == t[..4] + "-" + (t[5..7] + "-" + t[8..10]) + " " + (t[11..13] + ":" + (t[14..16] + ":" + t[17..]))
  {
  }

  /** Every text the parser accepts is the text of the instant it denotes. */
  lemma FormatOfParse(s: string)
    requires Parse(s).Some?
    ensures InRange(Parse(s).value) && Format(Parse(s).value) == s
  {
    hide Value, Stamp, DayNumber, DaysInMonth, DateOfInstant, ClockOfInstant, InRange, AllDigits;
    var d := Date(Value(s[..4]), Value(s[5..7]), Value(s[8..10]));
    var hour, minute, second := Value(s[11..13]), Value(s[14..16]), Value(s[17..]);
    var c := hour * 3600 + minute * 60 + second;
    ParsedClock(hour, minute, second);
    StampOfPieces(s, d, c);
    InstantOf(d, c);
  }

  lemma StampOfPieces(s: string, d: Date, c: int)
    requires WellShaped(s) && Valid(d) && 0 <= c < 86400
    requires d == Date(Value(s[..4]), Value(s[5..7]), Value(s[8..10]))
    requires c / 3600 == Value(s[11..13]) && c / 60 % 60 == Value(s[14..16]) && c % 60 == Value(s[17..])
    ensures FourDigitDate(d) && Stamp(d, c) == s
  {
    hide Value, Pad, DaysInMonth, Power10;
    Powers();
    PadOfValue(s[..4]);
    PadOfValue(s[5..7]);
    PadOfValue(s[8..10]);
    PadOfValue(s[11..13]);
    PadOfValue(s[14..16]);
    PadOfValue(s[17..]);
    PiecesJoin(s);
  }

  lemma ParsedClock(h: nat, m: nat, s: nat)
    requires h < 24 && m < 60 && s < 60
    ensures var c := h * 3600 + m * 60 + s;
      0 <= c < 86400 && c / 3600 == h && c / 60 % 60 == m && c % 60 == s
      && h * HOUR + m * MINUTE + s * SECOND == c * SECOND
  {
    var c := h * 3600 + m * 60 + s;
    assert c / 60 == h * 60 + m;
  }

  lemma InstantOf(d: Date, c: int)
    requires FourDigitDate(d) && 0 <= c < 86400
    ensures var t := DayNumber(d.year, d.month, d.day) * DAY + c * SECOND;
      DateOfInstant(t) == d && ClockOfInstant(t) == c && InRange(t)
  {
    hide DateOf, DayNumber, YearStart;
    var n := DayNumber(d.year, d.month, d.day);
    SplitInstant(n, c);
    DayOfDate(d);
    FourDigits(n * DAY + c * SECOND);
  }

  lemma SplitInstant(n: int, c: int)
    requires 0 <= c < 86400
    ensures DayIndex(n * DAY + c * SECOND) == n
    ensures ClockOfInstant(n * DAY + c * SECOND) == c
  {
    assert (n * DAY + c * SECOND) % DAY == c * SECOND;
  }

  /** Outside four-digit years text order breaks: year 10000 sorts before year 9999. */
  lemma FiveDigitYearsBreakOrder()
    ensures var t, u := (YearStart(10000) - 1) * DAY, YearStart(10000) * DAY;
      t < u && InRange(t) && !InRange(u) && TextBefore(Format(u), Format(t))
  {
    hide DateOf, DayNumber, YearStart, MonthStart, Pad;
    var before, after := Date(9999, 12, 31), Date(10000, 1, 1);
    LastFourDigitDay();
    var m, n := YearStart(10000) - 1, YearStart(10000);
    SplitInstant(m, 0);
    SplitInstant(n, 0);
    FourDigits(m * DAY);
    FourDigits(n * DAY);
    DayOfDate(before);
    DayOfDate(after);
    PadOf9999();
    assert Format(n * DAY)[0] == '1' && Format(m * DAY)[0] == '9';
  }

  /** On the instants from 0 up to `bound`, text order is the order of whole seconds. */
  ghost predicate TextIsChronological(bound: int) {
    forall t, u :: 0 <= t < bound && 0 <= u < bound ==>
      (TextBefore(Format(t), Format(u)) <==> FloorSecond(t) < FloorSecond(u))
  }

  /** The year 10000 is exactly where that ends. */
  lemma ChronologicalIff(bound: int)
    ensures TextIsChronological(bound) <==> bound <= YearStart(10000) * DAY
  {
    hide Format, YearStart, TextBefore;
    if bound <= YearStart(10000) * DAY {
      forall t, u | 0 <= t < bound && 0 <= u < bound
        ensures TextBefore(Format(t), Format(u)) <==> FloorSecond(t) < FloorSecond(u)
      {
        FormatOrder(t, u);
      }
    } else {
      var t, u := (YearStart(10000) - 1) * DAY, YearStart(10000) * DAY;
      FiveDigitYearsBreakOrder();
      WholeDays(YearStart(10000) - 1);
      WholeDays(YearStart(10000));
      assert !(FloorSecond(u) < FloorSecond(t));
    }
  }

  lemma WholeDays(n: int)
    ensures FloorSecond(n * DAY) == n * DAY
  {
    assert n * DAY == n * 86400 * SECOND;
  }

  lemma LastFourDigitDay()
    ensures DayNumber(9999, 12, 31) == YearStart(10000) - 1 && DayNumber(10000, 1, 1) == YearStart(10000)
  {
  }

  lemma PadOf9999()
    ensures Pad(9999, 4) == "9999" && Pad(10000, 4) == "10000"
  {
    assert Pad(10, 1) == "10";
    assert Pad(100, 2) == "100";
    assert Pad(1000, 3) == "1000";
    assert Pad(9, 1) == "9";
    assert Pad(99, 2) == "99";
    assert Pad(999, 3) == "999";
  }

  /** The text of an instant, character by character: YYYY-MM-DD hh:mm:ss. */
  lemma FormatShows(t: int)
    requires InRange(t)
    ensures var s, d, second := Format(t), DateOfInstant(t), t / SECOND % 60;
      && |s| == 19 && s[4] == '-' && s[7] == '-' && s[10] == ' ' && s[13] == ':' && s[16] == ':'
      && (forall i :: 0 <= i < 19 && i !in {4, 7, 10, 13, 16} ==> IsDigit(s[i]))
      && Value(s[..4]) == d.year && Value(s[5..7]) == d.month && Value(s[8..10]) == d.day
      && Value(s[11..13]) == HourOf(t) && Value(s[14..16]) == MinuteOf(t) && Value(s[17..]) == second
  {
    hide Value, Stamp, DateOfInstant, DayIndex;
    var c := ClockOfInstant(t);
    FourDigits(t);
    StampPieces(DateOfInstant(t), c);
    ClockFields(t, c);
    DigitsShown(Format(t));
  }

  lemma ClockFields(t: int, c: int)
    requires 0 <= c < 86400 && FloorSecond(t) == DayIndex(t) * DAY + c * SECOND
    ensures c / 3600 == HourOf(t) && c / 60 % 60 == MinuteOf(t) && c % 60 == t / SECOND % 60
  {
    ClockParts(c);
    var n, rest := DayIndex(t), t - FloorSecond(t);
    assert 0 <= rest < SECOND;
    hide DayIndex, FloorSecond, HourOf, MinuteOf;
    ClockOf(n, c / 3600, c / 60 % 60, c % 60, rest);
  }

  lemma ClockOf(n: int, h: int, m: int, s: int, rest: int)
    requires 0 <= h < 24 && 0 <= m < 60 && 0 <= s < 60 && 0 <= rest < SECOND
    ensures var t := n * DAY + (h * 3600 + m * 60 + s) * SECOND + rest;
      HourOf(t) == h && MinuteOf(t) == m && t / SECOND % 60 == s
  {
    var t := n * DAY + (h * 3600 + m * 60 + s) * SECOND + rest;
    hide HourOf, MinuteOf;
    HourOfParts(n, h, m * MINUTE + s * SECOND + rest);
    assert t == n * DAY + h * HOUR + (m * MINUTE + s * SECOND + rest);
    MinuteOfParts(24 * n + h, m, s * SECOND + rest);
    assert t == (24 * n + h) * HOUR + m * MINUTE + (s * SECOND + rest);
    SecondOfParts(1440 * n + 60 * h + m, s, rest);
    assert t == ((1440 * n + 60 * h + m) * 60 + s) * SECOND + rest;
  }

  lemma SecondOfParts(n: int, s: int, rest: int)
    requires 0 <= s < 60 && 0 <= rest < SECOND
    ensures ((n * 60 + s) * SECOND + rest) / SECOND % 60 == s
  {
    SecondParts(n * 60 + s, rest);
  }

  lemma HourOfParts(n: int, h: int, rest: int)
    requires 0 <= h < 24 && 0 <= rest < HOUR
    ensures HourOf(n * DAY + h * HOUR + rest) == h
  {
    DayParts(n, h * HOUR + rest);
    HourParts(h, rest);
  }

  lemma MinuteOfParts(n: int, m: int, rest: int)
    requires 0 <= m < 60 && 0 <= rest < MINUTE
    ensures MinuteOf(n * HOUR + m * MINUTE + rest) == m
  {
    HourParts(n, m * MINUTE + rest);
    MinuteParts(m, rest);
  }

  lemma DigitsShown(s: string)
    requires WellShaped(s)
    ensures |s| == 19 && s[4] == '-' && s[7] == '-' && s[10] == ' ' && s[13] == ':' && s[16] == ':'
    ensures forall i :: 0 <= i < 19 && i !in {4, 7, 10, 13, 16} ==> IsDigit(s[i])
  {
  }
}
