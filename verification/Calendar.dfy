/**
 * Go's time.Time in UTC: an instant is a whole number of nanoseconds since 0000-01-01 00:00:00,
 * and days are counted in the proleptic Gregorian calendar.
 */
module Calendar {
  const SECOND := 1_000_000_000
  const MINUTE := 60 * SECOND
  const HOUR := 60 * MINUTE
  const DAY := 24 * HOUR

  datatype Date = Date(year: int, month: int, day: int)

  predicate Leap(year: int) {
    year % 4 == 0 && (year % 100 != 0 || year % 400 == 0)
  }

  function DaysInMonth(year: int, month: int): int
    requires 1 <= month <= 12
  {
    if month == 2 then (if Leap(year) then 29 else 28)
    else if month in {4, 6, 9, 11} then 30
    else 31
  }

  predicate Valid(d: Date) {
    1 <= d.month <= 12 && 1 <= d.day <= DaysInMonth(d.year, d.month)
  }

  /** Days from 0000-01-01 to January 1st of `year`. */
  function YearStart(year: int): int {
    365 * year + (year + 3) / 4 - (year + 99) / 100 + (year + 399) / 400
  }

  /** Days from January 1st to the first of `month`. */
  function MonthStart(year: int, month: int): int
    requires 1 <= month <= 12
  {
    [0, 31, 59, 90, 120, 151, 181, 212, 243, 273, 304, 334][month - 1]
    + (if month > 2 && Leap(year) then 1 else 0)
  }

  /** time.Date: `day` may lie outside the month and then carries over, as it does in Go. */
  function DayNumber(year: int, month: int, day: int): int
    requires 1 <= month <= 12
  {
    YearStart(year) + MonthStart(year, month) + day - 1
  }

  function YearOf(n: int): int {
    var guess := 400 * n / 146097;
    if YearStart(guess + 1) <= n then guess + 1
    else if n < YearStart(guess) then guess - 1
    else guess
  }

  function MonthOf(year: int, dayOfYear: int): (m: int)
    ensures 1 <= m <= 12
  {
    if dayOfYear < MonthStart(year, 2) then 1
    else if dayOfYear < MonthStart(year, 3) then 2
    else if dayOfYear < MonthStart(year, 4) then 3
    else if dayOfYear < MonthStart(year, 5) then 4
    else if dayOfYear < MonthStart(year, 6) then 5
    else if dayOfYear < MonthStart(year, 7) then 6
    else if dayOfYear < MonthStart(year, 8) then 7
    else if dayOfYear < MonthStart(year, 9) then 8
    else if dayOfYear < MonthStart(year, 10) then 9
    else if dayOfYear < MonthStart(year, 11) then 10
    else if dayOfYear < MonthStart(year, 12) then 11
    else 12
  }

  /** The calendar date of a day number: Go's (Time).Date. It is valid and has that number. */
  function DateOf(n: int): (d: Date)
    ensures Valid(d) && DayNumber(d.year, d.month, d.day) == n
    ensures d.year == YearOf(n)
  {
    YearOfBrackets(n);
    YearLength(YearOf(n));
    var year := YearOf(n);
    var dayOfYear := n - YearStart(year);
    var month := MonthOf(year, dayOfYear);
    Date(year, month, dayOfYear - MonthStart(year, month) + 1)
  }

  /** 0000-01-01 was a Saturday; Sunday is 0. */
  function Weekday(n: int): int {
    (n + 6) % 7
  }

  /** 1 January 2018 was a Monday, and weekdays follow each other: together this fixes the weekday of every day. */
  lemma WeekdaysFollow(n: int)
    ensures Weekday(DayNumber(2018, 1, 1)) == 1
    ensures 0 <= Weekday(n) <= 6 && Weekday(n + 1) == (Weekday(n) + 1) % 7
  {
    assert DayNumber(2018, 1, 1) == 737060;
  }

  /** The months of the Gregorian calendar: with the anchor above they fix the day number of every date. */
  lemma MonthsFollow(year: int, month: int)
    requires 1 <= month <= 12
    ensures var next := if month == 12 then DayNumber(year + 1, 1, 1) else DayNumber(year, month + 1, 1);
      next - DayNumber(year, month, 1) ==
        if month == 2 then (if Leap(year) then 29 else 28)
        else if month == 4 || month == 6 || month == 9 || month == 11 then 30 else 31
  {
    YearsFollow(year);
    hide YearStart, Leap;
  }

  lemma LeapYears(year: int)
    ensures Leap(year) <==> year % 400 == 0 || (year % 4 == 0 && year % 100 != 0)
  {
  }

  lemma YearsFollow(year: int)
    ensures DayNumber(year + 1, 1, 1) == DayNumber(year, 12, 1) + 31
  {
    YearLength(year);
  }

  // ---------- the two conversions are inverse ----------

  lemma Next4(year: int)
    ensures (year + 4) / 4 == (year + 3) / 4 + (if year % 4 == 0 then 1 else 0)
  {
  }

  lemma Next100(year: int)
    ensures (year + 100) / 100 == (year + 99) / 100 + (if year % 100 == 0 then 1 else 0)
  {
  }

  lemma Next400(year: int)
    ensures (year + 400) / 400 == (year + 399) / 400 + (if year % 400 == 0 then 1 else 0)
  {
  }

  lemma Divisible(year: int)
    ensures year % 100 == 0 ==> year % 4 == 0
    ensures year % 400 == 0 ==> year % 100 == 0
  {
  }

  lemma YearLength(year: int)
    ensures YearStart(year + 1) == YearStart(year) + (if Leap(year) then 366 else 365)
  {
    Next4(year);
    Next100(year);
    Next400(year);
    Divisible(year);
  }

  lemma {:induction false} YearStartMonotone(a: int, b: int)
    requires a <= b
    ensures YearStart(a) + 365 * (b - a) <= YearStart(b) <= YearStart(a) + 366 * (b - a)
    decreases b - a
  {
    if a < b {
      YearStartMonotone(a, b - 1);
      YearLength(b - 1);
    }
  }

  lemma YearOfBrackets(n: int)
    ensures YearStart(YearOf(n)) <= n < YearStart(YearOf(n) + 1)
  {
    var g := 400 * n / 146097;
    assert 146097 * g <= 400 * n < 146097 * g + 146097;
  }

  lemma YearOfUnique(n: int, year: int)
    requires YearStart(year) <= n < YearStart(year + 1)
    ensures YearOf(n) == year
  {
    YearOfBrackets(n);
    if YearOf(n) < year {
      YearStartMonotone(YearOf(n) + 1, year);
    } else if year < YearOf(n) {
      YearStartMonotone(year + 1, YearOf(n));
    }
  }

  lemma MonthBounds(year: int, month: int)
    requires 1 <= month <= 12
    ensures 0 <= MonthStart(year, month)
    ensures MonthStart(year, month) + DaysInMonth(year, month)
            == if month == 12 then (if Leap(year) then 366 else 365) else MonthStart(year, month + 1)
  {
  }

  /** Every valid date is the date of its own day number. */
  lemma DayOfDate(d: Date)
    requires Valid(d)
    ensures DateOf(DayNumber(d.year, d.month, d.day)) == d
  {
    hide YearStart, YearOf, MonthOf, MonthStart, DaysInMonth;
    DayInYear(d);
    YearOfUnique(DayNumber(d.year, d.month, d.day), d.year);
    MonthOfDay(d.year, d.month, d.day);
  }

  lemma DayInYear(d: Date)
    requires Valid(d)
    ensures YearStart(d.year) <= DayNumber(d.year, d.month, d.day) < YearStart(d.year + 1)
  {
    MonthBounds(d.year, d.month);
    YearLength(d.year);
    hide YearStart, MonthStart, DaysInMonth;
    MonthEndsInYear(d.year, d.month);
  }

  lemma MonthEndsInYear(year: int, month: int)
    requires 1 <= month <= 12
    ensures MonthStart(year, month) + DaysInMonth(year, month) <= if Leap(year) then 366 else 365
  {
  }

  lemma MonthOfDay(year: int, month: int, day: int)
    requires 1 <= month <= 12 && 1 <= day <= DaysInMonth(year, month)
    ensures MonthOf(year, MonthStart(year, month) + day - 1) == month
  {
  }

  /** The days of 400 years, a whole number of weeks. */
  const CYCLE := 146097

  /** The calendar repeats every 400 years, weekdays included. */
  lemma CalendarRepeats(n: int)
    ensures DateOf(n + CYCLE) == DateOf(n).(year := DateOf(n).year + 400)
    ensures Weekday(n + CYCLE) == Weekday(n)
  {
    hide DateOf, DayNumber, Valid, YearOf, Weekday;
    RepeatedDate(DateOf(n));
    DayOfDate(DateOf(n).(year := DateOf(n).year + 400));
    WeekdayRepeats(n);
  }

  lemma WeekdayRepeats(n: int)
    ensures Weekday(n + CYCLE) == Weekday(n)
  {
    assert n + CYCLE + 6 == n + 6 + 7 * 20871;
  }

  lemma RepeatedDate(d: Date)
    requires Valid(d)
    ensures var later := d.(year := d.year + 400);
      Valid(later) && DayNumber(later.year, later.month, later.day) == DayNumber(d.year, d.month, d.day) + CYCLE
  {
    hide YearStart, MonthStart, DaysInMonth;
    YearRepeats(d.year);
    SameMonths(d.year, d.month);
  }

  lemma YearRepeats(year: int)
    ensures Leap(year + 400) == Leap(year) && YearStart(year + 400) == YearStart(year) + CYCLE
  {
    By4(year);
    By4(year + 3);
    By100(year);
    By100(year + 99);
    By400(year);
    By400(year + 399);
  }

  lemma By4(a: int)
    ensures (a + 400) / 4 == a / 4 + 100 && (a + 400) % 4 == a % 4
  {
  }

  lemma By100(a: int)
    ensures (a + 400) / 100 == a / 100 + 4 && (a + 400) % 100 == a % 100
  {
  }

  lemma By400(a: int)
    ensures (a + 400) / 400 == a / 400 + 1 && (a + 400) % 400 == a % 400
  {
  }

  lemma SameMonths(year: int, month: int)
    requires 1 <= month <= 12
    ensures MonthStart(year + 400, month) == MonthStart(year, month)
    ensures DaysInMonth(year + 400, month) == DaysInMonth(year, month)
  {
    YearRepeats(year);
    hide Leap;
  }

  predicate DateBefore(a: Date, b: Date) {
    a.year < b.year || (a.year == b.year && (a.month < b.month || (a.month == b.month && a.day < b.day)))
  }

  lemma DayNumberOfEarlier(a: Date, b: Date)
    requires Valid(a) && Valid(b) && DateBefore(a, b)
    ensures DayNumber(a.year, a.month, a.day) < DayNumber(b.year, b.month, b.day)
  {
    MonthBounds(a.year, a.month);
    YearLength(a.year);
    if a.year < b.year {
      YearStartMonotone(a.year + 1, b.year);
    }
  }

  /** Calendar order of dates is the order of their day numbers. */
  lemma DateOrder(m: int, n: int)
    ensures m < n <==> DateBefore(DateOf(m), DateOf(n))
  {
    hide DateOf, DayNumber;
    if DateBefore(DateOf(m), DateOf(n)) {
      DayNumberOfEarlier(DateOf(m), DateOf(n));
    } else if DateBefore(DateOf(n), DateOf(m)) {
      DayNumberOfEarlier(DateOf(n), DateOf(m));
    }
  }

  // ---------- clock fields and (Time).AddDate(0, 0, days) ----------

  function DayIndex(t: int): int {
    t / DAY
  }

  function HourOf(t: int): int {
    t % DAY / HOUR
  }

  function MinuteOf(t: int): int {
    t % HOUR / MINUTE
  }

  lemma DayParts(n: int, rest: int)
    requires 0 <= rest < DAY
    ensures (n * DAY + rest) / DAY == n && (n * DAY + rest) % DAY == rest
  {
  }

  lemma HourParts(n: int, rest: int)
    requires 0 <= rest < HOUR
    ensures (n * HOUR + rest) / HOUR == n && (n * HOUR + rest) % HOUR == rest
  {
  }

  lemma MinuteParts(n: int, rest: int)
    requires 0 <= rest < MINUTE
    ensures (n * MINUTE + rest) / MINUTE == n && (n * MINUTE + rest) % MINUTE == rest
  {
  }

  lemma SecondParts(n: int, rest: int)
    requires 0 <= rest < SECOND
    ensures (n * SECOND + rest) / SECOND == n && (n * SECOND + rest) % SECOND == rest
  {
  }

  /** AddDate rebuilds the instant from its civil fields with the day of the month shifted. */
  function AddDate(t: int, days: int): int {
    var d := DateOf(DayIndex(t));
    DayNumber(d.year, d.month, d.day + days) * DAY + t % DAY
  }

  /** In UTC a shift by calendar days is a shift by that many 24-hour spans. */
  lemma AddDateIsShift(t: int, days: int)
    ensures AddDate(t, days) == t + days * DAY
  {
    hide DateOf, YearStart, MonthStart;
    assert t == DayIndex(t) * DAY + t % DAY;
  }
}
