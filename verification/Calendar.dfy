/**
 The proleptic Gregorian calendar that naive UTC datetimes follow.

 A date is reached in two independent ways: by walking one day at a time from
 0001-01-01 (`DateOf`) and by a closed formula (`DayNumber`).  The round-trip
 lemmas show that the two agree, so either may be used as the definition.
 */
module Calendar {

  datatype Date = Date(year: int, month: int, day: int)

  const DAY := 86400

  predicate IsLeap(year: int) {
    year % 400 == 0 || (year % 4 == 0 && year % 100 != 0)
  }

  /** The length of a month, given whether its year is a leap year. */
  function MonthLength(leap: bool, month: int): (days: int)
    ensures 28 <= days <= 31
  {
    if month == 2 then (if leap then 29 else 28)
    else if month == 4 || month == 6 || month == 9 || month == 11 then 30
    else 31
  }

  function DaysInMonth(year: int, month: int): int {
    MonthLength(IsLeap(year), month)
  }

  predicate ValidDate(d: Date) {
    1 <= d.year && 1 <= d.month <= 12 && 1 <= d.day <= DaysInMonth(d.year, d.month)
  }

  function NextDate(d: Date): Date {
    if d.day < DaysInMonth(d.year, d.month) then Date(d.year, d.month, d.day + 1)
    else if d.month < 12 then Date(d.year, d.month + 1, 1)
    else Date(d.year + 1, 1, 1)
  }

  /** The date `n` days after 0001-01-01, by walking. */
  function DateOf(n: nat): (d: Date)
    ensures ValidDate(d)
  {
    if n == 0 then Date(1, 1, 1) else NextDate(DateOf(n - 1))
  }

  function DaysBeforeYear(year: int): int {
    365 * (year - 1) + (year - 1) / 4 - (year - 1) / 100 + (year - 1) / 400
  }

  function DaysBeforeMonth(year: int, month: int): int {
    if month <= 1 then 0
    else if month == 2 then 31
    else (if IsLeap(year) then 1 else 0) + (
           if month == 3 then 59 else if month == 4 then 90 else if month == 5 then 120
           else if month == 6 then 151 else if month == 7 then 181 else if month == 8 then 212
           else if month == 9 then 243 else if month == 10 then 273 else if month == 11 then 304
           else 334)
  }

  /** The number of days from 0001-01-01 to `d`, by formula. */
  function DayNumber(d: Date): int {
    DaysBeforeYear(d.year) + DaysBeforeMonth(d.year, d.month) + d.day - 1
  }

  /** Calendar order of dates. */
  predicate Earlier(a: Date, b: Date) {
    a.year < b.year
    || (a.year == b.year && (a.month < b.month || (a.month == b.month && a.day < b.day)))
  }

  lemma YearLength(year: int)
    ensures DaysBeforeYear(year + 1) == DaysBeforeYear(year) + (if IsLeap(year) then 366 else 365)
  {
    var p := year - 1;
    assert (p + 1) / 4 == p / 4 + (if year % 4 == 0 then 1 else 0);
    assert (p + 1) / 100 == p / 100 + (if year % 100 == 0 then 1 else 0);
    assert (p + 1) / 400 == p / 400 + (if year % 400 == 0 then 1 else 0);
  }

  lemma NextDateNumber(d: Date)
    requires ValidDate(d)
    ensures ValidDate(NextDate(d)) && DayNumber(NextDate(d)) == DayNumber(d) + 1
  {
    YearLength(d.year);
  }

  /** The formula undoes the walk. */
  lemma {:induction false} DateOfRoundTrip(n: nat)
    ensures DayNumber(DateOf(n)) == n
  {
    if n > 0 {
      DateOfRoundTrip(n - 1);
      NextDateNumber(DateOf(n - 1));
    }
  }

  lemma {:induction false} YearsGrow(a: int, b: int)
    requires a <= b
    ensures DaysBeforeYear(a) <= DaysBeforeYear(b)
    decreases b - a
  {
    if a < b {
      YearsGrow(a, b - 1);
      YearLength(b - 1);
    }
  }

  /** Day numbers follow calendar order. */
  lemma DayNumberMonotone(a: Date, b: Date)
    requires ValidDate(a) && ValidDate(b) && Earlier(a, b)
    ensures DayNumber(a) < DayNumber(b)
  {
    if a.year < b.year {
      YearLength(a.year);
      YearsGrow(a.year + 1, b.year);
    }
  }

  /** The walk undoes the formula. */
  lemma DayNumberRoundTrip(d: Date)
    requires ValidDate(d)
    ensures 0 <= DayNumber(d) && DateOf(DayNumber(d)) == d
  {
    YearsGrow(1, d.year);
    var e := DateOf(DayNumber(d));
    DateOfRoundTrip(DayNumber(d));
    if Earlier(d, e) { DayNumberMonotone(d, e); }
    if Earlier(e, d) { DayNumberMonotone(e, d); }
  }

  /** Calendar order follows day numbers. */
  lemma DateOfMonotone(m: nat, n: nat)
    requires m < n
    ensures Earlier(DateOf(m), DateOf(n))
  {
    DateOfRoundTrip(m);
    DateOfRoundTrip(n);
    if Earlier(DateOf(n), DateOf(m)) { DayNumberMonotone(DateOf(n), DateOf(m)); }
  }

  /** Staying inside a month adds to the day. */
  lemma {:induction false} DateWithinMonth(n: nat, k: nat)
    requires var d := DateOf(n); d.day + k <= DaysInMonth(d.year, d.month)
    ensures var d := DateOf(n); DateOf(n + k) == Date(d.year, d.month, d.day + k)
  {
    if k > 0 { DateWithinMonth(n, k - 1); }
  }

  function NextMonth(d: Date): Date {
    if d.month == 12 then Date(d.year + 1, 1, 1) else Date(d.year, d.month + 1, 1)
  }

  /** Running past the end of a month continues in the next one. */
  lemma DateInNextMonth(n: nat, j: nat)
    requires var d := DateOf(n); var m := NextMonth(d); 1 <= j <= DaysInMonth(m.year, m.month)
    ensures var d := DateOf(n); var m := NextMonth(d);
            var k := DaysInMonth(d.year, d.month) - d.day + j;
            0 < k && DateOf(n + k) == Date(m.year, m.month, j)
  {
    var d := DateOf(n);
    var rest := DaysInMonth(d.year, d.month) - d.day;
    DateWithinMonth(n, rest);
    assert DateOf(n + rest + 1) == NextMonth(d);
    DateWithinMonth(n + rest + 1, j - 1);
  }

  // ---------------------------------------------------------------- instants

  // An instant is a number of whole seconds since 0001-01-01T00:00:00 UTC.

  function DateAt(t: nat): Date { DateOf(t / DAY) }
  function YearAt(t: nat): int { DateAt(t).year }
  function MonthAt(t: nat): int { DateAt(t).month }
  function DayAt(t: nat): int { DateAt(t).day }
  function HourAt(t: nat): int { t / 3600 % 24 }
  function MinuteAt(t: nat): int { t / 60 % 60 }
  function SecondAt(t: nat): int { t % 60 }

  /** 0 is Sunday; 0001-01-01 was a Monday. */
  function WeekdayAt(t: nat): int { (t / DAY + 1) % 7 }

  /** The weekday of an instant is that of its date. */
  lemma WeekdayOfDate(t: nat)
    ensures WeekdayAt(t) == (DayNumber(DateAt(t)) + 1) % 7
  {
    DateOfRoundTrip(t / DAY);
  }

  /** Weekdays are the real ones: 1970-01-01 was a Thursday, and 2000-02-29, which 1900 did not have, a Tuesday. */
  lemma KnownDates(t: nat)
    ensures DateAt(t) == Date(1970, 1, 1) ==> WeekdayAt(t) == 4
    ensures DateAt(t) == Date(2000, 2, 29) ==> WeekdayAt(t) == 2
    ensures ValidDate(Date(2000, 2, 29)) && !ValidDate(Date(1900, 2, 29))
  {
    WeekdayOfDate(t);
  }

  /** The number of months since the year 0. */
  function MonthIndex(d: Date): int { 12 * d.year + d.month - 1 }

  /** The start of day number `n`. */
  function StartOfDay(n: nat): (t: nat)
    ensures t / DAY == n && t % 60 == 0
    ensures forall u: nat {:trigger u / DAY} :: u < t <==> u / DAY < n
  {
    n * DAY
  }

  /** The day number of a date. */
  function DayOf(d: Date): (n: nat)
    requires ValidDate(d)
    ensures DateOf(n) == d
  {
    DayNumberRoundTrip(d);
    forall m: nat | DateOf(m) == d ensures m == DayNumber(d) { DateOfRoundTrip(m); }
    var n: nat :| DateOf(n) == d;
    n
  }

  /** Midnight at the start of the first day of a month. */
  function MonthStart(index: int): nat
    requires index >= 12
  {
    StartOfDay(DayOf(Date(index / 12, index % 12 + 1, 1)))
  }

  /** A month that starts on day `n` is reached on day `n` and not before. */
  lemma MonthStartsOn(m: nat, n: nat)
    requires DateOf(n).day == 1
    ensures MonthIndex(DateOf(m)) < MonthIndex(DateOf(n)) <==> m < n
  {
    DateOfRoundTrip(m);
    DateOfRoundTrip(n);
    if m < n {
      DateOfMonotone(m, n);
    } else if n < m {
      DateOfMonotone(n, m);
    }
  }

  /** The instants before a month are those before its start. */
  lemma MonthOrder(t: nat, index: int)
    requires index >= 12
    ensures MonthIndex(DateAt(t)) < index <==> t < MonthStart(index)
  {
    MonthStartsOn(t / DAY, DayOf(Date(index / 12, index % 12 + 1, 1)));
  }

  lemma MonthIndexMonotone(t: nat, u: nat)
    requires t / DAY <= u / DAY
    ensures MonthIndex(DateAt(t)) <= MonthIndex(DateAt(u))
    ensures YearAt(t) <= YearAt(u)
  {
    if t / DAY < u / DAY { DateOfMonotone(t / DAY, u / DAY); }
  }
}
