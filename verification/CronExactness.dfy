/**
 `SkipFree` is not only sufficient but necessary: an expression that fails it has a
 start from which the search passes over a match.
 */
module CronExactness {
  import opened Values
  import opened Calendar
  import opened CronExpression
  import opened CronSearch
  import opened CronCorrectness
  import opened CronTheorems

  lemma {:induction false} SearchGoesForward(e: Expression, t: nat, lastYear: int)
    requires WellFormed(e) && 0 <= lastYear
    ensures Search(e, t, lastYear).Some? ==> Settled(e, t) <= Search(e, t, lastYear).value
    decreases YearEnd(lastYear) - t
  {
    if YearAt(t) <= lastYear {
      BeforeYearEnd(t, lastYear);
      PassAdvances(e, 0, t);
      if Pass(e, 0, t).Moved? {
        MovedSettled(e, t);
        SearchGoesForward(e, Pass(e, 0, t).t, lastYear);
      }
    }
  }

  function FirstEntry(f: Field): int
    requires f.Entries? ==> f.values != []
  {
    if f.Star? then 0 else f.values[0]
  }

  /** A time of day that satisfies the hour, minute and second columns. */
  function MatchingTime(e: Expression): nat
    requires WellFormed(e)
  {
    FirstEntry(e.hour) * 3600 + FirstEntry(e.minute) * 60 + FirstSecond(e)
  }

  function FirstSecond(e: Expression): int
    requires WellFormed(e)
  {
    if e.columns == UNIX_COLUMNS then 0 else FirstEntry(e.second)
  }

  lemma MatchingTimeMatches(e: Expression, n: nat)
    requires WellFormed(e)
    ensures var u := StartOfDay(n) + MatchingTime(e);
            MatchingTime(e) < DAY && u / DAY == n && TimeMatches(e, u)
  {
    TimeOfDay(n, FirstEntry(e.hour), FirstEntry(e.minute), FirstSecond(e));
  }

  lemma TimeOfDay(n: nat, h: int, m: int, c: int)
    requires 0 <= h < 24 && 0 <= m < 60 && 0 <= c < 60
    ensures var u := StartOfDay(n) + h * 3600 + m * 60 + c;
            u / DAY == n && HourAt(u) == h && MinuteAt(u) == m && SecondAt(u) == c
  {
    var u := n * DAY + h * 3600 + m * 60 + c;
    HoursOf(n * 24 + h, m * 60 + c);
    MinutesOf(n * 1440 + h * 60 + m, c);
    assert u == 3600 * (n * 24 + h) + (m * 60 + c) == 60 * (n * 1440 + h * 60 + m) + c;
    assert (n * 24 + h) % 24 == h && (n * 1440 + h * 60 + m) % 60 == m;
  }

  lemma HoursOf(hours: nat, rest: nat)
    requires rest < 3600
    ensures (3600 * hours + rest) / 3600 == hours
  {
  }

  lemma MinutesOf(minutes: nat, rest: nat)
    requires rest < 60
    ensures (60 * minutes + rest) / 60 == minutes && (60 * minutes + rest) % 60 == rest
  {
  }

  /** A date in an allowed year and month from which a skipping jump is taken. */
  lemma SkipDate(e: Expression) returns (d: Date)
    requires WellFormed(e) && !SkipFree(e)
    ensures ValidDate(d) && 1970 <= d.year
    ensures e.columns == YEAR_COLUMNS ==> Allows(e.year, d.year)
    ensures Allows(e.month, d.month) && JumpSkips(e, d.month, DaysInMonth(d.year, d.month), d.day)
  {
    var month, leap, x :|
      1 <= month <= 12 && Allows(e.month, month) && YearKindAllowed(e, leap)
      && 1 <= x <= MonthLength(leap, month) && JumpSkips(e, month, MonthLength(leap, month), x);
    var y := if leap then 2024 else 2023;
    if e.columns == YEAR_COLUMNS && e.year.Entries? {
      y :| y in e.year.values && IsLeap(y) == leap;
    }
    assert IsLeap(y) == leap;
    d := Date(y, month, x);
  }

  /** A start from which a skipping jump is taken, and the match that it misses. */
  lemma SkipWitness(e: Expression) returns (t: nat, missed: nat)
    requires WellFormed(e) && e.weekday.Star? && e.nth == map[] && !SkipFree(e)
    ensures 60 <= t <= missed && t % 60 == 0 && Matches(e, missed) && YearAt(missed) == YearAt(t)
    ensures Pass(e, 0, t).Moved? && missed < Pass(e, 0, t).t
  {
    var d := SkipDate(e);
    t, missed := WitnessOn(e, d, DayOf(d));
  }

  lemma WitnessOn(e: Expression, d: Date, n: nat) returns (t: nat, missed: nat)
    requires WellFormed(e) && e.weekday.Star? && e.nth == map[] && DateOf(n) == d && 1 < d.year
    requires (e.columns == YEAR_COLUMNS ==> Allows(e.year, d.year)) && Allows(e.month, d.month)
    requires JumpSkips(e, d.month, DaysInMonth(d.year, d.month), d.day)
    ensures 60 <= t <= missed && t % 60 == 0 && Matches(e, missed) && YearAt(missed) == YearAt(t)
    ensures Pass(e, 0, t).Moved? && missed < Pass(e, 0, t).t
  {
    missed := MissedMatch(e, d, n);
    t := StartOfDay(n);
    JumpTaken(e, n, t);
    JumpFrom(n, t, d.year);
  }

  lemma JumpFrom(n: nat, t: nat, year: int)
    requires t == StartOfDay(n) && DateOf(n).year == year && 1 < year
    ensures 60 <= t && t % 60 == 0 && YearAt(t) == year
  {
    NotTheFirstDay(n);
  }

  /** A match between the start of the day and the landing of the jump. */
  lemma MissedMatch(e: Expression, d: Date, n: nat) returns (missed: nat)
    requires WellFormed(e) && e.weekday.Star? && e.nth == map[] && DateOf(n) == d
    requires (e.columns == YEAR_COLUMNS ==> Allows(e.year, d.year)) && Allows(e.month, d.month)
    requires JumpSkips(e, d.month, DaysInMonth(d.year, d.month), d.day)
    ensures Matches(e, missed) && YearAt(missed) == d.year && d.day <= FirstFrom(e.day.values, d.day).value
    ensures StartOfDay(n) <= missed < StartOfDay(n + (FirstFrom(e.day.values, d.day).value - d.day))
  {
    var k := MissedDay(e, n);
    var s := TimeThatMatches(e, n + k);
    MatchesOnDay(e, n, k, s, FirstFrom(e.day.values, d.day).value - d.day);
    missed := StartOfDay(n + k) + s;
  }

  lemma TimeThatMatches(e: Expression, n: nat) returns (s: nat)
    requires WellFormed(e)
    ensures s < DAY && TimeMatches(e, StartOfDay(n) + s) && (StartOfDay(n) + s) / DAY == n
  {
    s := MatchingTime(e);
    MatchingTimeMatches(e, n);
  }

  predicate TimeMatches(e: Expression, u: nat) {
    Allows(e.hour, HourAt(u)) && Allows(e.minute, MinuteAt(u)) && SecondMatches(e, u)
  }

  lemma WithinDays(n: nat, k: nat, s: nat, j: nat)
    requires k < j && s < DAY
    ensures StartOfDay(n) <= StartOfDay(n + k) + s < StartOfDay(n + j)
  {
  }

  lemma NotTheFirstDay(n: nat)
    requires DateOf(n).year > 1
    ensures 60 <= StartOfDay(n)
  {
    assert DateOf(0) == Date(1, 1, 1);
  }

  /** The first pass from the date takes the jump. */
  lemma JumpTaken(e: Expression, n: nat, t: nat)
    requires WellFormed(e) && t == StartOfDay(n)
    requires var d := DateOf(n);
             && (e.columns == YEAR_COLUMNS ==> Allows(e.year, d.year)) && Allows(e.month, d.month)
             && JumpSkips(e, d.month, DaysInMonth(d.year, d.month), d.day)
    ensures Pass(e, 0, t).Moved?
    ensures Pass(e, 0, t).t == StartOfDay(n + (FirstFrom(e.day.values, DateOf(n).day).value - DateOf(n).day))
  {
    assert t / DAY == n;
    StartsOnListedMonth(e, t);
    SkippingJump(e, t);
    FirstChange(e, t);
  }

  /** A listed day of an allowed month matches at a matching time of day. */
  lemma MatchesOnDay(e: Expression, n: nat, k: nat, s: nat, j: nat)
    requires e.weekday.Star? && e.nth == map[] && s < DAY && k < j
    requires var u := StartOfDay(n + k) + s; u / DAY == n + k && TimeMatches(e, u)
    requires var m, d := DateOf(n + k), DateOf(n);
             && m.year == d.year && (e.columns == YEAR_COLUMNS ==> Allows(e.year, d.year))
             && Allows(e.month, m.month) && DayAllowed(e.day, m.day, DaysInMonth(m.year, m.month))
    ensures var u := StartOfDay(n + k) + s; Matches(e, u) && YearAt(u) == DateOf(n).year
    ensures StartOfDay(n) <= StartOfDay(n + k) + s < StartOfDay(n + j)
  {
    WithinDays(n, k, s, j);
  }

  lemma SkippingJump(e: Expression, t: nat)
    requires WellFormed(e) && JumpSkips(e, MonthAt(t), DaysInMonth(YearAt(t), MonthAt(t)), DayAt(t))
    ensures ProcDay(e, t) == Moved(Midnight(t, FirstFrom(e.day.values, DayAt(t)).value - DayAt(t)))
  {
  }

  /** The missed day, counted from the day of the jump. */
  lemma MissedDay(e: Expression, n: nat) returns (k: nat)
    requires WellFormed(e)
    requires var d := DateOf(n); JumpSkips(e, d.month, DaysInMonth(d.year, d.month), d.day)
    requires Allows(e.month, DateOf(n).month)
    ensures var m, d := DateOf(n + k), DateOf(n);
            && m.year == d.year
            && Allows(e.month, m.month) && DayAllowed(e.day, m.day, DaysInMonth(m.year, m.month))
            && d.day + k < FirstFrom(e.day.values, d.day).value
  {
    var d := DateOf(n);
    var length := DaysInMonth(d.year, d.month);
    FirstFromLeast(e.day.values, d.day);
    var v := FirstFrom(e.day.values, d.day).value;
    assert v <= 31;
    if e.day.last && d.day < length {
      k := length - d.day;
      DateWithinMonth(n, k);
    } else {
      var j :| j in e.day.values && j < v - length;
      k := length - d.day + j;
      MissedNextMonth(e, n, j);
    }
  }

  /** The first days of a month after a short one; December is not short. */
  lemma MissedNextMonth(e: Expression, n: nat, j: int)
    requires WellFormed(e) && e.day.Days? && j in e.day.values && Allows(e.month, DateOf(n).month % 12 + 1)
    requires var d := DateOf(n); j + DaysInMonth(d.year, d.month) < 31
    ensures var d := DateOf(n);
            var m := DateOf(n + (DaysInMonth(d.year, d.month) - d.day + j));
            m.year == d.year && Allows(e.month, m.month) && m.day == j
  {
    DateInNextMonth(n, j);
  }

  lemma StartsOnListedMonth(e: Expression, t: nat)
    requires WellFormed(e) && YearMatches(e, t) && MonthMatches(e, t)
    ensures ProcYear(e, t) == Same && ProcMonth(e, t) == Same
  {
    if e.year.Entries? { FirstFromLeast(e.year.values, YearAt(t)); }
    if e.month.Entries? { FirstFromLeast(e.month.values, MonthAt(t)); }
  }

  lemma FirstChange(e: Expression, t: nat)
    requires WellFormed(e) && ProcYear(e, t) == Same && ProcMonth(e, t) == Same && ProcDay(e, t).Moved?
    ensures Pass(e, 0, t) == ProcDay(e, t)
  {
    assert Process(e, 0, t) == Process(e, 1, t) == Same;
    assert Pass(e, 0, t) == Pass(e, 1, t) == Pass(e, 2, t);
  }

  /** An expression whose jumps can skip has a start at which the search is wrong, for every span of years. */
  lemma SkippingGoesWrong(e: Expression, maxYears: nat) returns (now: nat)
    requires WellFormed(e) && e.weekday.Star? && e.nth == map[] && !SkipFree(e)
    ensures !LeastMatchAfter(e, now, YearAt(FirstTry(e, now)) + maxYears, Next(e, now, maxYears))
  {
    var t, missed := SkipWitness(e);
    now := t - FirstTry(e, 0);
    assert FirstTry(e, now) == t;
    AnswersLate(e, now, missed, maxYears);
  }

  /** A search whose first pass jumps over a match does not answer with it. */
  lemma AnswersLate(e: Expression, now: nat, missed: nat, maxYears: nat)
    requires WellFormed(e) && Matches(e, missed) && FirstTry(e, now) <= missed
    requires var t := FirstTry(e, now); Pass(e, 0, t).Moved? && missed < Pass(e, 0, t).t && YearAt(missed) == YearAt(t)
    ensures !LeastMatchAfter(e, now, YearAt(FirstTry(e, now)) + maxYears, Next(e, now, maxYears))
  {
    var t := FirstTry(e, now);
    MovedSettled(e, t);
    SearchGoesForward(e, Pass(e, 0, t).t, YearAt(t) + maxYears);
  }

  /**
   The search answers every start correctly exactly when no day-of-month jump can skip a match.
   The weekday column is `*` because a restricted day of the month is only searched that way.
   */
  lemma SkipFreeIsExact(e: Expression, maxYears: nat)
    requires WellFormed(e) && e.weekday.Star? && e.nth == map[]
    ensures SkipFree(e) <==>
            forall now: nat :: LeastMatchAfter(e, now, YearAt(FirstTry(e, now)) + maxYears, Next(e, now, maxYears))
  {
    if SkipFree(e) {
      forall now: nat ensures LeastMatchAfter(e, now, YearAt(FirstTry(e, now)) + maxYears, Next(e, now, maxYears)) {
        NextIsLeast(e, now, maxYears);
      }
    } else {
      var now := SkippingGoesWrong(e, maxYears);
    }
  }

  /** A simple sufficient test on the list of days. */
  lemma SimpleDaysAreSafe(e: Expression)
    requires WellFormed(e)
    requires e.day.Days? ==>
               && ((forall v :: v in e.day.values ==> v <= 29) || (forall v :: v in e.day.values ==> 3 <= v))
               && (e.day.last ==> forall v :: v in e.day.values ==> v <= 28)
    ensures SkipFree(e)
  {
    if e.day.Days? {
      forall x { FirstFromLeast(e.day.values, x); }
    }
  }

  /** "Midnight on days 1 and 30" can skip 1 March: an input on which the search is wrong. */
  lemma FirstAndThirtiethSkips(maxYears: nat) returns (e: Expression, now: nat)
    ensures e == Expression(5, Entries([0]), Entries([0]), Days([1, 30], false), Star, Star, Star, Star, map[])
    ensures WellFormed(e) && !SkipFree(e)
    ensures !LeastMatchAfter(e, now, YearAt(FirstTry(e, now)) + maxYears, Next(e, now, maxYears))
  {
    e := Expression(5, Entries([0]), Entries([0]), Days([1, 30], false), Star, Star, Star, Star, map[]);
    assert FirstFrom([1, 30], 10) == Some(30);
    assert 1 in e.day.values;
    assert JumpSkips(e, 2, MonthLength(false, 2), 10);
    now := SkippingGoesWrong(e, maxYears);
  }
}
