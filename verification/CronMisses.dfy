/**
 What the search may miss: for every expression, only matches that one day-of-month jump passes over.
 */
module CronMisses {
  import opened Values
  import opened Calendar
  import opened CronExpression
  import opened CronSearch
  import opened CronCorrectness
  import opened CronTheorems
  import opened CronExactness
  import opened Croniter

  /** The first listed day at or above the day of `d`, counted from the start of the month of `d`. */
  predicate SkipsTo(e: Expression, d: Date, day: int) {
    && JumpSkips(e, d.month, DaysInMonth(d.year, d.month), d.day)
    && FirstFrom(e.day.values, d.day) == Some(day)
  }

  /**
   On day `n`, of an allowed year and month, the next listed day lies beyond the month's end, and the jump to it,
   which counts on into the next month, passes over `u`.
   */
  predicate SkippedFrom(e: Expression, n: nat, u: nat) {
    var d := DateOf(n);
    && (e.columns == YEAR_COLUMNS ==> Allows(e.year, d.year)) && Allows(e.month, d.month)
    && exists day :: d.day <= day <= 31 && SkipsTo(e, d, day) && StartOfDay(n) <= u < StartOfDay(n + (day - d.day))
  }

  /** A day jump lands where the next listed day would be. */
  lemma JumpLands(e: Expression, t: nat)
    requires WellFormed(e) && JumpSkips(e, MonthAt(t), DaysInMonth(YearAt(t), MonthAt(t)), DayAt(t))
    ensures var day := FirstFrom(e.day.values, DayAt(t)).value;
            DayAt(t) <= day <= 31 && ProcDay(e, t) == Moved(StartOfDay(t / DAY + (day - DayAt(t))))
  {
    FirstFromLeast(e.day.values, DayAt(t));
    SkippingJump(e, t);
  }

  lemma DayJumpMisses(e: Expression, t: nat, u: nat)
    requires WellFormed(e) && YearMatches(e, t) && MonthMatches(e, t) && Matches(e, u)
    requires ProcDay(e, t).Moved? && t / DAY <= u / DAY && u < ProcDay(e, t).t
    ensures SkippedFrom(e, t / DAY, u)
  {
    if !JumpSkips(e, MonthAt(t), DaysInMonth(YearAt(t), MonthAt(t)), DayAt(t)) { HarmlessJump(e, t, u); }
    JumpLands(e, t);
    var day := FirstFrom(e.day.values, DayAt(t)).value;
    assert SkipsTo(e, DateOf(t / DAY), day);
  }

  /** A pass that jumps over a match is a day-of-month jump that skips it. */
  lemma PassMisses(e: Expression, t: nat, u: nat)
    requires WellFormed(e) && Pass(e, 0, t).Moved? && Settled(e, t) <= u < Pass(e, 0, t).t && Matches(e, u)
    ensures SkippedFrom(e, t / DAY, u)
  {
    var i := PassEndsAt(e, t);
    SettledFields(e, t);
    match i {
      case 0 => YearSkips(e, t, u);
      case 1 => MonthSkips(e, t, u);
      case 2 =>
        assert Process(e, 0, t) == Process(e, 1, t) == Same;
        SameDate(e, t);
        DayJumpMisses(e, t, u);
      case 3 => if e.nth != map[] { NthSkips(e, t, u); } else { WeekdaySkips(e, t, u); }
      case 4 => HourSkips(e, t, u);
      case 5 => MinuteSkips(e, t, u);
      case _ => SecondSkips(e, t, u);
    }
  }

  /** `u` comes before the answer, or there is none and `u` is in the span of years. */
  predicate BeforeAnswer(r: Option<nat>, lastYear: int, u: nat) {
    match r
    case Some(t) => u < t
    case None => YearAt(u) <= lastYear
  }

  lemma {:induction false} SearchMissesOnlySkipped(e: Expression, t: nat, lastYear: int, u: nat) returns (n: nat)
    requires WellFormed(e) && 0 <= lastYear && Settled(e, t) <= u && Matches(e, u)
    requires BeforeAnswer(Search(e, t, lastYear), lastYear, u)
    ensures t / DAY <= n && SkippedFrom(e, n, u)
    decreases YearEnd(lastYear) - t
  {
    SettledFields(e, t);
    MonthIndexMonotone(t, u);
    BeforeYearEnd(t, lastYear);
    PassAdvances(e, 0, t);
    match Pass(e, 0, t) {
      case Exhausted => PassExhausted(e, t, u);
      case Moved(t') =>
        if u < t' {
          PassMisses(e, t, u);
          n := t / DAY;
        } else {
          MovedSettled(e, t);
          n := SearchMissesOnlySkipped(e, t', lastYear, u);
        }
      case Same =>
    }
  }

  /**
   For every expression: a match that comes before the answer, or that is in the span when there is no answer, is
   passed over by the skipping jump of one day from the first try on.
   */
  lemma MissesOnlySkipped(e: Expression, now: nat, maxYears: nat, u: nat) returns (n: nat)
    requires WellFormed(e) && now < u && Matches(e, u)
    requires BeforeAnswer(Next(e, now, maxYears), LastYear(e, now, maxYears), u)
    ensures FirstTry(e, now) / DAY <= n && SkippedFrom(e, n, u)
  {
    FirstTryMisses(e, now, u);
    n := SearchMissesOnlySkipped(e, FirstTry(e, now), LastYear(e, now, maxYears), u);
  }

  /** Every answer matches, whatever the expression. */
  lemma AnswersMatch(e: Expression, now: nat, maxYears: nat)
    requires WellFormed(e) && Next(e, now, maxYears).Some?
    ensures var t := Next(e, now, maxYears).value;
            now < t && Matches(e, t) && YearAt(t) <= LastYear(e, now, maxYears)
  {
    NextGoesForward(e, now, maxYears);
    NextInSpan(e, now, maxYears);
    SearchMatches(e, FirstTry(e, now), LastYear(e, now, maxYears));
  }

  /** And a start on a day with a skipping jump does miss what the jump passes over. */
  lemma SkippedIsMissed(e: Expression, now: nat, maxYears: nat, u: nat)
    requires WellFormed(e) && SkippedFrom(e, FirstTry(e, now) / DAY, u) && Next(e, now, maxYears).Some?
    ensures u < Next(e, now, maxYears).value
  {
    var t := FirstTry(e, now);
    StartsOnListedMonth(e, t);
    JumpLands(e, t);
    FirstChange(e, t);
    MovedSettled(e, t);
    SearchGoesForward(e, Pass(e, 0, t).t, LastYear(e, now, maxYears));
  }

  /** The expression of the search that tests the day of the month. */
  function DaySide(e: Expression): Expression {
    if BothDaysRestricted(e) then OnlyDays(e) else e
  }

  /** A firing that the iterator misses is passed over by a skipping jump of the day search. */
  lemma FiringsMissed(e: Expression, now: nat, maxYears: nat, u: nat) returns (n: nat)
    requires WellFormed(e) && (BothDaysRestricted(e) ==> e.nth == map[])
    requires NextFire(e, now, maxYears).Some? && now < u < NextFire(e, now, maxYears).value && Fires(e, u)
    ensures FirstTry(e, now) / DAY <= n && SkippedFrom(DaySide(e), n, u)
  {
    if BothDaysRestricted(e) {
      FiresIsUnion(e, u);
      if Matches(OnlyWeekdays(e), u) {
        n := MissesOnlySkipped(OnlyWeekdays(e), now, maxYears, u);
      } else {
        n := MissesOnlySkipped(OnlyDays(e), now, maxYears, u);
      }
    } else {
      n := MissesOnlySkipped(e, now, maxYears, u);
    }
  }
}
