/**
 The iterator that schedulers use: the union of the two day columns and the current time.
 */
module Croniter {
  import opened Values
  import opened Calendar
  import opened CronExpression
  import opened CronSearch
  import opened CronCorrectness
  import opened CronTheorems
  import opened CronExactness

  // ------------------------------------------------------- the union of the day columns

  /** Both day columns restrict the date. */
  predicate BothDaysRestricted(e: Expression) {
    e.day.Days? && e.weekday.Entries?
  }

  function OnlyDays(e: Expression): Expression { e.(weekday := Star) }

  function OnlyWeekdays(e: Expression): Expression { e.(day := AnyDay) }

  /** The next firing: with both day columns restricted, the earlier of two searches, if both succeed. */
  function NextFire(e: Expression, now: nat, maxYears: nat): Option<nat>
    requires WellFormed(e)
  {
    if BothDaysRestricted(e) then
      var t1 := Next(OnlyDays(e), now, maxYears);
      var t2 := Next(OnlyWeekdays(e), now, maxYears);
      if t1.None? || t2.None? then None
      else if t1.value < t2.value then t1 else t2
    else Next(e, now, maxYears)
  }

  /**
   When an expression fires, as POSIX.1 describes the crontab file: all columns must match,
   except that of two restricted day columns one is enough.
   */
  predicate Fires(e: Expression, t: nat) {
    && YearMatches(e, t)
    && MonthMatches(e, t)
    && (if BothDaysRestricted(e) then DayMatches(e, t) || WeekdayMatches(e, t)
        else DayMatches(e, t) && WeekdayMatches(e, t))
    && Allows(e.hour, HourAt(t))
    && Allows(e.minute, MinuteAt(t))
    && SecondMatches(e, t)
  }

  /** The last year in which a search after `now` looks. */
  function LastYear(e: Expression, now: nat, maxYears: nat): int {
    YearAt(FirstTry(e, now)) + maxYears
  }

  ghost predicate MatchInSpan(e: Expression, now: nat, maxYears: nat) {
    exists u: nat :: now < u && YearAt(u) <= LastYear(e, now, maxYears) && Matches(e, u)
  }

  lemma SkipFreeSides(e: Expression)
    requires SkipFree(e)
    ensures SkipFree(OnlyDays(e)) && SkipFree(OnlyWeekdays(e))
  {
    var d := OnlyDays(e);
    forall month, leap, x |
      1 <= month <= 12 && Allows(d.month, month) && YearKindAllowed(d, leap) && 1 <= x <= MonthLength(leap, month)
      ensures !JumpSkips(d, month, MonthLength(leap, month), x)
    {
      assert YearKindAllowed(e, leap) && !JumpSkips(e, month, MonthLength(leap, month), x);
    }
  }

  /** Without `#` and `l` weekdays the iterator yields the least firing instant after `now`. */
  lemma NextFireIsLeast(e: Expression, now: nat, maxYears: nat)
    requires WellFormed(e) && SkipFree(e) && (BothDaysRestricted(e) ==> e.nth == map[])
    requires NextFire(e, now, maxYears).Some?
    ensures var t := NextFire(e, now, maxYears).value;
            now < t && Fires(e, t) && forall u: nat :: now < u < t ==> !Fires(e, u)
  {
    NextFireSides(e, now, maxYears);
    var t := NextFire(e, now, maxYears).value;
    if BothDaysRestricted(e) {
      forall u: nat ensures Fires(e, u) <==> Matches(OnlyDays(e), u) || Matches(OnlyWeekdays(e), u) {
        FiresIsUnion(e, u);
      }
    } else {
      forall u: nat ensures Fires(e, u) <==> Matches(e, u) {}
    }
  }

  lemma FiresIsUnion(e: Expression, u: nat)
    requires BothDaysRestricted(e) && e.nth == map[]
    ensures Fires(e, u) <==> Matches(OnlyDays(e), u) || Matches(OnlyWeekdays(e), u)
  {
  }

  /** The searches that the iterator combines are each right. */
  lemma NextFireSides(e: Expression, now: nat, maxYears: nat)
    requires WellFormed(e) && SkipFree(e)
    ensures LeastMatchAfter(OnlyDays(e), now, LastYear(e, now, maxYears), Next(OnlyDays(e), now, maxYears))
    ensures LeastMatchAfter(OnlyWeekdays(e), now, LastYear(e, now, maxYears), Next(OnlyWeekdays(e), now, maxYears))
    ensures LeastMatchAfter(e, now, LastYear(e, now, maxYears), Next(e, now, maxYears))
  {
    SkipFreeSides(e);
    NextIsLeast(OnlyDays(e), now, maxYears);
    NextIsLeast(OnlyWeekdays(e), now, maxYears);
    NextIsLeast(e, now, maxYears);
  }

  /**
   When the iterator gives up: with both day columns restricted it needs a match on each
   side within the span, so it can fail although the expression fires.
   */
  lemma NextFireSucceedsIff(e: Expression, now: nat, maxYears: nat)
    requires WellFormed(e) && SkipFree(e)
    ensures NextFire(e, now, maxYears).Some? <==>
            if BothDaysRestricted(e)
            then MatchInSpan(OnlyDays(e), now, maxYears) && MatchInSpan(OnlyWeekdays(e), now, maxYears)
            else MatchInSpan(e, now, maxYears)
  {
    NextFireSides(e, now, maxYears);
    NextInSpan(e, now, maxYears);
    NextInSpan(OnlyDays(e), now, maxYears);
    NextInSpan(OnlyWeekdays(e), now, maxYears);
  }

  /** A found instant lies in the span of years. */
  lemma {:induction false} SearchInSpan(e: Expression, t: nat, lastYear: int)
    requires WellFormed(e) && 0 <= lastYear
    ensures Search(e, t, lastYear).Some? ==> YearAt(Search(e, t, lastYear).value) <= lastYear
    decreases YearEnd(lastYear) - t
  {
    if YearAt(t) <= lastYear {
      SettledFields(e, t);
      BeforeYearEnd(t, lastYear);
      PassAdvances(e, 0, t);
      if Pass(e, 0, t).Moved? { SearchInSpan(e, Pass(e, 0, t).t, lastYear); }
    }
  }

  lemma NextInSpan(e: Expression, now: nat, maxYears: nat)
    requires WellFormed(e)
    ensures Next(e, now, maxYears).Some? ==> YearAt(Next(e, now, maxYears).value) <= LastYear(e, now, maxYears)
  {
    SearchInSpan(e, FirstTry(e, now), LastYear(e, now, maxYears));
  }

  /** Midnight on 31 February or on Mondays in February. */
  const FEBRUARY_31_OR_MONDAY :=
    Expression(5, Entries([0]), Entries([0]), Days([31], false), Entries([2]), Entries([1]), Star, Star, map[])

  lemma NoFebruary31(u: nat)
    ensures !Matches(OnlyDays(FEBRUARY_31_OR_MONDAY), u)
  {
    var d := DateAt(u);
    assert d.month == 2 ==> d.day <= 29;
  }

  lemma MondayInFebruary(year: int) returns (t: nat)
    requires 1 <= year
    ensures MonthAt(t) == 2 && WeekdayAt(t) == 1 && HourAt(t) == 0 && MinuteAt(t) == 0 && SecondAt(t) == 0
  {
    var n := DayOf(Date(year, 2, 1));
    var k := DaysToMonday(n);
    DateWithinMonth(n, k);
    t := StartOfDay(n + k);
    TimeOfDay(n + k, 0, 0, 0);
  }

  lemma DaysToMonday(n: nat) returns (k: nat)
    ensures k < 7 && (n + k + 1) % 7 == 1
  {
    k := (7 - n % 7) % 7;
  }

  /** An expression that fires and that the iterator gives up on, from every start. */
  lemma ImpossibleDayBlocksWeekdays(now: nat, maxYears: nat) returns (t: nat)
    ensures WellFormed(FEBRUARY_31_OR_MONDAY) && Fires(FEBRUARY_31_OR_MONDAY, t)
    ensures NextFire(FEBRUARY_31_OR_MONDAY, now, maxYears) == None
  {
    t := MondayInFebruary(YearAt(now));
    assert 1 in FEBRUARY_31_OR_MONDAY.weekday.values;
    SimpleDaysAreSafe(FEBRUARY_31_OR_MONDAY);
    assert !MatchInSpan(OnlyDays(FEBRUARY_31_OR_MONDAY), now, maxYears) by {
      forall u: nat ensures !Matches(OnlyDays(FEBRUARY_31_OR_MONDAY), u) { NoFebruary31(u); }
    }
    NextFireSucceedsIff(FEBRUARY_31_OR_MONDAY, now, maxYears);
  }

  lemma NextGoesForward(e: Expression, now: nat, maxYears: nat)
    requires WellFormed(e)
    ensures Next(e, now, maxYears).Some? ==> now < Next(e, now, maxYears).value
  {
    SearchGoesForward(e, FirstTry(e, now), LastYear(e, now, maxYears));
  }

  /** Whatever the expression, the iterator moves forward. */
  lemma NextFireGoesForward(e: Expression, now: nat, maxYears: nat)
    requires WellFormed(e)
    ensures NextFire(e, now, maxYears).Some? ==> now < NextFire(e, now, maxYears).value
  {
    if BothDaysRestricted(e) {
      NextGoesForward(OnlyDays(e), now, maxYears);
      NextGoesForward(OnlyWeekdays(e), now, maxYears);
    } else {
      NextGoesForward(e, now, maxYears);
    }
  }

  // --------------------------------------------------------------- Sunday as 7

  /** The documented meaning of a weekday list: 7 is Sunday as well as 0. */
  predicate AllowsFolded(f: Field, weekday: int) {
    Allows(f, weekday) || (weekday == 0 && Allows(f, 7))
  }

  /** The entry 7, which six- and seven-column expressions keep, means Sunday exactly when 0 is listed too. */
  lemma SevenIsSundayIff(f: Field)
    ensures (forall t: nat :: Allows(f, WeekdayAt(t)) <==> AllowsFolded(f, WeekdayAt(t)))
            <==> (Allows(f, 7) ==> Allows(f, 0))
  {
    assert WeekdayAt(6 * DAY) == 0;
  }

  // --------------------------------------------------------------- the iterator

  /** Expressions for which the iterator is exact. */
  predicate Exact(e: Expression) {
    SkipFree(e) && (BothDaysRestricted(e) ==> e.nth == map[])
  }

  /** `t` is the first firing after `cur`. */
  ghost predicate FirstFiring(e: Expression, cur: real, t: nat) {
    cur < t as real && Fires(e, t) && forall u: nat :: cur < u as real && u < t ==> !Fires(e, u)
  }

  /** `get_next` over floating-point time: the current time need not be a whole second. */
  class Iterator {
    const expression: Expression
    const maxYears: nat
    var cur: real

    ghost predicate Valid()
      reads this
    {
      WellFormed(expression) && 0.0 <= cur
    }

    constructor (expression: Expression, maxYears: nat, start: real)
      requires WellFormed(expression) && 0.0 <= start
      ensures Valid() && cur == start && this.expression == expression && this.maxYears == maxYears
    {
      this.expression, this.maxYears, cur := expression, maxYears, start;
    }

    method GetNext() returns (r: Option<nat>)
      requires Valid()
      modifies this`cur
      ensures Valid()
      ensures r == NextFire(expression, old(cur).Floor, maxYears)
      ensures cur == if r.Some? then r.value as real else old(cur)
      ensures r.Some? && Exact(expression) ==> FirstFiring(expression, old(cur), r.value)
    {
      var now := cur.Floor;
      var e := expression;
      if e.day.Days? && e.weekday.Entries? {
        var t1 := Calc(e.(weekday := Star), now, maxYears);
        var t2 := Calc(e.(day := AnyDay), now, maxYears);
        if t1.None? || t2.None? {
          return None;
        }
        r := if t1.value < t2.value then t1 else t2;
      } else {
        r := Calc(e, now, maxYears);
      }
      if r.Some? {
        if Exact(e) { NextFireIsLeast(e, now, maxYears); }
        cur := r.value as real;
      }
    }
  }
}
