/**
 The search as a whole: it finds the least matching instant after its start, and fails
 only when there is none in the allowed span of years.
 */
module CronTheorems {
  import opened Values
  import opened Calendar
  import opened CronExpression
  import opened CronSearch
  import opened CronCorrectness

  /** The meaning of a correct answer to "when does `e` fire next after `now`?". */
  ghost predicate LeastMatchAfter(e: Expression, now: nat, lastYear: int, r: Option<nat>) {
    match r
    case Some(t) => now < t && Matches(e, t) && forall u: nat :: now < u < t ==> !Matches(e, u)
    case None => forall u: nat :: now < u && YearAt(u) <= lastYear ==> !Matches(e, u)
  }

  /** A pass that changes nothing has found a match. */
  lemma SameMatches(e: Expression, t: nat)
    requires WellFormed(e) && Pass(e, 0, t) == Same
    ensures Matches(e, Settled(e, t))
  {
    SameSteps(e, t);
    SettledFields(e, t);
    SameHour(e, t);
    SameMinute(e, t);
    SameSecond(e, t);
    assert SecondMatches(e, Settled(e, t));
    SameDate(e, t);
    if e.nth != map[] { SameNth(e, t); }
    assert DateAt(Settled(e, t)) == DateAt(t) && WeekdayAt(Settled(e, t)) == WeekdayAt(t);
  }

  /** The processor that ends a pass, with the ones before it unchanged. */
  lemma PassEndsAt(e: Expression, t: nat) returns (i: nat)
    requires WellFormed(e) && Pass(e, 0, t) != Same
    ensures i < PROCESSORS && Process(e, i, t) == Pass(e, 0, t)
    ensures forall k :: 0 <= k < i ==> Process(e, k, t) == Same
  {
    i := 0;
    while Process(e, i, t) == Same
      invariant i < PROCESSORS && Pass(e, i, t) == Pass(e, 0, t)
      invariant forall k :: 0 <= k < i ==> Process(e, k, t) == Same
      decreases PROCESSORS - i
    {
      i := i + 1;
    }
  }

  /** A jump passes over no match. */
  lemma PassSkips(e: Expression, t: nat, u: nat)
    requires WellFormed(e) && SkipFree(e)
    requires Pass(e, 0, t).Moved? && Settled(e, t) <= u < Pass(e, 0, t).t
    ensures !Matches(e, u)
  {
    var i := PassEndsAt(e, t);
    SettledFields(e, t);
    match i {
      case 0 => YearSkips(e, t, u);
      case 1 => MonthSkips(e, t, u);
      case 2 =>
        assert Process(e, 0, t) == Process(e, 1, t) == Same;
        SameDate(e, t);
        DaySkips(e, t, u);
      case 3 => if e.nth != map[] { NthSkips(e, t, u); } else { WeekdaySkips(e, t, u); }
      case 4 => HourSkips(e, t, u);
      case 5 => MinuteSkips(e, t, u);
      case _ => SecondSkips(e, t, u);
    }
  }

  /** Only the year column can be exhausted, and then no later instant matches. */
  lemma PassExhausted(e: Expression, t: nat, u: nat)
    requires WellFormed(e) && Pass(e, 0, t) == Exhausted && Settled(e, t) <= u
    ensures !Matches(e, u)
  {
    var i := PassEndsAt(e, t);
    SettledFields(e, t);
    YearExhausted(e, t, u);
  }

  /** Jumps of a five-column expression land on full minutes. */
  lemma MovedSettled(e: Expression, t: nat)
    requires WellFormed(e) && Pass(e, 0, t).Moved?
    ensures Settled(e, Pass(e, 0, t).t) == Pass(e, 0, t).t
  {
  }

  /** Whatever a search finds matches, even if it may skip. */
  lemma {:induction false} SearchMatches(e: Expression, t: nat, lastYear: int)
    requires WellFormed(e) && 0 <= lastYear && Search(e, t, lastYear).Some?
    ensures Matches(e, Search(e, t, lastYear).value)
    decreases YearEnd(lastYear) - t
  {
    BeforeYearEnd(t, lastYear);
    PassAdvances(e, 0, t);
    match Pass(e, 0, t) {
      case Same => SameMatches(e, t);
      case Moved(t') => SearchMatches(e, t', lastYear);
    }
  }

  /** The meaning of a correct answer, for instants from `start` on. */
  ghost predicate LeastMatchFrom(e: Expression, start: nat, lastYear: int, r: Option<nat>) {
    match r
    case Some(t) => start <= t && Matches(e, t) && forall u: nat :: start <= u < t ==> !Matches(e, u)
    case None => forall u: nat :: start <= u && YearAt(u) <= lastYear ==> !Matches(e, u)
  }

  lemma {:induction false} SearchLeast(e: Expression, t: nat, lastYear: int)
    requires WellFormed(e) && SkipFree(e) && 0 <= lastYear
    ensures LeastMatchFrom(e, Settled(e, t), lastYear, Search(e, t, lastYear))
    decreases YearEnd(lastYear) - t
  {
    SettledFields(e, t);
    if YearAt(t) > lastYear {
      forall u: nat | Settled(e, t) <= u ensures YearAt(u) > lastYear { MonthIndexMonotone(t, u); }
    } else {
      BeforeYearEnd(t, lastYear);
      PassAdvances(e, 0, t);
      match Pass(e, 0, t) {
        case Exhausted =>
          forall u: nat | Settled(e, t) <= u ensures !Matches(e, u) { PassExhausted(e, t, u); }
        case Same => SameMatches(e, t);
        case Moved(t') =>
          SearchLeast(e, t', lastYear);
          MovedSettled(e, t);
          forall u: nat | Settled(e, t) <= u < t' ensures !Matches(e, u) { PassSkips(e, t, u); }
      }
    }
  }

  /** An instant after `now` can match only from the first try on. */
  lemma FirstTryMisses(e: Expression, now: nat, u: nat)
    requires UNIX_COLUMNS <= e.columns && SecondMatches(e, u)
    ensures now < u <==> Settled(e, FirstTry(e, now)) <= u
  {
  }

  lemma FromFirstTry(e: Expression, now: nat, lastYear: int, r: Option<nat>)
    requires UNIX_COLUMNS <= e.columns && LeastMatchFrom(e, Settled(e, FirstTry(e, now)), lastYear, r)
    ensures LeastMatchAfter(e, now, lastYear, r)
  {
    forall u: nat | Matches(e, u) ensures now < u <==> Settled(e, FirstTry(e, now)) <= u {
      FirstTryMisses(e, now, u);
    }
  }

  /** For every expression without skipping jumps and every start, the search is right. */
  lemma NextIsLeast(e: Expression, now: nat, maxYears: nat)
    requires WellFormed(e) && SkipFree(e)
    ensures LeastMatchAfter(e, now, YearAt(FirstTry(e, now)) + maxYears, Next(e, now, maxYears))
  {
    var lastYear := YearAt(FirstTry(e, now)) + maxYears;
    SearchLeast(e, FirstTry(e, now), lastYear);
    FromFirstTry(e, now, lastYear, Next(e, now, maxYears));
  }
}
