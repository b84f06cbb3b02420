/**
 How exact the union of the two day columns is: what `#` and `l` weekdays do to it, and
 when a day-of-month jump that passes over a match shows.
 */
module CronUnion {
  import opened Values
  import opened Calendar
  import opened CronExpression
  import opened CronSearch
  import opened CronCorrectness
  import opened CronTheorems
  import opened CronExactness
  import opened Croniter

  /** Whenever there is an answer, from whatever start, it is the first of the instants after it. */
  ghost predicate Exactly(answer: nat -> Option<nat>, instants: nat -> bool) {
    forall now: nat, t: nat :: answer(now) == Some(t) ==> IsFirst(instants, now, t)
  }

  ghost predicate IsFirst(instants: nat -> bool, now: nat, t: nat) {
    now < t && instants(t) && forall u: nat :: now < u < t ==> !instants(u)
  }

  function AnswersOf(e: Expression, maxYears: nat): nat -> Option<nat>
    requires WellFormed(e)
  {
    (now: nat) => NextFire(e, now, maxYears)
  }

  function FiringsOf(e: Expression): nat -> bool { (u: nat) => Fires(e, u) }

  function SearchOf(e: Expression, maxYears: nat): nat -> Option<nat>
    requires WellFormed(e)
  {
    (now: nat) => Next(e, now, maxYears)
  }

  function MatchesOf(e: Expression): nat -> bool { (u: nat) => Matches(e, u) }

  // -------------------------------------------------------- `#` and `l` weekdays

  /** Both searches test the `#` and `l` entries, so the day search is the narrower one. */
  lemma DaysAreNarrower(e: Expression, u: nat)
    requires BothDaysRestricted(e) && e.nth != map[]
    ensures Matches(OnlyDays(e), u) ==> Matches(OnlyWeekdays(e), u)
  {
  }

  lemma DaysInSpanAreWeekdays(e: Expression, now: nat, maxYears: nat)
    requires BothDaysRestricted(e) && e.nth != map[] && MatchInSpan(OnlyDays(e), now, maxYears)
    ensures MatchInSpan(OnlyWeekdays(e), now, maxYears)
  {
    var u: nat :| now < u && YearAt(u) <= LastYear(OnlyDays(e), now, maxYears) && Matches(OnlyDays(e), u);
    DaysAreNarrower(e, u);
  }

  /** The weekday search answers no later than the day search. */
  lemma WeekdaySideNoLater(e: Expression, now: nat, maxYears: nat)
    requires WellFormed(e) && BothDaysRestricted(e) && e.nth != map[] && Next(OnlyDays(e), now, maxYears).Some?
    ensures Next(OnlyWeekdays(e), now, maxYears).Some?
    ensures Next(OnlyWeekdays(e), now, maxYears).value <= Next(OnlyDays(e), now, maxYears).value
  {
    var t := Next(OnlyDays(e), now, maxYears).value;
    NextMatches(OnlyDays(e), now, maxYears);
    NextInSpan(OnlyDays(e), now, maxYears);
    NextGoesForward(OnlyDays(e), now, maxYears);
    DaysAreNarrower(e, t);
    NotBeforeLeast(OnlyWeekdays(e), now, t, maxYears);
  }

  lemma NotBeforeLeast(e: Expression, now: nat, t: nat, maxYears: nat)
    requires WellFormed(e) && SkipFree(e) && now < t && YearAt(t) <= LastYear(e, now, maxYears) && Matches(e, t)
    ensures Next(e, now, maxYears).Some? && Next(e, now, maxYears).value <= t
  {
    NextIsLeast(e, now, maxYears);
  }

  /**
   With `#` or `l` weekdays the day of the month has one effect: the search is given up on if the day search,
   which tests both day columns, finds nothing.  Otherwise the result is the weekday search's.
   */
  lemma NthHidesDays(e: Expression, now: nat, maxYears: nat)
    requires WellFormed(e) && BothDaysRestricted(e) && e.nth != map[]
    ensures NextFire(e, now, maxYears) ==
            if Next(OnlyDays(e), now, maxYears).Some? then Next(OnlyWeekdays(e), now, maxYears) else None
  {
    if Next(OnlyDays(e), now, maxYears).Some? { WeekdaySideNoLater(e, now, maxYears); }
  }

  /** An instant at which only the day of the month fires. */
  predicate OnlyDayFires(e: Expression, u: nat) {
    Fires(e, u) && !WeekdayMatches(e, u)
  }

  /** From a firing that the weekday entries reject, both columns are met later in the span. */
  ghost predicate PassesOver(e: Expression, u: nat, maxYears: nat) {
    0 < u && OnlyDayFires(e, u) && MatchInSpan(OnlyDays(e), u - 1, maxYears)
  }

  lemma LastYearGrows(e: Expression, now: nat, later: nat, maxYears: nat)
    requires now <= later
    ensures LastYear(e, now, maxYears) <= LastYear(e, later, maxYears)
  {
    MonthIndexMonotone(FirstTry(e, now), FirstTry(e, later));
  }

  /** What matches both columns is not before the first match of the weekday side. */
  lemma BothLater(e: Expression, now: nat, u: nat, t: nat)
    requires BothDaysRestricted(e) && e.nth != map[] && now < u < t && IsFirst(MatchesOf(OnlyWeekdays(e)), now, t)
    ensures forall v: nat :: now < v && Matches(OnlyDays(e), v) ==> u < v
  {
    forall v: nat | now < v && Matches(OnlyDays(e), v) ensures u < v {
      DaysAreNarrower(e, v);
      assert MatchesOf(OnlyWeekdays(e))(v);
    }
  }

  lemma SpanGrows(e: Expression, now: nat, u: nat, maxYears: nat)
    requires now < u && MatchInSpan(OnlyDays(e), now, maxYears)
    requires forall v: nat :: now < v && Matches(OnlyDays(e), v) ==> u < v
    ensures MatchInSpan(OnlyDays(e), u - 1, maxYears)
  {
    var v: nat :| now < v && YearAt(v) <= LastYear(OnlyDays(e), now, maxYears) && Matches(OnlyDays(e), v);
    LastYearGrows(OnlyDays(e), now, u - 1, maxYears);
  }

  /** A firing that the weekday side does not see is one of the day column alone, and the other way round. */
  lemma OnlyDayFiresIff(e: Expression, u: nat)
    requires BothDaysRestricted(e) && Fires(e, u)
    ensures OnlyDayFires(e, u) <==> !Matches(OnlyWeekdays(e), u)
  {
  }

  /** The answer of the weekday side fires. */
  lemma WeekdaySideFires(e: Expression, t: nat)
    requires BothDaysRestricted(e) && Matches(OnlyWeekdays(e), t)
    ensures Fires(e, t)
  {
  }

  /** What the iterator answers with `#` or `l` weekdays. */
  lemma NthAnswer(e: Expression, now: nat, maxYears: nat)
    requires WellFormed(e) && SkipFree(e) && BothDaysRestricted(e) && e.nth != map[]
    ensures NextFire(e, now, maxYears).Some? <==> MatchInSpan(OnlyDays(e), now, maxYears)
    ensures NextFire(e, now, maxYears).Some? ==>
              IsFirst(MatchesOf(OnlyWeekdays(e)), now, NextFire(e, now, maxYears).value)
  {
    NthHidesDays(e, now, maxYears);
    NextFireSucceedsIff(e, now, maxYears);
    if MatchInSpan(OnlyDays(e), now, maxYears) { DaysInSpanAreWeekdays(e, now, maxYears); }
    WeekdaySideIsLeast(e, maxYears);
    assert SearchOf(OnlyWeekdays(e), maxYears)(now) == Next(OnlyWeekdays(e), now, maxYears);
  }

  /** The argument, for any answers that follow the narrower instants `w` of `f` while a span lasts. */
  lemma NarrowAnswers(answer: nat -> Option<nat>, f: nat -> bool, w: nat -> bool, span: nat -> bool)
    requires forall now: nat :: answer(now).Some? <==> span(now)
    requires Exactly(answer, w) && (forall u: nat :: w(u) ==> f(u))
    requires forall now: nat, u: nat :: Before(answer, now, u) ==> span(u - 1)
    ensures Exactly(answer, f) <==> forall u: nat :: !(0 < u && f(u) && !w(u) && span(u - 1))
  {
    forall u: nat | 0 < u && f(u) && !w(u) && span(u - 1)
      ensures answer(u - 1).Some? && !IsFirst(f, u - 1, answer(u - 1).value)
    {
      assert IsFirst(w, u - 1, answer(u - 1).value);
      assert u - 1 < u < answer(u - 1).value;
    }
    forall now: nat, t: nat | answer(now) == Some(t) && !IsFirst(f, now, t)
      ensures exists u: nat :: 0 < u && f(u) && !w(u) && span(u - 1)
    {
      assert IsFirst(w, now, t);
      var u: nat :| now < u < t && f(u);
      assert Before(answer, now, u);
      assert 0 < u && f(u) && !w(u) && span(u - 1);
    }
  }

  predicate Before(answer: nat -> Option<nat>, now: nat, u: nat) {
    answer(now).Some? && now < u < answer(now).value
  }

  ghost function SpanOf(e: Expression, maxYears: nat): nat -> bool {
    (now: nat) => MatchInSpan(OnlyDays(e), now, maxYears)
  }

  lemma NthAnswersExactly(e: Expression, maxYears: nat)
    requires WellFormed(e) && SkipFree(e) && BothDaysRestricted(e) && e.nth != map[]
    ensures Exactly(AnswersOf(e, maxYears), MatchesOf(OnlyWeekdays(e)))
    ensures forall now: nat :: AnswersOf(e, maxYears)(now).Some? <==> MatchInSpan(OnlyDays(e), now, maxYears)
  {
    var answer, w := AnswersOf(e, maxYears), MatchesOf(OnlyWeekdays(e));
    forall now: nat ensures answer(now).Some? <==> MatchInSpan(OnlyDays(e), now, maxYears) {
      NthAnswer(e, now, maxYears);
    }
    forall now: nat, t: nat | answer(now) == Some(t) ensures IsFirst(w, now, t) { NthAnswer(e, now, maxYears); }
  }

  lemma SpanLasts(e: Expression, now: nat, u: nat, t: nat, maxYears: nat)
    requires BothDaysRestricted(e) && e.nth != map[] && now < u < t && IsFirst(MatchesOf(OnlyWeekdays(e)), now, t)
    requires MatchInSpan(OnlyDays(e), now, maxYears)
    ensures MatchInSpan(OnlyDays(e), u - 1, maxYears)
  {
    BothLater(e, now, u, t);
    SpanGrows(e, now, u, maxYears);
  }

  lemma PassesOverIff(e: Expression, u: nat, maxYears: nat)
    requires BothDaysRestricted(e)
    ensures PassesOver(e, u, maxYears) <==>
            0 < u && FiringsOf(e)(u) && !MatchesOf(OnlyWeekdays(e))(u) && SpanOf(e, maxYears)(u - 1)
  {
    if Fires(e, u) { OnlyDayFiresIff(e, u); }
  }

  lemma SpansLast(e: Expression, answer: nat -> Option<nat>, maxYears: nat)
    requires BothDaysRestricted(e) && e.nth != map[] && Exactly(answer, MatchesOf(OnlyWeekdays(e)))
    requires forall now: nat :: answer(now).Some? <==> MatchInSpan(OnlyDays(e), now, maxYears)
    ensures forall now: nat, u: nat :: Before(answer, now, u) ==> MatchInSpan(OnlyDays(e), u - 1, maxYears)
  {
    forall now: nat, u: nat | Before(answer, now, u) ensures MatchInSpan(OnlyDays(e), u - 1, maxYears) {
      var t := answer(now);
      assert t == Some(t.value) && MatchInSpan(OnlyDays(e), now, maxYears);
      SpanLasts(e, now, u, t.value, maxYears);
    }
  }

  lemma WeekdaysFire(e: Expression)
    requires BothDaysRestricted(e)
    ensures forall u: nat :: MatchesOf(OnlyWeekdays(e))(u) ==> FiringsOf(e)(u)
  {
    forall u: nat | MatchesOf(OnlyWeekdays(e))(u) ensures FiringsOf(e)(u) { WeekdaySideFires(e, u); }
  }

  /**
   Without skipping jumps every answer is the first firing if and only if no firing of the day column alone is
   followed, in the span, by one of both.
   */
  lemma NthSkipFreeExactIff(e: Expression, maxYears: nat)
    requires WellFormed(e) && SkipFree(e) && BothDaysRestricted(e) && e.nth != map[]
    ensures Exactly(AnswersOf(e, maxYears), FiringsOf(e)) <==> forall u: nat :: !PassesOver(e, u, maxYears)
  {
    NthAnswersExactly(e, maxYears);
    SpansLast(e, AnswersOf(e, maxYears), maxYears);
    WeekdaysFire(e);
    NarrowAnswers(AnswersOf(e, maxYears), FiringsOf(e), MatchesOf(OnlyWeekdays(e)), SpanOf(e, maxYears));
    forall u: nat
      ensures PassesOver(e, u, maxYears) <==>
              0 < u && FiringsOf(e)(u) && !MatchesOf(OnlyWeekdays(e))(u) && SpanOf(e, maxYears)(u - 1)
    {
      PassesOverIff(e, u, maxYears);
    }
  }

  lemma NthAnswersWeekdays(e: Expression, maxYears: nat)
    requires WellFormed(e) && BothDaysRestricted(e) && e.nth != map[]
    ensures Exactly(AnswersOf(e, maxYears), MatchesOf(OnlyWeekdays(e)))
    ensures forall now: nat :: AnswersOf(e, maxYears)(now).Some? <==> SearchOf(OnlyDays(e), maxYears)(now).Some?
  {
    var answer, weekdays, w := AnswersOf(e, maxYears), SearchOf(OnlyWeekdays(e), maxYears), MatchesOf(OnlyWeekdays(e));
    WeekdaySideIsLeast(e, maxYears);
    forall now: nat
      ensures answer(now) == if SearchOf(OnlyDays(e), maxYears)(now).Some? then weekdays(now) else None
      ensures SearchOf(OnlyDays(e), maxYears)(now).Some? ==> weekdays(now).Some?
    {
      NthHidesDays(e, now, maxYears);
      if Next(OnlyDays(e), now, maxYears).Some? { WeekdaySideNoLater(e, now, maxYears); }
    }
  }

  /** The argument, for any answers that are the first of the instants `w` of `f`. */
  lemma FirstOfFewer(answer: nat -> Option<nat>, f: nat -> bool, w: nat -> bool)
    requires Exactly(answer, w) && (forall u: nat :: w(u) ==> f(u))
    ensures Exactly(answer, f) <==> forall now: nat, u: nat :: !LeftOut(answer, f, w, now, u)
  {
    forall now: nat, u: nat | LeftOut(answer, f, w, now, u) ensures !IsFirst(f, now, answer(now).value) {
      assert answer(now) == Some(answer(now).value);
      assert IsFirst(w, now, answer(now).value);
      assert now < u < answer(now).value;
    }
    forall now: nat, t: nat | answer(now) == Some(t) && !IsFirst(f, now, t)
      ensures exists n: nat, u: nat :: LeftOut(answer, f, w, n, u)
    {
      assert IsFirst(w, now, t);
      var u: nat :| now < u < t && f(u);
      assert LeftOut(answer, f, w, now, u);
    }
  }

  /** From `now` there is an answer, and an instant of `f` comes before any of `w`. */
  ghost predicate LeftOut(answer: nat -> Option<nat>, f: nat -> bool, w: nat -> bool, now: nat, u: nat) {
    answer(now).Some? && now < u && f(u) && NoneUpTo(w, now, u)
  }

  /**
   The day search finds something after `now`, and the day column alone fires at `u` before any instant that the
   `#` and `l` entries select.
   */
  ghost predicate DayLeftOut(e: Expression, now: nat, u: nat, maxYears: nat)
    requires WellFormed(e)
  {
    && SearchOf(OnlyDays(e), maxYears)(now).Some? && now < u
    && OnlyDayFires(e, u) && NoneUpTo(MatchesOf(OnlyWeekdays(e)), now, u)
  }

  lemma DayLeftOutIff(e: Expression, now: nat, u: nat, maxYears: nat)
    requires WellFormed(e) && BothDaysRestricted(e)
    requires AnswersOf(e, maxYears)(now).Some? <==> SearchOf(OnlyDays(e), maxYears)(now).Some?
    ensures DayLeftOut(e, now, u, maxYears) <==>
            LeftOut(AnswersOf(e, maxYears), FiringsOf(e), MatchesOf(OnlyWeekdays(e)), now, u)
  {
    var w := MatchesOf(OnlyWeekdays(e));
    if Fires(e, u) { OnlyDayFiresIff(e, u); }
    assert now < u && NoneUpTo(w, now, u) ==> !w(u);
    assert FiringsOf(e)(u) == Fires(e, u);
  }

  /** Every answer is the first firing if and only if from no start a firing of the day column alone is left out. */
  lemma NthExactIff(e: Expression, maxYears: nat)
    requires WellFormed(e) && BothDaysRestricted(e) && e.nth != map[]
    ensures Exactly(AnswersOf(e, maxYears), FiringsOf(e)) <==>
            forall now: nat, u: nat :: !DayLeftOut(e, now, u, maxYears)
  {
    NthAnswersWeekdays(e, maxYears);
    WeekdaysFire(e);
    FirstOfFewer(AnswersOf(e, maxYears), FiringsOf(e), MatchesOf(OnlyWeekdays(e)));
    forall now: nat, u: nat
      ensures DayLeftOut(e, now, u, maxYears) <==>
              LeftOut(AnswersOf(e, maxYears), FiringsOf(e), MatchesOf(OnlyWeekdays(e)), now, u)
    {
      DayLeftOutIff(e, now, u, maxYears);
    }
  }

  /** Midnight on day 15 or on the first Monday of the month. */
  const FIFTEENTH_OR_FIRST_MONDAY :=
    Expression(5, Entries([0]), Entries([0]), Days([15], false), Star, Entries([1]), Star, Star, map[1 := {Nth(1)}])

  lemma NoneSelects(nth: map<int, set<Ordinal>>, weekday: int, day: int, length: int)
    requires forall w, o :: w in nth && o in nth[w] ==> !IsOccurrence(day, length, o)
    ensures !NthAllowed(nth, weekday, day, length)
  {
  }

  lemma FifteenthIsNoFirstMonday(u: nat)
    ensures !Matches(OnlyDays(FIFTEENTH_OR_FIRST_MONDAY), u)
  {
    var nth := FIFTEENTH_OR_FIRST_MONDAY.nth;
    assert 1 in nth;
    forall w, o | w in nth && o in nth[w] ensures o == Nth(1) {}
    NoneSelects(nth, WeekdayAt(u), 15, DaysInMonth(YearAt(u), MonthAt(u)));
  }

  lemma FifteenthOfNextYear(now: nat) returns (t: nat)
    ensures now < t && DayAt(t) == 15 && HourAt(t) == 0 && MinuteAt(t) == 0 && SecondAt(t) == 0
    ensures YearAt(t) == YearAt(now) + 1
  {
    var n := DayOf(Date(YearAt(now) + 1, 1, 15));
    t := StartOfDay(n);
    TimeOfDay(n, 0, 0, 0);
    if t <= now { MonthIndexMonotone(t, now); }
  }

  /** An expression that fires after every start and that the iterator gives up on from every start. */
  lemma FirstMondayBlocksFifteenth(now: nat, maxYears: nat) returns (t: nat)
    ensures WellFormed(FIFTEENTH_OR_FIRST_MONDAY) && now < t && Fires(FIFTEENTH_OR_FIRST_MONDAY, t)
    ensures NextFire(FIFTEENTH_OR_FIRST_MONDAY, now, maxYears) == None
  {
    var e := FIFTEENTH_OR_FIRST_MONDAY;
    t := FifteenthOfNextYear(now);
    assert 15 in e.day.values;
    SimpleDaysAreSafe(e);
    assert !MatchInSpan(OnlyDays(e), now, maxYears) by {
      forall u: nat ensures !Matches(OnlyDays(e), u) { FifteenthIsNoFirstMonday(u); }
    }
    NextFireSucceedsIff(e, now, maxYears);
  }

  // -------------------------------------- skipping jumps behind the weekday column

  lemma NextMatches(e: Expression, now: nat, maxYears: nat)
    requires WellFormed(e) && Next(e, now, maxYears).Some?
    ensures Matches(e, Next(e, now, maxYears).value)
  {
    SearchMatches(e, FirstTry(e, now), LastYear(e, now, maxYears));
  }

  /** Without a restricted day of the month nothing can be skipped. */
  lemma WeekdaySideIsLeast(e: Expression, maxYears: nat)
    requires WellFormed(e)
    ensures Exactly(SearchOf(OnlyWeekdays(e), maxYears), MatchesOf(OnlyWeekdays(e)))
  {
    var search, w := SearchOf(OnlyWeekdays(e), maxYears), MatchesOf(OnlyWeekdays(e));
    forall now: nat, t: nat | search(now) == Some(t) ensures IsFirst(w, now, t) {
      NextIsLeast(OnlyWeekdays(e), now, maxYears);
    }
  }

  /** What a search finds is a match after its start, even if it may skip. */
  lemma DaySideMatches(e: Expression, maxYears: nat)
    requires WellFormed(e)
    ensures forall now: nat, t: nat :: SearchOf(e, maxYears)(now) == Some(t) ==> now < t && MatchesOf(e)(t)
  {
    forall now: nat, t: nat | SearchOf(e, maxYears)(now) == Some(t) ensures now < t && MatchesOf(e)(t) {
      NextGoesForward(e, now, maxYears);
      NextMatches(e, now, maxYears);
    }
  }

  /** The earlier of two answers, if there are both. */
  ghost predicate IsEarlier(answer: nat -> Option<nat>, t1: nat -> Option<nat>, t2: nat -> Option<nat>) {
    forall now: nat :: answer(now) ==
      if t1(now).None? || t2(now).None? then None else if t1(now).value < t2(now).value then t1(now) else t2(now)
  }

  ghost predicate IsUnion(f: nat -> bool, d: nat -> bool, w: nat -> bool) {
    forall u: nat :: f(u) <==> d(u) || w(u)
  }

  lemma UnionOf(e: Expression, maxYears: nat)
    requires WellFormed(e) && BothDaysRestricted(e) && e.nth == map[]
    ensures IsEarlier(AnswersOf(e, maxYears), SearchOf(OnlyDays(e), maxYears), SearchOf(OnlyWeekdays(e), maxYears))
    ensures IsUnion(FiringsOf(e), MatchesOf(OnlyDays(e)), MatchesOf(OnlyWeekdays(e)))
  {
    forall u: nat ensures FiringsOf(e)(u) <==> MatchesOf(OnlyDays(e))(u) || MatchesOf(OnlyWeekdays(e))(u) {
      FiresIsUnion(e, u);
    }
  }

  lemma MaskedAnswers(answer: nat -> Option<nat>, t1: nat -> Option<nat>, t2: nat -> Option<nat>,
                      f: nat -> bool, d: nat -> bool, w: nat -> bool)
    requires IsEarlier(answer, t1, t2) && IsUnion(f, d, w) && Exactly(t2, w) && (forall u: nat :: d(u) ==> w(u))
    requires forall now: nat, t: nat :: t1(now) == Some(t) ==> now < t && d(t)
    ensures Exactly(answer, f)
  {
    forall now: nat, t: nat | answer(now) == Some(t) ensures IsFirst(f, now, t) {
      assert IsFirst(w, now, t2(now).value);
    }
  }

  /** A weekday column that lists all seven days masks every skip. */
  lemma AllWeekdaysMask(e: Expression, maxYears: nat)
    requires WellFormed(e) && BothDaysRestricted(e) && e.nth == map[]
    requires forall w :: 0 <= w < 7 ==> w in e.weekday.values
    ensures Exactly(AnswersOf(e, maxYears), FiringsOf(e))
  {
    UnionOf(e, maxYears);
    DaySideMatches(OnlyDays(e), maxYears);
    WeekdaySideIsLeast(e, maxYears);
    forall u: nat ensures MatchesOf(OnlyDays(e))(u) ==> MatchesOf(OnlyWeekdays(e))(u) {}
    MaskedAnswers(AnswersOf(e, maxYears), SearchOf(OnlyDays(e), maxYears), SearchOf(OnlyWeekdays(e), maxYears),
                  FiringsOf(e), MatchesOf(OnlyDays(e)), MatchesOf(OnlyWeekdays(e)));
  }

  /** One pass of the search at `v` jumps over the match `u`. */
  predicate JumpsOver(e: Expression, v: nat, u: nat)
    requires WellFormed(e)
  {
    Pass(e, 0, v).Moved? && Settled(e, v) <= u < Pass(e, 0, v).t && Matches(e, u)
  }

  /** A match that a search misses is jumped over by one of its passes, from which it still finds something. */
  lemma {:induction false} SearchMisses(e: Expression, t: nat, lastYear: int, u: nat) returns (v: nat)
    requires WellFormed(e) && 0 <= lastYear && Search(e, t, lastYear).Some?
    requires Settled(e, t) <= u < Search(e, t, lastYear).value && Matches(e, u)
    ensures t <= v && JumpsOver(e, v, u) && Search(e, v, lastYear).Some?
    decreases YearEnd(lastYear) - t
  {
    BeforeYearEnd(t, lastYear);
    PassAdvances(e, 0, t);
    if u < Pass(e, 0, t).t {
      v := t;
    } else {
      MovedSettled(e, t);
      v := SearchMisses(e, Pass(e, 0, t).t, lastYear, u);
    }
  }

  /** More years do not change what is found. */
  lemma {:induction false} SearchLonger(e: Expression, t: nat, lastYear: int, later: int)
    requires WellFormed(e) && 0 <= lastYear <= later && Search(e, t, lastYear).Some?
    ensures Search(e, t, later) == Search(e, t, lastYear)
    decreases YearEnd(lastYear) - t
  {
    BeforeYearEnd(t, lastYear);
    PassAdvances(e, 0, t);
    if Pass(e, 0, t).Moved? { SearchLonger(e, Pass(e, 0, t).t, lastYear, later); }
  }

  /** A search that starts after `n` jumps over the match `u` in its first pass. */
  function JumpsOf(e: Expression): (nat, nat) -> bool
    requires WellFormed(e)
  {
    (n: nat, u: nat) => JumpsOver(e, FirstTry(e, n), u)
  }

  /** Then its answer comes after the match. */
  lemma JumpMakesLate(e: Expression, n: nat, u: nat, maxYears: nat)
    requires WellFormed(e) && JumpsOver(e, FirstTry(e, n), u) && Next(e, n, maxYears).Some?
    ensures n < u < Next(e, n, maxYears).value
  {
    var v := FirstTry(e, n);
    MovedSettled(e, v);
    SearchGoesForward(e, Pass(e, 0, v).t, LastYear(e, n, maxYears));
    FirstTryMisses(e, n, u);
  }

  /** A match that the search misses is jumped over in the first pass from some later start, which still answers. */
  lemma MissedByJump(e: Expression, now: nat, u: nat, maxYears: nat) returns (n: nat)
    requires WellFormed(e) && Next(e, now, maxYears).Some? && now < u < Next(e, now, maxYears).value && Matches(e, u)
    ensures now <= n && JumpsOver(e, FirstTry(e, n), u) && Next(e, n, maxYears).Some?
  {
    FirstTryMisses(e, now, u);
    var v := SearchMisses(e, FirstTry(e, now), LastYear(e, now, maxYears), u);
    n := v - FirstTry(e, 0);
    assert FirstTry(e, n) == v;
    AnswersFromLater(e, now, n, maxYears);
  }

  lemma AnswersFromLater(e: Expression, now: nat, n: nat, maxYears: nat)
    requires WellFormed(e) && now <= n && Search(e, FirstTry(e, n), LastYear(e, now, maxYears)).Some?
    ensures Next(e, n, maxYears).Some?
  {
    LastYearGrows(e, now, n, maxYears);
    SearchLonger(e, FirstTry(e, n), LastYear(e, now, maxYears), LastYear(e, n, maxYears));
  }

  /** The weekday search still answers from a start before its answer. */
  lemma WeekdaySideLasts(e: Expression, now: nat, n: nat, maxYears: nat)
    requires WellFormed(e) && SkipFree(e) && Next(e, now, maxYears).Some? && now <= n < Next(e, now, maxYears).value
    ensures Next(e, n, maxYears).Some?
  {
    NextMatches(e, now, maxYears);
    NextInSpan(e, now, maxYears);
    LastYearGrows(e, now, n, maxYears);
    NextIsLeast(e, n, maxYears);
  }

  /** A jump over a match shows: both searches answer, and no weekday fires up to the match. */
  ghost predicate Exposed(e: Expression, n: nat, u: nat, maxYears: nat)
    requires WellFormed(e)
  {
    && JumpsOf(OnlyDays(e))(n, u)
    && SearchOf(OnlyDays(e), maxYears)(n).Some? && SearchOf(OnlyWeekdays(e), maxYears)(n).Some?
    && NoneUpTo(MatchesOf(OnlyWeekdays(e)), n, u)
  }

  ghost predicate NoneUpTo(w: nat -> bool, n: nat, u: nat) {
    forall x: nat :: n < x <= u ==> !w(x)
  }

  lemma ShownIsWrong(answer: nat -> Option<nat>, t1: nat -> Option<nat>, t2: nat -> Option<nat>,
                     f: nat -> bool, d: nat -> bool, w: nat -> bool, n: nat, u: nat)
    requires IsEarlier(answer, t1, t2) && IsUnion(f, d, w) && t1(n).Some? && t2(n).Some?
    requires IsFirst(w, n, t2(n).value) && n < u < t1(n).value && d(u) && NoneUpTo(w, n, u)
    ensures answer(n).Some? && !IsFirst(f, n, answer(n).value)
  {
    assert n < u < answer(n).value && f(u);
  }

  lemma ExposedIsWrong(e: Expression, n: nat, u: nat, maxYears: nat)
    requires WellFormed(e) && BothDaysRestricted(e) && e.nth == map[] && Exposed(e, n, u, maxYears)
    ensures var t := AnswersOf(e, maxYears)(n); t.Some? && !IsFirst(FiringsOf(e), n, t.value)
  {
    UnionOf(e, maxYears);
    WeekdaySideIsLeast(e, maxYears);
    JumpMakesLate(OnlyDays(e), n, u, maxYears);
    ShownIsWrong(AnswersOf(e, maxYears), SearchOf(OnlyDays(e), maxYears), SearchOf(OnlyWeekdays(e), maxYears),
                 FiringsOf(e), MatchesOf(OnlyDays(e)), MatchesOf(OnlyWeekdays(e)), n, u);
  }

  /** A firing before the answer is one that the day search misses. */
  lemma FirstMissed(answer: nat -> Option<nat>, t1: nat -> Option<nat>, t2: nat -> Option<nat>,
                    f: nat -> bool, d: nat -> bool, w: nat -> bool, now: nat)
    returns (u: nat)
    requires IsEarlier(answer, t1, t2) && IsUnion(f, d, w) && answer(now).Some?
    requires IsFirst(w, now, t2(now).value) && now < t1(now).value && d(t1(now).value)
    requires !IsFirst(f, now, answer(now).value)
    ensures t1(now).Some? && t2(now).Some? && now < u < t1(now).value && u < t2(now).value && d(u)
    ensures NoneUpTo(w, now, u)
  {
    u :| now < u < answer(now).value && f(u);
  }

  /** Such a miss is exposed by a start from which it is jumped over at once. */
  lemma MissedIsExposed(e: Expression, now: nat, u: nat, maxYears: nat) returns (n: nat)
    requires WellFormed(e) && Next(OnlyDays(e), now, maxYears).Some? && Next(OnlyWeekdays(e), now, maxYears).Some?
    requires now < u < Next(OnlyDays(e), now, maxYears).value && u < Next(OnlyWeekdays(e), now, maxYears).value
    requires Matches(OnlyDays(e), u) && NoneUpTo(MatchesOf(OnlyWeekdays(e)), now, u)
    ensures Exposed(e, n, u, maxYears)
  {
    n := MissedByJump(OnlyDays(e), now, u, maxYears);
    JumpMakesLate(OnlyDays(e), n, u, maxYears);
    WeekdaySideLasts(OnlyWeekdays(e), now, n, maxYears);
  }

  lemma WrongIsExposed(e: Expression, now: nat, maxYears: nat) returns (n: nat, u: nat)
    requires WellFormed(e) && BothDaysRestricted(e) && e.nth == map[]
    requires var t := AnswersOf(e, maxYears)(now); t.Some? && !IsFirst(FiringsOf(e), now, t.value)
    ensures Exposed(e, n, u, maxYears)
  {
    var t1, t2 := SearchOf(OnlyDays(e), maxYears), SearchOf(OnlyWeekdays(e), maxYears);
    UnionOf(e, maxYears);
    WeekdaySideIsLeast(e, maxYears);
    DaySideMatches(OnlyDays(e), maxYears);
    assert t1(now) == Some(t1(now).value) && t2(now) == Some(t2(now).value);
    u := FirstMissed(AnswersOf(e, maxYears), t1, t2, FiringsOf(e), MatchesOf(OnlyDays(e)),
                     MatchesOf(OnlyWeekdays(e)), now);
    n := MissedIsExposed(e, now, u, maxYears);
  }

  /**
   Every answer of the union is the first firing if and only if no start exposes a jump of the day column
   over a match: a weekday that fires in time masks it.
   */
  lemma UnionExactIff(e: Expression, maxYears: nat)
    requires WellFormed(e) && BothDaysRestricted(e) && e.nth == map[]
    ensures Exactly(AnswersOf(e, maxYears), FiringsOf(e)) <==> forall n: nat, u: nat :: !Exposed(e, n, u, maxYears)
  {
    var answer, f := AnswersOf(e, maxYears), FiringsOf(e);
    forall n: nat, u: nat | Exposed(e, n, u, maxYears)
      ensures answer(n).Some? && !IsFirst(f, n, answer(n).value)
    {
      ExposedIsWrong(e, n, u, maxYears);
    }
    forall now: nat, t: nat | answer(now) == Some(t) && !IsFirst(f, now, t)
      ensures exists n: nat, u: nat :: Exposed(e, n, u, maxYears)
    {
      var n, u := WrongIsExposed(e, now, maxYears);
    }
  }

  // ------------------------------------------------------- when there is an answer

  /** A search from `t` jumps over `u` on its way. */
  ghost predicate JumpedOver(e: Expression, t: nat, lastYear: int, u: nat)
    requires WellFormed(e) && 0 <= lastYear
    decreases YearEnd(lastYear) - t
  {
    && YearAt(t) <= lastYear
    && (BeforeYearEnd(t, lastYear);
        PassAdvances(e, 0, t);
        match Pass(e, 0, t)
        case Moved(t') => Settled(e, t) <= u < t' || JumpedOver(e, t', lastYear, u)
        case _ => false)
  }

  /** What the search finds it does not jump over. */
  lemma {:induction false} FoundNotJumped(e: Expression, t: nat, lastYear: int)
    requires WellFormed(e) && 0 <= lastYear && Search(e, t, lastYear).Some?
    ensures !JumpedOver(e, t, lastYear, Search(e, t, lastYear).value)
    decreases YearEnd(lastYear) - t
  {
    BeforeYearEnd(t, lastYear);
    PassAdvances(e, 0, t);
    if Pass(e, 0, t).Moved? {
      var t' := Pass(e, 0, t).t;
      FoundNotJumped(e, t', lastYear);
      MovedSettled(e, t);
      SearchGoesForward(e, t', lastYear);
    }
  }

  /** A match in the span that is not jumped over is found, or something before it is. */
  lemma {:induction false} NotJumpedIsFound(e: Expression, t: nat, lastYear: int, u: nat)
    requires WellFormed(e) && 0 <= lastYear && Settled(e, t) <= u && YearAt(u) <= lastYear && Matches(e, u)
    requires !JumpedOver(e, t, lastYear, u)
    ensures Search(e, t, lastYear).Some?
    decreases YearEnd(lastYear) - t
  {
    SettledFields(e, t);
    MonthIndexMonotone(t, u);
    BeforeYearEnd(t, lastYear);
    PassAdvances(e, 0, t);
    match Pass(e, 0, t) {
      case Same =>
      case Exhausted => PassExhausted(e, t, u);
      case Moved(t') =>
        MovedSettled(e, t);
        NotJumpedIsFound(e, t', lastYear, u);
    }
  }

  /** A match after `now` in the span that a search from `first` does not jump over. */
  ghost predicate FindableAt(e: Expression, now: nat, first: nat, lastYear: int, u: nat)
    requires WellFormed(e) && 0 <= lastYear
  {
    now < u && YearAt(u) <= lastYear && Matches(e, u) && !JumpedOver(e, first, lastYear, u)
  }

  lemma FromStart(e: Expression, now: nat, u: nat)
    requires WellFormed(e) && now < u && Matches(e, u)
    ensures Settled(e, FirstTry(e, now)) <= u
  {
    FirstTryMisses(e, now, u);
  }

  lemma FindableIsFound(e: Expression, now: nat, first: nat, lastYear: int, u: nat)
    requires WellFormed(e) && 0 <= lastYear && first == FirstTry(e, now) && FindableAt(e, now, first, lastYear, u)
    ensures Search(e, first, lastYear).Some?
  {
    FromStart(e, now, u);
    NotJumpedIsFound(e, first, lastYear, u);
  }

  lemma FoundIsFindable(e: Expression, now: nat, first: nat, lastYear: int)
    requires WellFormed(e) && 0 <= lastYear && first == FirstTry(e, now) && Search(e, first, lastYear).Some?
    ensures FindableAt(e, now, first, lastYear, Search(e, first, lastYear).value)
  {
    SearchMatches(e, first, lastYear);
    SearchInSpan(e, first, lastYear);
    SearchGoesForward(e, first, lastYear);
    FirstTryMisses(e, now, Search(e, first, lastYear).value);
    FoundNotJumped(e, first, lastYear);
  }

  ghost predicate FindableFrom(e: Expression, now: nat, first: nat, lastYear: int)
    requires WellFormed(e) && 0 <= lastYear
  {
    exists u: nat :: FindableAt(e, now, first, lastYear, u)
  }

  lemma FindsIff(e: Expression, now: nat, first: nat, lastYear: int)
    requires WellFormed(e) && 0 <= lastYear && first == FirstTry(e, now)
    ensures Search(e, first, lastYear).Some? <==> FindableFrom(e, now, first, lastYear)
  {
    if Search(e, first, lastYear).Some? {
      FoundIsFindable(e, now, first, lastYear);
    } else if u: nat :| FindableAt(e, now, first, lastYear, u) {
      FindableIsFound(e, now, first, lastYear, u);
    }
  }

  /** Some match after `now` in the span is not jumped over. */
  ghost predicate Findable(e: Expression, now: nat, maxYears: nat)
    requires WellFormed(e)
  {
    FindableFrom(e, now, FirstTry(e, now), LastYear(e, now, maxYears))
  }

  /** A search succeeds if and only if some match in the span is not jumped over. */
  lemma SearchSucceedsIff(e: Expression, now: nat, maxYears: nat)
    requires WellFormed(e)
    ensures Next(e, now, maxYears).Some? <==> Findable(e, now, maxYears)
  {
    FindsIff(e, now, FirstTry(e, now), LastYear(e, now, maxYears));
  }

  /** When the iterator answers, for every expression. */
  lemma AnswersIff(e: Expression, now: nat, maxYears: nat)
    requires WellFormed(e)
    ensures NextFire(e, now, maxYears).Some? <==>
            if BothDaysRestricted(e)
            then Findable(OnlyDays(e), now, maxYears) && Findable(OnlyWeekdays(e), now, maxYears)
            else Findable(e, now, maxYears)
  {
    if BothDaysRestricted(e) {
      SearchSucceedsIff(OnlyDays(e), now, maxYears);
      SearchSucceedsIff(OnlyWeekdays(e), now, maxYears);
    } else {
      SearchSucceedsIff(e, now, maxYears);
    }
  }
}
