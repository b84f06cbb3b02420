/**
 The search finds the least matching instant, exactly for the expressions whose
 day-of-month jumps cannot pass over a matching day.
 */
module CronCorrectness {
  import opened Values
  import opened Calendar
  import opened CronExpression
  import opened CronSearch

  // ------------------------------------------- when a day-of-month jump is harmless

  /** Some year of this kind is allowed by the year column. */
  predicate YearKindAllowed(e: Expression, leap: bool) {
    e.columns != YEAR_COLUMNS || e.year.Star? || exists y :: y in e.year.values && IsLeap(y) == leap
  }

  /**
   From day `x` of a month, the next listed day lies beyond the month's end, and the jump
   to it passes over the last day that `l` asks for or over a listed day of the next month.
   */
  predicate JumpSkips(e: Expression, month: int, length: int, x: int) {
    && e.day.Days?
    && FirstFrom(e.day.values, x).Some?
    && var v := FirstFrom(e.day.values, x).value;
       && length < v
       && !(e.day.last && x == length)
       && ((e.day.last && x < length)
           || (Allows(e.month, month % 12 + 1) && exists j :: j in e.day.values && j < v - length))
  }

  /** No allowed month, in an allowed kind of year, has a day from which the jump skips a match. */
  predicate SkipFree(e: Expression) {
    forall month, leap, x ::
      1 <= month <= 12 && Allows(e.month, month) && YearKindAllowed(e, leap)
      && 1 <= x <= MonthLength(leap, month)
      ==> !JumpSkips(e, month, MonthLength(leap, month), x)
  }

  // ------------------------------------------------- unchanged fields match

  lemma SameSteps(e: Expression, t: nat)
    requires WellFormed(e) && Pass(e, 0, t) == Same
    ensures ProcYear(e, t) == ProcMonth(e, t) == ProcDay(e, t) == Same
    ensures (if e.nth != map[] then ProcNthWeekday(e, t) else ProcWeekday(e, t)) == Same
    ensures ProcHour(e, t) == ProcMinute(e, t) == ProcSecond(e, t) == Same
  {
    assert Process(e, 0, t) == Same && Pass(e, 1, t) == Same;
    assert Process(e, 1, t) == Same && Pass(e, 2, t) == Same;
    assert Process(e, 2, t) == Same && Pass(e, 3, t) == Same;
    assert Process(e, 3, t) == Same && Pass(e, 4, t) == Same;
    assert Process(e, 4, t) == Same && Pass(e, 5, t) == Same;
    assert Process(e, 5, t) == Same && Pass(e, 6, t) == Same;
  }

  lemma SameDate(e: Expression, t: nat)
    requires WellFormed(e)
    ensures ProcYear(e, t) == Same ==> YearMatches(e, t)
    ensures ProcMonth(e, t) == Same ==> MonthMatches(e, t)
    ensures ProcDay(e, t) == Same ==> DayMatches(e, t)
    ensures ProcWeekday(e, t) == Same ==> Allows(e.weekday, WeekdayAt(t))
  {
    if e.year.Entries? { FirstFromLeast(e.year.values, YearAt(t)); }
    if e.month.Entries? { NearestDiffSkips(MonthAt(t), e.month.values, 1, 12, 0); }
    if e.day.Days? { DayDiffForward(DayAt(t), e.day, DaysInMonth(YearAt(t), MonthAt(t))); }
    if e.weekday.Entries? { NearestDiffSkips(WeekdayAt(t), e.weekday.values, 0, 7, 0); }
  }

  lemma SameHour(e: Expression, t: nat)
    requires WellFormed(e) && ProcHour(e, t) == Same
    ensures Allows(e.hour, HourAt(t))
  {
    if e.hour.Entries? { NearestDiffSkips(HourAt(t), e.hour.values, 0, 24, 0); }
  }

  lemma SameMinute(e: Expression, t: nat)
    requires WellFormed(e) && ProcMinute(e, t) == Same
    ensures Allows(e.minute, MinuteAt(t))
  {
    if e.minute.Entries? { NearestDiffSkips(MinuteAt(t), e.minute.values, 0, 60, 0); }
  }

  lemma SameSecond(e: Expression, t: nat)
    requires WellFormed(e) && ProcSecond(e, t) == Same
    ensures SecondMatches(e, Settled(e, t))
  {
    if e.second.Entries? { NearestDiffSkips(SecondAt(t), e.second.values, 0, 60, 0); }
  }

  /** Cutting to the minute changes only the seconds. */
  lemma SettledFields(e: Expression, t: nat)
    ensures var s := Settled(e, t);
            s <= t && s / 60 == t / 60 && s / 3600 == t / 3600 && s / DAY == t / DAY
  {
  }

  // ----------------------------------------------------- jumps skip no match

  lemma YearSkips(e: Expression, t: nat, u: nat)
    requires WellFormed(e) && ProcYear(e, t).Moved? && t / DAY <= u / DAY && u < ProcYear(e, t).t
    ensures !YearMatches(e, u)
  {
    FirstFromLeast(e.year.values, YearAt(t));
    MonthOrder(u, 12 * FirstFrom(e.year.values, YearAt(t)).value);
    MonthIndexMonotone(t, u);
  }

  lemma YearExhausted(e: Expression, t: nat, u: nat)
    requires WellFormed(e) && ProcYear(e, t).Exhausted? && t / DAY <= u / DAY
    ensures !YearMatches(e, u)
  {
    FirstFromLeast(e.year.values, YearAt(t));
    MonthIndexMonotone(t, u);
  }

  /** Counting months forward by less than a year wraps at most once. */
  lemma MonthWraps(a: Date, b: Date)
    requires 1 <= a.month <= 12 && 1 <= b.month <= 12
    requires 0 <= MonthIndex(b) - MonthIndex(a) < 12
    ensures var k := MonthIndex(b) - MonthIndex(a);
            b.month == if a.month + k < 13 then a.month + k else a.month + k - 12
  {
  }

  lemma MonthsBefore(t: nat, u: nat, k: nat)
    requires t / DAY <= u / DAY && u < MonthStart(MonthIndex(DateAt(t)) + k)
    ensures 0 <= MonthIndex(DateAt(u)) - MonthIndex(DateAt(t)) < k
  {
    MonthOrder(u, MonthIndex(DateAt(t)) + k);
    MonthIndexMonotone(t, u);
  }

  lemma MonthSkips(e: Expression, t: nat, u: nat)
    requires WellFormed(e) && ProcMonth(e, t).Moved? && t / DAY <= u / DAY && u < ProcMonth(e, t).t
    ensures !MonthMatches(e, u)
  {
    NearestDiffSkips(MonthAt(t), e.month.values, 1, 12, MonthIndex(DateAt(u)) - MonthIndex(DateAt(t)));
    MonthsBefore(t, u, NextNearestDiff(MonthAt(t), e.month.values, 12));
    MonthWraps(DateAt(t), DateAt(u));
  }

  /** Counting forward by less than a cycle wraps at most once. */
  lemma WrapsWeek(a: nat, k: nat)
    requires k < 7
    ensures (a + k) % 7 == if a % 7 + k < 7 then a % 7 + k else a % 7 + k - 7
  {
  }

  lemma WrapsDay(a: nat, k: nat)
    requires k < 24
    ensures (a + k) % 24 == if a % 24 + k < 24 then a % 24 + k else a % 24 + k - 24
  {
  }

  lemma WrapsHour(a: nat, k: nat)
    requires k < 60
    ensures (a + k) % 60 == if a % 60 + k < 60 then a % 60 + k else a % 60 + k - 60
  {
  }

  lemma WeekdaySkips(e: Expression, t: nat, u: nat)
    requires WellFormed(e) && ProcWeekday(e, t).Moved? && t / DAY <= u / DAY && u < ProcWeekday(e, t).t
    ensures !Allows(e.weekday, WeekdayAt(u))
  {
    var k := u / DAY - t / DAY;
    NearestDiffSkips(WeekdayAt(t), e.weekday.values, 0, 7, k);
    WrapsWeek(t / DAY + 1, k);
  }

  lemma HourSkips(e: Expression, t: nat, u: nat)
    requires WellFormed(e) && ProcHour(e, t).Moved? && t / 3600 <= u / 3600 && u < ProcHour(e, t).t
    ensures !Allows(e.hour, HourAt(u))
  {
    var k := u / 3600 - t / 3600;
    NearestDiffSkips(HourAt(t), e.hour.values, 0, 24, k);
    WrapsDay(t / 3600, k);
  }

  lemma MinuteSkips(e: Expression, t: nat, u: nat)
    requires WellFormed(e) && ProcMinute(e, t).Moved? && t / 60 <= u / 60 && u < ProcMinute(e, t).t
    ensures !Allows(e.minute, MinuteAt(u))
  {
    var k := u / 60 - t / 60;
    NearestDiffSkips(MinuteAt(t), e.minute.values, 0, 60, k);
    WrapsHour(t / 60, k);
  }

  lemma SecondSkips(e: Expression, t: nat, u: nat)
    requires WellFormed(e) && ProcSecond(e, t).Moved? && t <= u < ProcSecond(e, t).t
    ensures !SecondMatches(e, u)
  {
    NearestDiffSkips(SecondAt(t), e.second.values, 0, 60, u - t);
    WrapsHour(t, u - t);
  }

  // ------------------------------------------------------------ day-of-month jumps

  /** A jump that is no skipping one passes over no listed day. */
  lemma HarmlessJump(e: Expression, t: nat, u: nat)
    requires WellFormed(e) && ProcDay(e, t).Moved? && t / DAY <= u / DAY && u < ProcDay(e, t).t
    requires !JumpSkips(e, MonthAt(t), DaysInMonth(YearAt(t), MonthAt(t)), DayAt(t))
    ensures !(MonthMatches(e, u) && DayMatches(e, u))
  {
    var n, d := t / DAY, DateAt(t);
    var x, length := d.day, DaysInMonth(d.year, d.month);
    var k := u / DAY - n;
    FirstFromLeast(e.day.values, x);
    if x + k <= length {
      DateWithinMonth(n, k);
      assert DateOf(n + k) == DateAt(u);
    } else {
      DayPastMonth(e, t, u, x + k - length);
    }
  }

  lemma DaySkips(e: Expression, t: nat, u: nat)
    requires WellFormed(e) && SkipFree(e) && YearMatches(e, t) && MonthMatches(e, t)
    requires ProcDay(e, t).Moved? && t / DAY <= u / DAY && u < ProcDay(e, t).t
    ensures !(MonthMatches(e, u) && DayMatches(e, u))
  {
    assert !JumpSkips(e, MonthAt(t), DaysInMonth(YearAt(t), MonthAt(t)), DayAt(t)) by {
      assert YearKindAllowed(e, IsLeap(YearAt(t)));
    }
    HarmlessJump(e, t, u);
  }

  /**
   A day passed over beyond the month's end is not listed: day `j` of the next month, or,
   when that month is shorter than `j`, an even earlier day of the one after it.
   */
  lemma LaterDayNotListed(e: Expression, month: int, length: int, x: int, j: int, day: int, dayLength: int)
    requires WellFormed(e) && e.day.Days? && 1 <= x <= length && 28 <= length && 28 <= dayLength
    requires !(e.day.last && x == length) && !JumpSkips(e, month, length, x)
    requires 1 <= j && length - x + j < NextDayDiff(x, e.day, length)
    requires day == j || (28 < j && day < j)
    ensures !(Allows(e.month, month % 12 + 1) && DayAllowed(e.day, day, dayLength)) || 28 < j
    ensures 28 < j ==> !DayAllowed(e.day, day, dayLength)
  {
    FirstFromLeast(e.day.values, x);
    assert forall v :: v in e.day.values ==> e.day.values[0] <= v;
  }

  lemma DayPastMonth(e: Expression, t: nat, u: nat, j: int)
    requires WellFormed(e) && e.day.Days? && !(e.day.last && DayAt(t) == DaysInMonth(YearAt(t), MonthAt(t)))
    requires var length := DaysInMonth(YearAt(t), MonthAt(t));
             && !JumpSkips(e, MonthAt(t), length, DayAt(t))
             && u / DAY == t / DAY + length - DayAt(t) + j
             && 1 <= j && length - DayAt(t) + j < NextDayDiff(DayAt(t), e.day, length)
    ensures !(MonthMatches(e, u) && DayMatches(e, u))
  {
    DayDiffForward(DayAt(t), e.day, DaysInMonth(YearAt(t), MonthAt(t)));
    var d := DateAt(t);
    PastMonthDate(t / DAY, j);
    assert DateAt(u) == DateOf(t / DAY + (DaysInMonth(d.year, d.month) - d.day + j));
    DateNotListed(e, d, DateAt(u), j);
  }

  lemma DateNotListed(e: Expression, d: Date, m: Date, j: int)
    requires WellFormed(e) && e.day.Days? && ValidDate(d) && ValidDate(m) && 1 <= j
    requires var length := DaysInMonth(d.year, d.month);
             && !(e.day.last && d.day == length) && !JumpSkips(e, d.month, length, d.day)
             && length - d.day + j < NextDayDiff(d.day, e.day, length)
    requires (m.day == j && m.month == d.month % 12 + 1) || (28 < j && m.day < j)
    ensures !(Allows(e.month, m.month) && DayAllowed(e.day, m.day, DaysInMonth(m.year, m.month)))
  {
    LaterDayNotListed(e, d.month, DaysInMonth(d.year, d.month), d.day, j, m.day, DaysInMonth(m.year, m.month));
  }

  /** The date `j` days after the end of the month of day `n`. */
  lemma PastMonthDate(n: nat, j: int)
    requires 1 <= j <= 31
    ensures var d := DateOf(n);
            var k := DaysInMonth(d.year, d.month) - d.day + j;
            var e := DateOf(n + k);
            (e.day == j && e.month == d.month % 12 + 1) || (28 < j && e.day < j)
  {
    var d := DateOf(n);
    var next := NextMonth(d);
    if j <= DaysInMonth(next.year, next.month) {
      DateInNextMonth(n, j);
    } else {
      PastNextMonth(n, j);
    }
  }

  /** Past the next month too, the day of the month is smaller. */
  lemma PastNextMonth(n: nat, j: int)
    requires j <= 31
    requires var next := NextMonth(DateOf(n)); DaysInMonth(next.year, next.month) < j
    ensures var d := DateOf(n);
            28 < j && DateOf(n + (DaysInMonth(d.year, d.month) - d.day + j)).day < j
  {
    var d := DateOf(n);
    var next := NextMonth(d);
    var nextLength := DaysInMonth(next.year, next.month);
    DateInNextMonth(n, 1);
    var m := n + (DaysInMonth(d.year, d.month) - d.day + 1);
    assert DateOf(m) == next;
    DateInNextMonth(m, j - nextLength);
    assert m + (nextLength - next.day + (j - nextLength)) == n + (DaysInMonth(d.year, d.month) - d.day + j);
  }

  // -------------------------------------------------------------- `#` and `l` jumps

  lemma {:induction false} EverySeventhDayAt(day: int, length: int)
    ensures var s := EverySeventhDay(day, length);
            && (forall i :: 0 <= i < |s| ==> s[i] == day + 7 * i)
            && (day <= length ==> |s| == (length - day) / 7 + 1)
            && (day > length ==> s == [])
    decreases length - day
  {
    if day <= length { EverySeventhDayAt(day + 7, length); }
  }

  /** Indexing the list of every seventh day agrees with the day arithmetic of `IsOccurrence`. */
  lemma CandidateIsOccurrence(first: int, length: int, o: Ordinal, day: int)
    requires 1 <= first <= 7 && 28 <= length <= 31 && 1 <= day <= length && (o.Nth? ==> 1 <= o.n)
    ensures Candidate(EverySeventhDay(first, length), o) == Some(day)
            <==> (day - first) % 7 == 0 && IsOccurrence(day, length, o)
  {
    EverySeventhDayAt(first, length);
    var q := (day - first) / 7;
    assert (day - first) % 7 == 0 ==> day == first + 7 * q && 0 <= q <= 4;
  }

  lemma FirstWeekdayCongruent(b: int, w: int, day: int)
    ensures var first := 1 + (w - b) % 7;
            1 <= first <= 7 && (w % 7 == (b + day - 1) % 7 <==> (day - first) % 7 == 0)
  {
  }

  lemma OccurrenceIsCandidate(first: int, length: int, w: int, o: Ordinal, day: int)
    requires 28 <= length <= 31 && 1 <= day <= length && (o.Nth? ==> 1 <= o.n)
    ensures Candidate(NthWeekdays(first, length, w), o) == Some(day)
            <==> w % 7 == (first + day) % 7 && IsOccurrence(day, length, o)
  {
    FirstWeekdayCongruent(first + 1, w, day);
    CandidateIsOccurrence(FirstWeekday(first, w), length, o, day);
  }

  /** A day is among the selected days of its month exactly when some entry selects it. */
  lemma NthIffCandidate(nth: map<int, set<Ordinal>>, first: int, length: int, day: int, x: int)
    requires 28 <= length <= 31 && 1 <= day <= length && x <= day
    requires forall w, o :: w in nth && o in nth[w] && o.Nth? ==> 1 <= o.n
    ensures NthAllowed(nth, (first + day) % 7, day, length) <==> day in Candidates(nth, first, length, x)
  {
    if NthAllowed(nth, (first + day) % 7, day, length) {
      var w :| w in nth && w % 7 == (first + day) % 7 && exists o :: o in nth[w] && IsOccurrence(day, length, o);
      var o :| o in nth[w] && IsOccurrence(day, length, o);
      OccurrenceIsCandidate(first, length, w, o, day);
    }
    if day in Candidates(nth, first, length, x) {
      var w, o :| w in nth && o in nth[w] && Candidate(NthWeekdays(first, length, w), o) == Some(day);
      OccurrenceIsCandidate(first, length, w, o, day);
    }
  }

  /** The days that the jump passes over are days of the month, and none of them is selected. */
  lemma NthJump(e: Expression, t: nat, k: nat)
    requires WellFormed(e) && ProcNthWeekday(e, t).Moved? && StartOfDay(t / DAY + k) < ProcNthWeekday(e, t).t
    ensures var x, length := DayAt(t), DaysInMonth(YearAt(t), MonthAt(t));
            x + k <= length && x + k !in Candidates(e.nth, t / DAY - x + 1, length, x)
  {
    CandidatesInMonth(e.nth, t / DAY - DayAt(t) + 1, DaysInMonth(YearAt(t), MonthAt(t)), DayAt(t));
  }

  /** A day of the month of `t` matches exactly if it is selected. */
  lemma SelectedIff(e: Expression, d: Date, n: nat, k: nat, u: nat)
    requires WellFormed(e) && e.nth != map[] && u / DAY == n + k && ValidDate(d)
    requires d.day + k <= DaysInMonth(d.year, d.month) && DateAt(u) == Date(d.year, d.month, d.day + k)
    ensures WeekdayMatches(e, u) <==>
            d.day + k in Candidates(e.nth, n - d.day + 1, DaysInMonth(d.year, d.month), d.day)
  {
    var first, length := n - d.day + 1, DaysInMonth(d.year, d.month);
    assert WeekdayAt(u) == (first + (d.day + k)) % 7;
    NthIffCandidate(e.nth, first, length, d.day + k, d.day);
  }

  lemma LaterInMonth(t: nat, u: nat, k: nat)
    requires u / DAY == t / DAY + k && DayAt(t) + k <= DaysInMonth(YearAt(t), MonthAt(t))
    ensures DateAt(u) == Date(YearAt(t), MonthAt(t), DayAt(t) + k)
  {
    DateWithinMonth(t / DAY, k);
  }

  lemma NthSkips(e: Expression, t: nat, u: nat)
    requires WellFormed(e) && e.nth != map[]
    requires ProcNthWeekday(e, t).Moved? && t / DAY <= u / DAY && u < ProcNthWeekday(e, t).t
    ensures !WeekdayMatches(e, u)
  {
    var k := u / DAY - t / DAY;
    assert StartOfDay(t / DAY + k) <= u;
    NthJump(e, t, k);
    LaterInMonth(t, u, k);
    SelectedIff(e, DateAt(t), t / DAY, k, u);
  }

  lemma CandidatesInMonth(nth: map<int, set<Ordinal>>, first: int, length: int, x: int)
    ensures var candidates := Candidates(nth, first, length, x);
            candidates != {} ==> Least(candidates) <= length
  {
    forall w ensures forall i :: 0 <= i < |NthWeekdays(first, length, w)| ==>
                                   NthWeekdays(first, length, w)[i] <= length
    {
      EverySeventhDayAt(FirstWeekday(first, w), length);
    }
  }

  lemma NthStays(e: Expression, t: nat)
    requires WellFormed(e) && ProcNthWeekday(e, t) == Same
    ensures DayAt(t) in Candidates(e.nth, t / DAY - DayAt(t) + 1, DaysInMonth(YearAt(t), MonthAt(t)), DayAt(t))
  {
  }

  lemma SameNth(e: Expression, t: nat)
    requires WellFormed(e) && e.nth != map[] && ProcNthWeekday(e, t) == Same
    ensures WeekdayMatches(e, t)
  {
    NthStays(e, t);
    SelectedIff(e, DateAt(t), t / DAY, 0, t);
  }
}
