/**
 The forward search: the field processors, one pass over them, and the loop.
 */
module CronSearch {
  import opened Values
  import opened Calendar
  import opened CronExpression

  /** What a processor did to the date: nothing, a jump, or giving up for good. */
  datatype Adjustment = Same | Moved(t: nat) | Exhausted

  // ------------------------------------------------------------ nearest entry

  /** The first entry at or above `x`. */
  function FirstFrom(values: seq<int>, x: int): Option<int> {
    if values == [] then None
    else if values[0] >= x then Some(values[0])
    else FirstFrom(values[1..], x)
  }

  /** In an ascending list the first entry at or above `x` is the least one. */
  lemma {:induction false} FirstFromLeast(values: seq<int>, x: int)
    requires Ascending(values)
    ensures match FirstFrom(values, x)
            case None => forall v :: v in values ==> v < x
            case Some(v) => v in values && v >= x && forall w :: w in values && w >= x ==> w >= v
  {
    if values != [] && values[0] < x {
      FirstFromLeast(values[1..], x);
      assert values == [values[0]] + values[1..];
    }
  }

  /** How far the next entry is, wrapping around a field of `range` values. */
  function NextNearestDiff(x: int, values: seq<int>, range: int): int
    requires values != []
  {
    match FirstFrom(values, x)
    case Some(v) => v - x
    case None => values[0] - x + range
  }

  /** The jump of a cyclic field passes over no entry, and a zero jump means an entry was hit. */
  lemma NearestDiffSkips(x: int, values: seq<int>, low: int, range: int, k: int)
    requires values != [] && Ascending(values) && Within(values, low, low + range)
    requires low <= x < low + range
    ensures 0 <= NextNearestDiff(x, values, range) <= range
    ensures NextNearestDiff(x, values, range) == 0 ==> x in values
    ensures 0 <= k < NextNearestDiff(x, values, range) ==>
              (if x + k < low + range then x + k else x + k - range) !in values
  {
    FirstFromLeast(values, x);
    assert forall v :: v in values ==> values[0] <= v <= low + range;
  }
  /** The same for days of a month: `l` stands for the month's length and comes after the numbers. */
  function NextDayDiff(x: int, f: DayField, length: int): int
    requires f.Days? && (f.values != [] || f.last) && x <= length
  {
    match FirstFrom(f.values, x)
    case Some(v) => v - x
    case None => if f.last then length - x else f.values[0] - x + length
  }

  lemma DayDiffForward(x: int, f: DayField, length: int)
    requires WellFormedDay(f) && f.Days? && 1 <= x <= length
    ensures 0 <= NextDayDiff(x, f, length) <= length - x + 31
    ensures NextDayDiff(x, f, length) == 0 ==> DayAllowed(f, x, length)
  {
    FirstFromLeast(f.values, x);
  }

  // ------------------------------------------------------- weekdays of a month

  function EverySeventhDay(day: int, length: int): seq<int>
    decreases length - day
  {
    if day > length then [] else [day] + EverySeventhDay(day + 7, length)
  }

  /** The day on which weekday `w` first falls in a month that starts on day number `first`. */
  function FirstWeekday(first: int, w: int): int {
    1 + (w - (first + 1)) % 7
  }

  /** All days of a month on which weekday `w` falls, in order. */
  function NthWeekdays(first: int, length: int, w: int): seq<int> {
    EverySeventhDay(FirstWeekday(first, w), length)
  }

  /** The day that an ordinal selects from a month's list of weekdays, if there is one. */
  function Candidate(days: seq<int>, o: Ordinal): Option<int> {
    match o
    case Last => if days == [] then None else Some(days[|days| - 1])
    case Nth(n) => if 1 <= n <= |days| then Some(days[n - 1]) else None
  }

  /** The selected days, from day `x` on, of a month that starts on day number `first`. */
  function Candidates(nth: map<int, set<Ordinal>>, first: int, length: int, x: int): set<int> {
    set w, o | w in nth && o in nth[w]
               && Candidate(NthWeekdays(first, length, w), o).Some?
               && x <= Candidate(NthWeekdays(first, length, w), o).value
      :: Candidate(NthWeekdays(first, length, w), o).value
  }

  lemma Pick<T>(s: set<T>) returns (x: T)
    requires s != {}
    ensures x in s
  {
    x :| x in s;
  }

  lemma {:induction false} LeastExists(s: set<int>)
    requires s != {}
    ensures exists m :: m in s && forall k :: k in s ==> m <= k
  {
    var x := Pick(s);
    var rest := s - {x};
    if rest == {} {
      assert s == {x};
    } else {
      LeastExists(rest);
      var m :| m in rest && forall k :: k in rest ==> m <= k;
      var l := if m < x then m else x;
      assert l in s && forall k :: k in s ==> k == x || k in rest;
    }
  }

  function Least(s: set<int>): (m: int)
    requires s != {}
    ensures m in s && forall k :: k in s ==> m <= k
  {
    LeastExists(s);
    var m :| m in s && forall k :: k in s ==> m <= k;
    m
  }

  // --------------------------------------------------------------- processors

  /** Midnight `days` days after the day of `t`. */
  function Midnight(t: nat, days: nat): nat { StartOfDay(t / DAY + days) }

  /** The start of a minute, counted from the first one. */
  function AtMinute(minutes: nat): (t: nat)
    ensures t % 60 == 0 && t / 60 == minutes
  {
    60 * minutes
  }

  function ProcYear(e: Expression, t: nat): (o: Adjustment)
    requires WellFormed(e)
    ensures o.Moved? ==> o.t % 60 == 0
  {
    if e.columns != YEAR_COLUMNS || e.year.Star? then Same
    else
      FirstFromLeast(e.year.values, YearAt(t));
      match FirstFrom(e.year.values, YearAt(t))
      case None => Exhausted
      case Some(y) => if y == YearAt(t) then Same else Moved(MonthStart(12 * y))
  }

  function ProcMonth(e: Expression, t: nat): (o: Adjustment)
    requires WellFormed(e)
    ensures o.Moved? ==> o.t % 60 == 0
  {
    if e.month.Star? then Same
    else
      NearestDiffSkips(MonthAt(t), e.month.values, 1, 12, 0);
      var diff := NextNearestDiff(MonthAt(t), e.month.values, 12);
      if diff == 0 then Same else Moved(MonthStart(MonthIndex(DateAt(t)) + diff))
  }

  function ProcDay(e: Expression, t: nat): (o: Adjustment)
    requires WellFormed(e)
    ensures o.Moved? ==> o.t % 60 == 0
  {
    var length := DaysInMonth(YearAt(t), MonthAt(t));
    if e.day.AnyDay? || (e.day.last && length == DayAt(t)) then Same
    else
      DayDiffForward(DayAt(t), e.day, length);
      var diff := NextDayDiff(DayAt(t), e.day, length);
      if diff == 0 then Same else Moved(Midnight(t, diff))
  }

  function ProcWeekday(e: Expression, t: nat): (o: Adjustment)
    requires WellFormed(e)
    ensures o.Moved? ==> o.t % 60 == 0
  {
    if e.weekday.Star? then Same
    else
      NearestDiffSkips(WeekdayAt(t), e.weekday.values, 0, 7, 0);
      var diff := NextNearestDiff(WeekdayAt(t), e.weekday.values, 7);
      if diff == 0 then Same else Moved(Midnight(t, diff))
  }

  function ProcNthWeekday(e: Expression, t: nat): (o: Adjustment)
    requires WellFormed(e)
    ensures o.Moved? ==> o.t % 60 == 0
  {
    var length := DaysInMonth(YearAt(t), MonthAt(t));
    var candidates := Candidates(e.nth, t / DAY - DayAt(t) + 1, length, DayAt(t));
    if candidates == {} then Moved(Midnight(t, length - DayAt(t) + 1))
    else
      var diff := Least(candidates) - DayAt(t);
      if diff == 0 then Same else Moved(Midnight(t, diff))
  }

  function ProcHour(e: Expression, t: nat): (o: Adjustment)
    requires WellFormed(e)
    ensures o.Moved? ==> o.t % 60 == 0
  {
    if e.hour.Star? then Same
    else
      NearestDiffSkips(HourAt(t), e.hour.values, 0, 24, 0);
      var diff := NextNearestDiff(HourAt(t), e.hour.values, 24);
      if diff == 0 then Same else Moved(AtMinute(60 * (t / 3600 + diff)))
  }

  function ProcMinute(e: Expression, t: nat): (o: Adjustment)
    requires WellFormed(e)
    ensures o.Moved? ==> o.t % 60 == 0
  {
    if e.minute.Star? then Same
    else
      NearestDiffSkips(MinuteAt(t), e.minute.values, 0, 60, 0);
      var diff := NextNearestDiff(MinuteAt(t), e.minute.values, 60);
      if diff == 0 then Same else Moved(AtMinute(t / 60 + diff))
  }

  function ProcSecond(e: Expression, t: nat): Adjustment
    requires WellFormed(e)
  {
    if e.columns == UNIX_COLUMNS || e.second.Star? then Same
    else
      NearestDiffSkips(SecondAt(t), e.second.values, 0, 60, 0);
      var diff := NextNearestDiff(SecondAt(t), e.second.values, 60);
      if diff == 0 then Same else Moved(t + diff)
  }

  // --------------------------------------------------------------- the search

  const PROCESSORS := 7

  /** The processors in the order in which a pass applies them. */
  function Process(e: Expression, i: nat, t: nat): (o: Adjustment)
    requires WellFormed(e) && i < PROCESSORS
    ensures e.columns == UNIX_COLUMNS && o.Moved? ==> o.t % 60 == 0
  {
    match i
    case 0 => ProcYear(e, t)
    case 1 => ProcMonth(e, t)
    case 2 => ProcDay(e, t)
    case 3 => if e.nth != map[] then ProcNthWeekday(e, t) else ProcWeekday(e, t)
    case 4 => ProcHour(e, t)
    case 5 => ProcMinute(e, t)
    case _ => ProcSecond(e, t)
  }

  /** A pass from processor `i` on: the first change ends it. */
  function Pass(e: Expression, i: nat, t: nat): (o: Adjustment)
    requires WellFormed(e) && i <= PROCESSORS
    ensures e.columns == UNIX_COLUMNS && o.Moved? ==> o.t % 60 == 0
    decreases PROCESSORS - i
  {
    if i == PROCESSORS then Same
    else match Process(e, i, t)
         case Same => Pass(e, i + 1, t)
         case o => o
  }

  /** Five-column expressions have no seconds: a finished date is cut to its minute. */
  function Settled(e: Expression, t: nat): nat {
    if e.columns == UNIX_COLUMNS then t - t % 60 else t
  }

  /** Every pass that changes the date moves it forward. */
  lemma {:induction false} PassAdvances(e: Expression, i: nat, t: nat)
    requires WellFormed(e) && i <= PROCESSORS
    ensures Pass(e, i, t).Moved? ==> t < Pass(e, i, t).t
    decreases PROCESSORS - i
  {
    if i < PROCESSORS {
      PassAdvances(e, i + 1, t);
      ProcessAdvances(e, i, t);
    }
  }

  lemma ProcessAdvances(e: Expression, i: nat, t: nat)
    requires WellFormed(e) && i < PROCESSORS
    ensures Process(e, i, t).Moved? ==> t < Process(e, i, t).t
  {
    match i {
      case 0 => YearAdvances(e, t);
      case 1 => MonthAdvances(e, t);
      case 2 => if e.day.Days? { DayDiffForward(DayAt(t), e.day, DaysInMonth(YearAt(t), MonthAt(t))); }
      case 3 => if e.weekday.Entries? { NearestDiffSkips(WeekdayAt(t), e.weekday.values, 0, 7, 0); }
      case 4 => if e.hour.Entries? { NearestDiffSkips(HourAt(t), e.hour.values, 0, 24, 0); }
      case 5 => if e.minute.Entries? { NearestDiffSkips(MinuteAt(t), e.minute.values, 0, 60, 0); }
      case _ => if e.second.Entries? { NearestDiffSkips(SecondAt(t), e.second.values, 0, 60, 0); }
    }
  }

  lemma YearAdvances(e: Expression, t: nat)
    requires WellFormed(e)
    ensures ProcYear(e, t).Moved? ==> t < ProcYear(e, t).t
  {
    if ProcYear(e, t).Moved? {
      FirstFromLeast(e.year.values, YearAt(t));
      MonthOrder(t, 12 * FirstFrom(e.year.values, YearAt(t)).value);
    }
  }

  lemma MonthAdvances(e: Expression, t: nat)
    requires WellFormed(e)
    ensures ProcMonth(e, t).Moved? ==> t < ProcMonth(e, t).t
  {
    if ProcMonth(e, t).Moved? {
      NearestDiffSkips(MonthAt(t), e.month.values, 1, 12, 0);
      MonthOrder(t, MonthIndex(DateAt(t)) + NextNearestDiff(MonthAt(t), e.month.values, 12));
    }
  }

  /** The first instant after the given year. */
  function YearEnd(year: int): nat
    requires year >= 0
  {
    MonthStart(12 * (year + 1))
  }

  /** The loop: passes are repeated until one changes nothing or the allowed span of years is left. */
  function Search(e: Expression, t: nat, lastYear: int): Option<nat>
    requires WellFormed(e) && 0 <= lastYear
    decreases YearEnd(lastYear) - t
  {
    if YearAt(t) > lastYear then None
    else
      BeforeYearEnd(t, lastYear);
      PassAdvances(e, 0, t);
      match Pass(e, 0, t)
      case Exhausted => None
      case Same => Some(Settled(e, t))
      case Moved(t') => Search(e, t', lastYear)
  }

  /** The inner loop of the search. */
  method RunPass(e: Expression, t: nat) returns (outcome: Adjustment)
    requires WellFormed(e)
    ensures outcome == Pass(e, 0, t)
  {
    outcome := Same;
    var i := 0;
    while i < PROCESSORS && outcome == Same
      invariant 0 <= i <= PROCESSORS
      invariant outcome == Same ==> Pass(e, 0, t) == Pass(e, i, t)
      invariant outcome != Same ==> Pass(e, 0, t) == outcome
    {
      outcome := Process(e, i, t);
      i := i + 1;
    }
  }

  /** The instant at which a search after `now` starts. */
  function FirstTry(e: Expression, now: nat): nat {
    now + (if e.columns > UNIX_COLUMNS then 1 else 60)
  }

  /** The search after `now`, over the year of its first try and `maxYears` more. */
  function Next(e: Expression, now: nat, maxYears: nat): Option<nat>
    requires WellFormed(e)
  {
    Search(e, FirstTry(e, now), YearAt(FirstTry(e, now)) + maxYears)
  }

  lemma BeforeYearEnd(t: nat, year: int)
    requires 0 <= year
    ensures YearAt(t) <= year ==> t < YearEnd(year)
  {
    MonthOrder(t, 12 * (year + 1));
  }

  /** `_calc`, searching forward. */
  method Calc(e: Expression, now: nat, maxYears: nat) returns (r: Option<nat>)
    requires WellFormed(e)
    ensures r == Next(e, now, maxYears)
  {
    var dst := FirstTry(e, now);
    var currentYear := YearAt(dst);
    var year := currentYear;
    ghost var lastYear := currentYear + maxYears;
    while year - currentYear <= maxYears
      invariant year == YearAt(dst)
      invariant Next(e, now, maxYears) == Search(e, dst, lastYear)
      decreases YearEnd(lastYear) - dst
    {
      BeforeYearEnd(dst, lastYear);
      PassAdvances(e, 0, dst);
      var outcome := RunPass(e, dst);
      match outcome {
        case Exhausted => return None;
        case Same => return Some(Settled(e, dst));
        case Moved(t) => dst := t;
      }
      year := YearAt(dst);
    }
    return None;
  }
}
