/**
 Scheduled workflows: their identifiers, backfilling a window of time, and the
 table of workflows that live schedulers and backfills share.
 */
module Scheduler {
  import opened Values
  import opened Calendar
  import opened CronExpression
  import opened Croniter
  import opened Text

  // ------------------------------------------------------------- identifiers

  /** `isoformat` of a whole UTC second. */
  function IsoFormat(t: nat): (s: string)
    ensures |s| == 25
  {
    Padded(YearAt(t), 4) + "-" + Padded(MonthAt(t), 2) + "-" + Padded(DayAt(t), 2) + "T"
    + Padded(HourAt(t), 2) + ":" + Padded(MinuteAt(t), 2) + ":" + Padded(SecondAt(t), 2) + "+00:00"
  }

  /** The identifier of one execution of a schedule. */
  function ScheduledId(name: string, t: nat): string {
    "sched-" + name + "-" + IsoFormat(t)
  }

  lemma IsoFormatFields(t: nat)
    ensures var s := IsoFormat(t);
            && s[0..4] == Padded(YearAt(t), 4) && s[5..7] == Padded(MonthAt(t), 2)
            && s[8..10] == Padded(DayAt(t), 2) && s[11..13] == Padded(HourAt(t), 2)
            && s[14..16] == Padded(MinuteAt(t), 2) && s[17..19] == Padded(SecondAt(t), 2)
  {
  }

  lemma FitsTwo(n: nat)
    requires n < 100
    ensures Fits(n, 2)
  {
    assert Fits(n / 10 / 10, 0) && Fits(n / 10, 1);
  }

  lemma FitsFour(n: nat)
    requires n < 10000
    ensures Fits(n, 4)
  {
    FitsTwo(n / 10 / 10);
    assert Fits(n / 10, 3);
  }

  /** Up to the year 9999, different instants are written differently. */
  lemma IsoFormatInjective(t: nat, u: nat)
    requires IsoFormat(t) == IsoFormat(u) && YearAt(t) <= 9999 && YearAt(u) <= 9999
    ensures t == u
  {
    IsoFormatFields(t);
    IsoFormatFields(u);
    FitsFour(YearAt(t));
    FitsFour(YearAt(u));
    PaddedInjective(YearAt(t), YearAt(u), 4);
    SameTwoDigits(MonthAt(t), MonthAt(u));
    SameTwoDigits(DayAt(t), DayAt(u));
    SameTwoDigits(HourAt(t), HourAt(u));
    SameTwoDigits(MinuteAt(t), MinuteAt(u));
    SameTwoDigits(SecondAt(t), SecondAt(u));
    DateOfRoundTrip(t / DAY);
    DateOfRoundTrip(u / DAY);
    SameFields(t, u);
  }

  lemma SameTwoDigits(m: nat, n: nat)
    requires m < 100 && n < 100 && Padded(m, 2) == Padded(n, 2)
    ensures m == n
  {
    FitsTwo(m);
    FitsTwo(n);
    PaddedInjective(m, n, 2);
  }

  lemma SameFields(t: nat, u: nat)
    requires t / DAY == u / DAY && HourAt(t) == HourAt(u) && MinuteAt(t) == MinuteAt(u) && SecondAt(t) == SecondAt(u)
    ensures t == u
  {
    TimeParts(t);
    TimeParts(u);
  }

  lemma TimeParts(t: nat)
    ensures t == (t / DAY) * DAY + HourAt(t) * 3600 + MinuteAt(t) * 60 + SecondAt(t)
  {
    MinutesToHours(t);
    HoursToDays(t);
    var minutes, hours := t / 60, t / 3600;
    assert t == minutes * 60 + t % 60;
    assert minutes == hours * 60 + minutes % 60;
    assert hours == (t / DAY) * 24 + hours % 24;
  }

  lemma MinutesToHours(t: nat)
    ensures t / 3600 == t / 60 / 60
  {
    var minutes := t / 60;
    assert t == 3600 * (minutes / 60) + (60 * (minutes % 60) + t % 60);
  }

  lemma HoursToDays(t: nat)
    ensures t / DAY == t / 3600 / 24
  {
    var hours := t / 3600;
    assert t == DAY * (hours / 24) + (3600 * (hours % 24) + t % 3600);
  }

  /** An identifier names one schedule and one instant, even if schedule names contain dashes. */
  lemma ScheduledIdInjective(name: string, t: nat, other: string, u: nat)
    requires ScheduledId(name, t) == ScheduledId(other, u) && YearAt(t) <= 9999 && YearAt(u) <= 9999
    ensures name == other && t == u
  {
    var a, b := ScheduledId(name, t), ScheduledId(other, u);
    assert a[|a| - 25..] == IsoFormat(t) && b[|b| - 25..] == IsoFormat(u);
    IsoFormatInjective(t, u);
    assert a[6..|a| - 26] == name && b[6..|b| - 26] == other;
  }

  // ------------------------------------------- the shared table of workflows

  /** One execution: a schedule and the instant it is for. */
  datatype Firing = Firing(schedule: string, at: nat)

  type Rows = map<string, Firing>

  function ExecutionId(f: Firing): string { ScheduledId(f.schedule, f.at) }

  /** The instants that can be written with a four-digit year. */
  predicate Dated(f: Firing) { YearAt(f.at) <= 9999 }

  ghost predicate Separates(idOf: Firing -> string) {
    forall f, g :: Dated(f) && Dated(g) && idOf(f) == idOf(g) ==> f == g
  }

  lemma ExecutionIdSeparates()
    ensures Separates(ExecutionId)
  {
    forall f, g | Dated(f) && Dated(g) && ExecutionId(f) == ExecutionId(g) ensures f == g {
      ScheduledIdInjective(f.schedule, f.at, g.schedule, g.at);
    }
  }

  /** Insert-or-touch on the primary key: a second insertion leaves the row as it is. */
  function Init(idOf: Firing -> string, rows: Rows, f: Firing): Rows {
    if idOf(f) in rows then rows else rows[idOf(f) := f]
  }

  /** The table after a sequence of insertions, in the order in which any processes made them. */
  function InitAll(idOf: Firing -> string, rows: Rows, fired: seq<Firing>): Rows {
    if fired == [] then rows
    else Init(idOf, InitAll(idOf, rows, fired[..|fired| - 1]), fired[|fired| - 1])
  }

  /** Rows are found under the identifier of what they execute. */
  ghost predicate FiledUnder(idOf: Firing -> string, rows: Rows) {
    forall id :: id in rows ==> id == idOf(rows[id]) && Dated(rows[id])
  }

  /** `f` has a row. */
  ghost predicate HasRow(rows: Rows, f: Firing) {
    exists id :: id in rows && rows[id] == f
  }

  /**
   Any interleaving of schedulers and backfills leaves exactly one row for each execution
   that was fired or already there, and none for any other.
   */
  lemma {:induction false} OneRowPerFiring(idOf: Firing -> string, rows: Rows, fired: seq<Firing>)
    requires Separates(idOf) && FiledUnder(idOf, rows) && forall f :: f in fired ==> Dated(f)
    ensures var after := InitAll(idOf, rows, fired);
            && FiledUnder(idOf, after)
            && (forall f :: HasRow(after, f) <==> HasRow(rows, f) || f in fired)
            && (forall id, other :: id in after && other in after && after[id] == after[other] ==> id == other)
  {
    if fired != [] {
      var init, last := fired[..|fired| - 1], fired[|fired| - 1];
      assert forall f :: f in fired <==> f in init || f == last;
      OneRowPerFiring(idOf, rows, init);
      InitAddsRow(idOf, InitAll(idOf, rows, init), last);
    }
  }

  lemma InitAddsRow(idOf: Firing -> string, rows: Rows, f: Firing)
    requires Separates(idOf) && FiledUnder(idOf, rows) && Dated(f)
    ensures FiledUnder(idOf, Init(idOf, rows, f))
    ensures forall g :: HasRow(Init(idOf, rows, f), g) <==> HasRow(rows, g) || g == f
  {
    var after := Init(idOf, rows, f);
    assert idOf(f) in after && after[idOf(f)] == f;
    forall g | HasRow(rows, g) ensures HasRow(after, g) {
      var id :| id in rows && rows[id] == g;
      assert id in after && after[id] == g;
    }
  }

  /** With the identifiers that the schedulers use, the same up to the year 9999. */
  lemma OneRowPerExecution(rows: Rows, fired: seq<Firing>)
    requires FiledUnder(ExecutionId, rows) && forall f :: f in fired ==> Dated(f)
    ensures var after := InitAll(ExecutionId, rows, fired);
            && FiledUnder(ExecutionId, after)
            && (forall f :: HasRow(after, f) <==> HasRow(rows, f) || f in fired)
            && (forall id, other :: id in after && other in after && after[id] == after[other] ==> id == other)
  {
    ExecutionIdSeparates();
    OneRowPerFiring(ExecutionId, rows, fired);
  }

  class WorkflowTable {
    var rows: Rows

    /** Checks for the workflow and enqueues it if it is not there. */
    method Fire(idOf: Firing -> string, f: Firing) returns (id: string)
      modifies this
      ensures rows == Init(idOf, old(rows), f) && id == idOf(f) && id in rows
    {
      id := idOf(f);
      if id !in rows {
        rows := rows[id := f];
      }
    }
  }

  // ---------------------------------------------------------------- backfill

  ghost predicate StrictlyAscending(times: seq<nat>) {
    forall i, j :: 0 <= i < j < |times| ==> times[i] < times[j]
  }

  /** `times` are the firing instants after `start` and not after `limit`. */
  ghost predicate AllFirings(e: Expression, times: seq<nat>, start: real, limit: real) {
    forall u: nat :: u in times <==> start < u as real <= limit && Fires(e, u)
  }

  lemma FiringsExtend(e: Expression, times: seq<nat>, start: real, cur: real, t: nat)
    requires AllFirings(e, times, start, cur) && start <= cur && FirstFiring(e, cur, t)
    ensures AllFirings(e, times + [t], start, t as real)
  {
    forall u: nat ensures u in times + [t] <==> start < u as real <= t as real && Fires(e, u) {
      assert u in times + [t] <==> u in times || u == t;
    }
  }

  /** `times` are the firing instants strictly between `start` and `end`. */
  ghost predicate FiringsBetween(e: Expression, times: seq<nat>, start: real, end: real) {
    forall u: nat :: u in times <==> start < u as real < end && Fires(e, u)
  }

  lemma FiringsComplete(e: Expression, times: seq<nat>, start: real, cur: real, t: nat, end: real)
    requires AllFirings(e, times, start, cur) && start <= cur && FirstFiring(e, cur, t)
    requires end <= t as real && (times != [] ==> cur < end)
    ensures FiringsBetween(e, times, start, end)
  {
    forall u: nat ensures u in times <==> start < u as real < end && Fires(e, u) {
      assert u in times <==> start < u as real <= cur && Fires(e, u);
    }
  }

  function Firings(name: string, times: seq<nat>): seq<Firing> {
    if times == [] then [] else Firings(name, times[..|times| - 1]) + [Firing(name, times[|times| - 1])]
  }

  function IdsOf(idOf: Firing -> string, fired: seq<Firing>): seq<string> {
    if fired == [] then [] else IdsOf(idOf, fired[..|fired| - 1]) + [idOf(fired[|fired| - 1])]
  }

  lemma FireNext(idOf: Firing -> string, rows: Rows, name: string, times: seq<nat>, t: nat)
    ensures var fired := Firings(name, times);
            && Firings(name, times + [t]) == fired + [Firing(name, t)]
            && IdsOf(idOf, Firings(name, times + [t])) == IdsOf(idOf, fired) + [idOf(Firing(name, t))]
            && InitAll(idOf, rows, Firings(name, times + [t])) ==
               Init(idOf, InitAll(idOf, rows, fired), Firing(name, t))
  {
    var fired := Firings(name, times);
    assert (times + [t])[..|times|] == times;
    assert (fired + [Firing(name, t)])[..|fired|] == fired;
  }

  /** What was fired has a row. */
  lemma {:induction false} FiredHaveRows(idOf: Firing -> string, rows: Rows, fired: seq<Firing>)
    ensures forall id :: id in IdsOf(idOf, fired) || id in rows ==> id in InitAll(idOf, rows, fired)
  {
    if fired != [] { FiredHaveRows(idOf, rows, fired[..|fired| - 1]); }
  }

  lemma {:induction false} FiringsAt(name: string, times: seq<nat>)
    ensures |Firings(name, times)| == |times|
    ensures forall i :: 0 <= i < |times| ==> Firings(name, times)[i] == Firing(name, times[i])
  {
    if times != [] { FiringsAt(name, times[..|times| - 1]); }
  }

  lemma {:induction false} IdsAt(idOf: Firing -> string, fired: seq<Firing>)
    ensures |IdsOf(idOf, fired)| == |fired|
    ensures forall i :: 0 <= i < |fired| ==> IdsOf(idOf, fired)[i] == idOf(fired[i])
  {
    if fired != [] { IdsAt(idOf, fired[..|fired| - 1]); }
  }

  /** The identifiers of different instants differ, and each has the row of its schedule and instant. */
  ghost predicate Distinguished(idOf: Firing -> string, rows: Rows, name: string, times: seq<nat>, ids: seq<string>) {
    && |ids| == |times|
    && (forall i :: 0 <= i < |times| ==> ids[i] == idOf(Firing(name, times[i])))
    && (forall i :: 0 <= i < |times| ==> ids[i] in rows && rows[ids[i]] == Firing(name, times[i]))
    && (forall i, j :: 0 <= i < j < |times| ==> ids[i] != ids[j])
  }

  lemma FiredAreDistinguished(idOf: Firing -> string, rows: Rows, name: string, times: seq<nat>)
    requires Separates(idOf) && FiledUnder(idOf, rows) && StrictlyAscending(times)
    requires forall t :: t in times ==> Dated(Firing(name, t))
    ensures var fired := Firings(name, times);
            Distinguished(idOf, InitAll(idOf, rows, fired), name, times, IdsOf(idOf, fired))
  {
    var fired := Firings(name, times);
    var after, ids := InitAll(idOf, rows, fired), IdsOf(idOf, fired);
    FiringsAt(name, times);
    IdsAt(idOf, fired);
    FiredHaveRows(idOf, rows, fired);
    forall f | f in fired ensures Dated(f) {
      var i :| 0 <= i < |times| && f == Firing(name, times[i]);
      assert times[i] in times;
    }
    OneRowPerFiring(idOf, rows, fired);
    forall i | 0 <= i < |times| ensures ids[i] in after && after[ids[i]] == Firing(name, times[i]) {
      assert ids[i] in ids && times[i] in times;
    }
    forall i, j | 0 <= i < j < |times| ensures ids[i] != ids[j] {
      assert times[i] in times && times[j] in times;
    }
  }

  lemma AscendNext(times: seq<nat>, cur: real, t: nat)
    requires StrictlyAscending(times) && (forall u | u in times :: u as real <= cur) && cur < t as real
    ensures StrictlyAscending(times + [t]) && forall u | u in times + [t] :: u as real <= t as real
  {
    forall i, j | 0 <= i < j < |times + [t]| ensures (times + [t])[i] < (times + [t])[j] {
      assert times[i] in times;
    }
  }

  /** How far the search for firing instants has got. */
  ghost predicate Found(e: Expression, start: real, end: real, cur: real, times: seq<nat>) {
    && start <= cur && (times != [] ==> cur < end)
    && StrictlyAscending(times) && (forall u | u in times :: u as real <= cur)
    && (Exact(e) ==> AllFirings(e, times, start, cur))
  }

  lemma FoundNext(e: Expression, start: real, end: real, cur: real, times: seq<nat>, t: nat)
    requires Found(e, start, end, cur, times) && cur < t as real < end && (Exact(e) ==> FirstFiring(e, cur, t))
    ensures Found(e, start, end, t as real, times + [t])
  {
    AscendNext(times, cur, t);
    if Exact(e) { FiringsExtend(e, times, start, cur, t); }
  }

  lemma FoundAll(e: Expression, start: real, end: real, cur: real, times: seq<nat>, t: nat)
    requires Found(e, start, end, cur, times) && end <= t as real && (Exact(e) ==> FirstFiring(e, cur, t))
    ensures Exact(e) ==> FiringsBetween(e, times, start, end)
  {
    if Exact(e) { FiringsComplete(e, times, start, cur, t, end); }
  }

  /** The last of the times, or `first` if there is none. */
  function LastOf(first: nat, times: seq<nat>): nat {
    if times == [] then first else times[|times| - 1]
  }

  /** Each time is what the iterator yields after the one before, from `first` on. */
  ghost predicate Yielded(e: Expression, first: nat, maxYears: nat, times: seq<nat>)
    requires WellFormed(e)
  {
    forall i :: 0 <= i < |times| ==> NextFire(e, LastOf(first, times[..i]), maxYears) == Some(times[i])
  }

  lemma YieldedNext(e: Expression, first: nat, maxYears: nat, times: seq<nat>, t: nat)
    requires WellFormed(e) && Yielded(e, first, maxYears, times)
    requires NextFire(e, LastOf(first, times), maxYears) == Some(t)
    ensures Yielded(e, first, maxYears, times + [t])
  {
    assert forall i :: 0 <= i <= |times| ==> (times + [t])[..i] == times[..i];
    assert times[..|times|] == times;
  }

  /** How far the loop has got: the times are what the iterator has yielded, the last of them is where it stands. */
  ghost predicate Got(e: Expression, start: real, end: real, maxYears: nat, cur: real, times: seq<nat>)
    requires WellFormed(e) && 0.0 <= start
  {
    && Found(e, start, end, cur, times)
    && Yielded(e, start.Floor, maxYears, times) && cur.Floor == LastOf(start.Floor, times)
  }

  lemma GotNext(e: Expression, start: real, end: real, maxYears: nat, cur: real, times: seq<nat>, t: nat)
    requires WellFormed(e) && 0.0 <= start && Got(e, start, end, maxYears, cur, times)
    requires NextFire(e, cur.Floor, maxYears) == Some(t) && t as real < end && (Exact(e) ==> FirstFiring(e, cur, t))
    ensures cur.Floor < t && Got(e, start, end, maxYears, t as real, times + [t])
  {
    NextFireGoesForward(e, cur.Floor, maxYears);
    FoundNext(e, start, end, cur, times, t);
    YieldedNext(e, start.Floor, maxYears, times, t);
  }

  lemma GotAll(e: Expression, start: real, end: real, maxYears: nat, cur: real, times: seq<nat>)
    requires WellFormed(e) && 0.0 <= start && Got(e, start, end, maxYears, cur, times)
    ensures StrictlyAscending(times) && forall t :: t in times ==> t as real < end
    ensures Yielded(e, start.Floor, maxYears, times) && cur.Floor == LastOf(start.Floor, times)
  {
  }

  /**
   Enqueues what the iterator yields after `start` and before `end` under the identifiers that `idOf` gives, and
   returns them, or nothing if the iterator gives up before it gets to `end`.
   */
  method FireBetween(table: WorkflowTable, idOf: Firing -> string, name: string, e: Expression,
                     start: real, end: real, maxYears: nat)
    returns (ids: Option<seq<string>>, ghost times: seq<nat>)
    requires WellFormed(e) && 0.0 <= start
    modifies table
    ensures StrictlyAscending(times) && forall t :: t in times ==> t as real < end
    ensures table.rows == InitAll(idOf, old(table.rows), Firings(name, times))
    ensures ids.Some? ==> ids.value == IdsOf(idOf, Firings(name, times))
    ensures Yielded(e, start.Floor, maxYears, times)
    ensures ids.None? <==> NextFire(e, LastOf(start.Floor, times), maxYears).None?
    ensures ids.Some? ==> end <= NextFire(e, LastOf(start.Floor, times), maxYears).value as real
    ensures ids.Some? && Exact(e) ==> FiringsBetween(e, times, start, end)
  {
    var it := new Iterator(e, maxYears, start);
    var found: seq<string> := [];
    times := [];
    while true
      invariant it.Valid() && it.expression == e && it.maxYears == maxYears && fresh(it)
      invariant Got(e, start, end, maxYears, it.cur, times)
      invariant table.rows == InitAll(idOf, old(table.rows), Firings(name, times))
      invariant found == IdsOf(idOf, Firings(name, times))
      decreases end.Floor - it.cur.Floor
    {
      ghost var cur := it.cur;
      GotAll(e, start, end, maxYears, cur, times);
      var next := it.GetNext();
      if next.None? {
        ids := None;
        break;
      }
      var t := next.value;
      if t as real >= end {
        FoundAll(e, start, end, cur, times, t);
        ids := Some(found);
        break;
      }
      GotNext(e, start, end, maxYears, cur, times, t);
      FireNext(idOf, old(table.rows), name, times, t);
      var id := table.Fire(idOf, Firing(name, t));
      found := found + [id];
      times := times + [t];
    }
  }

  /**
   Backfill: enqueues what the iterator yields after `start` and before `end`, and returns the identifiers, or
   nothing if the iterator gives up before it gets to `end`.  Up to the year 9999 the identifiers differ, and each
   has its own instant's row.
   */
  method BackfillSchedule(table: WorkflowTable, name: string, e: Expression, start: real, end: real, maxYears: nat)
    returns (ids: Option<seq<string>>, ghost times: seq<nat>)
    requires WellFormed(e) && 0.0 <= start
    modifies table
    ensures StrictlyAscending(times) && table.rows == InitAll(ExecutionId, old(table.rows), Firings(name, times))
    ensures ids.Some? ==> ids.value == IdsOf(ExecutionId, Firings(name, times))
    ensures Yielded(e, start.Floor, maxYears, times) && forall t :: t in times ==> t as real < end
    ensures ids.None? <==> NextFire(e, LastOf(start.Floor, times), maxYears).None?
    ensures ids.Some? ==> end <= NextFire(e, LastOf(start.Floor, times), maxYears).value as real
    ensures ids.Some? && Exact(e) ==> FiringsBetween(e, times, start, end)
    ensures ids.Some? && FiledUnder(ExecutionId, old(table.rows)) && EndsDated(end) ==>
              Distinguished(ExecutionId, table.rows, name, times, ids.value)
  {
    ids, times := FireBetween(table, ExecutionId, name, e, start, end, maxYears);
    if FiledUnder(ExecutionId, old(table.rows)) && EndsDated(end) {
      ExecutionIdSeparates();
      FiredAreDistinguished(ExecutionId, old(table.rows), name, times);
    }
  }

  /** The window ends by the year 9999. */
  ghost predicate EndsDated(end: real) {
    forall t: nat :: t as real < end ==> YearAt(t) <= 9999
  }
}
