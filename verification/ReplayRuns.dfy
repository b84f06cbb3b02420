/**
 Whole runs from an empty table: a recorded step never runs again, a single executor needs
 no assumption about completion times, and every run ends as a run without crashes would.
 */
module ReplayRuns {
  import opened Values
  import opened WorkflowContext
  import opened Replay
  import opened ReplayTheorems

  predicate RunsAt(x: Executor, q: nat) { x.Running? && x.q == q }

  // -------------------------------------------------- recorded steps stay recorded

  lemma {:induction false} CheckpointsStay(p: Program, id: string, s: State, events: seq<(nat, Event)>, q: nat)
    requires q in s.rows
    ensures q in Run(p, id, s, events).rows && Run(p, id, s, events).rows[q] == s.rows[q]
  {
    if events != [] {
      var init, last := events[..|events| - 1], events[|events| - 1];
      CheckpointsStay(p, id, s, init, q);
      CheckpointStays(p, id, Run(p, id, s, init), last.0, last.1, q);
    }
  }

  lemma CheckpointStays(p: Program, id: string, s: State, e: nat, event: Event, q: nat)
    requires q in s.rows
    ensures q in Apply(p, id, s, e, event).rows && Apply(p, id, s, e, event).rows[q] == s.rows[q]
  {
  }

  lemma NeverStartsAt(p: Program, id: string, s: State, e: nat, event: Event, d: nat, q: nat)
    requires q in s.rows && !RunsAt(Get(s, d), q)
    ensures !RunsAt(Get(Apply(p, id, s, e, event), d), q)
  {
    if d != e { assert Get(Apply(p, id, s, e, event), d) == Get(s, d); }
  }

  /** After a step is recorded no executor starts its body again, whatever crashes and recoveries follow. */
  lemma {:induction false} RecordedStepNeverStarts(p: Program, id: string, s: State, events: seq<(nat, Event)>,
                                                   e: nat, q: nat)
    requires q in s.rows && !RunsAt(Get(s, e), q)
    ensures !RunsAt(Get(Run(p, id, s, events), e), q)
  {
    if events != [] {
      var init := events[..|events| - 1];
      RecordedStepNeverStarts(p, id, s, init, e, q);
      CheckpointsStay(p, id, s, init, q);
      NeverStartsAt(p, id, Run(p, id, s, init), events[|events| - 1].0, events[|events| - 1].1, e, q);
    }
  }

  // ------------------------------------------------------------ one executor

  ghost predicate OneExecutor(events: seq<(nat, Event)>) {
    forall i :: 0 <= i < |events| ==> events[i].0 == 0
  }

  /** The step that the executor runs is not recorded; what it is about to record is not recorded otherwise. */
  predicate Pending(s: State) {
    match Get(s, 0)
    case Running(h, q, name) => q !in s.rows
    case Writing(h, q, row) => q in s.rows ==> s.rows[q] == row
    case _ => true
  }

  lemma {:induction false} StaysPending(p: Program, id: string, events: seq<(nat, Event)>)
    requires OneExecutor(events)
    ensures Pending(Run(p, id, INITIAL, events))
  {
    if events != [] { StaysPending(p, id, events[..|events| - 1]); }
  }

  lemma {:induction false} SingleStampsTell(p: Program, id: string, events: seq<(nat, Event)>)
    requires OneExecutor(events)
    ensures StampsTellThroughout(p, id, INITIAL, events)
  {
    if events != [] {
      var init := events[..|events| - 1];
      SingleStampsTell(p, id, init);
      StaysPending(p, id, init);
    }
  }

  /** A single executor never runs the body of a recorded step, and needs no assumption about completion times. */
  lemma SingleExecutor(p: Program, id: string, events: seq<(nat, Event)>)
    requires OneExecutor(events)
    ensures StampsTellThroughout(p, id, INITIAL, events)
    ensures RetiresPatches(p) ==> HarmlessThroughout(p, id, INITIAL, events)
    ensures forall q: nat :: RunsAt(Get(Run(p, id, INITIAL, events), 0), q) ==> q !in Run(p, id, INITIAL, events).rows
  {
    StaysPending(p, id, events);
    SingleStampsTell(p, id, events);
    InitialInv(p, id);
    if RetiresPatches(p) { RetiringIsHarmless(p, id, INITIAL, events); }
  }

  /** Runs one step and returns its result. */
  function ReturnStep(name: string): Program {
    (h: History) =>
      if h == [] then RunStep(name)
      else match h[0]
        case Saw(Step(outcome)) => Finish(outcome)
        case _ => Deprecate(name)
  }

  ghost predicate Reachable(p: Program, id: string, s: State) {
    exists events :: Run(p, id, INITIAL, events) == s
  }

  /** The parts of a state, compared one by one. */
  predicate Same(s: State, t: State) {
    s.rows == t.rows && s.executors == t.executors && s.result == t.result
  }

  lemma ReachableThen(p: Program, id: string, s: State, e: nat, event: Event, t: State)
    requires Reachable(p, id, s) && Same(Apply(p, id, s, e, event), t)
    ensures Reachable(p, id, t)
  {
    var events :| Run(p, id, INITIAL, events) == s;
    RunThen(p, id, INITIAL, events, e, event);
  }

  /** An executor that joins gets as far as having a row to write. */
  lemma JoinWrites(id: string, s: State, e: nat, name: string, outcome: Outcome, stamp: int)
    requires Reachable(ReturnStep(name), id, s) && Get(s, e) == Idle && 1 !in s.rows
    ensures Reachable(ReturnStep(name), id, Set(s, e, Writing([], 1, Row(name, Step(outcome), stamp))))
  {
    var p := ReturnStep(name);
    var ready, running := Set(s, e, Ready([], 0)), Set(s, e, Running([], 1, name));
    ReachableThen(p, id, s, e, Launch, ready);
    ReachableThen(p, id, ready, e, Proceed(0), running);
    ReachableThen(p, id, running, e, Return(outcome, stamp),
                  Set(s, e, Writing([], 1, Row(name, Step(outcome), stamp))));
  }

  lemma BothWrite(id: string, name: string, a: Outcome, b: Outcome, stamp: int)
    ensures Reachable(ReturnStep(name), id,
                      State(map[], map[0 := Writing([], 1, Row(name, Step(a), stamp)),
                                       1 := Writing([], 1, Row(name, Step(b), stamp))], None))
  {
    assert Run(ReturnStep(name), id, INITIAL, []) == INITIAL;
    JoinWrites(id, INITIAL, 0, name, a, stamp);
    var s := Set(INITIAL, 0, Writing([], 1, Row(name, Step(a), stamp)));
    JoinWrites(id, s, 1, name, b, stamp);
    var t := Set(s, 1, Writing([], 1, Row(name, Step(b), stamp)));
    assert t.executors ==
        map[0 := Writing([], 1, Row(name, Step(a), stamp)), 1 := Writing([], 1, Row(name, Step(b), stamp))];
  }

  lemma BothReady(id: string, name: string, a: Outcome, b: Outcome, stamp: int)
    ensures Reachable(ReturnStep(name), id,
                      State(map[1 := Row(name, Step(a), stamp)],
                            map[0 := Ready([Saw(Step(a))], 1), 1 := Ready([Saw(Step(b))], 1)], None))
  {
    var p, row := ReturnStep(name), Row(name, Step(b), stamp);
    var readyA, readyB := Ready([Saw(Step(a))], 1), Ready([Saw(Step(b))], 1);
    BothWrite(id, name, a, b, stamp);
    var none: History := [];
    assert none + [Saw(Step(a))] == [Saw(Step(a))] && none + [Saw(Step(b))] == [Saw(Step(b))];
    var s := State(map[], map[0 := Writing([], 1, Row(name, Step(a), stamp)), 1 := Writing([], 1, row)], None);
    var t := State(map[1 := Row(name, Step(a), stamp)], map[0 := readyA, 1 := Writing([], 1, row)], None);
    ReachableThen(p, id, s, 0, Commit(false), t);
    ReachableThen(p, id, t, 1, Commit(false), State(t.rows, map[0 := readyA, 1 := readyB], None));
  }

  lemma FirstReturns(id: string, name: string, a: Outcome, b: Outcome, stamp: int) returns (s: State)
    ensures Reachable(ReturnStep(name), id, s)
    ensures Get(s, 0) == Done([Saw(Step(a))], 1, a) && Get(s, 1) == Ready([Saw(Step(b))], 1)
  {
    BothReady(id, name, a, b, stamp);
    var rows := map[1 := Row(name, Step(a), stamp)];
    var readyA, readyB := Ready([Saw(Step(a))], 1), Ready([Saw(Step(b))], 1);
    s := State(rows, map[0 := Done([Saw(Step(a))], 1, a), 1 := readyB], Some(a));
    ReachableThen(ReturnStep(name), id, State(rows, map[0 := readyA, 1 := readyB], None), 0, Proceed(0), s);
  }

  /** Two executors whose steps complete in the same millisecond return whatever their own steps gave. */
  lemma SameMillisecondSplits(id: string, name: string, a: Outcome, b: Outcome, stamp: int)
    ensures exists s :: Reachable(ReturnStep(name), id, s) && Get(s, 0).Done? && Get(s, 1).Done?
                        && Get(s, 0).outcome == a && Get(s, 1).outcome == b
  {
    var s := FirstReturns(id, name, a, b, stamp);
    var t := Set(s, 1, Done([Saw(Step(b))], 1, b)).(result := Some(b));
    ReachableThen(ReturnStep(name), id, s, 1, Proceed(0), t);
    assert Get(t, 0) == Get(s, 0) && Get(t, 1) == Done([Saw(Step(b))], 1, b);
  }

  /** Deprecates a patch and asks for it afterwards. */
  function DeprecateThenPatch(patch: string): Program {
    (h: History) => if h == [] then Deprecate(patch) else if |h| == 1 then Patch(patch) else Finish(Output(""))
  }

  lemma DeprecateThenPatchMarks(id: string, patch: string)
    ensures var row := Row(MarkerName(patch), Marker, 0);
            && Reachable(DeprecateThenPatch(patch), id, State(map[], map[0 := Ready([Answer(true)], 0)], None))
            && Reachable(DeprecateThenPatch(patch), id,
                         State(map[1 := row], map[0 := Ready([Answer(true), Answer(true)], 1)], None))
  {
    var p, row := DeprecateThenPatch(patch), Row(MarkerName(patch), Marker, 0);
    assert Run(p, id, INITIAL, []) == INITIAL;
    var none: History := [];
    assert none + [Answer(true)] == [Answer(true)] && [Answer(true)] + [Answer(true)] == [Answer(true), Answer(true)];
    var s1 := State(map[], map[0 := Ready([], 0)], None);
    ReachableThen(p, id, INITIAL, 0, Launch, s1);
    var s2 := State(map[], map[0 := Ready([Answer(true)], 0)], None);
    ReachableThen(p, id, s1, 0, Proceed(0), s2);
    ReachableThen(p, id, s2, 0, Proceed(0),
                  State(map[1 := row], map[0 := Ready([Answer(true), Answer(true)], 1)], None));
  }

  lemma DeprecateThenPatchCrashes(id: string, patch: string) returns (s: State)
    ensures Reachable(DeprecateThenPatch(patch), id, s) && Get(s, 0) == Ready([], 0)
    ensures s.rows == map[1 := Row(MarkerName(patch), Marker, 0)]
  {
    var p := DeprecateThenPatch(patch);
    DeprecateThenPatchMarks(id, patch);
    var rows := map[1 := Row(MarkerName(patch), Marker, 0)];
    var marked := State(rows, map[0 := Ready([Answer(true), Answer(true)], 1)], None);
    var crashed := Set(marked, 0, Idle);
    ReachableThen(p, id, marked, 0, Crash, crashed);
    s := Set(crashed, 0, Ready([], 0));
    ReachableThen(p, id, crashed, 0, Launch, s);
  }

  lemma DeprecateThenPatchReplays(id: string, patch: string) returns (t: State)
    ensures Reachable(DeprecateThenPatch(patch), id, t) && Get(t, 0) == Ready([Answer(true)], 1)
  {
    var s := DeprecateThenPatchCrashes(id, patch);
    var none: History := [];
    assert none + [Answer(true)] == [Answer(true)];
    t := Set(s, 0, Ready([Answer(true)], 1));
    ReachableThen(DeprecateThenPatch(patch), id, s, 0, Proceed(0), t);
  }

  lemma DeprecateThenPatchRevives(patch: string)
    ensures !RetiresPatches(DeprecateThenPatch(patch))
  {
    var p: Program := DeprecateThenPatch(patch);
    var h, g: History := [], [Answer(true)];
    assert p(h) == Deprecate(patch) && |h| < |g| && h == g[..|h|];
    assert OnlyDeprecates(p, g, 0) by { assert g[..0] == h; }
    assert CheckpointName(p(g)) == Some(MarkerName(patch)) && !RetiresAt(p, h, g);
  }

  /**
   Why a deprecated patch must stay retired: the marker that is left after the deprecation makes the replay of
   the deprecation consume a position, and everything after it shifts by one.
   */
  lemma DeprecateThenPatchShifts(id: string, patch: string)
    ensures !RetiresPatches(DeprecateThenPatch(patch))
    ensures exists s, t ::
              && Reachable(DeprecateThenPatch(patch), id, s) && Get(s, 0) == Ready([Answer(true)], 0)
              && Reachable(DeprecateThenPatch(patch), id, t) && Get(t, 0) == Ready([Answer(true)], 1)
  {
    DeprecateThenPatchRevives(patch);
    DeprecateThenPatchMarks(id, patch);
    var t := DeprecateThenPatchReplays(id, patch);
    var s := State(map[], map[0 := Ready([Answer(true)], 0)], None);
    assert Get(s, 0) == Ready([Answer(true)], 0);
  }

  lemma RunThen(p: Program, id: string, s: State, events: seq<(nat, Event)>, e: nat, event: Event)
    ensures Run(p, id, s, events + [(e, event)]) == Apply(p, id, Run(p, id, s, events), e, event)
  {
    assert (events + [(e, event)])[..|events|] == events;
  }

  // ------------------------------------------------- patches in runs from the start

  /** Where the program asks for a patch there is its marker, and a deprecated patch has none. */
  ghost predicate PatchesFresh(p: Program, id: string, rows: Rows) {
    forall h :: FreshAfter(p, id, rows, h)
  }

  predicate FreshAfter(p: Program, id: string, rows: Rows, h: History) {
    var q := Follow(p, id, rows, h);
    q.Some? ==> PatchFresh(p, rows, h, q.value)
  }

  predicate PatchFresh(p: Program, rows: Rows, h: History, q: nat) {
    match p(h)
    case Patch(patch) => q + 1 in rows ==> rows[q + 1] == Row(MarkerName(patch), Marker, rows[q + 1].stamp)
    case Deprecate(patch) => !IsMarker(rows, q + 1, patch)
    case _ => true
  }

  /** A history that the larger table admits either was admitted before or reads the new checkpoint. */
  lemma FollowShrinks(p: Program, id: string, rows: Rows, rows': Rows, k: nat, g: History, row: Row, h: History)
    requires Gains(p, id, rows, rows', k, g, row) && Follow(p, id, rows', h).Some?
    ensures || (|h| <= |g| && h == g[..|h|] && Follow(p, id, rows, h) == Follow(p, id, rows', h))
            || Follow(p, id, rows', h).value == k + 1
  {
    FollowGrows(p, id, rows, k, row, g, g);
    if |h| <= |g| {
      FollowComparable(p, id, rows', h, g);
      PrefixShrinks(p, id, rows, k, g, row, |h|);
    } else {
      ReadsNewest(p, id, rows', k, g, row, h);
    }
  }

  lemma PrefixShrinks(p: Program, id: string, rows: Rows, k: nat, g: History, row: Row, n: nat)
    requires n <= |g| && Dense(rows, k) && Follow(p, id, rows, g) == Some(k)
    requires CheckpointName(p(g)) == Some(row.name) && !Shifts(p, id, rows, k, g, row.name)
    ensures Follow(p, id, rows, g[..n]) == Follow(p, id, rows[k + 1 := row], g[..n])
  {
    FollowPrefix(p, id, rows, g, n);
    FollowGrows(p, id, rows, k, row, g, g[..n]);
  }

  lemma ReadsNewest(p: Program, id: string, rows: Rows, k: nat, g: History, row: Row, h: History)
    requires Dense(rows, k + 1) && rows[k + 1] == row && CheckpointName(p(g)) == Some(row.name)
    requires |g| < |h| && Follow(p, id, rows, g) == Some(k) && Follow(p, id, rows, h).Some?
    ensures Follow(p, id, rows, h).value == k + 1
  {
    FollowComparable(p, id, rows, g, h);
    var o := h[|g|];
    assert h[..|g| + 1] == g + [o];
    FollowPrefix(p, id, rows, h, |g| + 1);
    ReadsNext(p, id, rows, k, g, o);
    FollowBound(p, id, rows, h, k + 1);
  }

  lemma ReadsNext(p: Program, id: string, rows: Rows, k: nat, g: History, o: Observation)
    requires k + 1 in rows && CheckpointName(p(g)) == Some(rows[k + 1].name)
    requires Follow(p, id, rows, g) == Some(k) && Follow(p, id, rows, g + [o]).Some?
    ensures Follow(p, id, rows, g + [o]).value == k + 1
  {
    FollowStep(p, id, rows, g, o);
  }

  /** Before the end of the smaller table nothing changes. */
  lemma FreshBefore(p: Program, rows: Rows, k: nat, row: Row, h: History, q: nat)
    requires Dense(rows, k) && q < k && PatchFresh(p, rows, h, q)
    ensures PatchFresh(p, rows[k + 1 := row], h, q)
  {
  }

  /** At its end the new checkpoint is the one asked for. */
  lemma FreshAtEnd(p: Program, id: string, rows: Rows, rows': Rows, k: nat, g: History, row: Row, h: History)
    requires Gains(p, id, rows, rows', k, g, row)
    requires |h| <= |g| && h == g[..|h|] && Follow(p, id, rows, h) == Some(k)
    ensures PatchFresh(p, rows', h, k)
  {
    assert g[..|g|] == g;
    if p(h).Deprecate? {
      DeprecatedBefore(p, id, rows, k, g, h);
      assert row.name == MarkerName(p(h).patch) ==> DeprecatesAt(p, id, rows, k, g, row.name, |h|);
    } else if p(h).Patch? && |h| < |g| {
      StopsAtMissingCheckpoint(p, id, rows, h, g);
    }
  }

  /** Beyond the new checkpoint there is nothing yet. */
  lemma FreshBeyond(p: Program, rows: Rows, k: nat, h: History)
    requires Dense(rows, k)
    ensures PatchFresh(p, rows, h, k)
  {
  }

  lemma FreshGrowsAt(p: Program, id: string, rows: Rows, rows': Rows, k: nat, g: History, row: Row, h: History)
    requires Gains(p, id, rows, rows', k, g, row) && Follow(p, id, rows', h).Some?
    requires FreshAfter(p, id, rows, h)
    ensures FreshAfter(p, id, rows', h)
  {
    FollowShrinks(p, id, rows, rows', k, g, row, h);
    var q := Follow(p, id, rows', h).value;
    if q == k + 1 {
      FreshBeyond(p, rows', k + 1, h);
    } else {
      FollowBound(p, id, rows, h, k);
      if q == k {
        FreshAtEnd(p, id, rows, rows', k, g, row, h);
      } else {
        FreshBefore(p, rows, k, row, h, q);
      }
    }
  }

  lemma FreshGrows(p: Program, id: string, rows: Rows, rows': Rows, k: nat, g: History, row: Row)
    requires Gains(p, id, rows, rows', k, g, row) && PatchesFresh(p, id, rows)
    ensures PatchesFresh(p, id, rows')
  {
    forall h ensures FreshAfter(p, id, rows', h) {
      assert FreshAfter(p, id, rows, h);
      if Follow(p, id, rows', h).Some? { FreshGrowsAt(p, id, rows, rows', k, g, row, h); }
    }
  }

  lemma {:induction false} RunKeepsFresh(p: Program, id: string, events: seq<(nat, Event)>)
    requires HarmlessThroughout(p, id, INITIAL, events)
    ensures PatchesFresh(p, id, Run(p, id, INITIAL, events).rows)
  {
    if events != [] {
      var init, last := events[..|events| - 1], events[|events| - 1];
      RunKeepsFresh(p, id, init);
      InitialInv(p, id);
      RunKeepsInv(p, id, INITIAL, init);
      var s := Run(p, id, INITIAL, init);
      assert PositionsStay(p, id, s, last.0, last.1);
      var k, g, row := ApplyRows(p, id, s, last.0, last.1);
      var rows' := Apply(p, id, s, last.0, last.1).rows;
      if rows' != s.rows { FreshGrows(p, id, s.rows, rows', k, g, row); }
    }
  }

  // ------------------------------------------------------ the run without crashes

  predicate Undisturbed(event: Event) { !event.Crash? && event != Commit(true) }

  /** One executor is launched once; nothing crashes and no connection is lost. */
  ghost predicate CrashFree(events: seq<(nat, Event)>) {
    && OneExecutor(events)
    && (forall i :: 0 <= i < |events| ==> Undisturbed(events[i].1) && (events[i].1.Launch? ==> i == 0))
  }

  function Upto(rows: Rows, q: nat): Rows {
    map i | i in rows && i <= q :: rows[i]
  }

  function Standing(rows: Rows, h: History, q: nat): State {
    State(Upto(rows, q), map[0 := Ready(h, q)], None)
  }

  /** The run without crashes gets to `s`. */
  ghost predicate Straight(p: Program, id: string, s: State) {
    exists events :: events != [] && CrashFree(events) && Run(p, id, INITIAL, events) == s
  }

  lemma UndisturbedThen(p: Program, id: string, s: State, event: Event, t: State)
    requires Straight(p, id, s) && Undisturbed(event) && !event.Launch? && Same(Apply(p, id, s, 0, event), t)
    ensures Straight(p, id, t)
  {
    var events :| events != [] && CrashFree(events) && Run(p, id, INITIAL, events) == s;
    RunThen(p, id, INITIAL, events, 0, event);
    assert CrashFree(events + [(0, event)]);
  }

  lemma UptoNext(rows: Rows, q: nat)
    requires q + 1 in rows
    ensures Upto(rows, q)[q + 1 := rows[q + 1]] == Upto(rows, q + 1)
  {
  }

  lemma StepUndisturbed(p: Program, id: string, rows: Rows, h: History, q: nat)
    requires Straight(p, id, Standing(rows, h, q))
    requires p(h).RunStep? && q + 1 in rows && rows[q + 1].name == p(h).name && rows[q + 1].content.Step?
    ensures Straight(p, id, Standing(rows, h + [Saw(rows[q + 1].content)], q + 1))
  {
    var row := rows[q + 1];
    var running := State(Upto(rows, q), map[0 := Running(h, q + 1, row.name)], None);
    var writing := State(Upto(rows, q), map[0 := Writing(h, q + 1, row)], None);
    UndisturbedThen(p, id, Standing(rows, h, q), Proceed(row.stamp), running);
    UndisturbedThen(p, id, running, Return(row.content.outcome, row.stamp), writing);
    UptoNext(rows, q);
    UndisturbedThen(p, id, writing, Commit(false), Standing(rows, h + [Saw(row.content)], q + 1));
  }

  lemma ChildUndisturbed(p: Program, id: string, rows: Rows, h: History, q: nat)
    requires Straight(p, id, Standing(rows, h, q))
    requires p(h).StartChild? && q + 1 in rows && rows[q + 1].name == p(h).name
    requires rows[q + 1].content == Child(StartedId(id, q + 1, p(h).chosen))
    ensures Straight(p, id, Standing(rows, h + [Saw(rows[q + 1].content)], q + 1))
  {
    var row := rows[q + 1];
    var writing := State(Upto(rows, q), map[0 := Writing(h, q + 1, row)], None);
    UndisturbedThen(p, id, Standing(rows, h, q), Proceed(row.stamp), writing);
    UptoNext(rows, q);
    UndisturbedThen(p, id, writing, Commit(false), Standing(rows, h + [Saw(row.content)], q + 1));
  }

  /** One more operation of the run without crashes. */
  lemma NextUndisturbed(p: Program, id: string, rows: Rows, h: History, q: nat)
    requires Straight(p, id, Standing(rows, h, q))
    requires PatchFresh(p, rows, h, q) && Observe(id, rows, p(h), q).Some?
    ensures var (o, q') := Observe(id, rows, p(h), q).value;
            Straight(p, id, Standing(rows, h + [o], q'))
  {
    var (o, q') := Observe(id, rows, p(h), q).value;
    match p(h) {
      case RunStep(name) => StepUndisturbed(p, id, rows, h, q);
      case StartChild(name, chosen) => ChildUndisturbed(p, id, rows, h, q);
      case Patch(patch) =>
        UptoNext(rows, q);
        UndisturbedThen(p, id, Standing(rows, h, q), Proceed(rows[q + 1].stamp), Standing(rows, h + [o], q'));
      case Deprecate(patch) =>
        UndisturbedThen(p, id, Standing(rows, h, q), Proceed(0), Standing(rows, h + [o], q'));
    }
  }

  lemma LaunchFromStart(p: Program, id: string)
    ensures Apply(p, id, INITIAL, 0, Launch) == State(map[], map[0 := Ready([], 0)], None)
  {
    assert INITIAL.executors[0 := Ready([], 0)] == map[0 := Ready([], 0)];
  }

  lemma LaunchUndisturbed(p: Program, id: string, rows: Rows)
    requires 0 !in rows
    ensures Straight(p, id, Standing(rows, [], 0))
  {
    var none: seq<(nat, Event)> := [];
    var launch := none + [(0, Launch)];
    RunThen(p, id, INITIAL, none, 0, Launch);
    LaunchFromStart(p, id);
    assert Upto(rows, 0) == map[];
    assert launch != [] && CrashFree(launch) && Run(p, id, INITIAL, launch) == Standing(rows, [], 0);
  }

  lemma {:induction false} ReplayUndisturbed(p: Program, id: string, rows: Rows, h: History)
    requires PatchesFresh(p, id, rows) && Follow(p, id, rows, h).Some? && 0 !in rows
    ensures Straight(p, id, Standing(rows, h, Follow(p, id, rows, h).value))
  {
    if h == [] {
      LaunchUndisturbed(p, id, rows);
    } else {
      var init, o := h[..|h| - 1], h[|h| - 1];
      assert h == init + [o];
      FollowStep(p, id, rows, init, o);
      ReplayUndisturbed(p, id, rows, init);
      var q := Follow(p, id, rows, init).value;
      assert FreshAfter(p, id, rows, init);
      NextUndisturbed(p, id, rows, init, q);
    }
  }

  lemma FinishedStraight(p: Program, id: string, s: State, e: nat)
    requires Inv(p, id, s) && PatchesFresh(p, id, s.rows) && Get(s, e).Done?
    ensures Straight(p, id, State(s.rows, map[0 := Get(s, e)], Some(Get(s, e).outcome)))
  {
    var x := Get(s, e);
    assert ExecutorAgrees(p, id, s.rows, x);
    DoneIsFinal(p, id, s, e, x.h);
    ReplayUndisturbed(p, id, s.rows, x.h);
    assert Upto(s.rows, x.q) == s.rows;
    UndisturbedThen(p, id, Standing(s.rows, x.h, x.q), Proceed(0), State(s.rows, map[0 := x], Some(x.outcome)));
  }

  /**
   Whatever crashes, recoveries and concurrent executors a run had, an executor that finishes
   leaves the checkpoints and the result of one run without crashes whose steps give the
   recorded results.
   */
  lemma RecoveryIsInvisible(p: Program, id: string, events: seq<(nat, Event)>, e: nat)
    requires HarmlessThroughout(p, id, INITIAL, events)
    requires Get(Run(p, id, INITIAL, events), e).Done?
    ensures var s := Run(p, id, INITIAL, events);
            Straight(p, id, State(s.rows, map[0 := Get(s, e)], Some(Get(s, e).outcome)))
  {
    InitialInv(p, id);
    RunKeepsInv(p, id, INITIAL, events);
    RunKeepsFresh(p, id, events);
    FinishedStraight(p, id, Run(p, id, INITIAL, events), e);
  }

  // ---------------------------------------------------------- operations go on

  /** The checkpoint is written `losses` times without an answer. */
  function Unanswered(p: Program, id: string, s: State, e: nat, losses: nat): State {
    if losses == 0 then s else Apply(p, id, Unanswered(p, id, s, e, losses - 1), e, Commit(true))
  }

  lemma {:induction false} UnansweredState(p: Program, id: string, s: State, e: nat, losses: nat)
    requires Get(s, e).Writing? && Get(s, e).q !in s.rows
    ensures var x, t := Get(s, e), Unanswered(p, id, s, e, losses);
            && Get(t, e) == x && t.result == s.result
            && t.rows == if losses == 0 then s.rows else s.rows[x.q := x.row]
  {
    if losses > 0 { UnansweredState(p, id, s, e, losses - 1); }
  }

  /** However often the answer is lost, a checkpoint is written once and its writer goes on to the next position. */
  lemma RetryGoesOn(p: Program, id: string, s: State, e: nat, losses: nat)
    requires Get(s, e).Writing? && Get(s, e).q !in s.rows
    ensures var x, t := Get(s, e), Apply(p, id, Unanswered(p, id, s, e, losses), e, Commit(false));
            Get(t, e) == Ready(x.h + [Saw(x.row.content)], x.q) && t.rows == s.rows[x.q := x.row]
  {
    UnansweredState(p, id, s, e, losses);
  }

  lemma StepStarts(p: Program, id: string, s: State, e: nat, stamp: int)
    requires Get(s, e).Ready? && p(Get(s, e).h).RunStep? && Get(s, e).q + 1 !in s.rows
    ensures var x, t := Get(s, e), Apply(p, id, s, e, Proceed(stamp));
            Get(t, e) == Running(x.h, x.q + 1, p(x.h).name) && t.rows == s.rows
  {
  }

  /** A step that is not recorded is run and recorded, and the workflow goes on with its outcome. */
  lemma StepGoesOn(p: Program, id: string, s: State, e: nat, outcome: Outcome, stamp: int, losses: nat)
    requires Get(s, e).Ready? && p(Get(s, e).h).RunStep? && Get(s, e).q + 1 !in s.rows
    ensures var x := Get(s, e);
            var writing := Apply(p, id, Apply(p, id, s, e, Proceed(stamp)), e, Return(outcome, stamp));
            var t := Apply(p, id, Unanswered(p, id, writing, e, losses), e, Commit(false));
            && Get(t, e) == Ready(x.h + [Saw(Step(outcome))], x.q + 1)
            && t.rows == s.rows[x.q + 1 := Row(p(x.h).name, Step(outcome), stamp)]
  {
    StepStarts(p, id, s, e, stamp);
    var x, running := Get(s, e), Apply(p, id, s, e, Proceed(stamp));
    var writing := Apply(p, id, running, e, Return(outcome, stamp));
    assert Get(writing, e) == Writing(x.h, x.q + 1, Row(p(x.h).name, Step(outcome), stamp));
    RetryGoesOn(p, id, writing, e, losses);
  }

  /** A child that is not recorded is started under its identifier, and the workflow goes on with that. */
  lemma ChildGoesOn(p: Program, id: string, s: State, e: nat, stamp: int, losses: nat)
    requires Get(s, e).Ready? && p(Get(s, e).h).StartChild? && Get(s, e).q + 1 !in s.rows
    ensures var x := Get(s, e);
            var child := StartedId(id, x.q + 1, p(x.h).chosen);
            var t := Apply(p, id, Unanswered(p, id, Apply(p, id, s, e, Proceed(stamp)), e, losses), e, Commit(false));
            && Get(t, e) == Ready(x.h + [Saw(Child(child))], x.q + 1)
            && t.rows == s.rows[x.q + 1 := Row(p(x.h).name, Child(child), stamp)]
  {
    RetryGoesOn(p, id, Apply(p, id, s, e, Proceed(stamp)), e, losses);
  }

  /**
   Of two executors that write at one position the first goes on.  The second goes on beside it with the same
   child, and with its own result of a step that was completed in the same millisecond; else it gives way.
   */
  lemma FirstWriterWins(p: Program, id: string, s: State, d: nat, e: nat)
    requires d != e && Get(s, d).Writing? && Get(s, e).Writing? && Get(s, d).q == Get(s, e).q && Get(s, d).q !in s.rows
    ensures var x, y := Get(s, d), Get(s, e);
            var t := Apply(p, id, Apply(p, id, s, d, Commit(false)), e, Commit(false));
            && t.rows == s.rows[x.q := x.row] && Get(t, d) == Ready(x.h + [Saw(x.row.content)], x.q)
            && var joins := if y.row.content.Child? then x.row.content == y.row.content else x.row.stamp == y.row.stamp;
               Get(t, e) == if joins then Ready(y.h + [Saw(y.row.content)], y.q) else Conflicted
  {
    var u := Apply(p, id, s, d, Commit(false));
    assert Get(u, e) == Get(s, e);
    var t := Apply(p, id, u, e, Commit(false));
    assert Get(t, d) == Get(u, d);
  }

  // ------------------------------------------------------------------ recovery

  /** An executor that is launched and looks up `n` operations. */
  function Recovered(p: Program, id: string, s: State, e: nat, n: nat): State {
    if n == 0 then Apply(p, id, s, e, Launch) else Apply(p, id, Recovered(p, id, s, e, n - 1), e, Proceed(0))
  }

  lemma ObservedIsReplayed(p: Program, id: string, s: State, e: nat, h: History, q: nat, o: Observation, q': nat)
    requires Observe(id, s.rows, p(h), q) == Some((o, q'))
    ensures Apply(p, id, Set(s, e, Ready(h, q)), e, Proceed(0)) == Set(s, e, Ready(h + [o], q'))
  {
    var t := Set(s, e, Ready(h, q));
    OperateReplays(p, id, t, e, h, q, 0);
    assert Set(t, e, Ready(h + [o], q')).executors == Set(s, e, Ready(h + [o], q')).executors;
  }

  /**
   A recovery reads every recorded result back, to any point that the table reaches, by looking it
   up: no body runs and nothing is written.
   */
  lemma {:induction false} RecoveryReplays(p: Program, id: string, s: State, e: nat, h: History)
    requires Get(s, e) == Idle && Follow(p, id, s.rows, h).Some?
    ensures Recovered(p, id, s, e, |h|) == Set(s, e, Ready(h, Follow(p, id, s.rows, h).value))
  {
    if h != [] {
      var init := h[..|h| - 1];
      RecoveryReplays(p, id, s, e, init);
      var o := h[|h| - 1];
      assert h == init + [o];
      FollowStep(p, id, s.rows, init, o);
      ObservedIsReplayed(p, id, s, e, init, Follow(p, id, s.rows, init).value, o, Follow(p, id, s.rows, h).value);
    }
  }
}
