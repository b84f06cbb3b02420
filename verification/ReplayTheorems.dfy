/**
 What every run of the checkpoint machine keeps, for every program, any number of
 executors and any crashes.
 */
module ReplayTheorems {
  import opened Values
  import opened WorkflowContext
  import opened Replay

  /** What an executor believes agrees with the table. */
  ghost predicate ExecutorAgrees(p: Program, id: string, rows: Rows, x: Executor) {
    match x
    case Idle => true
    case Conflicted => true
    case Unexpected => false
    case Ready(h, q) => Follow(p, id, rows, h) == Some(q)
    case Running(h, q, name) => 1 <= q && Follow(p, id, rows, h) == Some(q - 1) && p(h) == RunStep(name)
    case Writing(h, q, row) =>
      && 1 <= q && Follow(p, id, rows, h) == Some(q - 1)
      && (|| (p(h) == RunStep(row.name) && row.content.Step?)
          || (p(h).StartChild? && p(h).name == row.name && row.content == Child(StartedId(id, q, p(h).chosen))))
    case Done(h, q, outcome) => Follow(p, id, rows, h) == Some(q) && p(h) == Finish(outcome)
  }

  /** `full` reads the checkpoints 1 to `k`, which are all there are. */
  ghost predicate Tight(p: Program, id: string, rows: Rows, k: nat, full: History) {
    Dense(rows, k) && Follow(p, id, rows, full) == Some(k)
  }

  ghost predicate ResultAgrees(p: Program, id: string, rows: Rows, result: Option<Outcome>) {
    result.Some? ==> exists h :: Follow(p, id, rows, h).Some? && p(h) == Finish(result.value)
  }

  ghost predicate Inv(p: Program, id: string, s: State) {
    && (exists k, full :: Tight(p, id, s.rows, k, full))
    && (forall e :: ExecutorAgrees(p, id, s.rows, Get(s, e)))
    && ResultAgrees(p, id, s.rows, s.result)
  }

  /** Behind the end of the table, the next checkpoint is the one that the program asks for. */
  lemma NextCheckpointFits(p: Program, id: string, rows: Rows, k: nat, full: History, g: History, q: nat)
    requires Tight(p, id, rows, k, full) && Follow(p, id, rows, g) == Some(q) && q < k
    ensures |g| < |full| && g == full[..|g|] && Observe(id, rows, p(g), q).Some?
  {
    if |full| <= |g| {
      FollowPrefix(p, id, rows, g, |full|);
      FollowComparable(p, id, rows, full, g);
    } else {
      FollowComparable(p, id, rows, g, full);
      FollowPrefix(p, id, rows, full, |g| + 1);
      assert full[..|g| + 1] == g + [full[|g|]];
      FollowStep(p, id, rows, g, full[|g|]);
    }
  }

  lemma SetKeepsInv(p: Program, id: string, s: State, e: nat, x: Executor)
    requires Inv(p, id, s) && ExecutorAgrees(p, id, s.rows, x)
    ensures Inv(p, id, Set(s, e, x))
  {
    var s' := Set(s, e, x);
    forall d ensures ExecutorAgrees(p, id, s'.rows, Get(s', d)) {
      assert ExecutorAgrees(p, id, s.rows, Get(s, d));
    }
  }

  lemma ResultGrows(p: Program, id: string, rows: Rows, k: nat, row: Row, g: History, result: Option<Outcome>)
    requires Tight(p, id, rows, k, g) && CheckpointName(p(g)) == Some(row.name)
    requires !Shifts(p, id, rows, k, g, row.name)
    requires ResultAgrees(p, id, rows, result)
    ensures ResultAgrees(p, id, rows[k + 1 := row], result)
  {
    if result.Some? {
      var h :| Follow(p, id, rows, h).Some? && p(h) == Finish(result.value);
      FollowGrows(p, id, rows, k, row, g, h);
    }
  }

  lemma TightGrows(p: Program, id: string, rows: Rows, k: nat, row: Row, g: History, o: Observation)
    requires Tight(p, id, rows, k, g) && CheckpointName(p(g)) == Some(row.name)
    requires !Shifts(p, id, rows, k, g, row.name)
    requires Observe(id, rows[k + 1 := row], p(g), k) == Some((o, k + 1))
    ensures Tight(p, id, rows[k + 1 := row], k + 1, g + [o])
    ensures Follow(p, id, rows[k + 1 := row], g) == Some(k)
  {
    FollowGrows(p, id, rows, k, row, g, g);
    FollowStep(p, id, rows[k + 1 := row], g, o);
  }

  /** Leaving the next checkpoint keeps everything that was observed before. */
  lemma InsertKeepsInv(p: Program, id: string, s: State, k: nat, g: History, row: Row, o: Observation)
    requires Inv(p, id, s) && Tight(p, id, s.rows, k, g)
    requires CheckpointName(p(g)) == Some(row.name) && !Shifts(p, id, s.rows, k, g, row.name)
    requires Observe(id, s.rows[k + 1 := row], p(g), k) == Some((o, k + 1))
    ensures Inv(p, id, Insert(s, k + 1, row))
    ensures Follow(p, id, Insert(s, k + 1, row).rows, g) == Some(k)
  {
    var s' := Insert(s, k + 1, row);
    TightGrows(p, id, s.rows, k, row, g, o);
    ResultGrows(p, id, s.rows, k, row, g, s.result);
    forall e ensures ExecutorAgrees(p, id, s'.rows, Get(s', e)) {
      AgreementGrows(p, id, s.rows, k, row, g, Get(s, e));
    }
  }

  lemma AgreementGrows(p: Program, id: string, rows: Rows, k: nat, row: Row, g: History, x: Executor)
    requires Tight(p, id, rows, k, g) && CheckpointName(p(g)) == Some(row.name)
    requires !Shifts(p, id, rows, k, g, row.name)
    requires ExecutorAgrees(p, id, rows, x)
    ensures ExecutorAgrees(p, id, rows[k + 1 := row], x)
  {
    match x {
      case Ready(h, q) => FollowGrows(p, id, rows, k, row, g, h);
      case Running(h, q, name) => FollowGrows(p, id, rows, k, row, g, h);
      case Writing(h, q, r) => FollowGrows(p, id, rows, k, row, g, h);
      case Done(h, q, outcome) => FollowGrows(p, id, rows, k, row, g, h);
      case _ =>
    }
  }

  lemma ObservedKeepsInv(p: Program, id: string, s: State, e: nat, h: History, q: nat)
    requires Inv(p, id, s) && Follow(p, id, s.rows, h) == Some(q) && Observe(id, s.rows, p(h), q).Some?
    ensures var (o, q') := Observe(id, s.rows, p(h), q).value;
            Inv(p, id, Set(s, e, Ready(h + [o], q')))
  {
    var (o, q') := Observe(id, s.rows, p(h), q).value;
    FollowStep(p, id, s.rows, h, o);
    SetKeepsInv(p, id, s, e, Ready(h + [o], q'));
  }

  /** A ready executor either finds what it needs or stands at the end of the table. */
  lemma ReadyCases(p: Program, id: string, s: State, h: History, q: nat)
    requires Inv(p, id, s) && Follow(p, id, s.rows, h) == Some(q)
    ensures if q + 1 in s.rows then Observe(id, s.rows, p(h), q).Some? else Tight(p, id, s.rows, q, h)
  {
    var k, full :| Tight(p, id, s.rows, k, full);
    FollowBound(p, id, s.rows, h, k);
    if q < k { NextCheckpointFits(p, id, s.rows, k, full, h, q); }
  }

  /** The executor leaves a checkpoint at the end of the table and may go on. */
  lemma LeaveCheckpoint(p: Program, id: string, s: State, e: nat, h: History, q: nat, row: Row, o: Observation)
    requires Inv(p, id, s) && Tight(p, id, s.rows, q, h)
    requires CheckpointName(p(h)) == Some(row.name) && !Shifts(p, id, s.rows, q, h, row.name)
    requires Observe(id, s.rows[q + 1 := row], p(h), q) == Some((o, q + 1))
    ensures var t := Insert(s, q + 1, row);
            && Inv(p, id, t) && Follow(p, id, t.rows, h) == Some(q)
            && Inv(p, id, Set(t, e, Ready(h + [o], q + 1)))
  {
    InsertKeepsInv(p, id, s, q, h, row, o);
    ObservedKeepsInv(p, id, Insert(s, q + 1, row), e, h, q);
  }

  lemma FinishKeepsInv(p: Program, id: string, s: State, e: nat, h: History, q: nat, outcome: Outcome)
    requires Inv(p, id, s) && Follow(p, id, s.rows, h) == Some(q) && p(h) == Finish(outcome)
    ensures Inv(p, id, Set(s, e, Done(h, q, outcome)).(result := Some(outcome)))
  {
    SetKeepsInv(p, id, s, e, Done(h, q, outcome));
    var s' := Set(s, e, Done(h, q, outcome)).(result := Some(outcome));
    forall d ensures Get(s', d) == Get(Set(s, e, Done(h, q, outcome)), d) {}
  }

  /** What is found in the table is replayed. */
  lemma OperateReplays(p: Program, id: string, s: State, e: nat, h: History, q: nat, stamp: int)
    requires Observe(id, s.rows, p(h), q).Some?
    ensures var (o, q') := Observe(id, s.rows, p(h), q).value;
            Operate(p, id, s, e, h, q, stamp) == Set(s, e, Ready(h + [o], q'))
  {
  }

  /** At the end of the table a step is to be run or a child to be recorded. */
  lemma OperateWaits(p: Program, id: string, s: State, e: nat, h: History, q: nat, stamp: int)
    requires q + 1 !in s.rows && Follow(p, id, s.rows, h) == Some(q) && (p(h).RunStep? || p(h).StartChild?)
    ensures var x := Get(Operate(p, id, s, e, h, q, stamp), e);
            Operate(p, id, s, e, h, q, stamp) == Set(s, e, x) && ExecutorAgrees(p, id, s.rows, x)
  {
  }

  /** At the end of the table a patch leaves its marker. */
  lemma OperateMarks(p: Program, id: string, s: State, e: nat, h: History, q: nat, stamp: int)
    requires q + 1 !in s.rows && p(h).Patch?
    ensures var row := Row(MarkerName(p(h).patch), Marker, stamp);
            && Operate(p, id, s, e, h, q, stamp) == Set(Insert(s, q + 1, row), e, Ready(h + [Answer(true)], q + 1))
            && Observe(id, s.rows[q + 1 := row], p(h), q) == Some((Answer(true), q + 1))
  {
  }

  lemma OperateAtEnd(p: Program, id: string, s: State, e: nat, h: History, q: nat, stamp: int)
    requires Inv(p, id, s) && Tight(p, id, s.rows, q, h) && !p(h).Deprecate?
    requires p(h).Patch? ==> !Shifts(p, id, s.rows, q, h, MarkerName(p(h).patch))
    ensures Inv(p, id, Operate(p, id, s, e, h, q, stamp))
  {
    assert q + 1 !in s.rows;
    if p(h).Finish? {
      FinishKeepsInv(p, id, s, e, h, q, p(h).outcome);
    } else if p(h).Patch? {
      OperateMarks(p, id, s, e, h, q, stamp);
      LeaveCheckpoint(p, id, s, e, h, q, Row(MarkerName(p(h).patch), Marker, stamp), Answer(true));
    } else {
      OperateWaits(p, id, s, e, h, q, stamp);
      SetKeepsInv(p, id, s, e, Get(Operate(p, id, s, e, h, q, stamp), e));
    }
  }

  lemma OperateKeepsInv(p: Program, id: string, s: State, e: nat, h: History, q: nat, stamp: int)
    requires Inv(p, id, s) && Follow(p, id, s.rows, h) == Some(q)
    requires p(h).Patch? && q + 1 !in s.rows ==> !Shifts(p, id, s.rows, q, h, MarkerName(p(h).patch))
    ensures Inv(p, id, Operate(p, id, s, e, h, q, stamp))
  {
    ReadyCases(p, id, s, h, q);
    if Observe(id, s.rows, p(h), q).Some? {
      OperateReplays(p, id, s, e, h, q, stamp);
      ObservedKeepsInv(p, id, s, e, h, q);
    } else {
      OperateAtEnd(p, id, s, e, h, q, stamp);
    }
  }

  lemma FirstWriteKeepsInv(p: Program, id: string, s: State, e: nat, x: Executor, lost: bool)
    requires Inv(p, id, s) && x.Writing? && ExecutorAgrees(p, id, s.rows, x)
    requires x.q !in s.rows && Tight(p, id, s.rows, x.q - 1, x.h)
    requires !Shifts(p, id, s.rows, x.q - 1, x.h, x.row.name)
    ensures Inv(p, id, Record(s, e, x, lost))
  {
    var o := Saw(x.row.content);
    assert Observe(id, s.rows[x.q := x.row], p(x.h), x.q - 1) == Some((o, x.q));
    LeaveCheckpoint(p, id, s, e, x.h, x.q - 1, x.row, o);
    if lost { SetKeepsInv(p, id, Insert(s, x.q, x.row), e, x); }
  }

  lemma LaterWriteKeepsInv(p: Program, id: string, s: State, e: nat, x: Executor)
    requires Inv(p, id, s) && x.Writing? && ExecutorAgrees(p, id, s.rows, x)
    requires x.q in s.rows && Observe(id, s.rows, p(x.h), x.q - 1).Some?
    requires x.row.content.Step? && s.rows[x.q].stamp == x.row.stamp ==> s.rows[x.q].content == x.row.content
    ensures Inv(p, id, Record(s, e, x, false))
  {
    if s.rows[x.q].content == x.row.content {
      ObservedKeepsInv(p, id, s, e, x.h, x.q - 1);
    }
    SetKeepsInv(p, id, s, e, Conflicted);
  }

  lemma RecordKeepsInv(p: Program, id: string, s: State, e: nat, lost: bool)
    requires Inv(p, id, s) && Get(s, e).Writing? && Harmless(p, id, s, e, Commit(lost))
    ensures Inv(p, id, Record(s, e, Get(s, e), lost))
  {
    var x := Get(s, e);
    assert ExecutorAgrees(p, id, s.rows, x);
    ReadyCases(p, id, s, x.h, x.q - 1);
    if x.q !in s.rows {
      FirstWriteKeepsInv(p, id, s, e, x, lost);
    } else if !lost {
      LaterWriteKeepsInv(p, id, s, e, x);
    }
  }

  lemma ApplyKeepsInv(p: Program, id: string, s: State, e: nat, event: Event)
    requires Inv(p, id, s) && Harmless(p, id, s, e, event)
    ensures Inv(p, id, Apply(p, id, s, e, event))
  {
    assert ExecutorAgrees(p, id, s.rows, Get(s, e));
    match (Get(s, e), event) {
      case (Idle, Launch) => SetKeepsInv(p, id, s, e, Ready([], 0));
      case (Ready(h, q), Proceed(stamp)) => OperateKeepsInv(p, id, s, e, h, q, stamp);
      case (Running(h, q, name), Return(outcome, stamp)) =>
        SetKeepsInv(p, id, s, e, Writing(h, q, Row(name, Step(outcome), stamp)));
      case (Writing(h, q, row), Commit(lost)) => RecordKeepsInv(p, id, s, e, lost);
      case (_, Crash) => SetKeepsInv(p, id, s, e, Idle);
      case _ =>
    }
  }

  /** A writer that takes over a checkpoint goes on with its own result. */
  lemma TakesOver(p: Program, id: string, s: State, e: nat, event: Event)
    requires !StampsTell(s, e, event)
    ensures Get(s, e).Writing? && Get(s, e).q in s.rows
    ensures s.rows[Get(s, e).q].content != Get(s, e).row.content && Get(s, e).row.content.Step?
    ensures var x := Get(s, e);
            Apply(p, id, s, e, event) == Set(s, e, Ready(x.h + [Saw(x.row.content)], x.q))
  {
  }

  /** A step that goes on with a result other than the recorded one does not agree with the table. */
  lemma OtherResultDisagrees(p: Program, id: string, rows: Rows, x: Executor)
    requires x.Writing? && ExecutorAgrees(p, id, rows, x) && x.row.content.Step?
    requires x.q in rows && rows[x.q].content != x.row.content
    ensures !ExecutorAgrees(p, id, rows, Ready(x.h + [Saw(x.row.content)], x.q))
  {
    FollowStep(p, id, rows, x.h, Saw(x.row.content));
  }

  lemma WithoutStampsNoInv(p: Program, id: string, s: State, e: nat, event: Event)
    requires Inv(p, id, s) && !StampsTell(s, e, event)
    ensures !Inv(p, id, Apply(p, id, s, e, event))
  {
    var x := Get(s, e);
    assert ExecutorAgrees(p, id, s.rows, x);
    TakesOver(p, id, s, e, event);
    OtherResultDisagrees(p, id, s.rows, x);
    var t := Apply(p, id, s, e, event);
    assert !ExecutorAgrees(p, id, t.rows, Get(t, e));
  }

  /** An executor that leaves a checkpoint taken for another one's marker stands at the wrong position. */
  lemma ShiftDisagrees(p: Program, id: string, rows: Rows, k: nat, row: Row, g: History, x: Executor)
    requires Tight(p, id, rows, k, g) && CheckpointName(p(g)) == Some(row.name) && Shifts(p, id, rows, k, g, row.name)
    requires (x.Writing? && x.h == g && x.q == k + 1) || (x.Ready? && exists o :: x.h == g + [o])
    ensures !ExecutorAgrees(p, id, rows[k + 1 := row], x)
  {
    ShiftMoves(p, id, rows, k, row, g);
    if x.Ready? {
      var o :| x.h == g + [o];
      FollowStep(p, id, rows[k + 1 := row], g, o);
      assert k + 2 !in rows[k + 1 := row];
    }
  }

  lemma ShiftedPatchNoInv(p: Program, id: string, s: State, e: nat, h: History, q: nat, stamp: int)
    requires Inv(p, id, s) && Follow(p, id, s.rows, h) == Some(q) && q + 1 !in s.rows && p(h).Patch?
    requires Shifts(p, id, s.rows, q, h, MarkerName(p(h).patch))
    ensures !Inv(p, id, Operate(p, id, s, e, h, q, stamp))
  {
    ReadyCases(p, id, s, h, q);
    OperateMarks(p, id, s, e, h, q, stamp);
    var t := Operate(p, id, s, e, h, q, stamp);
    ShiftDisagrees(p, id, s.rows, q, Row(MarkerName(p(h).patch), Marker, stamp), h, Get(t, e));
    assert !ExecutorAgrees(p, id, t.rows, Get(t, e));
  }

  lemma ShiftedWriteNoInv(p: Program, id: string, s: State, e: nat, x: Executor, lost: bool)
    requires Inv(p, id, s) && x.Writing? && ExecutorAgrees(p, id, s.rows, x) && x.q !in s.rows
    requires Shifts(p, id, s.rows, x.q - 1, x.h, x.row.name) && Get(s, e) == x
    ensures !Inv(p, id, Record(s, e, x, lost))
  {
    ReadyCases(p, id, s, x.h, x.q - 1);
    var t := Record(s, e, x, lost);
    ShiftDisagrees(p, id, s.rows, x.q - 1, x.row, x.h, Get(t, e));
    assert !ExecutorAgrees(p, id, t.rows, Get(t, e));
  }

  lemma WithoutPositionsNoInv(p: Program, id: string, s: State, e: nat, event: Event)
    requires Inv(p, id, s) && !PositionsStay(p, id, s, e, event)
    ensures !Inv(p, id, Apply(p, id, s, e, event))
  {
    var x := Get(s, e);
    assert ExecutorAgrees(p, id, s.rows, x);
    if x.Ready? {
      ShiftedPatchNoInv(p, id, s, e, x.h, x.q, event.stamp);
    } else {
      ShiftedWriteNoInv(p, id, s, e, x, event.connectionLost);
    }
  }

  /**
   The condition is exact: without it the executor goes on with a result that is not the recorded one, or leaves
   a checkpoint that moves the positions of what was observed before.
   */
  lemma KeepsInvIff(p: Program, id: string, s: State, e: nat, event: Event)
    requires Inv(p, id, s)
    ensures Inv(p, id, Apply(p, id, s, e, event)) <==> StampsTell(s, e, event) && PositionsStay(p, id, s, e, event)
  {
    if !StampsTell(s, e, event) {
      WithoutStampsNoInv(p, id, s, e, event);
    } else if !PositionsStay(p, id, s, e, event) {
      WithoutPositionsNoInv(p, id, s, e, event);
    } else {
      ApplyKeepsInv(p, id, s, e, event);
    }
  }

  /** Every run keeps the invariant, whatever the interleaving of executors, crashes and lost connections. */
  lemma {:induction false} RunKeepsInv(p: Program, id: string, s: State, events: seq<(nat, Event)>)
    requires Inv(p, id, s) && HarmlessThroughout(p, id, s, events)
    ensures Inv(p, id, Run(p, id, s, events))
  {
    if events != [] {
      var init, last := events[..|events| - 1], events[|events| - 1];
      RunKeepsInv(p, id, s, init);
      ApplyKeepsInv(p, id, Run(p, id, s, init), last.0, last.1);
    }
  }

  // -------------------------------------------------- programs that retire patches

  /** A program that does something between deprecating a patch and leaving its marker never shifts a position. */
  lemma RetiringStays(p: Program, id: string, s: State, e: nat, event: Event)
    requires RetiresPatches(p) && Inv(p, id, s)
    ensures PositionsStay(p, id, s, e, event)
  {
    var x := Get(s, e);
    assert ExecutorAgrees(p, id, s.rows, x);
    if x.Ready? && event.Proceed? && p(x.h).Patch? && x.q + 1 !in s.rows {
      ReadyCases(p, id, s, x.h, x.q);
      RetiringNeverShifts(p, id, s.rows, x.q, x.h, MarkerName(p(x.h).patch));
    } else if x.Writing? && event.Commit? && x.q !in s.rows {
      ReadyCases(p, id, s, x.h, x.q - 1);
      RetiringNeverShifts(p, id, s.rows, x.q - 1, x.h, x.row.name);
    }
  }

  /** For such a program the completion times decide alone. */
  lemma {:induction false} RetiringIsHarmless(p: Program, id: string, s: State, events: seq<(nat, Event)>)
    requires RetiresPatches(p) && Inv(p, id, s) && StampsTellThroughout(p, id, s, events)
    ensures HarmlessThroughout(p, id, s, events)
  {
    if events != [] {
      var init, last := events[..|events| - 1], events[|events| - 1];
      RetiringIsHarmless(p, id, s, init);
      RunKeepsInv(p, id, s, init);
      RetiringStays(p, id, Run(p, id, s, init), last.0, last.1);
    }
  }

  // ------------------------------------------------------------- consequences

  /** The state in which a workflow starts. */
  const INITIAL := State(map[], map[], None)

  lemma InitialInv(p: Program, id: string)
    ensures Inv(p, id, INITIAL)
  {
    assert Tight(p, id, INITIAL.rows, 0, []);
  }

  /** No run from the start ever meets a checkpoint of another operation. */
  lemma NeverUnexpected(p: Program, id: string, events: seq<(nat, Event)>, e: nat)
    requires HarmlessThroughout(p, id, INITIAL, events)
    ensures Get(Run(p, id, INITIAL, events), e) != Unexpected
  {
    InitialInv(p, id);
    RunKeepsInv(p, id, INITIAL, events);
    assert ExecutorAgrees(p, id, Run(p, id, INITIAL, events).rows, Get(Run(p, id, INITIAL, events), e));
  }

  /** A finished executor has read every checkpoint, and its outcome is the only possible one. */
  lemma DoneIsFinal(p: Program, id: string, s: State, e: nat, h: History)
    requires Inv(p, id, s) && Get(s, e).Done? && Follow(p, id, s.rows, h).Some? && p(h).Finish?
    ensures Get(s, e).h == h && Get(s, e).outcome == p(h).outcome && Dense(s.rows, Get(s, e).q)
  {
    var x := Get(s, e);
    assert ExecutorAgrees(p, id, s.rows, x);
    FinishEndsHistory(p, id, s.rows, x.h, h);
    var k, full :| Tight(p, id, s.rows, k, full);
    FollowBound(p, id, s.rows, x.h, k);
    if x.q < k { NextCheckpointFits(p, id, s.rows, k, full, x.h, x.q); }
  }

  lemma FinishEndsHistory(p: Program, id: string, rows: Rows, h: History, g: History)
    requires Follow(p, id, rows, h).Some? && Follow(p, id, rows, g).Some? && p(h).Finish? && p(g).Finish?
    ensures h == g
  {
    if |h| < |g| {
      FinishIsLast(p, id, rows, h, g);
    } else if |g| < |h| {
      FinishIsLast(p, id, rows, g, h);
    } else {
      FollowUnique(p, id, rows, h, g);
    }
  }

  lemma FinishIsLast(p: Program, id: string, rows: Rows, h: History, g: History)
    requires |h| < |g| && Follow(p, id, rows, h).Some? && Follow(p, id, rows, g).Some?
    ensures !p(h).Finish?
  {
    FollowComparable(p, id, rows, h, g);
    FollowPrefix(p, id, rows, g, |h| + 1);
    assert g[..|h| + 1] == h + [g[|h|]];
    FollowStep(p, id, rows, h, g[|h|]);
  }

  /** All executors that finish, now or later, return what is recorded for the workflow. */
  lemma ResultsAgree(p: Program, id: string, s: State, e: nat)
    requires Inv(p, id, s) && Get(s, e).Done? && s.result.Some?
    ensures s.result == Some(Get(s, e).outcome)
  {
    var h :| Follow(p, id, s.rows, h).Some? && p(h) == Finish(s.result.value);
    DoneIsFinal(p, id, s, e, h);
  }

  /** The table gains the next checkpoint, the one that the program asks for after `g`. */
  ghost predicate Gains(p: Program, id: string, rows: Rows, rows': Rows, k: nat, g: History, row: Row) {
    && Tight(p, id, rows, k, g) && CheckpointName(p(g)) == Some(row.name) && rows' == rows[k + 1 := row]
    && (p(g).Patch? ==> row.content == Marker) && !Shifts(p, id, rows, k, g, row.name)
  }

  lemma OperateRows(p: Program, id: string, s: State, e: nat, h: History, q: nat, stamp: int)
    requires Inv(p, id, s) && Follow(p, id, s.rows, h) == Some(q)
    requires p(h).Patch? && q + 1 !in s.rows ==> !Shifts(p, id, s.rows, q, h, MarkerName(p(h).patch))
    ensures var rows' := Operate(p, id, s, e, h, q, stamp).rows;
            || rows' == s.rows
            || (p(h).Patch? && Gains(p, id, s.rows, rows', q, h, Row(MarkerName(p(h).patch), Marker, stamp)))
  {
    ReadyCases(p, id, s, h, q);
  }

  /** How one event can change the table. */
  lemma ApplyRows(p: Program, id: string, s: State, e: nat, event: Event) returns (k: nat, g: History, row: Row)
    requires Inv(p, id, s) && PositionsStay(p, id, s, e, event)
    ensures var rows' := Apply(p, id, s, e, event).rows;
            rows' == s.rows || Gains(p, id, s.rows, rows', k, g, row)
  {
    k, g, row := 0, [], Row("", Marker, 0);
    assert ExecutorAgrees(p, id, s.rows, Get(s, e));
    match (Get(s, e), event) {
      case (Ready(h, q), Proceed(stamp)) =>
        OperateRows(p, id, s, e, h, q, stamp);
        k, g := q, h;
        if p(h).Patch? { row := Row(MarkerName(p(h).patch), Marker, stamp); }
      case (Writing(h, q, r), Commit(lost)) =>
        ReadyCases(p, id, s, h, q - 1);
        k, g, row := q - 1, h, r;
      case _ =>
    }
  }

  /** What was once observed is observed by every later replay: results, child identifiers and patch decisions. */
  lemma {:induction false} HistoriesArePermanent(p: Program, id: string, s: State, events: seq<(nat, Event)>,
                                                 h: History)
    requires Inv(p, id, s) && HarmlessThroughout(p, id, s, events)
    requires Follow(p, id, s.rows, h).Some?
    ensures Follow(p, id, Run(p, id, s, events).rows, h) == Follow(p, id, s.rows, h)
  {
    if events != [] {
      var init, last := events[..|events| - 1], events[|events| - 1];
      HistoriesArePermanent(p, id, s, init, h);
      RunKeepsInv(p, id, s, init);
      var t := Run(p, id, s, init);
      var k, g, row := ApplyRows(p, id, t, last.0, last.1);
      if Apply(p, id, t, last.0, last.1).rows != t.rows { FollowGrows(p, id, t.rows, k, row, g, h); }
    }
  }

  /** Two executors, at any two moments of a run, agree on as much as both have observed. */
  lemma ReplaysAgree(p: Program, id: string, s: State, events: seq<(nat, Event)>, h: History, g: History)
    requires Inv(p, id, s) && HarmlessThroughout(p, id, s, events)
    requires Follow(p, id, s.rows, h).Some? && Follow(p, id, Run(p, id, s, events).rows, g).Some?
    ensures if |h| <= |g| then h == g[..|h|] else g == h[..|g|]
  {
    HistoriesArePermanent(p, id, s, events, h);
    var rows := Run(p, id, s, events).rows;
    if |h| <= |g| { FollowComparable(p, id, rows, h, g); } else { FollowComparable(p, id, rows, g, h); }
  }
}
