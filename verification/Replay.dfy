/**
 Checkpoint and replay.  A workflow is a deterministic program: what it does next is a
 function of what its earlier operations returned.  Operations reserve positions in
 order, look for a checkpoint at their position, and leave one when there is none.
 Executors crash and start over at any point, and several may run the same workflow.
 */
module Replay {
  import opened Values
  import opened WorkflowContext

  /** What a checkpoint holds. */
  datatype Content = Step(outcome: Outcome) | Child(id: string) | Marker

  /** A checkpoint; `stamp` is its completion time in milliseconds. */
  datatype Row = Row(name: string, content: Content, stamp: int)

  type Rows = map<nat, Row>

  /** What an operation returns to the workflow. */
  datatype Observation = Saw(content: Content) | Answer(patched: bool)

  datatype Action =
    | RunStep(name: string)
    /** `chosen` is the identifier that the application chose for the child, or empty */
    | StartChild(name: string, chosen: string)
    | Patch(patch: string)
    | Deprecate(patch: string)
    | Finish(outcome: Outcome)

  type History = seq<Observation>

  type Program = History -> Action

  function MarkerName(patch: string): string { "DBOS.patch-" + patch }

  /** The name under which an action leaves a checkpoint, if it leaves one. */
  function CheckpointName(a: Action): Option<string> {
    match a
    case RunStep(name) => Some(name)
    case StartChild(name, _) => Some(name)
    case Patch(patch) => Some(MarkerName(patch))
    case Deprecate(_) => None
    case Finish(_) => None
  }

  /** The identifier of the child that is started at a position. */
  function StartedId(id: string, position: nat, chosen: string): string {
    if chosen == "" then ChildId(id, position) else chosen
  }

  predicate IsMarker(rows: Rows, position: nat, patch: string) {
    position in rows && rows[position].name == MarkerName(patch)
  }

  // ------------------------------------------------------------ reading a table

  /** What the operation `a` observes at position `q` of the table, and the position after it. */
  function Observe(id: string, rows: Rows, a: Action, q: nat): Option<(Observation, nat)> {
    match a
    case RunStep(name) =>
      if q + 1 in rows && rows[q + 1].name == name && rows[q + 1].content.Step?
      then Some((Saw(rows[q + 1].content), q + 1)) else None
    case StartChild(name, chosen) =>
      if q + 1 in rows && rows[q + 1].name == name && rows[q + 1].content == Child(StartedId(id, q + 1, chosen))
      then Some((Saw(rows[q + 1].content), q + 1)) else None
    case Patch(patch) =>
      if q + 1 !in rows then None
      else if IsMarker(rows, q + 1, patch) then Some((Answer(true), q + 1))
      else Some((Answer(false), q))
    case Deprecate(patch) =>
      Some((Answer(true), if IsMarker(rows, q + 1, patch) then q + 1 else q))
    case Finish(_) => None
  }

  /** The position reached by a history that consists of what the table answers, if it does. */
  function Follow(p: Program, id: string, rows: Rows, h: History): Option<nat> {
    if h == [] then Some(0)
    else
      var init := h[..|h| - 1];
      match Follow(p, id, rows, init)
      case None => None
      case Some(q) =>
        match Observe(id, rows, p(init), q)
        case None => None
        case Some((o, q')) => if o == h[|h| - 1] then Some(q') else None
  }

  /** The table has checkpoints at the positions 1 to `k`. */
  ghost predicate Dense(rows: Rows, k: nat) {
    forall i: nat :: i in rows <==> 1 <= i <= k
  }

  lemma FollowStep(p: Program, id: string, rows: Rows, h: History, o: Observation)
    ensures Follow(p, id, rows, h + [o]) ==
            match Follow(p, id, rows, h)
            case None => None
            case Some(q) =>
              match Observe(id, rows, p(h), q)
              case None => None
              case Some((o', q')) => if o' == o then Some(q') else None
  {
    assert (h + [o])[..|h|] == h;
  }

  lemma {:induction false} FollowPrefix(p: Program, id: string, rows: Rows, h: History, n: nat)
    requires n <= |h| && Follow(p, id, rows, h).Some?
    ensures Follow(p, id, rows, h[..n]).Some?
    ensures Follow(p, id, rows, h[..n]).value <= Follow(p, id, rows, h).value
  {
    if n == |h| {
      assert h[..n] == h;
    } else {
      var init := h[..|h| - 1];
      FollowPrefix(p, id, rows, init, n);
      assert init[..n] == h[..n];
    }
  }

  /** A table admits one history of each length. */
  lemma {:induction false} FollowUnique(p: Program, id: string, rows: Rows, h: History, g: History)
    requires |h| == |g| && Follow(p, id, rows, h).Some? && Follow(p, id, rows, g).Some?
    ensures h == g
  {
    if h != [] {
      FollowUnique(p, id, rows, h[..|h| - 1], g[..|g| - 1]);
      assert h == h[..|h| - 1] + [h[|h| - 1]] && g == g[..|g| - 1] + [g[|g| - 1]];
    }
  }

  lemma FollowComparable(p: Program, id: string, rows: Rows, h: History, g: History)
    requires |h| <= |g| && Follow(p, id, rows, h).Some? && Follow(p, id, rows, g).Some?
    ensures h == g[..|h|]
  {
    FollowPrefix(p, id, rows, g, |h|);
    FollowUnique(p, id, rows, h, g[..|h|]);
  }

  lemma {:induction false} FollowBound(p: Program, id: string, rows: Rows, h: History, k: nat)
    requires Dense(rows, k) && Follow(p, id, rows, h).Some?
    ensures Follow(p, id, rows, h).value <= k
  {
    if h != [] { FollowBound(p, id, rows, h[..|h| - 1], k); }
  }

  // --------------------------------------------------------- growing the table

  /** The history `g` deprecates, at its step `i` and with the table at its end, the patch with this marker name. */
  predicate DeprecatesAt(p: Program, id: string, rows: Rows, k: nat, g: History, name: string, i: nat)
    requires i < |g|
  {
    && Follow(p, id, rows, g[..i]) == Some(k)
    && p(g[..i]).Deprecate? && name == MarkerName(p(g[..i]).patch)
  }

  /** A checkpoint of this name, left after `g` at the end of the table, is taken for a deprecated patch's marker. */
  ghost predicate Shifts(p: Program, id: string, rows: Rows, k: nat, g: History, name: string) {
    exists i :: 0 <= i < |g| && DeprecatesAt(p, id, rows, k, g, name, i)
  }

  lemma ObserveGrows(id: string, rows: Rows, a: Action, q: nat, k: nat, row: Row)
    requires Dense(rows, k) && q <= k && Observe(id, rows, a, q).Some?
    requires a.Deprecate? && q == k ==> row.name != MarkerName(a.patch)
    ensures Observe(id, rows[k + 1 := row], a, q) == Observe(id, rows, a, q)
  {
  }

  /**
   `g` has read the whole table and its next action leaves a checkpoint there, which is not taken for
   the marker of a deprecated patch: then every history that the table admits is still admitted, at the
   same position.
   */
  lemma {:induction false} FollowGrows(p: Program, id: string, rows: Rows, k: nat, row: Row, g: History, h: History)
    requires Dense(rows, k) && Follow(p, id, rows, g) == Some(k) && CheckpointName(p(g)) == Some(row.name)
    requires !Shifts(p, id, rows, k, g, row.name) && Follow(p, id, rows, h).Some?
    ensures Follow(p, id, rows[k + 1 := row], h) == Follow(p, id, rows, h)
  {
    if h != [] {
      var init := h[..|h| - 1];
      FollowGrows(p, id, rows, k, row, g, init);
      var q := Follow(p, id, rows, init).value;
      FollowBound(p, id, rows, init, k);
      if p(init).Deprecate? && q == k {
        DeprecatedBefore(p, id, rows, k, g, init);
        assert row.name == MarkerName(p(init).patch) ==> DeprecatesAt(p, id, rows, k, g, row.name, |init|);
      }
      ObserveGrows(id, rows, p(init), q, k, row);
    }
  }

  /** A history cannot go past an action whose checkpoint is missing. */
  lemma StopsAtMissingCheckpoint(p: Program, id: string, rows: Rows, g: History, h: History)
    requires |g| < |h| && g == h[..|g|] && CheckpointName(p(g)).Some?
    requires Follow(p, id, rows, g).Some? && Follow(p, id, rows, g).value + 1 !in rows
    ensures Follow(p, id, rows, h).None?
  {
    assert h[..|g| + 1] == g + [h[|g|]];
    FollowStep(p, id, rows, g, h[|g|]);
    assert Observe(id, rows, p(g), Follow(p, id, rows, g).value).None?;
    if Follow(p, id, rows, h).Some? { FollowPrefix(p, id, rows, h, |g| + 1); }
  }

  /** A deprecation at the end of the table comes strictly before the next checkpoint. */
  lemma DeprecatedBefore(p: Program, id: string, rows: Rows, k: nat, g: History, h: History)
    requires Dense(rows, k) && Follow(p, id, rows, g) == Some(k) && Follow(p, id, rows, h) == Some(k)
    requires CheckpointName(p(g)).Some? && p(h).Deprecate?
    ensures |h| < |g| && h == g[..|h|]
  {
    assert g[..|g|] == g;
    if |g| < |h| {
      FollowComparable(p, id, rows, g, h);
      StopsAtMissingCheckpoint(p, id, rows, g, h);
    } else {
      FollowComparable(p, id, rows, h, g);
    }
  }

  /** At the end of the table only a deprecation goes on, and it stands still. */
  lemma EndStep(p: Program, id: string, rows: Rows, k: nat, h: History, o: Observation)
    requires Dense(rows, k) && Follow(p, id, rows, h) == Some(k) && Follow(p, id, rows, h + [o]).Some?
    ensures p(h).Deprecate? && o == Answer(true)
  {
    FollowStep(p, id, rows, h, o);
  }

  lemma StaysAtEnd(p: Program, id: string, rows: Rows, k: nat, g: History, i: nat)
    requires Dense(rows, k) && i <= |g| && Follow(p, id, rows, g).Some? && Follow(p, id, rows, g[..i]) == Some(k)
    ensures Follow(p, id, rows, g) == Some(k)
  {
    FollowPrefix(p, id, rows, g, i);
    FollowBound(p, id, rows, g, k);
  }

  lemma NextAtEnd(p: Program, id: string, rows: Rows, k: nat, g: History, j: nat)
    requires Dense(rows, k) && j < |g| && Follow(p, id, rows, g).Some? && Follow(p, id, rows, g[..j]) == Some(k)
    ensures p(g[..j]).Deprecate? && g[j] == Answer(true)
  {
    FollowPrefix(p, id, rows, g, j + 1);
    assert g[..j + 1] == g[..j] + [g[j]];
    EndStep(p, id, rows, k, g[..j], g[j]);
  }

  lemma StandsStill(p: Program, id: string, rows: Rows, k: nat, g: History, i: nat, j: nat)
    requires Dense(rows, k) && i <= j <= |g| && Follow(p, id, rows, g).Some? && Follow(p, id, rows, g[..i]) == Some(k)
    ensures Follow(p, id, rows, g[..j]) == Some(k) && (j < |g| ==> p(g[..j]).Deprecate? && g[j] == Answer(true))
  {
    FollowPrefix(p, id, rows, g, j);
    assert g[..j][..i] == g[..i];
    StaysAtEnd(p, id, rows, k, g[..j], i);
    if j < |g| { NextAtEnd(p, id, rows, k, g, j); }
  }

  /** A deprecation consumes the marker of its patch and nothing else. */
  lemma DeprecationStep(p: Program, id: string, rows: Rows, h: History, q: nat)
    requires Follow(p, id, rows, h) == Some(q) && p(h).Deprecate?
    ensures Follow(p, id, rows, h + [Answer(true)]) == Some(if IsMarker(rows, q + 1, p(h).patch) then q + 1 else q)
  {
    FollowStep(p, id, rows, h, Answer(true));
  }

  /** After the shift the deprecation consumes the new checkpoint: the same observations end one position later. */
  lemma {:induction false} ShiftedBy(p: Program, id: string, rows: Rows, k: nat, row: Row, g: History, i: nat, j: nat)
    requires Dense(rows, k) && Follow(p, id, rows, g) == Some(k) && i < j <= |g|
    requires DeprecatesAt(p, id, rows, k, g, row.name, i)
    requires forall n :: 0 <= n < i ==> !DeprecatesAt(p, id, rows, k, g, row.name, n)
    ensures Follow(p, id, rows[k + 1 := row], g[..j]) == Some(k + 1)
  {
    var rows' := rows[k + 1 := row];
    StandsStill(p, id, rows, k, g, i, j - 1);
    assert g[..j] == g[..j - 1] + [Answer(true)];
    if i + 1 < j {
      ShiftedBy(p, id, rows, k, row, g, i, j - 1);
      assert k + 2 !in rows';
      DeprecationStep(p, id, rows', g[..j - 1], k + 1);
    } else {
      UnshiftedBefore(p, id, rows, k, row, g, i);
      DeprecationStep(p, id, rows', g[..i], k);
    }
  }

  lemma {:induction false} UnshiftedBefore(p: Program, id: string, rows: Rows, k: nat, row: Row, g: History, i: nat)
    requires Dense(rows, k) && i <= |g| && Follow(p, id, rows, g).Some?
    requires forall n :: 0 <= n < i ==> !DeprecatesAt(p, id, rows, k, g, row.name, n)
    ensures Follow(p, id, rows, g[..i]).Some?
    ensures Follow(p, id, rows[k + 1 := row], g[..i]) == Follow(p, id, rows, g[..i])
  {
    FollowPrefix(p, id, rows, g, i);
    if i > 0 {
      UnshiftedBefore(p, id, rows, k, row, g, i - 1);
      var o := g[i - 1];
      assert g[..i] == g[..i - 1] + [o];
      FollowStep(p, id, rows, g[..i - 1], o);
      FollowStep(p, id, rows[k + 1 := row], g[..i - 1], o);
      FollowBound(p, id, rows, g[..i - 1], k);
      assert !DeprecatesAt(p, id, rows, k, g, row.name, i - 1);
      ObserveGrows(id, rows, p(g[..i - 1]), Follow(p, id, rows, g[..i - 1]).value, k, row);
    }
  }

  /** The first such deprecation. */
  lemma FirstDeprecation(p: Program, id: string, rows: Rows, k: nat, g: History, name: string) returns (i: nat)
    requires Shifts(p, id, rows, k, g, name)
    ensures i < |g| && DeprecatesAt(p, id, rows, k, g, name, i)
    ensures forall n :: 0 <= n < i ==> !DeprecatesAt(p, id, rows, k, g, name, n)
  {
    i := 0;
    while !DeprecatesAt(p, id, rows, k, g, name, i)
      invariant i < |g| && exists n :: i <= n < |g| && DeprecatesAt(p, id, rows, k, g, name, n)
      invariant forall n :: 0 <= n < i ==> !DeprecatesAt(p, id, rows, k, g, name, n)
      decreases |g| - i
    {
      i := i + 1;
    }
  }

  lemma ShiftMoves(p: Program, id: string, rows: Rows, k: nat, row: Row, g: History)
    requires Dense(rows, k) && Follow(p, id, rows, g) == Some(k) && Shifts(p, id, rows, k, g, row.name)
    ensures Follow(p, id, rows[k + 1 := row], g) == Some(k + 1)
  {
    var i := FirstDeprecation(p, id, rows, k, g, row.name);
    ShiftedBy(p, id, rows, k, row, g, i, |g|);
    assert g[..|g|] == g;
  }

  /** Every admitted history keeps its position. */
  ghost predicate PositionsKept(p: Program, id: string, rows: Rows, rows': Rows) {
    forall h :: KeepsPosition(p, id, rows, rows', h)
  }

  predicate KeepsPosition(p: Program, id: string, rows: Rows, rows': Rows, h: History) {
    Follow(p, id, rows, h).Some? ==> Follow(p, id, rows', h) == Follow(p, id, rows, h)
  }

  /** Leaving a checkpoint keeps every position if and only if it is not taken for the marker of a deprecated patch. */
  lemma FollowGrowsIff(p: Program, id: string, rows: Rows, k: nat, row: Row, g: History)
    requires Dense(rows, k) && Follow(p, id, rows, g) == Some(k) && CheckpointName(p(g)) == Some(row.name)
    ensures PositionsKept(p, id, rows, rows[k + 1 := row]) <==> !Shifts(p, id, rows, k, g, row.name)
  {
    if Shifts(p, id, rows, k, g, row.name) {
      ShiftMoves(p, id, rows, k, row, g);
      assert !KeepsPosition(p, id, rows, rows[k + 1 := row], g);
    } else {
      var rows' := rows[k + 1 := row];
      forall h ensures KeepsPosition(p, id, rows, rows', h) {
        if Follow(p, id, rows, h).Some? { FollowGrows(p, id, rows, k, row, g, h); }
      }
    }
  }

  /**
   A condition on the program alone: between the deprecation of a patch and a checkpoint under its marker name
   there is some other operation.
   */
  ghost predicate RetiresPatches(p: Program) {
    forall h, g :: RetiresAt(p, h, g)
  }

  ghost predicate RetiresAt(p: Program, h: History, g: History) {
    p(h).Deprecate? && |h| < |g| && h == g[..|h|] && OnlyDeprecates(p, g, |h|)
    ==> CheckpointName(p(g)) != Some(MarkerName(p(h).patch))
  }

  /** The actions of `g` from the step `i` on are deprecations. */
  ghost predicate OnlyDeprecates(p: Program, g: History, i: nat) {
    forall j :: i <= j < |g| ==> p(g[..j]).Deprecate?
  }

  lemma RetiringNeverShifts(p: Program, id: string, rows: Rows, k: nat, g: History, name: string)
    requires RetiresPatches(p) && Dense(rows, k) && Follow(p, id, rows, g) == Some(k)
    requires CheckpointName(p(g)) == Some(name)
    ensures !Shifts(p, id, rows, k, g, name)
  {
    if Shifts(p, id, rows, k, g, name) {
      var i :| 0 <= i < |g| && DeprecatesAt(p, id, rows, k, g, name, i);
      forall j | i <= j < |g| ensures p(g[..j]).Deprecate? { StandsStill(p, id, rows, k, g, i, j); }
      assert RetiresAt(p, g[..i], g);
    }
  }

  // -------------------------------------------------------------- the machine

  /** An executor of the workflow. */
  datatype Executor =
    | Idle
    /** between two operations */
    | Ready(h: History, q: nat)
    /** the step at position `q` has no checkpoint yet */
    | Running(h: History, q: nat, name: string)
    /** a checkpoint is being written; a commit may already have succeeded unnoticed */
    | Writing(h: History, q: nat, row: Row)
    /** a checkpoint of another operation was found at the position */
    | Unexpected
    /** another executor left the checkpoint first */
    | Conflicted
    | Done(h: History, q: nat, outcome: Outcome)

  /** `result` is the outcome recorded for the workflow. */
  datatype State = State(rows: Rows, executors: map<nat, Executor>, result: Option<Outcome>)

  datatype Event =
    /** start, or recover, from the beginning */
    | Launch
    /** look up the next operation and do what needs no further work */
    | Proceed(stamp: int)
    /** the body of the step returns or raises */
    | Return(outcome: Outcome, stamp: int)
    /** insert the checkpoint; the connection may be lost after the commit */
    | Commit(connectionLost: bool)
    | Crash

  function Get(s: State, e: nat): Executor {
    if e in s.executors then s.executors[e] else Idle
  }

  function Set(s: State, e: nat, x: Executor): State {
    s.(executors := s.executors[e := x])
  }

  function Insert(s: State, q: nat, row: Row): State {
    s.(rows := s.rows[q := row])
  }

  /** The next operation of a ready executor: look up, then replay, run or record. */
  function Operate(p: Program, id: string, s: State, e: nat, h: History, q: nat, stamp: int): State {
    var here := q + 1;
    match p(h)
    case RunStep(name) =>
      if here !in s.rows then Set(s, e, Running(h, here, name))
      else if s.rows[here].name != name || !s.rows[here].content.Step? then Set(s, e, Unexpected)
      else Set(s, e, Ready(h + [Saw(s.rows[here].content)], here))
    case StartChild(name, chosen) =>
      if here !in s.rows then Set(s, e, Writing(h, here, Row(name, Child(StartedId(id, here, chosen)), stamp)))
      else if s.rows[here].name != name || !s.rows[here].content.Child? then Set(s, e, Unexpected)
      else Set(s, e, Ready(h + [Saw(s.rows[here].content)], here))
    case Patch(patch) =>
      if here !in s.rows
      then Set(Insert(s, here, Row(MarkerName(patch), Marker, stamp)), e, Ready(h + [Answer(true)], here))
      else if IsMarker(s.rows, here, patch) then Set(s, e, Ready(h + [Answer(true)], here))
      else Set(s, e, Ready(h + [Answer(false)], q))
    case Deprecate(patch) =>
      Set(s, e, Ready(h + [Answer(true)], if IsMarker(s.rows, here, patch) then here else q))
    case Finish(outcome) => Set(s, e, Done(h, q, outcome)).(result := Some(outcome))
  }

  /**
   Writing a checkpoint: the first writer wins.  A writer that finds a checkpoint takes it for
   its own, and goes on with its own result, if the completion times are equal; a child
   checkpoint is taken over if it names the same child.
   */
  function Record(s: State, e: nat, x: Executor, connectionLost: bool): State
    requires x.Writing?
  {
    var next := Ready(x.h + [Saw(x.row.content)], x.q);
    if x.q !in s.rows then
      Set(Insert(s, x.q, x.row), e, if connectionLost then x else next)
    else if connectionLost then s
    else if x.row.content.Child? then
      Set(s, e, if s.rows[x.q].content == x.row.content then next else Conflicted)
    else
      Set(s, e, if s.rows[x.q].stamp == x.row.stamp then next else Conflicted)
  }

  /** One atomic action of executor `e`; an event that is not enabled changes nothing. */
  function Apply(p: Program, id: string, s: State, e: nat, event: Event): State {
    match (Get(s, e), event)
    case (Idle, Launch) => Set(s, e, Ready([], 0))
    case (Ready(h, q), Proceed(stamp)) => Operate(p, id, s, e, h, q, stamp)
    case (Running(h, q, name), Return(outcome, stamp)) => Set(s, e, Writing(h, q, Row(name, Step(outcome), stamp)))
    case (Writing(h, q, row), Commit(lost)) => Record(s, e, Get(s, e), lost)
    case (_, Crash) => Set(s, e, Idle)
    case _ => s
  }

  /** A run is any interleaving of the executors' events. */
  function Run(p: Program, id: string, s: State, events: seq<(nat, Event)>): State {
    if events == [] then s
    else
      var last := events[|events| - 1];
      Apply(p, id, Run(p, id, s, events[..|events| - 1]), last.0, last.1)
  }

  /**
   The writer of a step that takes a checkpoint for its own has the result which is recorded there.
   It always does when the completion times of different executors differ.
   */
  predicate StampsTell(s: State, e: nat, event: Event) {
    var x := Get(s, e);
    (x.Writing? && event == Commit(false) && x.q in s.rows && x.row.content.Step? && s.rows[x.q].stamp == x.row.stamp)
    ==> s.rows[x.q].content == x.row.content
  }

  /** The checkpoint that the event leaves, if it leaves one, is not taken for the marker of a deprecated patch. */
  ghost predicate PositionsStay(p: Program, id: string, s: State, e: nat, event: Event) {
    match (Get(s, e), event)
    case (Ready(h, q), Proceed(_)) =>
      p(h).Patch? && q + 1 !in s.rows ==> !Shifts(p, id, s.rows, q, h, MarkerName(p(h).patch))
    case (Writing(h, q, row), Commit(_)) =>
      0 < q && q !in s.rows ==> !Shifts(p, id, s.rows, q - 1, h, row.name)
    case _ => true
  }

  ghost predicate Harmless(p: Program, id: string, s: State, e: nat, event: Event) {
    StampsTell(s, e, event) && PositionsStay(p, id, s, e, event)
  }

  ghost predicate HarmlessThroughout(p: Program, id: string, s: State, events: seq<(nat, Event)>) {
    events == []
    || (var init, last := events[..|events| - 1], events[|events| - 1];
        HarmlessThroughout(p, id, s, init) && Harmless(p, id, Run(p, id, s, init), last.0, last.1))
  }

  predicate StampsTellThroughout(p: Program, id: string, s: State, events: seq<(nat, Event)>) {
    events == []
    || (var init, last := events[..|events| - 1], events[|events| - 1];
        StampsTellThroughout(p, id, s, init) && StampsTell(Run(p, id, s, init), last.0, last.1))
  }
}
