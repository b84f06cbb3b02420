/**
 Debouncing: calls with the same key are folded into one delayed workflow.  A call first
 tries to extend the delayed workflow that holds the key, looks who holds it if that fails,
 and starts a workflow if nobody does; the delay of a workflow runs out at any time.
 */
module Debouncer {
  import opened Values

  /** A queue and a deduplication identifier. */
  datatype Key = Key(queue: string, deduplication: string)

  datatype Status = Delayed | Released

  /** A workflow; the deadline bounds how far its delay can be extended. */
  datatype Row = Row(name: string, key: Option<Key>, status: Status, debounced: bool, inputs: string, delay: int,
                     deadline: Option<int>)

  /** A call to debounce the workflow `name`; `id` is the identifier that a new workflow gets. */
  datatype Request = Request(name: string, key: Key, inputs: string, id: string)

  datatype Call =
    | Idle
    | Bouncing(r: Request)
    /** no workflow was extended; the holder of the key is to be looked up */
    | Looking(r: Request)
    | Enqueueing(r: Request)
    /** a handle for the workflow `id` is returned */
    | Bounced(r: Request, id: string)
    | Created(r: Request)
    /** the workflow already existed, nothing was written */
    | Touched(r: Request)
    | Raised

  /** The call wrote its inputs to the workflow `id`. */
  datatype Write = Write(call: nat, id: string, name: string, inputs: string, bounce: bool)

  datatype State = State(rows: map<string, Row>, calls: map<nat, Call>, log: seq<Write>)

  datatype Event =
    | Start(r: Request)
    | TryBounce(delay: int)
    | LookUp
    | TryEnqueue(delay: int, deadline: Option<int>)
    /** the delays up to `now` run out */
    | Transition(now: int)
    /** any other enqueue */
    | Enqueue(id: string, row: Row)
    /** any other change that ends the delay of a workflow: it runs, is cancelled, resumed or finished */
    | Release(id: string, keepsKey: bool)

  function Get(s: State, e: nat): Call {
    if e in s.calls then s.calls[e] else Idle
  }

  predicate Holds(rows: map<string, Row>, id: string, key: Key) {
    id in rows && rows[id].key == Some(key)
  }

  predicate Held(rows: map<string, Row>, key: Key) {
    exists id | id in rows :: Holds(rows, id, key)
  }

  ghost function Holder(rows: map<string, Row>, key: Key): (id: string)
    requires Held(rows, key)
    ensures Holds(rows, id, key)
  {
    var id :| Holds(rows, id, key); id
  }

  function Capped(delay: int, deadline: Option<int>): int {
    if deadline.Some? && deadline.value < delay then deadline.value else delay
  }

  predicate CanBounce(row: Row, r: Request) {
    row.name == r.name && row.status.Delayed? && row.debounced
  }

  ghost function Bounce(s: State, e: nat, r: Request, delay: int): State {
    if Held(s.rows, r.key) && CanBounce(s.rows[Holder(s.rows, r.key)], r) then
      var id := Holder(s.rows, r.key);
      var row := s.rows[id].(inputs := r.inputs, delay := Capped(delay, s.rows[id].deadline));
      State(s.rows[id := row], s.calls[e := Bounced(r, id)], s.log + [Write(e, id, r.name, r.inputs, true)])
    else s.(calls := s.calls[e := Looking(r)])
  }

  /** What to do after a bounce that extended nothing. */
  ghost function Classify(s: State, r: Request): Call {
    if !Held(s.rows, r.key) then Enqueueing(r)
    else
      var row := s.rows[Holder(s.rows, r.key)];
      if !row.debounced || row.name != r.name then Raised else Bouncing(r)
  }

  /** Start a workflow: an existing identifier is only touched, and a held key is refused. */
  ghost function Create(s: State, e: nat, r: Request, delay: int, deadline: Option<int>): State {
    if r.id in s.rows then s.(calls := s.calls[e := if s.rows[r.id].name == r.name then Touched(r) else Raised])
    else if Held(s.rows, r.key) then s.(calls := s.calls[e := Bouncing(r)])
    else
      var row := Row(r.name, Some(r.key), Delayed, true, r.inputs, Capped(delay, deadline), deadline);
      State(s.rows[r.id := row], s.calls[e := Created(r)], s.log + [Write(e, r.id, r.name, r.inputs, false)])
  }

  function Expire(row: Row, now: int): Row {
    if row.status.Delayed? && row.delay <= now
    then row.(status := Released, key := if row.debounced then None else row.key) else row
  }

  ghost function Apply(s: State, e: nat, event: Event): State {
    match event
    case Start(r) => if Get(s, e).Idle? then s.(calls := s.calls[e := Bouncing(r)]) else s
    case TryBounce(delay) => if Get(s, e).Bouncing? then Bounce(s, e, Get(s, e).r, delay) else s
    case LookUp => if Get(s, e).Looking? then s.(calls := s.calls[e := Classify(s, Get(s, e).r)]) else s
    case TryEnqueue(delay, deadline) => if Get(s, e).Enqueueing? then Create(s, e, Get(s, e).r, delay, deadline) else s
    case Transition(now) => s.(rows := map id | id in s.rows :: Expire(s.rows[id], now))
    case Enqueue(id, row) =>
      if id in s.rows || row.debounced || (row.key.Some? && Held(s.rows, row.key.value)) then s
      else s.(rows := s.rows[id := row])
    case Release(id, keepsKey) =>
      if id !in s.rows then s
      else s.(rows := s.rows[id := s.rows[id].(status := Released, key := if keepsKey then s.rows[id].key else None)])
  }

  ghost function Run(s: State, events: seq<(nat, Event)>): State {
    if events == [] then s
    else
      var last := events[|events| - 1];
      Apply(Run(s, events[..|events| - 1]), last.0, last.1)
  }

  const INITIAL := State(map[], map[], [])

  // -------------------------------------------------------------- the rows

  ghost predicate KeysUnique(rows: map<string, Row>) {
    forall i, j, key :: Holds(rows, i, key) && Holds(rows, j, key) ==> i == j
  }

  /** A debounced workflow is delayed no further than its deadline. */
  predicate InTime(row: Row) {
    row.debounced && row.deadline.Some? ==> row.delay <= row.deadline.value
  }

  /** `rows'` is `rows` with some keys given up and no row replaced. */
  ghost predicate Narrows(rows: map<string, Row>, rows': map<string, Row>) {
    && rows'.Keys == rows.Keys
    && (forall id | id in rows :: && rows'[id].key in {rows[id].key, None} && rows'[id].name == rows[id].name
                                  && rows'[id].debounced == rows[id].debounced
                                  && rows'[id].deadline == rows[id].deadline)
  }

  lemma NarrowKeepsUnique(rows: map<string, Row>, rows': map<string, Row>)
    requires KeysUnique(rows) && Narrows(rows, rows')
    ensures KeysUnique(rows')
  {
    forall i, j, key | Holds(rows', i, key) && Holds(rows', j, key) ensures i == j {
      assert Holds(rows, i, key) && Holds(rows, j, key);
    }
  }

  lemma InsertKeepsUnique(rows: map<string, Row>, id: string, row: Row)
    requires KeysUnique(rows) && id !in rows && (row.key.Some? ==> !Held(rows, row.key.value))
    ensures KeysUnique(rows[id := row])
  {
    var rows' := rows[id := row];
    forall i, j, key | Holds(rows', i, key) && Holds(rows', j, key) ensures i == j {
      assert i != id ==> Holds(rows, i, key);
      assert j != id ==> Holds(rows, j, key);
    }
  }

  /** At most one workflow holds a key. */
  lemma ApplyKeepsUnique(s: State, e: nat, event: Event)
    requires KeysUnique(s.rows)
    ensures KeysUnique(Apply(s, e, event).rows)
  {
    var t := Apply(s, e, event);
    if t.rows.Keys == s.rows.Keys {
      NarrowKeepsUnique(s.rows, t.rows);
    } else if event.Enqueue? {
      InsertKeepsUnique(s.rows, event.id, event.row);
    } else {
      var r := Get(s, e).r;
      InsertKeepsUnique(s.rows, r.id, t.rows[r.id]);
    }
  }

  // -------------------------------------------------------------- the writes

  /** What the call has written. */
  function Wrote(e: nat, call: Call): seq<Write> {
    match call
    case Bounced(r, id) => [Write(e, id, r.name, r.inputs, true)]
    case Created(r) => [Write(e, r.id, r.name, r.inputs, false)]
    case _ => []
  }

  function WritesOf(log: seq<Write>, e: nat): seq<Write> {
    if log == [] then []
    else
      var last := log[|log| - 1];
      WritesOf(log[..|log| - 1], e) + if last.call == e then [last] else []
  }

  function Creations(log: seq<Write>): nat {
    if log == [] then 0
    else Creations(log[..|log| - 1]) + if log[|log| - 1].bounce then 0 else 1
  }

  /** The row has the inputs of the last write to it. */
  ghost predicate LastWritten(log: seq<Write>, id: string, row: Row) {
    exists k :: 0 <= k < |log| && LastAt(log, id, k) && log[k].inputs == row.inputs
  }

  ghost predicate LastAt(log: seq<Write>, id: string, k: nat)
    requires k < |log|
  {
    log[k].id == id && forall j :: k < j < |log| ==> log[j].id != id
  }

  function Started(rows: map<string, Row>): set<string> {
    set id | id in rows && rows[id].debounced
  }

  function Writers(s: State): set<nat> {
    set e | e in s.calls && Wrote(e, s.calls[e]) != []
  }

  ghost predicate WriteFits(rows: map<string, Row>, w: Write) {
    w.id in rows && rows[w.id].debounced && rows[w.id].name == w.name
  }

  ghost predicate WritesFit(s: State) {
    forall k :: 0 <= k < |s.log| ==> WriteFits(s.rows, s.log[k])
  }

  ghost predicate RowsInTime(rows: map<string, Row>) {
    forall id | id in rows :: InTime(rows[id])
  }

  ghost predicate RowsLastWritten(s: State) {
    forall id | id in Started(s.rows) :: LastWritten(s.log, id, s.rows[id])
  }

  /** Only the first write to a workflow is not a bounce. */
  ghost predicate CreatedFirst(log: seq<Write>) {
    forall i, j :: 0 <= i < j < |log| && log[i].id == log[j].id ==> log[j].bounce
  }

  ghost predicate CallsWrote(s: State) {
    forall e :: WritesOf(s.log, e) == Wrote(e, Get(s, e))
  }

  ghost predicate Inv(s: State) {
    && KeysUnique(s.rows) && RowsInTime(s.rows)
    && WritesFit(s) && RowsLastWritten(s) && CreatedFirst(s.log) && CallsWrote(s)
    && |Writers(s)| == |s.log| && |Started(s.rows)| == Creations(s.log)
  }

  /** The part of a row that only a write changes. */
  predicate SameData(row: Row, row': Row) {
    && row'.name == row.name && row'.debounced == row.debounced && row'.inputs == row.inputs
    && row'.deadline == row.deadline && row'.delay == row.delay
  }

  /** Nothing is written. */
  ghost predicate Quiet(s: State, t: State) {
    && t.log == s.log
    && (forall id | id in s.rows :: id in t.rows && SameData(s.rows[id], t.rows[id]))
    && (forall id | id in t.rows && id !in s.rows :: !t.rows[id].debounced)
    && (forall e :: Wrote(e, Get(t, e)) == Wrote(e, Get(s, e)))
  }

  /** Only `w` is written, to a delayed workflow of the same name, which is new unless it is bounced. */
  ghost predicate Writes(s: State, t: State, w: Write) {
    && t.log == s.log + [w]
    && WriteFits(t.rows, w) && t.rows[w.id].inputs == w.inputs && t.rows[w.id].status.Delayed? && InTime(t.rows[w.id])
    && t.rows.Keys == s.rows.Keys + {w.id} && (w.id in s.rows <==> w.bounce)
    && (w.bounce ==> WriteFits(s.rows, w) && s.rows[w.id].status.Delayed?)
    && (w.bounce ==> t.rows[w.id].deadline == s.rows[w.id].deadline)
    && (forall id | id in s.rows && id != w.id :: t.rows[id] == s.rows[id])
    && Wrote(w.call, Get(s, w.call)) == [] && t.calls == s.calls[w.call := Get(t, w.call)]
    && Wrote(w.call, Get(t, w.call)) == [w]
  }

  lemma BounceWrites(s: State, e: nat, r: Request, delay: int)
    requires WritesFit(s) && Get(s, e) == Bouncing(r)
    ensures var t := Bounce(s, e, r, delay);
            Quiet(s, t) || Writes(s, t, Write(e, Holder(s.rows, r.key), r.name, r.inputs, true))
  {
    var t := Bounce(s, e, r, delay);
    if t.log == s.log {
      forall d ensures Wrote(d, Get(t, d)) == Wrote(d, Get(s, d)) {}
    }
  }

  lemma CreateWrites(s: State, e: nat, r: Request, delay: int, deadline: Option<int>)
    requires Get(s, e) == Enqueueing(r)
    ensures var t := Create(s, e, r, delay, deadline);
            Quiet(s, t) || Writes(s, t, Write(e, r.id, r.name, r.inputs, false))
  {
    var t := Create(s, e, r, delay, deadline);
    if t.log == s.log {
      forall d ensures Wrote(d, Get(t, d)) == Wrote(d, Get(s, d)) {}
    }
  }

  lemma OthersQuiet(s: State, e: nat, event: Event)
    requires !event.TryBounce? && !event.TryEnqueue?
    ensures Quiet(s, Apply(s, e, event))
  {
    var t := Apply(s, e, event);
    forall d ensures Wrote(d, Get(t, d)) == Wrote(d, Get(s, d)) {}
  }

  /** Every step writes nothing, or one call's inputs to a workflow that is delayed and not past its deadline. */
  lemma ApplyWrites(s: State, e: nat, event: Event)
    requires WritesFit(s)
    ensures Quiet(s, Apply(s, e, event)) || exists w :: Writes(s, Apply(s, e, event), w)
  {
    if event.TryBounce? && Get(s, e).Bouncing? {
      BounceWrites(s, e, Get(s, e).r, event.delay);
    } else if event.TryEnqueue? && Get(s, e).Enqueueing? {
      CreateWrites(s, e, Get(s, e).r, event.delay, event.deadline);
    } else if !event.TryBounce? && !event.TryEnqueue? {
      OthersQuiet(s, e, event);
    }
  }

  lemma WritesOfThen(log: seq<Write>, w: Write, e: nat)
    ensures WritesOf(log + [w], e) == WritesOf(log, e) + if w.call == e then [w] else []
    ensures Creations(log + [w]) == Creations(log) + if w.bounce then 0 else 1
  {
    assert (log + [w])[..|log|] == log;
  }

  lemma LastWrittenThen(log: seq<Write>, w: Write, id: string, row: Row)
    requires if id == w.id then row.inputs == w.inputs else LastWritten(log, id, row)
    ensures LastWritten(log + [w], id, row)
  {
    if id == w.id {
      assert LastAt(log + [w], id, |log|);
    } else {
      var k :| 0 <= k < |log| && LastAt(log, id, k) && log[k].inputs == row.inputs;
      assert LastAt(log + [w], id, k);
    }
  }

  lemma QuietKeepsInv(s: State, t: State)
    requires Inv(s) && Quiet(s, t) && KeysUnique(t.rows)
    ensures Inv(t)
  {
    forall id | id in t.rows ensures InTime(t.rows[id]) { assert id in s.rows ==> InTime(s.rows[id]); }
    assert Started(t.rows) == Started(s.rows);
    forall id | id in Started(t.rows) ensures LastWritten(t.log, id, t.rows[id]) {
      assert LastWritten(s.log, id, s.rows[id]);
    }
    forall k | 0 <= k < |t.log| ensures WriteFits(t.rows, t.log[k]) { assert WriteFits(s.rows, s.log[k]); }
    assert Writers(t) == Writers(s) by {
      forall e ensures e in Writers(t) <==> e in Writers(s) { assert Wrote(e, Get(t, e)) == Wrote(e, Get(s, e)); }
    }
  }

  lemma WriteKeepsFit(s: State, t: State, w: Write)
    requires WritesFit(s) && RowsInTime(s.rows) && CreatedFirst(s.log) && Writes(s, t, w)
    ensures WritesFit(t) && RowsInTime(t.rows) && CreatedFirst(t.log)
  {
    forall id | id in t.rows ensures InTime(t.rows[id]) { assert id in s.rows ==> InTime(s.rows[id]); }
    forall k | 0 <= k < |t.log| ensures WriteFits(t.rows, t.log[k]) {
      assert k < |s.log| ==> WriteFits(s.rows, s.log[k]);
    }
    forall i, j | 0 <= i < j < |t.log| && t.log[i].id == t.log[j].id ensures t.log[j].bounce {
      assert WriteFits(s.rows, s.log[i]);
    }
  }

  lemma WriteKeepsLast(s: State, t: State, w: Write)
    requires RowsLastWritten(s) && Writes(s, t, w)
    ensures RowsLastWritten(t)
  {
    forall id | id in Started(t.rows) ensures LastWritten(t.log, id, t.rows[id]) {
      assert id != w.id ==> id in Started(s.rows);
      LastWrittenThen(s.log, w, id, t.rows[id]);
    }
  }

  lemma StartedGrows(s: State, t: State, w: Write)
    requires Writes(s, t, w)
    ensures Started(t.rows) == Started(s.rows) + {w.id} && (w.id in Started(s.rows) <==> w.bounce)
  {
    forall id ensures id in Started(t.rows) <==> id in Started(s.rows) + {w.id} {
      assert id in t.rows <==> id in s.rows || id == w.id;
    }
  }

  lemma WritersGrow(s: State, t: State, w: Write)
    requires Writes(s, t, w)
    ensures Writers(t) == Writers(s) + {w.call} && w.call !in Writers(s)
  {
    forall e ensures e in Writers(t) <==> e in Writers(s) + {w.call} {
      assert e != w.call ==> (e in t.calls <==> e in s.calls);
    }
  }

  lemma WriteKeepsCounts(s: State, t: State, w: Write)
    requires Writes(s, t, w) && |Writers(s)| == |s.log| && |Started(s.rows)| == Creations(s.log)
    ensures |Writers(t)| == |t.log| && |Started(t.rows)| == Creations(t.log)
  {
    StartedGrows(s, t, w);
    WritersGrow(s, t, w);
    WritesOfThen(s.log, w, 0);
  }

  lemma WriteKeepsCalls(s: State, t: State, w: Write)
    requires CallsWrote(s) && Writes(s, t, w)
    ensures CallsWrote(t)
  {
    forall e ensures WritesOf(t.log, e) == Wrote(e, Get(t, e)) {
      WritesOfThen(s.log, w, e);
      assert WritesOf(s.log, e) == Wrote(e, Get(s, e));
    }
  }

  lemma ApplyKeepsInv(s: State, e: nat, event: Event)
    requires Inv(s)
    ensures Inv(Apply(s, e, event))
  {
    var t := Apply(s, e, event);
    ApplyKeepsUnique(s, e, event);
    ApplyWrites(s, e, event);
    if Quiet(s, t) {
      QuietKeepsInv(s, t);
    } else {
      var w :| Writes(s, t, w);
      WriteKeepsFit(s, t, w);
      WriteKeepsLast(s, t, w);
      WriteKeepsCounts(s, t, w);
      WriteKeepsCalls(s, t, w);
    }
  }

  /**
   In every interleaving: at most one workflow holds a key; each returned call wrote its inputs once;
   the calls that returned with a write are as many as workflows created plus bounces.
   */
  lemma {:induction false} RunKeepsInv(events: seq<(nat, Event)>)
    ensures Inv(Run(INITIAL, events))
  {
    if events == [] {
      assert Started(INITIAL.rows) == {} && Writers(INITIAL) == {};
    } else {
      var init, last := events[..|events| - 1], events[|events| - 1];
      RunKeepsInv(init);
      ApplyKeepsInv(Run(INITIAL, init), last.0, last.1);
    }
  }

  // ------------------------------------------------------------- consequences

  lemma {:induction false} WritesOfIn(log: seq<Write>, e: nat, w: Write) returns (k: nat)
    requires w in WritesOf(log, e)
    ensures k < |log| && log[k] == w
  {
    if w in WritesOf(log[..|log| - 1], e) {
      k := WritesOfIn(log[..|log| - 1], e, w);
    } else {
      k := |log| - 1;
    }
  }

  /** The inputs of a returned call are those of its workflow, unless a later bounce replaced them. */
  lemma InputsLostOnlyToBounce(events: seq<(nat, Event)>, e: nat)
    requires Wrote(e, Get(Run(INITIAL, events), e)) != []
    ensures var s := Run(INITIAL, events);
            exists i, j :: 0 <= i <= j < |s.log| && s.log[i] == Wrote(e, Get(s, e))[0] && s.log[j].id == s.log[i].id
                           && s.log[i].id in s.rows && s.rows[s.log[i].id].inputs == s.log[j].inputs
                           && (i < j ==> s.log[j].bounce)
  {
    RunKeepsInv(events);
    var s := Run(INITIAL, events);
    var w := Wrote(e, Get(s, e))[0];
    assert WritesOf(s.log, e) == [w];
    var i := WritesOfIn(s.log, e, w);
    assert WriteFits(s.rows, s.log[i]);
    assert w.id in Started(s.rows) && LastWritten(s.log, w.id, s.rows[w.id]);
    var j :| 0 <= j < |s.log| && LastAt(s.log, w.id, j) && s.log[j].inputs == s.rows[w.id].inputs;
    assert i <= j;
  }

  predicate Returned(call: Call) { call.Bounced? || call.Created? || call.Touched? }

  /** The event by which a call that has returned returned. */
  ghost function ReturnedAt(events: seq<(nat, Event)>, e: nat): nat {
    if events == [] then 0
    else
      var init := events[..|events| - 1];
      if Returned(Get(Run(INITIAL, init), e)) then ReturnedAt(init, e) else |init|
  }

  /** The call enqueues a workflow under an identifier that one of the same name has. */
  ghost predicate FindsTaken(s: State, e: nat, event: Event) {
    var call := Get(s, e);
    call.Enqueueing? && event.TryEnqueue? && call.r.id in s.rows && s.rows[call.r.id].name == call.r.name
  }

  lemma ReturnedStays(s: State, e: nat, event: Event, d: nat)
    requires Returned(Get(s, d))
    ensures Get(Apply(s, e, event), d) == Get(s, d)
  {
  }

  lemma ReturnsTouchedIff(s: State, e: nat, event: Event, d: nat)
    requires !Returned(Get(s, d)) && Returned(Get(Apply(s, e, event), d))
    ensures d == e && (Get(Apply(s, e, event), d).Touched? <==> FindsTaken(s, e, event))
  {
  }

  lemma {:induction false} TouchedAt(events: seq<(nat, Event)>, e: nat)
    requires Returned(Get(Run(INITIAL, events), e))
    ensures var i := ReturnedAt(events, e);
            && i < |events| && events[i].0 == e
            && (Get(Run(INITIAL, events), e).Touched? <==> FindsTaken(Run(INITIAL, events[..i]), e, events[i].1))
  {
    assert events != [];
    var init, last := events[..|events| - 1], events[|events| - 1];
    var s := Run(INITIAL, init);
    if Returned(Get(s, e)) {
      ReturnedStays(s, last.0, last.1, e);
      TouchedAt(init, e);
      assert init[..ReturnedAt(init, e)] == events[..ReturnedAt(init, e)];
    } else {
      ReturnsTouchedIff(s, last.0, last.1, e);
    }
  }

  /**
   A call that has returned has written its inputs nowhere if and only if it returned by enqueueing under an
   identifier that a workflow of the same name had at that moment.
   */
  lemma DroppedIffTaken(events: seq<(nat, Event)>, e: nat)
    requires Returned(Get(Run(INITIAL, events), e))
    ensures var i := ReturnedAt(events, e);
            && i < |events|
            && (WritesOf(Run(INITIAL, events).log, e) == [] <==> FindsTaken(Run(INITIAL, events[..i]), e, events[i].1))
  {
    TouchedAt(events, e);
    RunKeepsInv(events);
    assert WritesOf(Run(INITIAL, events).log, e) == Wrote(e, Get(Run(INITIAL, events), e));
  }

  ghost predicate Reachable(s: State) {
    exists events :: Run(INITIAL, events) == s
  }

  lemma ReachableThen(s: State, e: nat, event: Event, t: State)
    requires Reachable(s) && Apply(s, e, event) == t
    ensures Reachable(t)
  {
    var events :| Run(INITIAL, events) == s;
    assert (events + [(e, event)])[..|events|] == events;
    assert Run(INITIAL, events + [(e, event)]) == t;
  }

  lemma FreeKeyEnqueues(s: State, e: nat, r: Request)
    requires Reachable(s) && Get(s, e) == Idle && !Held(s.rows, r.key)
    ensures Reachable(s.(calls := s.calls[e := Enqueueing(r)]))
  {
    var s1 := Apply(s, e, Start(r));
    ReachableThen(s, e, Start(r), s1);
    var s2 := Apply(s1, e, TryBounce(0));
    ReachableThen(s1, e, TryBounce(0), s2);
    assert s2.calls == s.calls[e := Looking(r)];
    ReachableThen(s2, e, LookUp, s2.(calls := s2.calls[e := Enqueueing(r)]));
    assert s2.calls[e := Enqueueing(r)] == s.calls[e := Enqueueing(r)];
  }

  /** A first call with a given identifier, whose workflow is released. */
  lemma FirstReleased(r: Request) returns (s: State)
    ensures Reachable(s) && s.calls == map[0 := Created(r)]
    ensures r.id in s.rows && s.rows.Keys == {r.id}
    ensures s.rows[r.id].inputs == r.inputs && s.rows[r.id].name == r.name && s.rows[r.id].key == None
  {
    assert Run(INITIAL, []) == INITIAL;
    FreeKeyEnqueues(INITIAL, 0, r);
    var s1 := INITIAL.(calls := map[0 := Enqueueing(r)]);
    assert INITIAL.calls[0 := Enqueueing(r)] == map[0 := Enqueueing(r)];
    var s2 := Apply(s1, 0, TryEnqueue(0, None));
    ReachableThen(s1, 0, TryEnqueue(0, None), s2);
    s := Apply(s2, 0, Transition(0));
    ReachableThen(s2, 0, Transition(0), s);
  }

  /** Pinning an identifier that is in use: the second call returns and its inputs are written nowhere. */
  lemma PinnedCallIsDropped(name: string, key: Key, id: string, a: string, b: string)
    ensures exists s :: Reachable(s) && Get(s, 1) == Touched(Request(name, key, b, id))
                        && id in s.rows && s.rows[id].inputs == a
  {
    var r := Request(name, key, b, id);
    var s := FirstReleased(Request(name, key, a, id));
    FreeKeyEnqueues(s, 1, r);
    var t := s.(calls := s.calls[1 := Enqueueing(r)]);
    var u := Apply(t, 1, TryEnqueue(0, None));
    ReachableThen(t, 1, TryEnqueue(0, None), u);
    assert Get(u, 1) == Touched(r);
  }

  lemma ReleasesInTime(s: State, e: nat, now: int, id: string)
    requires id in s.rows && InTime(s.rows[id]) && s.rows[id].debounced
    requires s.rows[id].deadline.Some? && s.rows[id].deadline.value <= now
    ensures var t := Apply(s, e, Transition(now)); id in t.rows && t.rows[id].status == Released
  {
  }

  /** When the deadline of a debounced workflow has passed, its delay has run out, however often it was bounced. */
  lemma {:induction false} DeadlineReleases(events: seq<(nat, Event)>, e: nat, now: int, id: string)
    requires var s := Run(INITIAL, events);
             && id in s.rows && s.rows[id].debounced
             && s.rows[id].deadline.Some? && s.rows[id].deadline.value <= now
    ensures var t := Apply(Run(INITIAL, events), e, Transition(now)); id in t.rows && t.rows[id].status == Released
  {
    RunKeepsInv(events);
    ReleasesInTime(Run(INITIAL, events), e, now, id);
  }

  /** A call that is left alone. */
  ghost function Alone(s: State, e: nat, r: Request, delay: int, deadline: Option<int>): State {
    Apply(Apply(Apply(Apply(s, e, Start(r)), e, TryBounce(delay)), e, LookUp), e, TryEnqueue(delay, deadline))
  }

  /** The row is delayed until the requested time, or until its deadline if that is earlier. */
  predicate DelayedUntil(row: Row, requested: int) {
    && row.status == Delayed
    && (row.deadline.Some? && row.deadline.value < requested ==> row.delay == row.deadline.value)
    && (row.deadline.None? || requested <= row.deadline.value ==> row.delay == requested)
  }

  /** The row is that of a debounced workflow for the request. */
  predicate ServesRequest(row: Row, r: Request) {
    row.name == r.name && row.key == Some(r.key) && row.debounced && row.inputs == r.inputs
  }

  /** Every other workflow is as before. */
  ghost predicate OthersUnchanged(s: State, t: State, id: string) {
    t.rows.Keys == s.rows.Keys + {id} && forall other | other in s.rows && other != id :: t.rows[other] == s.rows[other]
  }

  /** In every run, a write puts the delay off to the requested time, capped by a deadline that never changes. */
  lemma WriteDelays(s: State, e: nat, event: Event)
    requires WritesFit(s) && Apply(s, e, event).log != s.log
    ensures var t := Apply(s, e, event);
            var id := t.log[|s.log|].id;
            && (event.TryBounce? || event.TryEnqueue?) && |t.log| == |s.log| + 1
            && OthersUnchanged(s, t, id)
            && ServesRequest(t.rows[id], Get(s, e).r) && DelayedUntil(t.rows[id], event.delay)
            && t.rows[id].deadline == if event.TryBounce? then s.rows[id].deadline else event.deadline
  {
  }

  /** When delays run out: exactly those up to `now`, and a debounced workflow gives up its key with it. */
  lemma TransitionIff(s: State, e: nat, now: int, id: string)
    requires id in s.rows
    ensures var t := Apply(s, e, Transition(now));
            && t.rows.Keys == s.rows.Keys && t.calls == s.calls && t.log == s.log
            && var row, row' := s.rows[id], t.rows[id];
               && (row'.status == Delayed <==> row.status == Delayed && now < row.delay)
               && (row'.key != row.key ==>
                     row'.key == None && row.debounced && row.status == Delayed && row.delay <= now)
               && (row.status == Delayed && row.delay <= now && row.debounced ==> row'.key == None)
               && SameData(row, row')
  {
  }

  /** A call that finds its key taken between its look-up and its start tries to bounce again. */
  lemma LostRaceRetries(s: State, e: nat, r: Request, delay: int, deadline: Option<int>)
    requires Get(s, e) == Enqueueing(r) && Held(s.rows, r.key) && r.id !in s.rows
    ensures var t := Apply(s, e, TryEnqueue(delay, deadline));
            Get(t, e) == Bouncing(r) && t.rows == s.rows && t.log == s.log
  {
  }

  /**
   What a call that is left alone does, by who holds its key: it bounces a delayed debounced workflow of
   its name, raises for any other workflow that is not debounced or has another name, and if nobody holds
   the key starts one, unless its identifier is taken.
   */
  lemma CallAlone(s: State, e: nat, r: Request, delay: int, deadline: Option<int>)
    requires KeysUnique(s.rows) && Get(s, e) == Idle
    ensures var t := Alone(s, e, r, delay, deadline);
            && (!Held(s.rows, r.key) && r.id !in s.rows ==>
                  && Get(t, e) == Created(r) && OthersUnchanged(s, t, r.id) && ServesRequest(t.rows[r.id], r)
                  && t.rows[r.id].deadline == deadline && DelayedUntil(t.rows[r.id], delay))
            && (!Held(s.rows, r.key) && r.id in s.rows ==>
                  t.rows == s.rows && Get(t, e) == if s.rows[r.id].name == r.name then Touched(r) else Raised)
            && (forall id | Holds(s.rows, id, r.key) ::
                  if CanBounce(s.rows[id], r)
                  then && Get(t, e) == Bounced(r, id) && OthersUnchanged(s, t, id) && ServesRequest(t.rows[id], r)
                       && t.rows[id].deadline == s.rows[id].deadline && DelayedUntil(t.rows[id], delay)
                  else if s.rows[id].debounced && s.rows[id].name == r.name
                  then Get(t, e) == Bouncing(r) && t.rows == s.rows
                  else Get(t, e) == Raised && t.rows == s.rows)
  {
    var s1 := Apply(s, e, Start(r));
    var s2 := Apply(s1, e, TryBounce(delay));
    var s3 := Apply(s2, e, LookUp);
    forall id | Holds(s.rows, id, r.key) ensures Held(s.rows, r.key) && Holder(s.rows, r.key) == id {}
    if !Held(s.rows, r.key) {
      assert Get(s2, e) == Looking(r) && s2.rows == s.rows;
      assert Get(s3, e) == Enqueueing(r) && s3.rows == s.rows;
    } else {
      assert Get(s3, e).Bounced? || Get(s3, e).Raised? || Get(s3, e).Bouncing?;
    }
  }
}
