/**
 Kafka consumers: a message becomes a workflow whose identifier is made of the message's
 place, and only then is the offset behind it stored.  Consumers crash, are replaced, and lose
 and gain partitions at any time.
 */
module Kafka {
  import opened Text

  /** A partition of a topic. */
  datatype Place = Place(topic: string, partition: nat)

  function WorkflowId(group: string, place: Place, offset: nat): string {
    ("kafka-unique-id-" + place.topic + "-" + Decimal(place.partition) + "-" + group) + "-" + Decimal(offset)
  }

  /** Within a consumer group a workflow identifier stands for one message. */
  lemma WorkflowIdInjective(group: string, p: Place, m: nat, q: Place, n: nat)
    requires WorkflowId(group, p, m) == WorkflowId(group, q, n)
    ensures p == q && m == n
  {
    var a := "kafka-unique-id-" + p.topic + "-" + Decimal(p.partition);
    var b := "kafka-unique-id-" + q.topic + "-" + Decimal(q.partition);
    SplitUnique(a + "-" + group, Decimal(m), b + "-" + group, Decimal(n));
    DecimalRoundTrip(m);
    DecimalRoundTrip(n);
    assert a + ("-" + group) == a + "-" + group && b + ("-" + group) == b + "-" + group;
    SameSuffix(a, b, "-" + group);
    SplitUnique("kafka-unique-id-" + p.topic, Decimal(p.partition), "kafka-unique-id-" + q.topic, Decimal(q.partition));
    DecimalRoundTrip(p.partition);
    DecimalRoundTrip(q.partition);
    SamePrefix("kafka-unique-id-", p.topic, q.topic);
  }

  lemma SameSuffix(a: string, b: string, c: string)
    requires a + c == b + c
    ensures a == b
  {
    assert |a| == |b| && (a + c)[..|a|] == a && (b + c)[..|b|] == b;
  }

  lemma SamePrefix(a: string, b: string, c: string)
    requires a + b == a + c
    ensures b == c
  {
    assert (a + b)[|a|..] == b && (a + c)[|a|..] == c;
  }

  /** Across groups it does not: the group's name can look like a part of the topic's. */
  lemma GroupsCanCollide(topic: string, group: string, m: nat, n: nat, offset: nat)
    ensures WorkflowId(Decimal(n) + "-" + group, Place(topic, m), offset)
            == WorkflowId(group, Place(topic + "-" + Decimal(m), n), offset)
  {
    Regroup("kafka-unique-id-", topic, "-", Decimal(m), Decimal(n), group);
  }

  lemma Regroup(prefix: string, topic: string, dash: string, m: string, n: string, group: string)
    ensures prefix + topic + dash + m + dash + (n + dash + group) ==
              prefix + (topic + dash + m) + dash + n + dash + group
  {
    var a, b := topic + dash + m, n + dash + group;
    Associates(prefix, topic, dash);
    Associates(prefix, topic + dash, m);
    Associates(prefix + a + dash, n, dash);
    Associates(prefix + a + dash, n + dash, group);
  }

  lemma Associates(a: string, b: string, c: string)
    ensures a + b + c == a + (b + c)
  {
  }

  /** `g` is `h` behind a dash, and what precedes is a numeral or ends in one behind a dash. */
  ghost predicate Extends(g: string, h: string) {
    && |g| > |h|
    && var x := g[..|g| - |h| - 1];
       g == x + "-" + h && IsNumeral(AfterLastDash(x))
  }

  /** Two different messages, of topics with names, get the same identifier from the two groups. */
  ghost predicate CanCollide(g: string, h: string) {
    exists p, m, q, n :: Collide(g, p, m, h, q, n)
  }

  predicate Collide(g: string, p: Place, m: nat, h: string, q: Place, n: nat) {
    && p.topic != "" && q.topic != "" && (p, m) != (q, n)
    && WorkflowId(g, p, m) == WorkflowId(h, q, n)
  }

  /** What precedes the shorter of two endings. */
  lemma LongerEnding(a: string, g: string, b: string, h: string)
    requires a + "-" + g == b + "-" + h && |g| > |h|
    ensures var x := g[..|g| - |h| - 1]; g == x + "-" + h && a + "-" + x == b
  {
    var s := a + "-" + g;
    var x := g[..|g| - |h| - 1];
    assert s[|s| - |g|..] == g && s[|s| - |h|..] == h && s[|s| - |h| - 1] == '-';
    assert g[|g| - |h|..] == h && g[|g| - |h| - 1] == '-';
    assert g == x + "-" + h;
    assert b == s[..|s| - |h| - 1] == a + "-" + x;
  }

  lemma CollisionExtends(g: string, h: string, p: Place, m: nat, q: Place, n: nat)
    requires WorkflowId(g, p, m) == WorkflowId(h, q, n) && |g| > |h|
    ensures Extends(g, h)
  {
    var a := "kafka-unique-id-" + p.topic + "-" + Decimal(p.partition);
    var u := "kafka-unique-id-" + q.topic;
    var b := u + "-" + Decimal(q.partition);
    SplitUnique(a + "-" + g, Decimal(m), b + "-" + h, Decimal(n));
    LongerEnding(a, g, b, h);
    var x := g[..|g| - |h| - 1];
    LastDashStays(a, x);
    LastDashSplits(u, Decimal(q.partition));
    assert AfterLastDash(x) == Decimal(q.partition);
  }

  /** Behind another numeral and a dash, the string still ends in a numeral behind a dash. */
  lemma EndsInNumeral(zero: string, x: string, n: nat) returns (y: string)
    requires AfterLastDash(x) == Decimal(n)
    ensures zero + "-" + x == y + "-" + Decimal(n)
  {
    var w := zero + "-" + x;
    LastDashStays(zero, x);
    assert w[|zero|] == '-';
    SplitAtLastDash(w);
    y := w[..LastDash(w)];
  }

  lemma ExtensionCollides(g: string, h: string)
    requires Extends(g, h)
    ensures CanCollide(g, h)
  {
    var x := g[..|g| - |h| - 1];
    var n: nat :| AfterLastDash(x) == Decimal(n);
    var y := EndsInNumeral(Decimal(0), x, n);
    CollideAt("t", x, y, n, h);
  }

  lemma CollideAt(topic: string, x: string, y: string, n: nat, h: string)
    requires topic != "" && Decimal(0) + "-" + x == y + "-" + Decimal(n)
    ensures Collide(x + "-" + h, Place(topic, 0), 0, h, Place(topic + "-" + y, n), 0)
  {
    Topics("kafka-unique-id-", topic, "-", Decimal(0), x, y, Decimal(n), h);
    assert |topic| < |topic + "-" + y|;
  }

  lemma Topics(prefix: string, topic: string, dash: string, zero: string, x: string, y: string, n: string, h: string)
    requires zero + dash + x == y + dash + n
    ensures prefix + topic + dash + zero + dash + (x + dash + h) ==
            prefix + (topic + dash + y) + dash + n + dash + h
  {
    var w, a := zero + dash + x, prefix + topic + dash;
    Associates(a + zero + dash, x + dash, h);
    Associates(a + zero + dash, x, dash);
    assert a + zero + dash + x == a + w;
    Associates(prefix, topic, dash);
    Associates(prefix, topic + dash, y);
    assert prefix + (topic + dash + y) + dash + n == a + w;
  }

  /** Two groups can give two messages the same identifier exactly when one extends the other. */
  lemma GroupsCollideIff(g: string, h: string)
    ensures CanCollide(g, h) <==> Extends(g, h) || Extends(h, g)
  {
    if CanCollide(g, h) {
      var p, m, q, n :| Collide(g, p, m, h, q, n);
      if |g| > |h| {
        CollisionExtends(g, h, p, m, q, n);
      } else if |h| > |g| {
        CollisionExtends(h, g, q, n, p, m);
      } else {
        SameLength(g, h, p, m, q, n);
        WorkflowIdInjective(g, p, m, q, n);
      }
    }
    if Extends(g, h) { ExtensionCollides(g, h); }
    if Extends(h, g) {
      ExtensionCollides(h, g);
      var p, m, q, n :| Collide(h, p, m, g, q, n);
      assert Collide(g, q, n, h, p, m);
    }
  }

  lemma SameLength(g: string, h: string, p: Place, m: nat, q: Place, n: nat)
    requires WorkflowId(g, p, m) == WorkflowId(h, q, n) && |g| == |h|
    ensures g == h
  {
    var a := "kafka-unique-id-" + p.topic + "-" + Decimal(p.partition);
    var b := "kafka-unique-id-" + q.topic + "-" + Decimal(q.partition);
    SplitUnique(a + "-" + g, Decimal(m), b + "-" + h, Decimal(n));
    var s := a + "-" + g;
    assert s[|s| - |g|..] == g && (b + "-" + h)[|s| - |h|..] == h;
  }

  // -------------------------------------------------------------- the machine

  /** `positions` are the next offsets to fetch of the assigned partitions, `stored` the offsets to commit. */
  datatype Consumer =
    | Stopped
    | Polling(positions: map<Place, nat>, stored: map<Place, nat>)
    /** a message is in hand */
    | Holding(positions: map<Place, nat>, stored: map<Place, nat>, place: Place, offset: nat)
    /** its workflow is durable */
    | Enqueued(positions: map<Place, nat>, stored: map<Place, nat>, place: Place, offset: nat)

  datatype Workflow = Workflow(place: Place, offset: nat, payload: string)

  datatype State = State(
    logs: map<Place, seq<string>>, committed: map<Place, nat>,
    consumers: map<nat, Consumer>, workflows: map<string, Workflow>)

  datatype Event =
    | Produce(place: Place, payload: string)
    /** start, or replace the consumer after a fatal error */
    | Start
    | Assign(place: Place)
    | Revoke(place: Place)
    | Poll(place: Place)
    | Enqueue
    | StoreOffset(succeeds: bool)
    | CommitOffset(place: Place)
    /** stop or crash; a message in hand is dropped */
    | Stop

  function Get(s: State, e: nat): Consumer {
    if e in s.consumers then s.consumers[e] else Stopped
  }

  function Log(s: State, place: Place): seq<string> {
    if place in s.logs then s.logs[place] else []
  }

  function Committed(s: State, place: Place): nat {
    if place in s.committed then s.committed[place] else 0
  }

  /** The consumer after an event that concerns it alone. */
  function Move(s: State, x: Consumer, event: Event): Consumer {
    match (x, event)
    case (_, Start) => Polling(map[], map[])
    case (_, Stop) => Stopped
    case (Polling(positions, stored), Assign(place)) => Polling(positions[place := Committed(s, place)], stored)
    case (Polling(positions, stored), Revoke(place)) => Polling(positions - {place}, stored - {place})
    case (Polling(positions, stored), Poll(place)) =>
      if place in positions && positions[place] < |Log(s, place)|
      then Holding(positions[place := positions[place] + 1], stored, place, positions[place]) else x
    case (Holding(positions, stored, place, offset), Enqueue) => Enqueued(positions, stored, place, offset)
    case (Enqueued(positions, stored, place, offset), StoreOffset(succeeds)) =>
      Polling(positions, if succeeds then stored[place := offset + 1] else stored)
    case _ => x
  }

  /** An existing workflow is left as it is. */
  function EnqueueWorkflow(group: string, s: State, x: Consumer): map<string, Workflow> {
    if x.Holding? && x.offset < |Log(s, x.place)| && WorkflowId(group, x.place, x.offset) !in s.workflows
    then s.workflows[WorkflowId(group, x.place, x.offset) := Workflow(x.place, x.offset, Log(s, x.place)[x.offset])]
    else s.workflows
  }

  function Apply(group: string, s: State, e: nat, event: Event): State {
    var x := Get(s, e);
    var s := s.(consumers := s.consumers[e := Move(s, x, event)]);
    match event
    case Produce(place, payload) => s.(logs := s.logs[place := Log(s, place) + [payload]])
    case Enqueue => s.(workflows := EnqueueWorkflow(group, s, x))
    case CommitOffset(place) =>
      if !x.Stopped? && place in x.stored then s.(committed := s.committed[place := x.stored[place]]) else s
    case _ => s
  }

  function Run(group: string, s: State, events: seq<(nat, Event)>): State {
    if events == [] then s
    else
      var last := events[|events| - 1];
      Apply(group, Run(group, s, events[..|events| - 1]), last.0, last.1)
  }

  const INITIAL := State(map[], map[], map[], map[])

  // ------------------------------------------------------------ what runs keep

  /** The messages before the offset `n` have workflows. */
  ghost predicate Covered(group: string, workflows: map<string, Workflow>, place: Place, n: nat) {
    forall offset: nat :: offset < n ==> WorkflowId(group, place, offset) in workflows
  }

  ghost predicate AllCovered(group: string, workflows: map<string, Workflow>, offsets: map<Place, nat>) {
    forall place | place in offsets :: Covered(group, workflows, place, offsets[place])
  }

  ghost predicate ConsumerFits(group: string, s: State, x: Consumer) {
    match x
    case Stopped => true
    case Polling(positions, stored) =>
      AllCovered(group, s.workflows, positions) && AllCovered(group, s.workflows, stored)
    case Holding(positions, stored, place, offset) =>
      && AllCovered(group, s.workflows, stored) && AllCovered(group, s.workflows, positions - {place})
      && place in positions && positions[place] == offset + 1 && offset < |Log(s, place)|
      && Covered(group, s.workflows, place, offset)
    case Enqueued(positions, stored, place, offset) =>
      && AllCovered(group, s.workflows, positions) && AllCovered(group, s.workflows, stored)
      && Covered(group, s.workflows, place, offset + 1)
  }

  /** The workflow's identifier is that of its message, whose payload it has. */
  predicate WorkflowFits(group: string, s: State, id: string)
    requires id in s.workflows
  {
    var w := s.workflows[id];
    id == WorkflowId(group, w.place, w.offset) && w.offset < |Log(s, w.place)| && w.payload == Log(s, w.place)[w.offset]
  }

  ghost predicate Inv(group: string, s: State) {
    && AllCovered(group, s.workflows, s.committed)
    && (forall e :: ConsumerFits(group, s, Get(s, e)))
    && (forall id | id in s.workflows :: WorkflowFits(group, s, id))
  }

  /** Logs and workflows are only ever added to. */
  ghost predicate Grows(s: State, t: State) {
    && s.workflows.Keys <= t.workflows.Keys
    && (forall place :: Log(s, place) <= Log(t, place))
  }

  lemma CoveredGrows(group: string, s: State, t: State, offsets: map<Place, nat>)
    requires Grows(s, t) && AllCovered(group, s.workflows, offsets)
    ensures AllCovered(group, t.workflows, offsets)
  {
    forall place | place in offsets ensures Covered(group, t.workflows, place, offsets[place]) {
      assert Covered(group, s.workflows, place, offsets[place]);
    }
  }

  lemma ConsumerGrows(group: string, s: State, t: State, x: Consumer)
    requires Grows(s, t) && ConsumerFits(group, s, x)
    ensures ConsumerFits(group, t, x)
  {
    if !x.Stopped? {
      CoveredGrows(group, s, t, x.stored);
      CoveredGrows(group, s, t, if x.Holding? then x.positions - {x.place} else x.positions);
      if !x.Polling? { assert Log(s, x.place) <= Log(t, x.place); }
    }
  }

  lemma MoveFits(group: string, s: State, x: Consumer, event: Event)
    requires AllCovered(group, s.workflows, s.committed) && ConsumerFits(group, s, x)
    requires event.Enqueue? && x.Holding? ==> WorkflowId(group, x.place, x.offset) in s.workflows
    ensures ConsumerFits(group, s, Move(s, x, event))
  {
    if event.Enqueue? && x.Holding? {
      assert Covered(group, s.workflows, x.place, x.offset + 1);
      assert forall place | place in x.positions && place != x.place :: place in x.positions - {x.place};
    }
  }

  lemma ApplyGrows(group: string, s: State, e: nat, event: Event)
    ensures Grows(s, Apply(group, s, e, event))
  {
  }

  /** An event leaves a workflow as it is, or adds that of the message in hand. */
  lemma ApplyWorkflows(group: string, s: State, e: nat, event: Event, id: string)
    requires id in Apply(group, s, e, event).workflows
    ensures var t, x := Apply(group, s, e, event), Get(s, e);
            if id in s.workflows then t.workflows[id] == s.workflows[id]
            else && x.Holding? && x.offset < |Log(s, x.place)| && id == WorkflowId(group, x.place, x.offset)
                 && t.workflows[id] == Workflow(x.place, x.offset, Log(s, x.place)[x.offset])
  {
  }

  lemma ApplyKeepsWorkflows(group: string, s: State, e: nat, event: Event)
    requires forall id | id in s.workflows :: WorkflowFits(group, s, id)
    ensures var t := Apply(group, s, e, event); forall id | id in t.workflows :: WorkflowFits(group, t, id)
  {
    var t := Apply(group, s, e, event);
    ApplyGrows(group, s, e, event);
    forall id | id in t.workflows ensures WorkflowFits(group, t, id) {
      ApplyWorkflows(group, s, e, event, id);
      assert id in s.workflows ==> WorkflowFits(group, s, id);
      assert Log(s, t.workflows[id].place) <= Log(t, t.workflows[id].place);
    }
  }

  /** What an event does to the consumers and, if a message in hand is enqueued, to the workflows. */
  lemma ApplyParts(group: string, s: State, e: nat, event: Event, d: nat)
    ensures var x, t := Get(s, e), Apply(group, s, e, event);
            && Get(t, d) == (if d == e then Move(s, x, event) else Get(s, d))
            && (event.Enqueue? && x.Holding? && x.offset < |Log(s, x.place)| ==>
                  WorkflowId(group, x.place, x.offset) in t.workflows)
  {
  }

  lemma OwnConsumerFits(group: string, s: State, t: State, x: Consumer, event: Event)
    requires AllCovered(group, s.workflows, s.committed) && ConsumerFits(group, s, x) && Grows(s, t)
    requires event.Enqueue? && x.Holding? ==> WorkflowId(group, x.place, x.offset) in t.workflows
    ensures ConsumerFits(group, t, Move(s, x, event))
  {
    var u := s.(workflows := t.workflows);
    CoveredGrows(group, s, u, s.committed);
    ConsumerGrows(group, s, u, x);
    MoveFits(group, u, x, event);
    assert Move(u, x, event) == Move(s, x, event);
    ConsumerGrows(group, u, t, Move(s, x, event));
  }

  lemma ApplyKeepsConsumers(group: string, s: State, e: nat, event: Event, d: nat)
    requires AllCovered(group, s.workflows, s.committed) && ConsumerFits(group, s, Get(s, d))
    ensures ConsumerFits(group, Apply(group, s, e, event), Get(Apply(group, s, e, event), d))
  {
    var t := Apply(group, s, e, event);
    ApplyGrows(group, s, e, event);
    ApplyParts(group, s, e, event, d);
    if d == e {
      OwnConsumerFits(group, s, t, Get(s, e), event);
    } else {
      ConsumerGrows(group, s, t, Get(s, d));
    }
  }

  lemma ApplyKeepsCommitted(group: string, s: State, e: nat, event: Event)
    requires AllCovered(group, s.workflows, s.committed) && ConsumerFits(group, s, Get(s, e))
    ensures AllCovered(group, Apply(group, s, e, event).workflows, Apply(group, s, e, event).committed)
  {
    var t := Apply(group, s, e, event);
    ApplyGrows(group, s, e, event);
    CoveredGrows(group, s, t, s.committed);
    if !Get(s, e).Stopped? { CoveredGrows(group, s, t, Get(s, e).stored); }
  }

  lemma ApplyKeepsInv(group: string, s: State, e: nat, event: Event)
    requires Inv(group, s)
    ensures Inv(group, Apply(group, s, e, event))
  {
    var t := Apply(group, s, e, event);
    ApplyGrows(group, s, e, event);
    ApplyKeepsWorkflows(group, s, e, event);
    assert ConsumerFits(group, s, Get(s, e));
    forall d ensures ConsumerFits(group, t, Get(t, d)) {
      assert ConsumerFits(group, s, Get(s, d));
      ApplyKeepsConsumers(group, s, e, event, d);
    }
    ApplyKeepsCommitted(group, s, e, event);
  }

  /**
   Whatever crashes, redeliveries, rebalances and replacements: every message before a stored or
   committed offset has a workflow, and every workflow is that of one message.
   */
  lemma {:induction false} RunKeepsInv(group: string, events: seq<(nat, Event)>)
    ensures Inv(group, Run(group, INITIAL, events))
  {
    if events != [] {
      var init, last := events[..|events| - 1], events[|events| - 1];
      RunKeepsInv(group, init);
      ApplyKeepsInv(group, Run(group, INITIAL, init), last.0, last.1);
    }
  }

  /** A message whose offset is behind a committed or a stored one has exactly one workflow, with its payload. */
  lemma MessagesGetOneWorkflow(group: string, events: seq<(nat, Event)>, place: Place, offset: nat)
    requires var s := Run(group, INITIAL, events);
             offset < Committed(s, place)
             || exists e :: !Get(s, e).Stopped? && place in Get(s, e).stored && offset < Get(s, e).stored[place]
    ensures var s := Run(group, INITIAL, events);
            var id := WorkflowId(group, place, offset);
            && id in s.workflows && s.workflows[id].place == place && s.workflows[id].offset == offset
            && offset < |Log(s, place)| && s.workflows[id].payload == Log(s, place)[offset]
            && forall other | other in s.workflows && other != id ::
                 s.workflows[other].place != place || s.workflows[other].offset != offset
  {
    RunKeepsInv(group, events);
    var s := Run(group, INITIAL, events);
    var id := WorkflowId(group, place, offset);
    if offset < Committed(s, place) {
      assert Covered(group, s.workflows, place, s.committed[place]);
    } else {
      var e :| !Get(s, e).Stopped? && place in Get(s, e).stored && offset < Get(s, e).stored[place];
      assert ConsumerFits(group, s, Get(s, e));
      assert Covered(group, s.workflows, place, Get(s, e).stored[place]);
    }
    assert WorkflowFits(group, s, id);
    WorkflowIdInjective(group, place, offset, s.workflows[id].place, s.workflows[id].offset);
    forall other | other in s.workflows && other != id
      ensures s.workflows[other].place != place || s.workflows[other].offset != offset
    {
      assert WorkflowFits(group, s, other);
    }
  }

  /** The next message of the partition is polled, enqueued and its offset stored. */
  function Handled(group: string, s: State, e: nat, place: Place): State {
    Apply(group, Apply(group, Apply(group, s, e, Poll(place)), e, Enqueue), e, StoreOffset(true))
  }

  /** A message that is polled and handled without trouble is enqueued and the offset behind it stored. */
  lemma HandledIsStored(group: string, s: State, e: nat, place: Place)
    requires Get(s, e).Polling? && place in Get(s, e).positions && Get(s, e).positions[place] < |Log(s, place)|
    ensures var offset := Get(s, e).positions[place];
            var t := Handled(group, s, e, place);
            && Get(t, e).Polling? && Get(t, e).positions == Get(s, e).positions[place := offset + 1]
            && Get(t, e).stored == Get(s, e).stored[place := offset + 1]
            && t.workflows.Keys == s.workflows.Keys + {WorkflowId(group, place, offset)} && t.logs == s.logs
  {
    var x := Get(s, e);
    var offset := x.positions[place];
    var s1 := Apply(group, s, e, Poll(place));
    assert Get(s1, e) == Holding(x.positions[place := offset + 1], x.stored, place, offset);
    assert Log(s1, place) == Log(s, place);
    var s2 := Apply(group, s1, e, Enqueue);
    assert Get(s2, e) == Enqueued(x.positions[place := offset + 1], x.stored, place, offset);
  }

  /** The consumer `x` of the state `s` has handled the next `n` messages of the partition in the state `t`. */
  ghost predicate HandledBy(group: string, s: State, x: Consumer, t: State, y: Consumer, place: Place, n: nat)
    requires x.Polling? && place in x.positions
  {
    var start := x.positions[place];
    && t.logs == s.logs
    && y == Polling(x.positions[place := start + n], if n == 0 then x.stored else x.stored[place := start + n])
    && t.workflows.Keys == s.workflows.Keys + IdsFrom(group, place, start, n)
  }

  /** The identifiers of `n` messages from the offset `start` on. */
  function IdsFrom(group: string, place: Place, start: nat, n: nat): set<string> {
    set offset | start <= offset < start + n :: WorkflowId(group, place, offset)
  }

  lemma OneMoreId(group: string, place: Place, start: nat, n: nat)
    ensures IdsFrom(group, place, start, n + 1) ==
            IdsFrom(group, place, start, n) + {WorkflowId(group, place, start + n)}
  {
  }

  lemma HandledNext(group: string, s: State, x: Consumer, t: State, y: Consumer, u: State, z: Consumer, place: Place,
                    n: nat)
    requires x.Polling? && place in x.positions && HandledBy(group, s, x, t, y, place, n)
    requires u.logs == t.logs && z.Polling?
    requires var next := x.positions[place] + n;
             && z.positions == y.positions[place := next + 1] && z.stored == y.stored[place := next + 1]
             && u.workflows.Keys == t.workflows.Keys + {WorkflowId(group, place, next)}
    ensures HandledBy(group, s, x, u, z, place, n + 1)
  {
    var start := x.positions[place];
    assert x.positions[place := start + n][place := start + n + 1] == x.positions[place := start + n + 1];
    assert x.stored[place := start + n][place := start + n + 1] == x.stored[place := start + n + 1];
    OneMoreId(group, place, start, n);
  }

  lemma NoneHandled(group: string, s: State, x: Consumer, place: Place)
    requires x.Polling? && place in x.positions
    ensures HandledBy(group, s, x, s, x, place, 0)
  {
    assert x.positions[place := x.positions[place]] == x.positions;
  }

  lemma ThenHandled(group: string, s: State, x: Consumer, t: State, u: State, e: nat, place: Place, n: nat)
    requires 0 < n && x.Polling? && place in x.positions && HandledBy(group, s, x, t, Get(t, e), place, n - 1)
    requires x.positions[place] + n <= |Log(s, place)| && u == Handled(group, t, e, place)
    ensures HandledBy(group, s, x, u, Get(u, e), place, n)
  {
    HandledIsStored(group, t, e, place);
    HandledNext(group, s, x, t, Get(t, e), u, Get(u, e), place, n - 1);
  }

  /** A consumer left alone handles every message of its partition, in order, and stores the offset behind each. */
  lemma {:induction false} BacklogIsHandled(group: string, states: seq<State>, e: nat, place: Place, n: nat)
    requires n < |states| && Get(states[0], e).Polling? && place in Get(states[0], e).positions
    requires forall i :: 0 < i < |states| ==> states[i] == Handled(group, states[i - 1], e, place)
    requires Get(states[0], e).positions[place] + n <= |Log(states[0], place)|
    ensures HandledBy(group, states[0], Get(states[0], e), states[n], Get(states[n], e), place, n)
  {
    if n == 0 {
      NoneHandled(group, states[0], Get(states[0], e), place);
    } else {
      BacklogIsHandled(group, states, e, place, n - 1);
      ThenHandled(group, states[0], Get(states[0], e), states[n - 1], states[n], e, place, n);
    }
  }

  /** A consumer that starts, or replaces another, goes on behind the last offset committed, whoever committed it. */
  lemma ResumesBehindCommitted(group: string, s: State, d: nat, e: nat, place: Place)
    requires !Get(s, d).Stopped? && place in Get(s, d).stored
    ensures var stored := Get(s, d).stored[place];
            var committed := Apply(group, s, d, CommitOffset(place));
            var t := Apply(group, Apply(group, committed, e, Start), e, Assign(place));
            && Get(t, e) == Polling(map[place := stored], map[]) && t.committed == s.committed[place := stored]
            && t.workflows == s.workflows && t.logs == s.logs
  {
    var committed := Apply(group, s, d, CommitOffset(place));
    assert Committed(committed, place) == Get(s, d).stored[place];
    var started := Apply(group, committed, e, Start);
    assert Get(started, e) == Polling(map[], map[]) && started.committed == committed.committed;
  }
}
