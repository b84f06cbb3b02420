/** The workflows that one process is executing, and the counts per queue and partition that limit dequeuing. */
module ActiveWorkflows {
  import opened Values

  datatype Bucket = Bucket(queue: string, partition: Option<string>)

  /** An execution in the background: it owns its workflow, or waits for the owner's result. */
  datatype Execution = Owner(id: string, bucket: Option<Bucket>) | Waiter(id: string)

  datatype Event =
    | Begin(e: nat, id: string, queue: Option<string>, partition: Option<string>)
    | Finish(e: nat)

  type Active = map<string, Option<Bucket>>
  type Executions = map<nat, Execution>

  /** A workflow that was not dequeued has no bucket. */
  function BucketOf(queue: Option<string>, partition: Option<string>): Option<Bucket> {
    if queue.Some? then Some(Bucket(queue.value, partition)) else None
  }

  function Owners(executions: Executions, bucket: Option<Bucket>): set<nat> {
    set e | e in executions && executions[e].Owner? && executions[e].bucket == bucket
  }

  function Ids(active: Active, bucket: Option<Bucket>): set<string> {
    set id | id in active && active[id] == bucket
  }

  ghost predicate Owns(executions: Executions, e: nat, id: string) {
    e in executions && executions[e].Owner? && executions[e].id == id
  }

  /** Each workflow in the map has one owner, which runs in its bucket, and each owner's workflow is there. */
  ghost predicate OneOwnerEach(active: Active, executions: Executions) {
    && (forall e, id | Owns(executions, e, id) :: id in active && active[id] == executions[e].bucket)
    && (forall id | id in active :: exists e :: Owns(executions, e, id))
    && (forall d, e, id | Owns(executions, d, id) && Owns(executions, e, id) :: d == e)
  }

  // ------------------------------------------------- what the events tell, without the map

  /** The executions that go on after the events, and the event that began each. */
  function Begun(events: seq<Event>): (begun: map<nat, Event>)
    ensures forall e | e in begun :: begun[e].Begin? && begun[e].e == e
  {
    if events == [] then map[]
    else
      var before := Begun(events[..|events| - 1]);
      match events[|events| - 1]
      case Begin(e, id, queue, partition) =>
        if e in before then before else before[e := Begin(e, id, queue, partition)]
      case Finish(e) => before - {e}
  }

  /** Those of them that found their workflow not being executed when they began. */
  function Owning(events: seq<Event>): (owning: set<nat>)
    ensures owning <= Begun(events).Keys
  {
    if events == [] then {}
    else
      var init := events[..|events| - 1];
      var owning, begun := Owning(init), Begun(init);
      match events[|events| - 1]
      case Begin(e, id, _, _) =>
        if e in begun || exists d :: d in owning && begun[d].id == id then owning else owning + {e}
      case Finish(e) => owning - {e}
  }

  /** Those of these that began with the queue and the partition. */
  function OwningIn(events: seq<Event>, queue: string, partition: Option<string>): set<nat> {
    set e | e in Owning(events) && Begun(events)[e].queue == Some(queue) && Begun(events)[e].partition == partition
  }

  /** The process after the events. */
  ghost predicate Tells(events: seq<Event>, executions: Executions) {
    var begun, owning := Begun(events), Owning(events);
    && executions.Keys == begun.Keys
    && forall e | e in executions ::
         && executions[e].id == begun[e].id && (executions[e].Owner? <==> e in owning)
         && (executions[e].Owner? ==> executions[e].bucket == BucketOf(begun[e].queue, begun[e].partition))
  }

  lemma BeginTells(events: seq<Event>, e: nat, id: string, queue: Option<string>, partition: Option<string>,
                   active: Active, before: Executions, after: Executions)
    requires Tells(events, before) && OneOwnerEach(active, before) && e !in before
    requires after == before[e := if id in active then Waiter(id) else Owner(id, BucketOf(queue, partition))]
    ensures Tells(events + [Begin(e, id, queue, partition)], after)
  {
    assert (events + [Begin(e, id, queue, partition)])[..|events|] == events;
    if id in active {
      var d :| Owns(before, d, id);
      assert d in Owning(events) && Begun(events)[d].id == id;
    } else {
      forall d | d in Owning(events) ensures Begun(events)[d].id != id {
        assert Owns(before, d, before[d].id);
      }
    }
  }

  lemma SkippedTells(events: seq<Event>, event: Event, executions: Executions)
    requires Tells(events, executions)
    requires if event.Begin? then event.e in executions else event.e !in executions
    ensures Tells(events + [event], executions)
  {
    assert (events + [event])[..|events|] == events;
  }

  lemma FinishTells(events: seq<Event>, e: nat, executions: Executions)
    requires Tells(events, executions)
    ensures Tells(events + [Finish(e)], executions - {e})
  {
    assert (events + [Finish(e)])[..|events|] == events;
  }

  lemma OwningInAreOwners(events: seq<Event>, executions: Executions, queue: string, partition: Option<string>)
    requires Tells(events, executions)
    ensures Owners(executions, Some(Bucket(queue, partition))) == OwningIn(events, queue, partition)
  {
  }

  class Process {
    var active: Active
    var executions: Executions

    ghost predicate Valid()
      reads this
    {
      OneOwnerEach(active, executions)
    }

    constructor ()
      ensures Valid() && executions == map[] && active == map[]
    {
      active, executions := map[], map[];
    }

    method Acquire(id: string, queue: Option<string>, partition: Option<string>) returns (owned: bool)
      modifies this`active
      ensures owned <==> id !in old(active)
      ensures active == if owned then old(active)[id := BucketOf(queue, partition)] else old(active)
    {
      if id in active { return false; }
      active := active[id := if queue.Some? then Some(Bucket(queue.value, partition)) else None];
      owned := true;
    }

    /** The key must be there. */
    method Release(id: string)
      requires id in active
      modifies this`active
      ensures active == old(active) - {id}
    {
      active := active - {id};
    }

    method CountForQueue(queue: string, partition: Option<string>) returns (n: nat)
      ensures n == |Ids(active, Some(Bucket(queue, partition)))|
    {
      var target := Some(Bucket(queue, partition));
      n := 0;
      var rest := active.Keys;
      ghost var counted := {};
      while rest != {}
        invariant rest <= active.Keys && n == |counted|
        invariant counted == set id | id in active && id !in rest && active[id] == target
        decreases rest
      {
        var id :| id in rest;
        rest := rest - {id};
        if active[id] == target {
          n := n + 1;
          counted := counted + {id};
        }
      }
      assert counted == Ids(active, target);
    }

    method BeginExecution(e: nat, id: string, queue: Option<string>, partition: Option<string>)
      requires Valid() && e !in executions
      modifies this
      ensures Valid()
      ensures executions ==
                old(executions)[e := if id in old(active) then Waiter(id) else Owner(id, BucketOf(queue, partition))]
      ensures active == if id in old(active) then old(active) else old(active)[id := BucketOf(queue, partition)]
      ensures forall q, p :: |Ids(active, Some(Bucket(q, p)))| == |Ids(old(active), Some(Bucket(q, p)))| +
                if id !in old(active) && queue == Some(q) && partition == p then 1 else 0
    {
      if id !in active { CountsWith(active, id, queue, partition); }
      var owned := Acquire(id, queue, partition);
      if owned {
        executions := executions[e := Owner(id, active[id])];
        assert Owns(executions, e, id);
        forall i | i in active ensures exists d :: Owns(executions, d, i) {
          if i != id {
            var d :| Owns(old(executions), d, i);
            assert Owns(executions, d, i);
          }
        }
        assert forall d, i | Owns(executions, d, i) && d != e :: Owns(old(executions), d, i);
      } else {
        executions := executions[e := Waiter(id)];
        KeepsOwners(old(executions), executions, active);
      }
    }

    /** An owner releases its workflow, whose key is always there. */
    method FinishExecution(e: nat)
      requires Valid() && e in executions
      modifies this
      ensures Valid() && executions == old(executions) - {e}
      ensures active == if old(executions)[e].Owner? then old(active) - {old(executions)[e].id} else old(active)
      ensures forall b :: |Ids(active, b)| == |Ids(old(active), b)| -
                if old(executions)[e].Owner? && old(executions)[e].bucket == b then 1 else 0
    {
      var execution := executions[e];
      if execution.Owner? {
        assert Owns(executions, e, execution.id);
        forall b ensures |Ids(active, b)| ==
          |Ids(active - {execution.id}, b)| + if execution.bucket == b then 1 else 0
        {
          CountWithout(active, execution.id, b);
        }
        Release(execution.id);
        executions := executions - {e};
        forall i | i in active ensures exists d :: Owns(executions, d, i) {
          var d :| Owns(old(executions), d, i);
          assert d != e;
          assert Owns(executions, d, i);
        }
        assert forall d, i | Owns(executions, d, i) :: Owns(old(executions), d, i);
      } else {
        executions := executions - {e};
        KeepsOwners(old(executions), executions, active);
      }
    }

    /**
     After any interleaving of executions the count of each bucket is that of the owners running in it;
     in a process that began with nothing, of those that began with its queue and partition.
     */
    method RunAll(events: seq<Event>)
      requires Valid()
      modifies this
      ensures Valid()
      ensures forall bucket :: |Ids(active, bucket)| == |Owners(executions, bucket)|
      ensures old(executions) == map[] ==>
                forall queue, partition ::
                  |Ids(active, Some(Bucket(queue, partition)))| == |OwningIn(events, queue, partition)|
    {
      ghost var empty := executions == map[];
      for i := 0 to |events|
        invariant Valid() && (empty ==> Tells(events[..i], executions))
      {
        assert events[..i + 1] == events[..i] + [events[i]];
        match events[i] {
          case Begin(e, id, queue, partition) =>
            ghost var executionsWere, activeWas := executions, active;
            if e !in executions {
              BeginExecution(e, id, queue, partition);
              if empty { BeginTells(events[..i], e, id, queue, partition, activeWas, executionsWere, executions); }
            } else if empty {
              SkippedTells(events[..i], events[i], executions);
            }
          case Finish(e) =>
            if empty { FinishTells(events[..i], e, executions); }
            if e in executions { FinishExecution(e); } else { assert executions - {e} == executions; }
        }
      }
      assert events[..|events|] == events;
      forall bucket ensures |Ids(active, bucket)| == |Owners(executions, bucket)| {
        CountIsOwners(active, executions, bucket);
      }
      if empty {
        forall queue, partition
          ensures |Ids(active, Some(Bucket(queue, partition)))| == |OwningIn(events, queue, partition)|
        {
          OwningInAreOwners(events, executions, queue, partition);
        }
      }
    }
  }

  lemma CountWith(active: Active, id: string, bucket: Option<Bucket>, counted: Option<Bucket>)
    requires id !in active
    ensures |Ids(active[id := bucket], counted)| == |Ids(active, counted)| + if bucket == counted then 1 else 0
  {
    var before, after := Ids(active, counted), Ids(active[id := bucket], counted);
    if bucket == counted {
      assert after == before + {id};
    } else {
      assert after == before;
    }
  }

  lemma CountsWith(active: Active, id: string, queue: Option<string>, partition: Option<string>)
    requires id !in active
    ensures forall q, p :: |Ids(active[id := BucketOf(queue, partition)], Some(Bucket(q, p)))| ==
                           |Ids(active, Some(Bucket(q, p)))| + if queue == Some(q) && partition == p then 1 else 0
  {
    var bucket := BucketOf(queue, partition);
    forall q, p
      ensures |Ids(active[id := bucket], Some(Bucket(q, p)))| ==
              |Ids(active, Some(Bucket(q, p)))| + if queue == Some(q) && partition == p then 1 else 0
    {
      CountWith(active, id, bucket, Some(Bucket(q, p)));
    }
  }

  lemma CountWithout(active: Active, id: string, counted: Option<Bucket>)
    requires id in active
    ensures |Ids(active, counted)| == |Ids(active - {id}, counted)| + if active[id] == counted then 1 else 0
  {
    assert Ids(active, counted) == Ids(active - {id}, counted) + if active[id] == counted then {id} else {};
  }

  lemma KeepsOwners(before: Executions, after: Executions, active: Active)
    requires OneOwnerEach(active, before) && forall e, id :: Owns(before, e, id) <==> Owns(after, e, id)
    requires forall e | e in before && e in after && before[e].Owner? :: before[e] == after[e]
    ensures OneOwnerEach(active, after)
  {
    forall id | id in active ensures exists e :: Owns(after, e, id) {
      var e :| Owns(before, e, id);
      assert Owns(after, e, id);
    }
    forall e, id | Owns(after, e, id) ensures id in active && active[id] == after[e].bucket {
      assert Owns(before, e, id);
    }
  }

  // -------------------------------------------------------------------- counts

  lemma {:induction false} OneToOne(executions: Executions, owners: set<nat>, ids: set<string>)
    requires forall e | e in owners :: e in executions && executions[e].Owner?
    requires forall d, e | d in owners && e in owners && executions[d].id == executions[e].id :: d == e
    requires ids == set e | e in owners :: executions[e].id
    ensures |owners| == |ids|
    decreases owners
  {
    if owners != {} {
      var e :| e in owners;
      assert executions[e].id in ids;
      OneToOne(executions, owners - {e}, ids - {executions[e].id});
    } else {
      assert ids == {};
    }
  }

  /** The count of a bucket is the number of owners that run in it now. */
  lemma CountIsOwners(active: Active, executions: Executions, bucket: Option<Bucket>)
    requires OneOwnerEach(active, executions)
    ensures |Ids(active, bucket)| == |Owners(executions, bucket)|
  {
    var owners, ids := Owners(executions, bucket), Ids(active, bucket);
    forall d, e | d in owners && e in owners && executions[d].id == executions[e].id ensures d == e {
      assert Owns(executions, d, executions[e].id) && Owns(executions, e, executions[e].id);
    }
    forall id ensures id in ids <==> id in set e | e in owners :: executions[e].id {
      if id in ids {
        var e :| Owns(executions, e, id);
        assert e in owners;
      }
      if id in set e | e in owners :: executions[e].id {
        var e :| e in owners && executions[e].id == id;
        assert Owns(executions, e, id);
      }
    }
    OneToOne(executions, owners, ids);
  }

  function Total(active: Active, buckets: seq<Option<Bucket>>): nat {
    if buckets == [] then 0 else |Ids(active, buckets[0])| + Total(active, buckets[1..])
  }

  function IdsIn(active: Active, buckets: seq<Option<Bucket>>): set<string> {
    set id | id in active && active[id] in buckets
  }

  lemma {:induction false} TotalIsIdsIn(active: Active, buckets: seq<Option<Bucket>>)
    requires forall i, j :: 0 <= i < j < |buckets| ==> buckets[i] != buckets[j]
    ensures Total(active, buckets) == |IdsIn(active, buckets)|
  {
    if buckets == [] {
      assert IdsIn(active, buckets) == {};
    } else {
      var first, rest := buckets[0], buckets[1..];
      TotalIsIdsIn(active, rest);
      assert forall b :: b in buckets <==> b == first || b in rest;
      assert first !in rest;
      assert IdsIn(active, buckets) == Ids(active, first) + IdsIn(active, rest);
    }
  }

  /** The counts of all buckets and of the workflows without a queue add up to the whole map. */
  lemma CountsAddUp(active: Active, buckets: seq<Option<Bucket>>)
    requires forall i, j :: 0 <= i < j < |buckets| ==> buckets[i] != buckets[j]
    requires forall id | id in active :: active[id] in buckets
    ensures Total(active, buckets) == |active|
  {
    TotalIsIdsIn(active, buckets);
    assert IdsIn(active, buckets) == active.Keys;
  }
}
