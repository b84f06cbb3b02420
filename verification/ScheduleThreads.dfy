/** The pass that brings the running schedule threads in line with the listed schedules. */
module ScheduleThreads {
  /** `signature` is the part of the definition that a running thread depends on. */
  datatype Schedule = Schedule(id: string, signature: string, active: bool)

  /** A thread; its serial number tells it from every other thread ever started. */
  datatype Thread = Thread(serial: nat, signature: string)

  ghost predicate DistinctIds(schedules: seq<Schedule>) {
    forall i, j :: 0 <= i < j < |schedules| ==> schedules[i].id != schedules[j].id
  }

  predicate Wanted(schedules: seq<Schedule>, id: string, signature: string) {
    exists i :: 0 <= i < |schedules| && schedules[i] == Schedule(id, signature, true)
  }

  type Threads = map<string, Thread>

  /** The schedule's thread is what the schedule asks for, and the one that ran before if that fits. */
  predicate Served(before: Threads, threads: Threads, schedule: Schedule) {
    if schedule.active then
      && schedule.id in threads && threads[schedule.id].signature == schedule.signature
      && (schedule.id in before && before[schedule.id].signature == schedule.signature ==>
          threads[schedule.id] == before[schedule.id])
    else schedule.id !in threads
  }

  predicate Untouched(before: Threads, threads: Threads, id: string) {
    && (id in threads <==> id in before)
    && (id in threads ==> threads[id] == before[id])
  }

  function Serials(threads: Threads): set<nat> {
    set id | id in threads :: threads[id].serial
  }

  ghost predicate OneSchedulePerThread(threads: Threads) {
    forall i, j | i in threads && j in threads && threads[i].serial == threads[j].serial :: i == j
  }

  /** Every thread ever started either serves one schedule or was stopped. */
  ghost predicate NoneLost(threads: Threads, started: nat, stopped: set<nat>) {
    && OneSchedulePerThread(threads) && Serials(threads) !! stopped
    && (forall n: nat :: n < started <==> n in Serials(threads) + stopped)
  }

  lemma StopKeepsThreads(threads: Threads, started: nat, stopped: set<nat>, id: string)
    requires NoneLost(threads, started, stopped) && id in threads
    ensures NoneLost(threads - {id}, started, stopped + {threads[id].serial})
  {
    var rest := threads - {id};
    forall n ensures n in Serials(rest) <==> n in Serials(threads) && n != threads[id].serial {
      if n in Serials(threads) && n != threads[id].serial {
        var i :| i in threads && threads[i].serial == n;
        assert i in rest;
      }
    }
    assert threads[id].serial in Serials(threads);
    assert Serials(rest) + (stopped + {threads[id].serial}) == Serials(threads) + stopped;
  }

  lemma StartKeepsThreads(threads: Threads, started: nat, stopped: set<nat>, id: string, signature: string)
    requires NoneLost(threads, started, stopped) && id !in threads
    ensures NoneLost(threads[id := Thread(started, signature)], started + 1, stopped)
  {
    var more := threads[id := Thread(started, signature)];
    assert started !in Serials(threads) + stopped;
    forall n ensures n in Serials(more) <==> n in Serials(threads) || n == started {
      if n in Serials(threads) {
        var i :| i in threads && threads[i].serial == n;
        assert more[i] == threads[i];
      }
      assert more[id].serial == started;
    }
  }

  class Scheduler {
    var threads: Threads
    var started: nat
    var stopped: set<nat>

    ghost predicate Valid()
      reads this
    {
      NoneLost(threads, started, stopped)
    }

    constructor ()
      ensures Valid() && threads == map[]
    {
      threads, started, stopped := map[], 0, {};
    }

    method StopThread(id: string)
      requires Valid() && id in threads
      modifies this
      ensures Valid() && threads == old(threads) - {id} && started == old(started)
      ensures stopped == old(stopped) + {old(threads)[id].serial}
    {
      StopKeepsThreads(threads, started, stopped, id);
      stopped := stopped + {threads[id].serial};
      threads := threads - {id};
    }

    method StartThread(id: string, signature: string)
      requires Valid() && id !in threads
      modifies this
      ensures Valid() && threads == old(threads)[id := Thread(old(started), signature)]
      ensures started == old(started) + 1 && stopped == old(stopped)
    {
      StartKeepsThreads(threads, started, stopped, id, signature);
      threads := threads[id := Thread(started, signature)];
      started := started + 1;
    }

    /** Stop the threads whose schedules are no longer listed. */
    method StopDeleted(listed: set<string>)
      requires Valid()
      modifies this
      ensures Valid() && threads == old(threads) - (old(threads).Keys - listed)
    {
      var ids := threads.Keys;
      ghost var done := {};
      assert threads - ({} - listed) == threads;
      while ids != {}
        invariant Valid() && done !! ids && done + ids == old(threads).Keys
        invariant threads == old(threads) - (done - listed)
        decreases ids
      {
        var id :| id in ids;
        assert done + {id} - listed == (done - listed) + ({id} - listed);
        if id !in listed { StopThread(id); }
        ids, done := ids - {id}, done + {id};
      }
    }

    /** Start, restart, keep or stop the thread of one schedule. */
    method Adjust(schedule: Schedule)
      requires Valid()
      modifies this
      ensures Valid() && Served(old(threads), threads, schedule)
      ensures threads - {schedule.id} == old(threads) - {schedule.id}
    {
      if !schedule.active {
        if schedule.id in threads { StopThread(schedule.id); }
      } else if schedule.id in threads {
        if threads[schedule.id].signature != schedule.signature {
          StopThread(schedule.id);
          StartThread(schedule.id, schedule.signature);
        }
      } else {
        StartThread(schedule.id, schedule.signature);
      }
    }

    /**
     One pass.  Whatever ran before, the running threads are afterwards exactly those of the active
     schedules, each with the current signature; a thread whose schedule did not change is kept, and
     no thread is left running without a schedule.
     */
    method Pass(schedules: seq<Schedule>)
      requires Valid() && DistinctIds(schedules)
      modifies this
      ensures Valid()
      ensures forall id :: id in threads <==> exists signature :: Wanted(schedules, id, signature)
      ensures forall id | id in threads :: Wanted(schedules, id, threads[id].signature)
      ensures forall i :: 0 <= i < |schedules| ==> Served(old(threads), threads, schedules[i])
    {
      var listed := set i | 0 <= i < |schedules| :: schedules[i].id;
      StopDeleted(listed);
      assert forall i :: 0 <= i < |schedules| ==> schedules[i].id in listed;
      assert forall i :: 0 <= i < |schedules| ==> Untouched(old(threads), threads, schedules[i].id);
      var n := 0;
      while n < |schedules|
        invariant n <= |schedules| && Valid() && threads.Keys <= listed
        invariant forall i :: 0 <= i < n ==> Served(old(threads), threads, schedules[i])
        invariant forall i :: n <= i < |schedules| ==> Untouched(old(threads), threads, schedules[i].id)
      {
        ghost var before := threads;
        Adjust(schedules[n]);
        OthersStay(old(threads), before, threads, schedules, n);
        n := n + 1;
      }
      ServedAreWanted(old(threads), threads, schedules);
    }
  }

  lemma OthersStay(first: Threads, before: Threads, threads: Threads, schedules: seq<Schedule>, n: nat)
    requires DistinctIds(schedules) && n < |schedules|
    requires forall i :: 0 <= i < n ==> Served(first, before, schedules[i])
    requires forall i :: n <= i < |schedules| ==> Untouched(first, before, schedules[i].id)
    requires threads - {schedules[n].id} == before - {schedules[n].id} && Served(before, threads, schedules[n])
    requires before.Keys <= set i | 0 <= i < |schedules| :: schedules[i].id
    ensures threads.Keys <= set i | 0 <= i < |schedules| :: schedules[i].id
    ensures forall i :: 0 <= i < n + 1 ==> Served(first, threads, schedules[i])
    ensures forall i :: n + 1 <= i < |schedules| ==> Untouched(first, threads, schedules[i].id)
  {
    forall id | id != schedules[n].id ensures Untouched(before, threads, id) {
      assert id in threads <==> id in threads - {schedules[n].id};
      assert id in before <==> id in before - {schedules[n].id};
      if id in threads { assert (threads - {schedules[n].id})[id] == (before - {schedules[n].id})[id]; }
    }
    forall i | 0 <= i < n + 1 ensures Served(first, threads, schedules[i]) {
      if i < n {
        assert Served(first, before, schedules[i]) && Untouched(before, threads, schedules[i].id);
      } else {
        assert Untouched(first, before, schedules[n].id);
      }
    }
    forall i | n + 1 <= i < |schedules| ensures Untouched(first, threads, schedules[i].id) {
      assert Untouched(first, before, schedules[i].id) && Untouched(before, threads, schedules[i].id);
    }
    forall id | id in threads ensures id in set i | 0 <= i < |schedules| :: schedules[i].id {
      if id != schedules[n].id { assert Untouched(before, threads, id); }
    }
  }

  lemma ServedAreWanted(first: Threads, threads: Threads, schedules: seq<Schedule>)
    requires forall i :: 0 <= i < |schedules| ==> Served(first, threads, schedules[i])
    requires threads.Keys <= set i | 0 <= i < |schedules| :: schedules[i].id
    ensures forall id :: id in threads <==> exists signature :: Wanted(schedules, id, signature)
    ensures forall id | id in threads :: Wanted(schedules, id, threads[id].signature)
  {
    forall id | id in threads ensures Wanted(schedules, id, threads[id].signature) {
      var i :| 0 <= i < |schedules| && schedules[i].id == id;
      assert Served(first, threads, schedules[i]);
      assert schedules[i] == Schedule(id, threads[id].signature, true);
    }
    forall id, signature | Wanted(schedules, id, signature) ensures id in threads {
      var i :| 0 <= i < |schedules| && schedules[i] == Schedule(id, signature, true);
      assert Served(first, threads, schedules[i]);
    }
  }
}
