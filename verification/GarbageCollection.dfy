/**
 Garbage collection of transaction outputs: in batches, along a rising watermark over the
 creation times, while new rows keep arriving.
 */
module GarbageCollection {
  import opened Values

  datatype Row = Row(workflow: string, position: nat, created: int)

  predicate Eligible(row: Row, cutoff: int, pending: set<string>) {
    row.created < cutoff && row.workflow !in pending
  }

  /** What one big delete leaves. */
  function Kept(rows: set<Row>, cutoff: int, pending: set<string>): set<Row> {
    set row | row in rows && !Eligible(row, cutoff, pending)
  }

  /** The eligible rows created after `low` and not after `high`. */
  function Window(rows: set<Row>, cutoff: int, pending: set<string>, low: int, high: int): set<Row> {
    set row | row in rows && Eligible(row, cutoff, pending) && low < row.created <= high
  }

  function Above(rows: set<Row>, cutoff: int, pending: set<string>, low: int): set<Row> {
    set row | row in rows && Eligible(row, cutoff, pending) && low < row.created
  }

  // ------------------------------------------------------ the k-th oldest row

  function Before(rows: set<Row>, time: int): set<Row> {
    set row | row in rows && row.created < time
  }

  function Upto(rows: set<Row>, time: int): set<Row> {
    set row | row in rows && row.created <= time
  }

  /** `time` is the creation time of the `k`-th oldest row: fewer than `k` rows are older, and `k` are not younger. */
  predicate IsKthOldest(rows: set<Row>, k: nat, time: int) {
    |Before(rows, time)| < k <= |Upto(rows, time)|
  }

  lemma {:induction false} OldestExists(rows: set<Row>) returns (oldest: Row)
    requires rows != {}
    ensures oldest in rows && forall row | row in rows :: oldest.created <= row.created
    decreases rows
  {
    var some :| some in rows;
    oldest := some;
    if rows != {some} {
      var other := OldestExists(rows - {some});
      if other.created < some.created { oldest := other; }
      assert forall row | row in rows :: row == some || row in rows - {some};
    }
  }

  lemma {:induction false} KthOldestExists(rows: set<Row>, k: nat) returns (time: int)
    requires 1 <= k <= |rows|
    ensures IsKthOldest(rows, k, time)
    decreases rows
  {
    var oldest := OldestExists(rows);
    var ties := Upto(rows, oldest.created);
    if k <= |ties| {
      time := oldest.created;
      assert Before(rows, time) == {};
    } else {
      var rest := rows - ties;
      assert oldest in ties;
      time := KthOldestExists(rest, k - |ties|);
      KthOldestIsLater(rest, oldest.created, k - |ties|, time);
      assert Before(rows, time) == ties + Before(rest, time);
      assert Upto(rows, time) == ties + Upto(rest, time);
    }
  }

  lemma KthOldestIsLater(rows: set<Row>, low: int, k: nat, time: int)
    requires k >= 1 && IsKthOldest(rows, k, time) && forall row | row in rows :: low < row.created
    ensures low < time
  {
    assert time <= low ==> Upto(rows, time) == {};
  }

  /** The time of the `k`-th oldest row is one time, and a row's time. */
  lemma KthOldestIsUnique(rows: set<Row>, k: nat, time: int, other: int)
    requires IsKthOldest(rows, k, time) && IsKthOldest(rows, k, other)
    ensures time == other && exists row | row in rows :: row.created == time
  {
    Ordered(rows, time, other);
    Ordered(rows, other, time);
    assert (forall row | row in rows :: row.created != time) ==> Before(rows, time) == Upto(rows, time);
  }

  lemma Ordered(rows: set<Row>, time: int, other: int)
    ensures time < other ==> |Upto(rows, time)| <= |Before(rows, other)|
  {
    if time < other { Included(Upto(rows, time), Before(rows, other)); }
  }

  lemma {:induction false} Included(a: set<Row>, b: set<Row>)
    requires a <= b
    ensures |a| <= |b|
    decreases a
  {
    if a != {} {
      var row :| row in a;
      Included(a - {row}, b - {row});
    }
  }

  // ------------------------------------------------------------------ the loop

  /** A batch that is not the last one: the table before and after it, and its watermarks. */
  datatype Batch = Batch(before: set<Row>, after: set<Row>, low: int, step: int)

  function Removed(b: Batch): set<Row> { b.before - b.after }

  /**
   Only eligible rows are removed, at least as many as the batch size, and no more beyond it than
   rows created at the very last time.
   */
  predicate WellSized(b: Batch, size: nat, cutoff: int, pending: set<string>) {
    && b.after <= b.before && b.low < b.step < cutoff && size <= |Removed(b)|
    && |Removed(b)| <= size - 1 + |set row | row in Removed(b) && row.created == b.step|
    && (forall row | row in Removed(b) :: Eligible(row, cutoff, pending) && row.created <= b.step)
  }

  /**
   The batches follow one another: the watermark rises from 0, and between batches the table changes only by the
   arrivals.
   */
  ghost predicate WellBatched(batches: seq<Batch>, rows: set<Row>, arrivals: nat -> set<Row>, size: nat, cutoff: int,
                              pending: set<string>) {
    batches == []
    || (var init, last := batches[..|batches| - 1], batches[|batches| - 1];
        && WellBatched(init, rows, arrivals, size, cutoff, pending)
        && WellSized(last, size, cutoff, pending)
        && last.low == Watermark(init) && last.before == Left(init, rows) + arrivals(|init|))
  }

  function Watermark(batches: seq<Batch>): int {
    if batches == [] then 0 else batches[|batches| - 1].step
  }

  /** The table after the batches. */
  function Left(batches: seq<Batch>, rows: set<Row>): set<Row> {
    if batches == [] then rows else batches[|batches| - 1].after
  }

  function Arrived(arrivals: nat -> set<Row>, n: nat): set<Row> {
    if n == 0 then {} else Arrived(arrivals, n - 1) + arrivals(n - 1)
  }

  lemma BatchedThen(batches: seq<Batch>, b: Batch, rows: set<Row>, arrivals: nat -> set<Row>, size: nat, cutoff: int,
                    pending: set<string>)
    requires WellBatched(batches, rows, arrivals, size, cutoff, pending) && WellSized(b, size, cutoff, pending)
    requires b.low == Watermark(batches) && b.before == Left(batches, rows) + arrivals(|batches|)
    ensures WellBatched(batches + [b], rows, arrivals, size, cutoff, pending)
  {
    assert (batches + [b])[..|batches|] == batches;
  }

  lemma KeptUnion(a: set<Row>, b: set<Row>, cutoff: int, pending: set<string>)
    ensures Kept(a + b, cutoff, pending) == Kept(a, cutoff, pending) + Kept(b, cutoff, pending)
  {
  }

  lemma BatchKeeps(b: Batch, size: nat, cutoff: int, pending: set<string>)
    requires WellSized(b, size, cutoff, pending)
    ensures Kept(b.after, cutoff, pending) == Kept(b.before, cutoff, pending)
  {
    forall row ensures row in Kept(b.after, cutoff, pending) <==> row in Kept(b.before, cutoff, pending) {
      assert row in b.before && row !in b.after ==> row in Removed(b);
    }
  }

  /** Whatever was removed in batches, one big delete of all rows that were there or arrived leaves the same. */
  lemma {:induction false} BatchesAreOneDelete(batches: seq<Batch>, rows: set<Row>, arrivals: nat -> set<Row>,
                                               size: nat, cutoff: int, pending: set<string>)
    requires WellBatched(batches, rows, arrivals, size, cutoff, pending)
    ensures Kept(Left(batches, rows), cutoff, pending) == Kept(rows + Arrived(arrivals, |batches|), cutoff, pending)
  {
    if batches == [] {
      assert rows + Arrived(arrivals, 0) == rows;
    } else {
      var n := |batches| - 1;
      var init, last := batches[..n], batches[n];
      BatchesAreOneDelete(init, rows, arrivals, size, cutoff, pending);
      BatchKeeps(last, size, cutoff, pending);
      ThenArrives(Left(init, rows), rows, arrivals, n, cutoff, pending);
    }
  }

  lemma ThenArrives(left: set<Row>, rows: set<Row>, arrivals: nat -> set<Row>, n: nat, cutoff: int,
                    pending: set<string>)
    requires Kept(left, cutoff, pending) == Kept(rows + Arrived(arrivals, n), cutoff, pending)
    ensures Kept(left + arrivals(n), cutoff, pending) == Kept(rows + Arrived(arrivals, n + 1), cutoff, pending)
  {
    KeptUnion(left, arrivals(n), cutoff, pending);
    KeptUnion(rows + Arrived(arrivals, n), arrivals(n), cutoff, pending);
    assert rows + Arrived(arrivals, n + 1) == rows + Arrived(arrivals, n) + arrivals(n);
  }

  lemma BatchIsWellSized(rows: set<Row>, cutoff: int, pending: set<string>, size: nat, low: int, step: int)
    requires size >= 1 && IsKthOldest(Above(rows, cutoff, pending, low), size, step)
    ensures WellSized(Batch(rows, rows - Window(rows, cutoff, pending, low, step), low, step), size, cutoff, pending)
  {
    var above, window := Above(rows, cutoff, pending, low), Window(rows, cutoff, pending, low, step);
    KthOldestIsLater(above, low, size, step);
    KthOldestIsUnique(above, size, step, step);
    assert Upto(above, step) == window;
    var ties := set row | row in window && row.created == step;
    assert window == Before(above, step) + ties;
    assert rows - (rows - window) == window;
  }

  lemma {:induction false} NothingArrives(rows: set<Row>, arrivals: nat -> set<Row>, n: nat)
    requires forall i :: arrivals(i) == {}
    ensures rows + Arrived(arrivals, n) == rows
  {
    if n > 0 { NothingArrives(rows, arrivals, n - 1); }
  }

  /** Rows of pending workflows and rows created at the cutoff or later are all there, and no other row is. */
  predicate OldAndSettledGone(all: set<Row>, left: set<Row>, cutoff: int, pending: set<string>) {
    && left <= all
    && forall row | row in all :: row in left <==> row.workflow in pending || cutoff <= row.created
  }

  class OutputTable {
    var rows: set<Row>

    /** The creation time of the `size`-th oldest eligible row above the watermark, if there are so many. */
    method FindStep(cutoff: int, pending: set<string>, size: nat, watermark: int) returns (step: Option<int>)
      requires size >= 1
      ensures step.Some? <==> size <= |Above(rows, cutoff, pending, watermark)|
      ensures step.Some? ==> IsKthOldest(Above(rows, cutoff, pending, watermark), size, step.value)
    {
      var above := Above(rows, cutoff, pending, watermark);
      if |above| < size { return None; }
      ghost var time := KthOldestExists(above, size);
      KthOldestIsUnique(above, size, time, time);
      var row :| row in above && IsKthOldest(above, size, row.created);
      step := Some(row.created);
    }

    /**
     Delete all eligible rows, in batches if a batch size is given; `arrivals` are the rows that others
     insert before each batch.  The loop ends after finitely many batches, whatever arrives, and the
     table is then as one big delete leaves it, applied to all rows that were there or arrived in time.
     */
    method GarbageCollect(cutoff: int, pending: set<string>, batchSize: Option<int>, arrivals: nat -> set<Row>)
      returns (ok: bool, ghost batches: seq<Batch>)
      modifies this
      ensures ok <==> (batchSize.Some? ==> batchSize.value >= 1)
      ensures !ok ==> rows == old(rows)
      ensures batchSize.None? ==> OldAndSettledGone(old(rows), rows, cutoff, pending)
      ensures ok && batchSize.Some? ==>
                OldAndSettledGone(old(rows) + Arrived(arrivals, |batches| + 1), rows, cutoff, pending)
      ensures batchSize.None? ==> rows == Kept(old(rows), cutoff, pending)
      ensures ok && batchSize.Some? ==> WellBatched(batches, old(rows), arrivals, batchSize.value, cutoff, pending)
      ensures ok && batchSize.Some? ==> rows == Kept(old(rows) + Arrived(arrivals, |batches| + 1), cutoff, pending)
    {
      batches := [];
      if batchSize.Some? && batchSize.value < 1 { return false, []; }
      ok := true;
      if batchSize.None? {
        rows := Kept(rows, cutoff, pending);
        return;
      }
      var size, watermark := batchSize.value, 0;
      var turn := 0;
      while true
        invariant WellBatched(batches, old(rows), arrivals, size, cutoff, pending)
        invariant rows == Left(batches, old(rows)) && watermark == Watermark(batches) && turn == |batches|
        decreases cutoff - watermark
      {
        rows := rows + arrivals(turn);
        var step := FindStep(cutoff, pending, size, watermark);
        if step.None? {
          BatchesAreOneDelete(batches, old(rows), arrivals, size, cutoff, pending);
          ThenArrives(Left(batches, old(rows)), old(rows), arrivals, turn, cutoff, pending);
          rows := Kept(rows, cutoff, pending);
          break;
        }
        BatchIsWellSized(rows, cutoff, pending, size, watermark, step.value);
        ghost var before := rows;
        rows := rows - Window(rows, cutoff, pending, watermark, step.value);
        BatchedThen(batches, Batch(before, rows, watermark, step.value), old(rows), arrivals, size, cutoff, pending);
        batches := batches + [Batch(before, rows, watermark, step.value)];
        watermark, turn := step.value, turn + 1;
      }
    }

    /** On a table that nobody else changes, batches of any size end as one big delete does. */
    method GarbageCollectAlone(cutoff: int, pending: set<string>, batchSize: Option<int>) returns (ok: bool)
      modifies this
      ensures ok <==> (batchSize.Some? ==> batchSize.value >= 1)
      ensures if ok then OldAndSettledGone(old(rows), rows, cutoff, pending) else rows == old(rows)
    {
      ghost var batches;
      ok, batches := GarbageCollect(cutoff, pending, batchSize, _ => {});
      NothingArrives(old(rows), _ => {}, |batches| + 1);
    }
  }
}
