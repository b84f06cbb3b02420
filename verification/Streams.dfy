/**
 Reading a stream while its workflow writes it.  Every query of the reader sees the database
 at a later moment than the one before; between any two queries the workflow may write, end
 or go on.
 */
module Streams {
  datatype Status = Missing | Active | Inactive

  /** What a query at one moment sees: the values of the stream by offset, and the workflow's status. */
  datatype Moment = Moment(stream: seq<string>, status: Status)

  const CLOSED := "__DBOS_STREAM_CLOSED__"

  /** Values are only ever appended. */
  ghost predicate Appends(moments: seq<Moment>) {
    forall i, j :: 0 <= i <= j < |moments| ==> Extended(moments, i, j)
  }

  predicate Extended(moments: seq<Moment>, i: int, j: int)
    requires 0 <= i <= j < |moments|
  {
    moments[i].stream <= moments[j].stream
  }

  datatype Stop =
    /** the close sentinel was read at the offset after the last value */
    | Closed
    /** the end of the stream was read after the workflow was seen inactive at the given moment */
    | Drained(seenInactive: nat)
    | NoWorkflow
    /** the moments are used up */
    | StillReading

  /** `values` are the values of the stream from the offset `from` on, as many as they are. */
  predicate IsSection(values: seq<string>, stream: seq<string>, from: nat) {
    values == [] || (from + |values| <= |stream| && values == stream[from..from + |values|])
  }

  lemma SectionStays(values: seq<string>, stream: seq<string>, later: seq<string>, from: nat)
    requires IsSection(values, stream, from) && stream <= later
    ensures IsSection(values, later, from)
  {
    if values != [] { assert later[..|stream|] == stream; }
  }

  lemma SectionGrows(values: seq<string>, stream: seq<string>, from: nat)
    requires IsSection(values, stream, from) && from + |values| < |stream|
    ensures IsSection(values + [stream[from + |values|]], stream, from)
  {
  }

  /** A section that reaches the end of an earlier state of the stream has all of that state's values. */
  lemma SectionCovers(values: seq<string>, stream: seq<string>, earlier: seq<string>, from: nat)
    requires IsSection(values, stream, from) && earlier <= stream && from <= |earlier| <= from + |values|
    ensures earlier[from..] <= values
  {
    assert stream[..|earlier|] == earlier;
    assert earlier[from..] == values[..|earlier| - from];
  }

  /** From the moment `last` on, the workflow is inactive and the stream has at most `length` values. */
  ghost predicate SettledFrom(moments: seq<Moment>, last: nat, length: nat) {
    forall i :: last <= i < |moments| ==> !moments[i].status.Active? && |moments[i].stream| <= length
  }

  /** At the moment `i` the stream has `n` values from the offset on. */
  predicate There(moments: seq<Moment>, from: nat, i: nat, n: nat) {
    i < |moments| && from + n <= |moments[i].stream|
  }

  /** Of what was there at a moment before the query `t`, each further query yields one value. */
  ghost predicate CaughtUp(moments: seq<Moment>, from: nat, t: nat, yielded: nat) {
    forall i: nat, n: nat :: There(moments, from, i, n) && i < t ==> n <= yielded || t <= i + 1 + yielded
  }

  /** A query that yields a value keeps up. */
  lemma KeepsUp(moments: seq<Moment>, from: nat, t: nat, yielded: nat)
    requires CaughtUp(moments, from, t, yielded)
    ensures CaughtUp(moments, from, t + 1, yielded + 1)
  {
  }

  /** At the end of the stream everything that was there before has been yielded. */
  lemma AtTheEnd(moments: seq<Moment>, from: nat, t: nat, yielded: nat, later: nat)
    requires Appends(moments) && t < |moments| && |moments[t].stream| <= from + yielded && later <= t + 2
    ensures CaughtUp(moments, from, later, yielded)
  {
    forall i: nat, n: nat | There(moments, from, i, n) && i < later ensures n <= yielded || later <= i + 1 + yielded {
      if i <= t { assert Extended(moments, i, t); }
    }
  }

  /** Before the query `t`: what has been yielded is a section of the stream, and nothing waits for long. */
  ghost predicate Reading(moments: seq<Moment>, from: nat, t: nat, yielded: seq<string>) {
    && t <= |moments| && (yielded != [] ==> t > 0 && IsSection(yielded, moments[t - 1].stream, from))
    && CaughtUp(moments, from, t, |yielded|)
  }

  lemma StillSection(moments: seq<Moment>, from: nat, t: nat, yielded: seq<string>)
    requires Appends(moments) && t < |moments| && Reading(moments, from, t, yielded)
    ensures IsSection(yielded, moments[t].stream, from)
  {
    if yielded != [] {
      assert Extended(moments, t - 1, t);
      SectionStays(yielded, moments[t - 1].stream, moments[t].stream, from);
    }
  }

  lemma YieldsNext(moments: seq<Moment>, from: nat, t: nat, yielded: seq<string>)
    requires Appends(moments) && t < |moments| && Reading(moments, from, t, yielded)
    requires from + |yielded| < |moments[t].stream|
    ensures Reading(moments, from, t + 1, yielded + [moments[t].stream[from + |yielded|]])
  {
    StillSection(moments, from, t, yielded);
    SectionGrows(yielded, moments[t].stream, from);
    KeepsUp(moments, from, t, |yielded|);
  }

  /** At the end of the stream the status is asked for, at the next moment. */
  lemma ReadsOn(moments: seq<Moment>, from: nat, t: nat, yielded: seq<string>)
    requires Appends(moments) && t < |moments| && Reading(moments, from, t, yielded)
    requires |moments[t].stream| <= from + |yielded|
    ensures Reading(moments, from, t + 1, yielded)
    ensures t + 1 < |moments| ==> Reading(moments, from, t + 2, yielded)
  {
    StillSection(moments, from, t, yielded);
    AtTheEnd(moments, from, t, |yielded|, t + 1);
    if t + 1 < |moments| {
      StillSection(moments, from, t + 1, yielded);
      AtTheEnd(moments, from, t, |yielded|, t + 2);
    }
  }

  lemma DrainsAll(moments: seq<Moment>, from: nat, seen: nat, t: nat, yielded: seq<string>)
    requires Appends(moments) && seen <= t < |moments| && Reading(moments, from, t, yielded)
    requires |moments[t].stream| <= from + |yielded|
    ensures from <= |moments[seen].stream| ==> moments[seen].stream[from..] <= yielded
  {
    StillSection(moments, from, t, yielded);
    assert Extended(moments, seen, t);
    if from <= |moments[seen].stream| { SectionCovers(yielded, moments[t].stream, moments[seen].stream, from); }
  }

  /**
   The reader's loop over the moments of its queries.  What it yields is a section of the stream,
   from the offset on, in order, with nothing left out or repeated, and never the sentinel.  When
   it stops without the sentinel, every value that was there when it saw the workflow inactive has
   been yielded.  While it goes on reading it yields what is there, one value a query, whatever the
   status of the workflow.  It stops within a bounded number of queries once the workflow has settled (`last`
   can always be chosen as the number of moments).
   */
  method ReadStream(moments: seq<Moment>, from: nat, ghost last: nat, ghost length: nat)
    returns (yielded: seq<string>, stop: Stop, used: nat)
    requires Appends(moments)
    requires SettledFrom(moments, last, length)
    ensures used <= |moments|
    ensures yielded != [] ==> used > 0 && IsSection(yielded, moments[used - 1].stream, from)
    ensures CLOSED !in yielded
    ensures stop.Closed? ==> used > 0 && from + |yielded| < |moments[used - 1].stream|
    ensures stop.Closed? ==> moments[used - 1].stream[from + |yielded|] == CLOSED
    ensures stop.Drained? ==> stop.seenInactive < used && moments[stop.seenInactive].status == Inactive
    ensures stop.Drained? && from <= |moments[stop.seenInactive].stream| ==>
              moments[stop.seenInactive].stream[from..] <= yielded
    ensures stop.Drained? ==> |moments[used - 1].stream| <= from + |yielded|
    ensures stop.NoWorkflow? ==> 2 <= used && moments[used - 1].status == Missing
    ensures stop.NoWorkflow? ==> |moments[used - 2].stream| <= from + |yielded|
    ensures stop.StillReading? ==> used == |moments| <= last + length + 2
    ensures stop.StillReading? ==>
              forall i: nat, n: nat :: There(moments, from, i, n) && i + n < |moments| ==> n <= |yielded|
  {
    var offset, finalRead, t := from, false, 0;
    var seen := 0;
    yielded := [];
    while t < |moments|
      invariant offset == from + |yielded| && Reading(moments, from, t, yielded)
      invariant CLOSED !in yielded
      invariant finalRead ==> seen < t && moments[seen].status == Inactive
      invariant t <= last + |yielded| + (if finalRead then 2 else 0)
      decreases |moments| - t
    {
      StillSection(moments, from, t, yielded);
      if offset < |moments[t].stream| {
        var value := moments[t].stream[offset];
        if value == CLOSED { return yielded, Closed, t + 1; }
        YieldsNext(moments, from, t, yielded);
        yielded, offset, t := yielded + [value], offset + 1, t + 1;
      } else {
        if finalRead {
          DrainsAll(moments, from, seen, t, yielded);
          return yielded, Drained(seen), t + 1;
        }
        ReadsOn(moments, from, t, yielded);
        t := t + 1;
        if t == |moments| { break; }
        match moments[t].status {
          case Missing => return yielded, NoWorkflow, t + 1;
          case Inactive => finalRead := true; seen := t;
          case Active =>
        }
        t := t + 1;
      }
    }
    stop, used := StillReading, t;
  }
}
