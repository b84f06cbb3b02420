/**
 Changing the code of running workflows: a patch keeps the histories of the old code, and
 deprecating it keeps the histories of the patched code.
 */
module ReplayPatching {
  import opened Values
  import opened Replay
  import opened ReplayTheorems

  // ---------------------------------------------------------- the patched code

  /** How far the old code has got, and how often the patch is still to be asked for there. */
  datatype Point = Point(h: History, asks: nat)

  /** What one more observation means for the old code; nothing once the patch was applied. */
  function Advance(asks: History -> nat, point: Option<Point>, o: Observation): Option<Point> {
    match point
    case None => None
    case Some(Point(h, k)) =>
      if k == 0 then Some(Point(h + [o], asks(h + [o])))
      else if o == Answer(false) then Some(Point(h, k - 1))
      else None
  }

  /** Reads a history of the patched code in which the patch was never applied; none once it was. */
  function Decode(asks: History -> nat, g: History): Option<Point> {
    if g == [] then Some(Point([], asks([])))
    else Advance(asks, Decode(asks, g[..|g| - 1]), g[|g| - 1])
  }

  /**
   `old_` with a patch: the patch is asked for `asks(h)` times where the old code has the history `h`,
   which may be in a loop.  The first true answer leads to the new code; with false answers the old code
   goes on as if nothing had been asked.
   */
  function Patched(old_: Program, new_: Program, asks: History -> nat, patch: string): Program {
    g =>
      match Decode(asks, g)
      case None => new_(g)
      case Some(point) => if point.asks > 0 then Patch(patch) else old_(point.h)
  }

  /** The history `g` followed by `n` false answers. */
  function InVain(g: History, n: nat): History {
    if n == 0 then g else InVain(g, n - 1) + [Answer(false)]
  }

  /** The history of the patched code that has got as far as the old code with `h`, always answered false. */
  function Threaded(asks: History -> nat, h: History): History {
    if h == [] then []
    else
      var init := h[..|h| - 1];
      InVain(Threaded(asks, init), asks(init)) + [h[|h| - 1]]
  }

  lemma DecodeStep(asks: History -> nat, g: History, o: Observation)
    ensures Decode(asks, g + [o]) == Advance(asks, Decode(asks, g), o)
  {
    assert (g + [o])[..|g|] == g;
  }

  lemma DecodeFalse(asks: History -> nat, g: History, h: History, k: nat)
    requires k > 0 && Decode(asks, g) == Some(Point(h, k))
    ensures Decode(asks, g + [Answer(false)]) == Some(Point(h, k - 1))
  {
    DecodeStep(asks, g, Answer(false));
  }

  lemma {:induction false} DecodeInVain(asks: History -> nat, g: History, h: History, n: nat)
    requires n <= asks(h) && Decode(asks, g) == Some(Point(h, asks(h)))
    ensures Decode(asks, InVain(g, n)) == Some(Point(h, asks(h) - n))
  {
    if n > 0 {
      DecodeInVain(asks, g, h, n - 1);
      DecodeFalse(asks, InVain(g, n - 1), h, asks(h) - (n - 1));
    }
  }

  lemma DecodeAction(asks: History -> nat, g: History, h: History, o: Observation)
    requires Decode(asks, g) == Some(Point(h, asks(h)))
    ensures Decode(asks, InVain(g, asks(h)) + [o]) == Some(Point(h + [o], asks(h + [o])))
  {
    DecodeInVain(asks, g, h, asks(h));
    DecodeStep(asks, InVain(g, asks(h)), o);
  }

  lemma ThreadedNext(asks: History -> nat, h: History, o: Observation)
    ensures Threaded(asks, h + [o]) == InVain(Threaded(asks, h), asks(h)) + [o]
  {
    assert (h + [o])[..|h|] == h;
  }

  lemma {:induction false} DecodeThreaded(asks: History -> nat, h: History)
    ensures Decode(asks, Threaded(asks, h)) == Some(Point(h, asks(h)))
  {
    if h != [] {
      var init, o := h[..|h| - 1], h[|h| - 1];
      assert h == init + [o];
      DecodeThreaded(asks, init);
      DecodeAction(asks, Threaded(asks, init), init, o);
      ThreadedNext(asks, init, o);
    }
  }

  /** Two programs that stand at the same position and do the same next observe the same. */
  lemma SameNext(p: Program, h: History, p': Program, h': History, id: string, rows: Rows, o: Observation)
    requires p(h) == p'(h') && Follow(p, id, rows, h) == Follow(p', id, rows, h')
    ensures Follow(p, id, rows, h + [o]) == Follow(p', id, rows, h' + [o])
  {
    FollowStep(p, id, rows, h, o);
    FollowStep(p', id, rows, h', o);
  }

  // --------------------------------------------------- reading an old table

  /** The patch is not applied where a checkpoint of other code follows. */
  lemma AnswersFalse(p: Program, patch: string, id: string, rows: Rows, g: History, q: nat)
    requires Follow(p, id, rows, g) == Some(q) && p(g) == Patch(patch)
    requires q + 1 in rows && !IsMarker(rows, q + 1, patch)
    ensures Follow(p, id, rows, g + [Answer(false)]) == Some(q)
  {
    FollowStep(p, id, rows, g, Answer(false));
  }

  /** Where the old code has the history `h`, the program asks for the patch and then does what the old code does. */
  ghost predicate MirrorsAt(p: Program, old_: Program, asks: History -> nat, patch: string, h: History) {
    forall n: nat | n <= asks(h) ::
      p(InVain(Threaded(asks, h), n)) == if n < asks(h) then Patch(patch) else old_(h)
  }

  lemma PatchedMirrors(old_: Program, new_: Program, asks: History -> nat, patch: string, h: History)
    ensures MirrorsAt(Patched(old_, new_, asks, patch), old_, asks, patch, h)
  {
    DecodeThreaded(asks, h);
    forall n: nat | n <= asks(h)
      ensures Decode(asks, InVain(Threaded(asks, h), n)) == Some(Point(h, asks(h) - n))
    {
      DecodeInVain(asks, Threaded(asks, h), h, n);
    }
  }

  lemma {:induction false} AsksInVain(p: Program, old_: Program, asks: History -> nat, patch: string, id: string,
                                      rows: Rows, h: History, q: nat, n: nat)
    requires n <= asks(h) && MirrorsAt(p, old_, asks, patch, h) && Follow(p, id, rows, Threaded(asks, h)) == Some(q)
    requires n > 0 ==> q + 1 in rows && !IsMarker(rows, q + 1, patch)
    ensures Follow(p, id, rows, InVain(Threaded(asks, h), n)) == Some(q)
  {
    if n > 0 {
      AsksInVain(p, old_, asks, patch, id, rows, h, q, n - 1);
      AnswersFalse(p, patch, id, rows, InVain(Threaded(asks, h), n - 1), q);
    }
  }

  lemma ThreadedStep(p: Program, old_: Program, asks: History -> nat, patch: string, id: string,
                     rows: Rows, h: History, o: Observation)
    requires MirrorsAt(p, old_, asks, patch, h) && Follow(old_, id, rows, h).Some?
    requires Follow(p, id, rows, Threaded(asks, h)) == Follow(old_, id, rows, h)
    requires asks(h) > 0 ==> OverTakenAt(old_, patch, id, rows, h)
    ensures Follow(p, id, rows, Threaded(asks, h + [o])) == Follow(old_, id, rows, h + [o])
  {
    AsksInVain(p, old_, asks, patch, id, rows, h, Follow(old_, id, rows, h).value, asks(h));
    SameNext(p, InVain(Threaded(asks, h), asks(h)), old_, h, id, rows, o);
    assert (h + [o])[..|h|] == h;
  }

  /** Wherever the patch is asked for along the way, a checkpoint follows, and not the patch's marker. */
  ghost predicate OverTaken(old_: Program, asks: History -> nat, patch: string, id: string, rows: Rows, h: History) {
    forall i :: 0 <= i < |h| && asks(h[..i]) > 0 ==> OverTakenAt(old_, patch, id, rows, h[..i])
  }

  predicate OverTakenAt(old_: Program, patch: string, id: string, rows: Rows, h: History) {
    match Follow(old_, id, rows, h)
    case None => false
    case Some(q) => q + 1 in rows && !IsMarker(rows, q + 1, patch)
  }

  /** There the patched code reads every old checkpoint at its old position. */
  lemma {:induction false} FollowThreaded(old_: Program, new_: Program, asks: History -> nat, patch: string, id: string,
                                          rows: Rows, h: History)
    requires Follow(old_, id, rows, h).Some? && OverTaken(old_, asks, patch, id, rows, h)
    ensures Follow(Patched(old_, new_, asks, patch), id, rows, Threaded(asks, h)) == Follow(old_, id, rows, h)
  {
    if h != [] {
      var init, o := h[..|h| - 1], h[|h| - 1];
      OverTakenPrefix(old_, asks, patch, id, rows, h, |init|);
      FollowPrefix(old_, id, rows, h, |init|);
      FollowThreaded(old_, new_, asks, patch, id, rows, init);
      PatchedMirrors(old_, new_, asks, patch, init);
      ThreadedStep(Patched(old_, new_, asks, patch), old_, asks, patch, id, rows, init, o);
      assert h == init + [o];
    }
  }

  lemma OverTakenPrefix(old_: Program, asks: History -> nat, patch: string, id: string, rows: Rows, h: History, n: nat)
    requires n <= |h| && OverTaken(old_, asks, patch, id, rows, h)
    ensures OverTaken(old_, asks, patch, id, rows, h[..n])
  {
    assert forall i :: 0 <= i <= n ==> h[..n][..i] == h[..i];
  }

  /** The first point, from `i` on, where the patch is asked for at the end of the table; the end if there is none. */
  function FirstOpen(old_: Program, asks: History -> nat, id: string, rows: Rows, k: nat, full: History,
                     i: nat): (n: nat)
    requires i <= |full|
    ensures i <= n <= |full|
    ensures n < |full| ==> asks(full[..n]) > 0 && Follow(old_, id, rows, full[..n]) == Some(k)
    ensures forall j :: i <= j < n && asks(full[..j]) > 0 ==> Follow(old_, id, rows, full[..j]) != Some(k)
    decreases |full| - i
  {
    if i == |full| || (asks(full[..i]) > 0 && Follow(old_, id, rows, full[..i]) == Some(k)) then i
    else FirstOpen(old_, asks, id, rows, k, full, i + 1)
  }

  lemma UpToOpen(old_: Program, asks: History -> nat, patch: string, id: string, rows: Rows, k: nat, full: History)
    requires Tight(old_, id, rows, k, full) && forall q: nat :: !IsMarker(rows, q, patch)
    ensures var h := full[..FirstOpen(old_, asks, id, rows, k, full, 0)];
            Follow(old_, id, rows, h) == Some(k) && OverTaken(old_, asks, patch, id, rows, h)
  {
    var n := FirstOpen(old_, asks, id, rows, k, full, 0);
    var h := full[..n];
    assert n == |full| ==> h == full;
    forall i | 0 <= i < |h| && asks(h[..i]) > 0 ensures OverTakenAt(old_, patch, id, rows, h[..i]) {
      assert h[..i] == full[..i];
      BeforeEnd(old_, patch, id, rows, k, full, i);
    }
  }

  lemma BeforeEnd(old_: Program, patch: string, id: string, rows: Rows, k: nat, full: History, i: nat)
    requires i <= |full| && Tight(old_, id, rows, k, full) && (forall q: nat :: !IsMarker(rows, q, patch))
    requires Follow(old_, id, rows, full[..i]) != Some(k)
    ensures OverTakenAt(old_, patch, id, rows, full[..i])
  {
    FollowPrefix(old_, id, rows, full, i);
  }

  /**
   Whatever the old code recorded, the patched code takes over: it reads every old checkpoint at its old
   position, is answered false wherever one follows, and stands at the end of the table at the first
   place where it can be answered true.
   */
  lemma PatchKeepsOldHistories(old_: Program, new_: Program, asks: History -> nat, patch: string, id: string,
                               rows: Rows, k: nat, full: History)
    requires Tight(old_, id, rows, k, full) && forall q: nat :: !IsMarker(rows, q, patch)
    ensures var p, n := Patched(old_, new_, asks, patch), FirstOpen(old_, asks, id, rows, k, full, 0);
            && Tight(p, id, rows, k, Threaded(asks, full[..n]))
            && (forall i :: 0 <= i <= n ==>
                  Follow(p, id, rows, Threaded(asks, full[..i])) == Follow(old_, id, rows, full[..i]))
            && (n < |full| ==> p(Threaded(asks, full[..n])) == Patch(patch))
            && Inv(p, id, State(rows, map[], None))
  {
    var p, n := Patched(old_, new_, asks, patch), FirstOpen(old_, asks, id, rows, k, full, 0);
    UpToOpen(old_, asks, patch, id, rows, k, full);
    FollowThreaded(old_, new_, asks, patch, id, rows, full[..n]);
    assert Tight(p, id, rows, k, Threaded(asks, full[..n]));
    forall i | 0 <= i <= n
      ensures Follow(p, id, rows, Threaded(asks, full[..i])) == Follow(old_, id, rows, full[..i])
    {
      OverTakenPrefix(old_, asks, patch, id, rows, full[..n], i);
      assert full[..n][..i] == full[..i];
      FollowPrefix(old_, id, rows, full, i);
      FollowThreaded(old_, new_, asks, patch, id, rows, full[..i]);
    }
    DecodeThreaded(asks, full[..n]);
    assert forall e :: Get(State(rows, map[], None), e) == Idle;
  }

  // ------------------------------------------------------- runs of the patched code

  /** Both programs retire what they deprecate, and the old one does not deprecate the new patch. */
  ghost predicate RetireTogether(old_: Program, new_: Program, patch: string) {
    && RetiresPatches(old_) && RetiresPatches(new_)
    && (forall h :: old_(h) != Deprecate(patch))
  }

  /** As the patched code goes on, the old code that it follows goes on. */
  lemma {:induction false} DecodeGrows(asks: History -> nat, h: History, g: History)
    requires |h| <= |g| && h == g[..|h|] && Decode(asks, g).Some?
    ensures Decode(asks, h).Some?
    ensures var a, b := Decode(asks, h).value, Decode(asks, g).value;
            && |a.h| <= |b.h| && a.h == b.h[..|a.h|]
            && (|h| < |g| && a.asks == 0 ==> |a.h| < |b.h|)
  {
    if |h| == |g| {
      assert h == g;
    } else {
      var init := g[..|g| - 1];
      assert init[..|h|] == h;
      DecodeGrows(asks, h, init);
    }
  }

  lemma MarkerNameInjective(x: string, y: string)
    requires MarkerName(x) == MarkerName(y)
    ensures x == y
  {
    var prefix := "DBOS.patch-";
    assert (prefix + x)[|prefix|..] == x && (prefix + y)[|prefix|..] == y;
  }

  /** While the patched code only deprecates, so does the old code that it follows, step by step. */
  lemma {:induction false} DecodeDeprecations(old_: Program, new_: Program, asks: History -> nat, patch: string,
                                              h: History, g: History)
    requires |h| <= |g| && h == g[..|h|] && Decode(asks, h).Some?
    requires OnlyDeprecates(Patched(old_, new_, asks, patch), g, |h|)
    ensures Decode(asks, g).Some?
    ensures var a, b := Decode(asks, h).value.h, Decode(asks, g).value.h;
            |b| == |a| + |g| - |h| && a == b[..|a|] && OnlyDeprecates(old_, b, |a|)
  {
    if |h| == |g| {
      assert h == g;
    } else {
      var p, init, o := Patched(old_, new_, asks, patch), g[..|g| - 1], g[|g| - 1];
      assert forall j :: 0 <= j <= |init| ==> init[..j] == g[..j];
      DecodeDeprecations(old_, new_, asks, patch, h, init);
      assert p(init).Deprecate? by { assert g[..|g| - 1] == init; }
      DeprecatesNext(old_, Decode(asks, init).value.h, o, |Decode(asks, h).value.h|);
    }
  }

  lemma DeprecatesNext(p: Program, h: History, o: Observation, i: nat)
    requires OnlyDeprecates(p, h, i) && p(h).Deprecate?
    ensures OnlyDeprecates(p, h + [o], i)
  {
    assert forall j :: 0 <= j <= |h| ==> (h + [o])[..j] == h[..j];
    assert h[..|h|] == h;
  }

  /** Once the patch was applied, the new code does what is done. */
  lemma NewCodeRetires(old_: Program, new_: Program, asks: History -> nat, patch: string, h: History, g: History)
    requires RetiresPatches(new_) && |h| < |g| && h == g[..|h|] && Decode(asks, h).None?
    ensures RetiresAt(Patched(old_, new_, asks, patch), h, g)
  {
    var p := Patched(old_, new_, asks, patch);
    forall j | |h| <= j <= |g| ensures p(g[..j]) == new_(g[..j]) {
      assert g[..j][..|h|] == h;
      if Decode(asks, g[..j]).Some? { DecodeGrows(asks, h, g[..j]); }
    }
    assert g[..|g|] == g && g[..|h|] == h;
    assert RetiresAt(new_, h, g);
    assert OnlyDeprecates(p, g, |h|) ==> OnlyDeprecates(new_, g, |h|);
  }

  /** Until then, what the old code does is done, or the patch is asked for. */
  lemma OldCodeRetires(old_: Program, new_: Program, asks: History -> nat, patch: string, h: History, g: History)
    requires RetireTogether(old_, new_, patch) && |h| < |g| && h == g[..|h|] && Decode(asks, h).Some?
    requires Patched(old_, new_, asks, patch)(h).Deprecate? && OnlyDeprecates(Patched(old_, new_, asks, patch), g, |h|)
    ensures RetiresAt(Patched(old_, new_, asks, patch), h, g)
  {
    DecodeDeprecations(old_, new_, asks, patch, h, g);
    var a, b := Decode(asks, h).value, Decode(asks, g).value;
    assert a.asks == 0 && old_(a.h).Deprecate?;
    if b.asks > 0 {
      if MarkerName(old_(a.h).patch) == MarkerName(patch) { MarkerNameInjective(old_(a.h).patch, patch); }
    } else {
      assert RetiresAt(old_, a.h, b.h);
    }
  }

  lemma PatchedRetires(old_: Program, new_: Program, asks: History -> nat, patch: string)
    requires RetireTogether(old_, new_, patch)
    ensures RetiresPatches(Patched(old_, new_, asks, patch))
  {
    var p := Patched(old_, new_, asks, patch);
    forall h, g ensures RetiresAt(p, h, g) {
      if p(h).Deprecate? && |h| < |g| && h == g[..|h|] && OnlyDeprecates(p, g, |h|) {
        if Decode(asks, h).None? {
          NewCodeRetires(old_, new_, asks, patch, h, g);
        } else {
          OldCodeRetires(old_, new_, asks, patch, h, g);
        }
      }
    }
  }

  /** No run of the patched code on a table of the old code meets a checkpoint of another operation. */
  lemma PatchedRunsAreExpected(old_: Program, new_: Program, asks: History -> nat, patch: string, id: string,
                               rows: Rows, k: nat, full: History, events: seq<(nat, Event)>, e: nat)
    requires Tight(old_, id, rows, k, full) && (forall q: nat :: !IsMarker(rows, q, patch))
    requires HarmlessThroughout(Patched(old_, new_, asks, patch), id, State(rows, map[], None), events)
    ensures Get(Run(Patched(old_, new_, asks, patch), id, State(rows, map[], None), events), e) != Unexpected
  {
    var p, s := Patched(old_, new_, asks, patch), State(rows, map[], None);
    PatchKeepsOldHistories(old_, new_, asks, patch, id, rows, k, full);
    RunKeepsInv(p, id, s, events);
    assert ExecutorAgrees(p, id, Run(p, id, s, events).rows, Get(Run(p, id, s, events), e));
  }

  // -------------------------------------------------------------- deprecation

  /** The program with every call of the patch replaced by its deprecation. */
  function Deprecated(p: Program, patch: string): Program {
    h => if p(h) == Patch(patch) then Deprecate(patch) else p(h)
  }

  /** Wherever the patch was asked for, it was applied. */
  ghost predicate AlwaysApplied(p: Program, patch: string, h: History) {
    forall i :: 0 <= i < |h| && p(h[..i]) == Patch(patch) ==> h[i] == Answer(true)
  }

  lemma AlwaysAppliedStep(p: Program, patch: string, h: History, o: Observation)
    ensures AlwaysApplied(p, patch, h + [o]) <==>
              AlwaysApplied(p, patch, h) && (p(h) == Patch(patch) ==> o == Answer(true))
  {
    var g := h + [o];
    assert forall i :: 0 <= i <= |h| ==> g[..i] == h[..i];
    assert h[..|h|] == h && g[|h|] == o;
    assert forall i :: 0 <= i < |h| ==> g[i] == h[i];
  }

  /** A history replays after deprecation, at the same positions, if and only if the patch was always applied in it. */
  lemma {:induction false} DeprecationKeepsHistories(p: Program, patch: string, id: string, rows: Rows, h: History)
    requires Follow(p, id, rows, h).Some?
    ensures Follow(Deprecated(p, patch), id, rows, h) ==
            if AlwaysApplied(p, patch, h) then Follow(p, id, rows, h) else None
  {
    if h != [] {
      var init, o := h[..|h| - 1], h[|h| - 1];
      assert h == init + [o];
      DeprecationKeepsHistories(p, patch, id, rows, init);
      AlwaysAppliedStep(p, patch, init, o);
      FollowStep(p, id, rows, init, o);
      FollowStep(Deprecated(p, patch), id, rows, init, o);
    }
  }

  /**
   No run of the code that deprecates the patch, on a table in which it was always applied, meets a checkpoint of
   another operation.
   */
  lemma DeprecatedRunsAreExpected(p: Program, patch: string, id: string, rows: Rows, k: nat, full: History,
                                  events: seq<(nat, Event)>, e: nat)
    requires Tight(p, id, rows, k, full) && AlwaysApplied(p, patch, full)
    requires HarmlessThroughout(Deprecated(p, patch), id, State(rows, map[], None), events)
    ensures Get(Run(Deprecated(p, patch), id, State(rows, map[], None), events), e) != Unexpected
  {
    var p', s := Deprecated(p, patch), State(rows, map[], None);
    DeprecationKeepsHistories(p, patch, id, rows, full);
    assert Tight(p', id, rows, k, full);
    assert forall d :: Get(s, d) == Idle;
    RunKeepsInv(p', id, s, events);
    assert ExecutorAgrees(p', id, Run(p', id, s, events).rows, Get(Run(p', id, s, events), e));
  }

  /** A true answer of a patch stands for its marker at the position reserved for it. */
  lemma PatchedMeansMarker(p: Program, id: string, rows: Rows, h: History, i: nat)
    requires i < |h| && Follow(p, id, rows, h).Some? && p(h[..i]).Patch? && h[i] == Answer(true)
    ensures Follow(p, id, rows, h[..i]).Some?
    ensures IsMarker(rows, Follow(p, id, rows, h[..i]).value + 1, p(h[..i]).patch)
  {
    FollowPrefix(p, id, rows, h, i + 1);
    assert h[..i + 1] == h[..i] + [h[i]];
    FollowStep(p, id, rows, h[..i], h[i]);
  }
}
