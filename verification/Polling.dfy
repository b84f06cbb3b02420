/** The polling interval of a queue worker: doubled on contention, shrunk by a tenth every iteration. */
module Polling {
  /** One iteration of the worker: the minimum that is configured at its start, and whether it met contention. */
  datatype Iteration = Iteration(minimum: real, contention: bool)

  function Max(a: real, b: real): real { if a < b then b else a }

  function Min(a: real, b: real): real { if a < b then a else b }

  function Maximum(minimum: real): real { Max(minimum, 120.0) }

  /** The interval that is waited, given the one left by the iteration before. */
  function Waited(i: Iteration, left: real): (waited: real)
    ensures i.minimum <= waited <= Maximum(i.minimum)
  {
    Max(i.minimum, Min(left, Maximum(i.minimum)))
  }

  /** The interval that the iteration leaves. */
  function Next(i: Iteration, left: real): real {
    var waited := Waited(i, left);
    var backedOff := if i.contention then Min(Maximum(i.minimum), waited * 2.0) else waited;
    Max(i.minimum, backedOff * 0.9)
  }

  /** One iteration: clamp to the current bounds, wait, double on contention, shrink. */
  method Iterate(i: Iteration, left: real) returns (waited: real, next: real)
    ensures waited == Waited(i, left) && next == Next(i, left)
  {
    var pollingInterval := Max(i.minimum, Min(left, Maximum(i.minimum)));
    waited := pollingInterval;
    if i.contention { pollingInterval := Min(Maximum(i.minimum), pollingInterval * 2.0); }
    next := Max(i.minimum, pollingInterval * 0.9);
  }

  /** The worker's loop: the interval waited in each iteration, before jitter. */
  method QueueWorker(initial: real, iterations: seq<Iteration>) returns (waits: seq<real>, left: real)
    ensures |waits| == |iterations| && left == After(initial, iterations)
    ensures forall k :: 0 <= k < |waits| ==> iterations[k].minimum <= waits[k] <= Maximum(iterations[k].minimum)
    ensures forall k :: 0 <= k < |waits| ==> waits[k] == Waited(iterations[k], After(initial, iterations[..k]))
  {
    waits, left := [], initial;
    for k := 0 to |iterations|
      invariant |waits| == k && left == After(initial, iterations[..k])
      invariant forall j :: 0 <= j < k ==> waits[j] == Waited(iterations[j], After(initial, iterations[..j]))
    {
      AfterThen(initial, iterations, k);
      var waited;
      waited, left := Iterate(iterations[k], left);
      waits := waits + [waited];
    }
    assert iterations[..|iterations|] == iterations;
  }

  lemma AfterThen(initial: real, iterations: seq<Iteration>, k: nat)
    requires k < |iterations|
    ensures After(initial, iterations[..k + 1]) == Next(iterations[k], After(initial, iterations[..k]))
  {
    assert iterations[..k + 1][..k] == iterations[..k];
  }

  function After(initial: real, iterations: seq<Iteration>): real {
    if iterations == [] then initial
    else Next(iterations[|iterations| - 1], After(initial, iterations[..|iterations| - 1]))
  }

  /** What `k` quiet iterations make of the interval if there is no minimum. */
  function Decayed(k: nat, interval: real): real {
    if k == 0 then interval else 0.9 * Decayed(k - 1, interval)
  }

  ghost predicate QuietAt(iterations: seq<Iteration>, minimum: real) {
    forall i :: 0 <= i < |iterations| ==> iterations[i] == Iteration(minimum, false)
  }

  /** Without contention the interval falls geometrically to the minimum. */
  lemma {:induction false} QuietDecay(initial: real, iterations: seq<Iteration>, minimum: real)
    requires QuietAt(iterations, minimum) && 0.0 <= minimum <= initial <= Maximum(minimum)
    ensures After(initial, iterations) == Max(minimum, Decayed(|iterations|, initial))
    ensures minimum <= After(initial, iterations) <= initial
  {
    if iterations != [] {
      var n := |iterations| - 1;
      QuietDecay(initial, iterations[..n], minimum);
      assert iterations[n] == Iteration(minimum, false);
    }
  }

  /** What `k` contended iterations make of the interval if there are no bounds. */
  function Grown(k: nat, interval: real): real {
    if k == 0 then interval else 1.8 * Grown(k - 1, interval)
  }

  ghost predicate ContendedAt(iterations: seq<Iteration>, minimum: real) {
    forall i :: 0 <= i < |iterations| ==> iterations[i] == Iteration(minimum, true)
  }

  /** Under contention the interval grows geometrically, by 1.8 each time, to nine tenths of the maximum. */
  lemma {:induction false} ContentionGrowth(initial: real, iterations: seq<Iteration>, minimum: real)
    requires iterations != [] && ContendedAt(iterations, minimum) && 0.0 <= minimum <= initial <= Maximum(minimum)
    ensures After(initial, iterations) ==
            Max(minimum, Min(0.9 * Maximum(minimum), Grown(|iterations|, initial)))
    ensures minimum <= Grown(|iterations|, initial)
  {
    var n := |iterations| - 1;
    assert iterations[n] == Iteration(minimum, true);
    assert After(initial, iterations) == Next(Iteration(minimum, true), After(initial, iterations[..n]));
    if n == 0 {
      assert iterations[..n] == [] && Grown(1, initial) == 1.8 * Grown(0, initial) == 1.8 * initial;
    } else {
      ContentionGrowth(initial, iterations[..n], minimum);
    }
  }

  lemma {:induction false} DecayAgain(k: nat, n: nat, interval: real)
    ensures Decayed(k + n, interval) == Decayed(n, Decayed(k, interval))
  {
    if n > 0 { DecayAgain(k, n - 1, interval); }
  }

  /** Seven quiet iterations more than halve the interval. */
  lemma SevenHalve(interval: real)
    requires interval >= 0.0
    ensures 0.0 <= 2.0 * Decayed(7, interval) <= interval
  {
    var d: nat -> real := (k: nat) => Decayed(k, interval);
    forall k: nat ensures d(k + 1) == 0.9 * d(k) {}
    assert d(0) == interval;
    assert d(1) == 0.9 * interval && d(2) == 0.81 * interval && d(3) == 0.729 * interval;
    assert d(4) == 0.6561 * interval && d(5) == 0.59049 * interval && d(6) == 0.531441 * interval;
    assert d(7) == 0.4782969 * interval;
  }

  function PowerOfTwo(j: nat): nat { if j == 0 then 1 else 2 * PowerOfTwo(j - 1) }

  lemma {:induction false} SevenPerHalving(j: nat, interval: real)
    requires interval >= 0.0
    ensures 0.0 <= PowerOfTwo(j) as real * Decayed(7 * j, interval) <= interval
  {
    if j > 0 {
      SevenPerHalving(j - 1, interval);
      var d := Decayed(7 * (j - 1), interval);
      var p := PowerOfTwo(j - 1) as real;
      NonNegative(7 * (j - 1), interval);
      DecayAgain(7 * (j - 1), 7, interval);
      assert Decayed(7 * j, interval) == Decayed(7, d);
      SevenHalve(d);
      Doubles(p, d, Decayed(7, d));
      assert PowerOfTwo(j) as real == 2.0 * p;
    }
  }

  lemma {:induction false} NonNegative(k: nat, interval: real)
    requires interval >= 0.0
    ensures Decayed(k, interval) >= 0.0
  {
    if k > 0 { NonNegative(k - 1, interval); }
  }

  lemma Doubles(p: real, d: real, half: real)
    requires p >= 0.0 && 0.0 <= 2.0 * half <= d
    ensures 0.0 <= (2.0 * p) * half <= p * d
  {
    assert (2.0 * p) * half == p * (2.0 * half);
    assert p * (d - 2.0 * half) >= 0.0;
  }

  lemma {:induction false} DecayShrinks(k: nat, n: nat, interval: real)
    requires k <= n && interval >= 0.0
    ensures Decayed(n, interval) <= Decayed(k, interval)
  {
    if k < n {
      DecayShrinks(k, n - 1, interval);
      NonNegative(n - 1, interval);
    }
  }

  /** Once contention stops, the interval is back at the minimum exactly when the geometric fall has got there. */
  lemma BackAtMinimumIff(initial: real, iterations: seq<Iteration>, minimum: real)
    requires QuietAt(iterations, minimum) && 0.0 <= minimum <= initial <= Maximum(minimum)
    ensures After(initial, iterations) == minimum <==> Decayed(|iterations|, initial) <= minimum
  {
    QuietDecay(initial, iterations, minimum);
  }

  /** It is back within seven quiet iterations for each doubling from the minimum to the maximum. */
  lemma BackAtMinimumWithin(initial: real, iterations: seq<Iteration>, minimum: real, j: nat)
    requires QuietAt(iterations, minimum) && 0.0 <= minimum <= initial <= Maximum(minimum)
    requires Maximum(minimum) <= PowerOfTwo(j) as real * minimum && |iterations| >= 7 * j
    ensures After(initial, iterations) == minimum
  {
    BackAtMinimumIff(initial, iterations, minimum);
    DecayFalls(j, |iterations|, initial, Maximum(minimum), minimum);
  }

  lemma DecayFalls(j: nat, k: nat, interval: real, high: real, low: real)
    requires 0.0 <= interval <= high <= PowerOfTwo(j) as real * low && k >= 7 * j
    ensures Decayed(k, interval) <= low
  {
    SevenPerHalving(j, interval);
    DecayShrinks(7 * j, k, interval);
    PowerPositive(j);
    Cancel(PowerOfTwo(j) as real, Decayed(7 * j, interval), low, interval, high);
  }

  lemma {:induction false} PowerPositive(j: nat)
    ensures PowerOfTwo(j) >= 1
  {
    if j > 0 { PowerPositive(j - 1); }
  }

  lemma Cancel(n: real, a: real, b: real, c: real, d: real)
    requires n > 0.0 && n * a <= c <= d <= n * b
    ensures a <= b
  {
    assert n * (b - a) == n * b - n * a;
    assert n * (b - a) >= 0.0;
  }
}
