/** The barrier-phased tree reduction used by the attention and LayerNorm kernels, over exact reals.
    Inside one phase the threads are interleaved arbitrarily, load by load and store by store;
    a barrier ends the phase. */
module Reduction {
  import opened Reals
  import opened Sums

  ghost predicate IsPow2(n: nat) {
    n == 1 || (n > 1 && n % 2 == 0 && IsPow2(n / 2))
  }

  /** The first `stride` slots after a phase over 2 * stride slots (a slot past them is dropped). */
  ghost function Halve(s: seq<real>): (h: seq<real>)
    ensures |h| == |s| / 2
  {
    seq(|s| / 2, i requires 0 <= i < |s| / 2 => s[i] + s[i + |s| / 2])
  }

  lemma HalveAt(s: seq<real>, d: nat)
    requires d < |s| / 2
    ensures Halve(s)[d] == s[d] + s[d + |s| / 2]
  {
  }

  ghost function Tree(s: seq<real>): real
    requires |s| > 0
    decreases |s|
  {
    if |s| == 1 then s[0] else Tree(Halve(s))
  }

  /** Halving an even width loses nothing. */
  lemma HalveKeepsTotal(s: seq<real>)
    requires |s| % 2 == 0
    ensures Total(Halve(s)) == Total(s)
  {
    var h := |s| / 2;
    var upper := i => At(s)(h + i);
    SumSplit(h, h, At(s));
    SumExt(h, upper, i => At(s)(h + i));
    SumAdd(h, At(s), upper);
    SumExt(h, At(Halve(s)), i => At(s)(i) + upper(i));
  }

  /** For a power-of-two width, slot 0 ends up holding the whole sum. */
  lemma {:induction false} TreeIsTotal(s: seq<real>)
    requires IsPow2(|s|)
    ensures Tree(s) == Total(s)
    decreases |s|
  {
    if |s| > 1 {
      HalveKeepsTotal(s);
      TreeIsTotal(Halve(s));
    } else {
      assert Sum(1, At(s)) == Sum(0, At(s)) + At(s)(0);
    }
  }

  /** For any other width some contents are summed wrongly: the power-of-two test is needed. */
  lemma {:induction false} TreeLosesASlot(n: nat) returns (s: seq<real>)
    requires n > 0 && !IsPow2(n)
    ensures |s| == n && Tree(s) != Total(s)
  {
    if n % 2 == 1 {
      s := seq(n, i => if i == n - 1 then 1.0 else 0.0);
      SumSingle(n, n - 1, At(s));
      TreeOfZeros(Halve(s));
    } else {
      var t := TreeLosesASlot(n / 2);
      s := t + seq(n / 2, i => 0.0);
      assert Halve(s) == t;
      HalveKeepsTotal(s);
    }
  }

  lemma {:induction false} TreeOfZeros(s: seq<real>)
    requires |s| > 0 && forall i :: 0 <= i < |s| ==> s[i] == 0.0
    ensures Tree(s) == 0.0
    decreases |s|
  {
    if |s| > 1 {
      TreeOfZeros(Halve(s));
    }
  }

  /** The reduction gives the sum for every contents exactly when the width is a power of two. */
  lemma TreeExactIffPow2(n: nat)
    requires n > 0
    ensures IsPow2(n) <==> forall s: seq<real> :: |s| == n ==> Tree(s) == Total(s)
  {
    if IsPow2(n) {
      forall s: seq<real> | |s| == n ensures Tree(s) == Total(s) {
        TreeIsTotal(s);
      }
    } else {
      var s := TreeLosesASlot(n);
    }
  }

  /** Bitwise and of two non-negative words. */
  function BitAnd(a: nat, b: nat): nat {
    if a == 0 || b == 0 then 0 else (if a % 2 == 1 && b % 2 == 1 then 1 else 0) + 2 * BitAnd(a / 2, b / 2)
  }

  lemma {:induction false} BitAndSelf(y: nat)
    ensures BitAnd(y, y) == y
  {
    if y > 0 {
      BitAndSelf(y / 2);
    }
  }

  /** The host's admission test on a head dimension: head_dim & (head_dim - 1) == 0. */
  predicate Admitted(headDim: nat) {
    headDim == 0 || BitAnd(headDim, headDim - 1) == 0
  }

  /** The bit test admits the powers of two (and the empty head, which launches no thread). */
  lemma {:induction false} AdmittedIffPow2(n: nat)
    ensures Admitted(n) <==> n == 0 || IsPow2(n)
  {
    if n > 1 {
      if n % 2 == 1 {
        assert (n - 1) / 2 == n / 2;
        BitAndSelf(n / 2);
      } else {
        assert (n - 1) / 2 == n / 2 - 1;
        AdmittedIffPow2(n / 2);
      }
    }
  }

  function Threads(n: nat): (s: set<int>)
    ensures forall d :: d in s <==> 0 <= d < n
  {
    if n == 0 then {} else Threads(n - 1) + {n - 1}
  }

  /** The middle of a phase: threads in toLeft have yet to load their own slot, threads in toRight the slot one
      stride up, threads in toStore have yet to store; all others below the stride have stored their sum. */
  ghost predicate MidPhase(slots: seq<real>, left: seq<real>, right: seq<real>, was: seq<real>, stride: nat,
                           toLeft: set<int>, toRight: set<int>, toStore: set<int>) {
    && |slots| == |was| && |left| == |right| == stride && 2 * stride <= |was|
    && toLeft <= toStore && toRight <= toStore
    && (forall d :: d in toStore ==> 0 <= d < stride && slots[d] == was[d])
    && (forall d :: 0 <= d < stride ==> d in toLeft || left[d] == was[d])
    && (forall d :: 0 <= d < stride ==> d in toRight || right[d] == was[d + stride])
    && (forall d :: 0 <= d < stride ==> d in toStore || slots[d] == was[d] + was[d + stride])
    && slots[stride..] == was[stride..]
  }

  /** Whatever others have stored, a thread that has not stored still finds, in both slots it loads, the values the
      phase started with. */
  lemma LoadsOldValues(slots: seq<real>, left: seq<real>, right: seq<real>, was: seq<real>, stride: nat,
                       toLeft: set<int>, toRight: set<int>, toStore: set<int>, d: int)
    requires MidPhase(slots, left, right, was, stride, toLeft, toRight, toStore) && d in toStore
    ensures 0 <= d < stride && d + stride < |slots| == |was|
    ensures slots[d] == was[d] && slots[d + stride] == was[d + stride]
  {
    assert slots[stride..][d] == was[stride..][d];
  }

  lemma AfterLeft(slots: seq<real>, left: seq<real>, right: seq<real>, was: seq<real>, stride: nat,
                  toLeft: set<int>, toRight: set<int>, toStore: set<int>, d: int)
    requires MidPhase(slots, left, right, was, stride, toLeft, toRight, toStore) && d in toLeft
    ensures d in toStore && 0 <= d < |left| && d < |slots|
    ensures MidPhase(slots, left[d := slots[d]], right, was, stride, toLeft - {d}, toRight, toStore)
  {
    LoadsOldValues(slots, left, right, was, stride, toLeft, toRight, toStore, d);
  }

  lemma AfterRight(slots: seq<real>, left: seq<real>, right: seq<real>, was: seq<real>, stride: nat,
                   toLeft: set<int>, toRight: set<int>, toStore: set<int>, d: int)
    requires MidPhase(slots, left, right, was, stride, toLeft, toRight, toStore) && d in toRight
    ensures d in toStore && 0 <= d < |right| && d + stride < |slots|
    ensures MidPhase(slots, left, right[d := slots[d + stride]], was, stride, toLeft, toRight - {d}, toStore)
  {
    LoadsOldValues(slots, left, right, was, stride, toLeft, toRight, toStore, d);
  }

  lemma AfterStore(slots: seq<real>, left: seq<real>, right: seq<real>, was: seq<real>, stride: nat,
                   toLeft: set<int>, toRight: set<int>, toStore: set<int>, d: int)
    requires MidPhase(slots, left, right, was, stride, toLeft, toRight, toStore)
    requires d in toStore && d !in toLeft && d !in toRight
    ensures 0 <= d < |slots| && d < |left| == |right|
    ensures MidPhase(slots[d := left[d] + right[d]], left, right, was, stride, toLeft, toRight, toStore - {d})
  {
    assert slots[d := left[d] + right[d]][stride..] == slots[stride..];
  }

  method LoadLeft(shared: array<real>, left: array<real>, right: array<real>, ghost was: seq<real>, stride: nat,
                  toLeft: set<int>, toRight: set<int>, toStore: set<int>, d: int)
    requires shared != left && left != right
    requires MidPhase(shared[..], left[..], right[..], was, stride, toLeft, toRight, toStore) && d in toLeft
    modifies left
    ensures MidPhase(shared[..], left[..], right[..], was, stride, toLeft - {d}, toRight, toStore)
  {
    hide *;
    AfterLeft(shared[..], left[..], right[..], was, stride, toLeft, toRight, toStore, d);
    ghost var regs := left[..];
    left[d] := shared[d];
    assert left[..] == regs[d := shared[d]];
  }

  method LoadRight(shared: array<real>, left: array<real>, right: array<real>, ghost was: seq<real>, stride: nat,
                   toLeft: set<int>, toRight: set<int>, toStore: set<int>, d: int)
    requires shared != right && left != right
    requires MidPhase(shared[..], left[..], right[..], was, stride, toLeft, toRight, toStore) && d in toRight
    modifies right
    ensures MidPhase(shared[..], left[..], right[..], was, stride, toLeft, toRight - {d}, toStore)
  {
    hide *;
    AfterRight(shared[..], left[..], right[..], was, stride, toLeft, toRight, toStore, d);
    ghost var regs := right[..];
    right[d] := shared[d + stride];
    assert right[..] == regs[d := shared[d + stride]];
  }

  method StoreSum(shared: array<real>, left: array<real>, right: array<real>, ghost was: seq<real>, stride: nat,
                  toLeft: set<int>, toRight: set<int>, toStore: set<int>, d: int)
    requires shared != left && shared != right
    requires MidPhase(shared[..], left[..], right[..], was, stride, toLeft, toRight, toStore)
    requires d in toStore && d !in toLeft && d !in toRight
    modifies shared
    ensures MidPhase(shared[..], left[..], right[..], was, stride, toLeft, toRight, toStore - {d})
  {
    hide *;
    AfterStore(shared[..], left[..], right[..], was, stride, toLeft, toRight, toStore, d);
    ghost var slots := shared[..];
    shared[d] := left[d] + right[d];
    assert shared[..] == slots[d := left[d] + right[d]];
  }

  method AnyOf(threads: set<int>) returns (d: int)
    requires threads != {}
    ensures d in threads
  {
    assert (forall d :: d !in threads) ==> threads == {};
    d :| d in threads;
  }

  /** Until every thread has loaded both values and stored, the scheduler picks any thread that can take a step. */
  method RunThreads(shared: array<real>, left: array<real>, right: array<real>, ghost was: seq<real>, stride: nat,
                    all: set<int>)
    requires shared != left && shared != right && left != right
    requires MidPhase(shared[..], left[..], right[..], was, stride, all, all, all)
    modifies shared, left, right
    ensures MidPhase(shared[..], left[..], right[..], was, stride, {}, {}, {})
  {
    hide *;
    var toLeft, toRight, toStore := all, all, all;
    while
      invariant MidPhase(shared[..], left[..], right[..], was, stride, toLeft, toRight, toStore)
      decreases |toLeft|, |toRight|, |toStore|
    {
      case toLeft != {} =>
        var d := AnyOf(toLeft);
        LoadLeft(shared, left, right, was, stride, toLeft, toRight, toStore, d);
        toLeft := toLeft - {d};
      case toRight != {} =>
        var d := AnyOf(toRight);
        LoadRight(shared, left, right, was, stride, toLeft, toRight, toStore, d);
        toRight := toRight - {d};
      case toStore - toLeft - toRight != {} =>
        var d := AnyOf(toStore - toLeft - toRight);
        StoreSum(shared, left, right, was, stride, toLeft, toRight, toStore, d);
        toStore := toStore - {d};
    }
    assert toStore - toLeft - toRight == toStore;
  }

  /** One phase: threads d < stride each load slots d and d + stride, in either order, then store their sum in slot d,
      under any interleaving of the loads and stores. */
  method Phase(shared: array<real>, stride: nat)
    requires 2 * stride <= shared.Length
    modifies shared
    ensures shared[..stride] == Halve(old(shared[..2 * stride]))
    ensures shared[stride..] == old(shared[stride..])
  {
    var left, right := new real[stride], new real[stride];
    ghost var was := shared[..];
    PhaseBegins(was, left[..], right[..], stride, Threads(stride));
    assert was[..2 * stride] == shared[..2 * stride] && was[stride..] == shared[stride..];
    hide *;
    RunThreads(shared, left, right, was, stride, Threads(stride));
    PhaseDone(shared[..], left[..], right[..], was, stride);
    assert shared[..][..stride] == shared[..stride] && shared[..][stride..] == shared[stride..];
  }

  lemma PhaseBegins(was: seq<real>, left: seq<real>, right: seq<real>, stride: nat, all: set<int>)
    requires |left| == |right| == stride && 2 * stride <= |was| && all == Threads(stride)
    ensures MidPhase(was, left, right, was, stride, all, all, all)
  {
    hide Threads;
  }

  lemma PhaseDone(slots: seq<real>, left: seq<real>, right: seq<real>, was: seq<real>, stride: nat)
    requires MidPhase(slots, left, right, was, stride, {}, {}, {})
    ensures 2 * stride <= |slots| == |was| && slots[..stride] == Halve(was[..2 * stride])
    ensures slots[stride..] == was[stride..]
  {
    forall d | 0 <= d < stride ensures slots[d] == Halve(was[..2 * stride])[d] {
      HalveAt(was[..2 * stride], d);
    }
  }

  /** stride = width / 2, width / 4, ..., 1 with a barrier after each phase. */
  method TreeReduce(shared: array<real>)
    requires shared.Length > 0
    modifies shared
    ensures shared[0] == Tree(old(shared[..]))
  {
    ghost var live := shared[..];
    var stride := shared.Length / 2;
    while stride > 0
      invariant 0 < |live| <= shared.Length && stride == |live| / 2
      invariant live == shared[..|live|]
      invariant Tree(live) == Tree(old(shared[..]))
    {
      assert Halve(live) == Halve(live[..2 * stride]);
      assert live[..2 * stride] == shared[..2 * stride];
      live := Halve(live);
      Phase(shared, stride);
      stride := stride / 2;
    }
  }

  // ---- fused LayerNorm + modulation ----

  ghost function Squares(f: int -> real): int -> real {
    i => f(i) * f(i)
  }

  ghost function Deviations(f: int -> real, m: real): int -> real {
    i => (f(i) - m) * (f(i) - m)
  }

  ghost function Mean(s: seq<real>): real
    requires |s| > 0
  {
    Total(s) / (|s| as real)
  }

  /** Mean squared deviation. */
  ghost function Variance(s: seq<real>): real
    requires |s| > 0
  {
    Sum(|s|, Deviations(At(s), Mean(s))) / (|s| as real)
  }

  /** The textbook identity between k deviations from m and the sums they come from. */
  ghost predicate DeviationIdentity(dev: real, q: real, t: real, m: real, k: real) {
    dev == q - 2.0 * (m * t) + k * (m * m) && dev >= 0.0
  }

  lemma DeviationStep(dev: real, q: real, t: real, m: real, k: real, x: real, dev': real, q': real, t': real, k': real)
    requires DeviationIdentity(dev, q, t, m, k)
    requires dev' == dev + (x - m) * (x - m) && q' == q + x * x && t' == t + x && k' == k + 1.0
    ensures DeviationIdentity(dev', q', t', m, k')
  {
    var d := x - m;
    assert d * d >= 0.0;
    assert d * d == x * x - 2.0 * (m * x) + m * m;
    assert m * (t + x) == m * t + m * x;
  }

  lemma NoDeviation(m: real)
    ensures DeviationIdentity(0.0, 0.0, 0.0, m, 0.0)
  {
  }

  lemma {:induction false} DeviationSum(n: nat, f: int -> real, m: real)
    ensures DeviationIdentity(Sum(n, Deviations(f, m)), Sum(n, Squares(f)), Sum(n, f), m, n as real)
  {
    hide DeviationIdentity;
    if n == 0 {
      NoDeviation(m);
    } else {
      var k := n - 1;
      DeviationSum(k, f, m);
      DeviationStep(Sum(k, Deviations(f, m)), Sum(k, Squares(f)), Sum(k, f), m, k as real, f(k),
                    Sum(n, Deviations(f, m)), Sum(n, Squares(f)), Sum(n, f), n as real);
    }
  }

  /** The one-pass formula sum_sq / dim - mean^2 is the mean squared deviation, so the clamp to
      zero that follows it never acts. */
  lemma OnePassVariance(s: seq<real>)
    requires |s| > 0
    ensures Sum(|s|, Squares(At(s))) / (|s| as real) - Mean(s) * Mean(s) == Variance(s) >= 0.0
  {
    hide Sum, At, Squares, Deviations, DeviationIdentity;
    DeviationSum(|s|, At(s), Mean(s));
    VarianceAlgebra(|s| as real, Total(s), Mean(s), Sum(|s|, Squares(At(s))), Sum(|s|, Deviations(At(s), Mean(s))));
  }

  lemma VarianceAlgebra(n: real, t: real, m: real, q: real, dev: real)
    requires n > 0.0 && m == t / n && DeviationIdentity(dev, q, t, m, n)
    ensures q / n - m * m == dev / n >= 0.0
  {
    var a := q / n;
    assert t == m * n;
    assert m * t == n * (m * m) by {
      assert m * t == m * (m * n) == n * (m * m);
    }
    assert q == a * n;
    assert dev == (a - m * m) * n;
  }

  /** One thread's accumulation loop over its stripe of a row. */
  method StripeSums(x: seq<real>, base: nat, dim: nat, threads: nat, tid: nat, ghost f: int -> real,
                    ghost g: int -> real)
    returns (sum: real, sumSq: real)
    requires tid < threads && base + dim <= |x|
    requires forall i :: 0 <= i < dim ==> f(i) == x[base + i] && g(i) == x[base + i] * x[base + i]
    ensures sum == Share(dim, threads, tid, f) && sumSq == Share(dim, threads, tid, g)
  {
    sum, sumSq := 0.0, 0.0;
    var i := tid;
    ghost var turn := 0;
    CollectedNone(dim, threads, tid, f);
    CollectedNone(dim, threads, tid, g);
    hide *;
    while i < dim
      invariant Collected(sum, i, turn, dim, threads, tid, f) && Collected(sumSq, i, turn, dim, threads, tid, g)
      decreases dim - i
    {
      var val := x[base + i];
      var square := val * val;
      assert val == f(i) && square == g(i);
      CollectedMore(sum, i, turn, dim, threads, tid, f, sum + val);
      CollectedMore(sumSq, i, turn, dim, threads, tid, g, sumSq + square);
      sum, sumSq := sum + val, sumSq + square;
      i, turn := i + threads, turn + 1;
    }
    CollectedAll(sum, i, turn, dim, threads, tid, f);
    CollectedAll(sumSq, i, turn, dim, threads, tid, g);
  }

  const THREADS: nat := 256
  const EPSILON := 1e-6

  /** All 256 threads store their partial sums in shared memory. */
  method PartialSums(x: seq<real>, base: nat, dim: nat, ghost f: int -> real, ghost g: int -> real)
    returns (sum: array<real>, sumSq: array<real>)
    requires base + dim <= |x|
    requires forall i :: 0 <= i < dim ==> f(i) == x[base + i] && g(i) == x[base + i] * x[base + i]
    ensures fresh(sum) && fresh(sumSq) && sum != sumSq && sum.Length == sumSq.Length == THREADS
    ensures Tree(sum[..]) == Sum(dim, f) && Tree(sumSq[..]) == Sum(dim, g)
  {
    sum := new real[THREADS];
    sumSq := new real[THREADS];
    for tid := 0 to THREADS
      invariant forall d :: 0 <= d < tid ==> sum[d] == Share(dim, THREADS, d, f)
      invariant forall d :: 0 <= d < tid ==> sumSq[d] == Share(dim, THREADS, d, g)
    {
      sum[tid], sumSq[tid] := StripeSums(x, base, dim, THREADS, tid, f, g);
    }
    StripesTotal(sum[..], dim, f);
    StripesTotal(sumSq[..], dim, g);
  }

  /** (1 + scale) * normalised + shift */
  function Modulated(x: real, mean: real, invStd: real, scale: real, shift: real): real {
    (1.0 + scale) * ((x - mean) * invStd) + shift
  }

  /** What the row holds once the threads before tid are done and thread tid has written its indices below i. */
  ghost predicate Written(was: seq<real>, s: seq<real>, cell: int --> real, base: nat, dim: nat, tid: nat, i: nat) {
    && |s| == |was| && base + dim <= |s| && (forall c :: 0 <= c < dim ==> cell.requires(c))
    && (forall p :: 0 <= p < |s| && !(base <= p < base + dim) ==> s[p] == was[p])
    && (forall c :: 0 <= c < dim && (c % 256 < tid || (c % 256 == tid && c < i)) ==> s[base + c] == cell(c))
  }

  lemma WritesOne(was: seq<real>, s: seq<real>, cell: int --> real, base: nat, dim: nat, tid: nat, i: nat)
    requires Written(was, s, cell, base, dim, tid, i) && i < dim && i % 256 == tid < 256
    ensures Written(was, s[base + i := cell(i)], cell, base, dim, tid, i + 256)
  {
    assert forall c :: 0 <= c < dim && c % 256 == tid && i < c ==> c >= i + 256;
  }

  lemma NextThread(was: seq<real>, s: seq<real>, cell: int --> real, base: nat, dim: nat, tid: nat, i: nat)
    requires Written(was, s, cell, base, dim, tid, i) && i >= dim
    ensures Written(was, s, cell, base, dim, tid + 1, tid + 1)
  {
    assert forall c :: 0 <= c < dim ==> c % 256 <= c;
  }

  /** The write-back loop: thread by thread, each over its own stripe of the row. */
  method WriteStripes(cell: int --> real, base: nat, dim: nat, out: array<real>)
    requires base + dim <= out.Length
    requires forall i :: 0 <= i < dim ==> cell.requires(i)
    modifies out
    ensures Written(old(out[..]), out[..], cell, base, dim, THREADS, THREADS)
  {
    ghost var was := out[..];
    for tid := 0 to THREADS
      invariant Written(was, out[..], cell, base, dim, tid, tid)
    {
      hide Written;
      WriteStripe(was, cell, base, dim, tid, out);
    }
  }

  method WriteStripe(ghost was: seq<real>, cell: int --> real, base: nat, dim: nat, tid: nat, out: array<real>)
    requires Written(was, out[..], cell, base, dim, tid, tid) && tid < THREADS
    modifies out
    ensures Written(was, out[..], cell, base, dim, tid + 1, tid + 1)
  {
    var i := tid;
    assert base + dim <= out.Length && forall c :: 0 <= c < dim ==> cell.requires(c);
    hide Written;
    while i < dim
      invariant i % 256 == tid && Written(was, out[..], cell, base, dim, tid, i)
      decreases dim - i
    {
      ghost var s := out[..];
      WritesOne(was, s, cell, base, dim, tid, i);
      out[base + i] := cell(i);
      assert out[..] == s[base + i := cell(i)];
      i := i + THREADS;
    }
    NextThread(was, out[..], cell, base, dim, tid, i);
  }

  /** Slot 0 of the two shared arrays after the reductions. */
  method ReducedSums(x: seq<real>, base: nat, dim: nat) returns (sum: real, sumSq: real)
    requires base + dim <= |x|
    ensures sum == Total(x[base..base + dim])
    ensures sumSq == Sum(dim, Squares(At(x[base..base + dim])))
  {
    ghost var f := At(x[base..base + dim]);
    var sharedSum, sharedSumSq := PartialSums(x, base, dim, f, Squares(f));
    label stored:
    TreeReduce(sharedSum);
    assert sharedSumSq[..] == old@stored(sharedSumSq[..]);
    TreeReduce(sharedSumSq);
    sum, sumSq := sharedSum[0], sharedSumSq[0];
  }

  /** What every thread computes from the reduced sums: the row's true mean, and rsqrt of its mean
      squared deviation (the clamp leaves the one-pass variance alone). */
  method RowStatistics(x: seq<real>, base: nat, dim: nat, rsqrt: real -> real) returns (mean: real, invStd: real)
    requires dim > 0 && base + dim <= |x|
    ensures mean == Mean(x[base..base + dim])
    ensures invStd == rsqrt(Variance(x[base..base + dim]) + EPSILON)
  {
    ghost var s := x[base..base + dim];
    var sum, sumSq := ReducedSums(x, base, dim);
    mean := sum / (dim as real);
    var v := sumSq / (dim as real) - mean * mean;
    assert |s| == dim;
    OnePassVariance(s);
    assert v == Variance(s);
    v := if v > 0.0 then v else 0.0;
    invStd := rsqrt(v + EPSILON);
  }

  /** The modulated row as a function of the input row. */
  ghost function ModulatedRow(s: seq<real>, scale: seq<real>, shift: seq<real>, rsqrt: real -> real): (r: seq<real>)
    requires |s| > 0 && |scale| == |shift| == |s|
    ensures |r| == |s|
  {
    seq(|s|, i requires 0 <= i < |s| => Modulated(s[i], Mean(s), rsqrt(Variance(s) + EPSILON), scale[i], shift[i]))
  }

  /** One threadgroup of the modulation kernel: writes its row, and nothing else. */
  method ModulateRow(x: seq<real>, scale: seq<real>, shift: seq<real>, row: nat, dim: nat,
                     rsqrt: real -> real, out: array<real>)
    requires dim > 0 && |scale| == |shift| == dim
    requires row * dim + dim <= |x| == out.Length
    modifies out
    ensures var base := row * dim;
      out[..] == old(out[..base]) + ModulatedRow(x[base..base + dim], scale, shift, rsqrt) + old(out[base + dim..])
  {
    var base := row * dim;
    hide *;
    RowStart(row, dim, |x|);
    var mean, invStd := RowStatistics(x, base, dim, rsqrt);
    var cell := i requires 0 <= i < dim => Modulated(x[base + i], mean, invStd, scale[i], shift[i]);
    ghost var cells := ModulatedRow(x[base..base + dim], scale, shift, rsqrt);
    forall i | 0 <= i < dim ensures cell(i) == cells[i] {
      ModulatedCell(x[base..base + dim], scale, shift, rsqrt, i);
    }
    WriteRow(cell, cells, base, dim, out);
  }

  lemma RowStart(row: nat, dim: nat, n: nat)
    requires row * dim + dim <= n
    ensures 0 <= row * dim
  {
  }

  lemma ModulatedCell(s: seq<real>, scale: seq<real>, shift: seq<real>, rsqrt: real -> real, i: nat)
    requires |s| > 0 && |scale| == |shift| == |s| && i < |s|
    ensures ModulatedRow(s, scale, shift, rsqrt)[i] ==
      Modulated(s[i], Mean(s), rsqrt(Variance(s) + EPSILON), scale[i], shift[i])
  {
    hide Mean, Variance, Modulated;
  }

  method WriteRow(cell: int --> real, ghost cells: seq<real>, base: nat, dim: nat, out: array<real>)
    requires base + dim <= out.Length && |cells| == dim
    requires forall i :: 0 <= i < dim ==> cell.requires(i) && cell(i) == cells[i]
    modifies out
    ensures out[..] == old(out[..base]) + cells + old(out[base + dim..])
  {
    WriteStripes(cell, base, dim, out);
    assert out[base..base + dim] == cells;
    assert out[..] == out[..base] + out[base..base + dim] + out[base + dim..];
  }

  /** 256 strided partial sums, reduced by the tree, are the row sum for every row length. */
  lemma StripesTotal(shares: seq<real>, dim: nat, f: int -> real)
    requires |shares| == THREADS
    requires forall d :: 0 <= d < THREADS ==> shares[d] == Share(dim, THREADS, d, f)
    ensures Tree(shares) == Sum(dim, f)
  {
    assert IsPow2(2) && IsPow2(4) && IsPow2(8) && IsPow2(16) && IsPow2(32) && IsPow2(64) && IsPow2(128) && IsPow2(256);
    TreeIsTotal(shares);
    SharesTotal(shares, dim, f);
  }

  // ---- what modulation does to a row ----

  /** A row shifted by its mean and scaled, all positions alike. */
  ghost function Affine(s: seq<real>, m: real, g: real, b: real): (r: seq<real>)
    ensures |r| == |s|
  {
    seq(|s|, i requires 0 <= i < |s| => Times(s[i] - m, g) + b)
  }

  ghost function AffineOf(f: int -> real, m: real, g: real, b: real): int -> real {
    i => Times(f(i) - m, g) + b
  }

  lemma AffineAt(s: seq<real>, m: real, g: real, b: real, i: nat)
    requires i < |s|
    ensures At(Affine(s, m, g, b))(i) == AffineOf(At(s), m, g, b)(i)
  {
  }

  /** The sum of k shifted and scaled numbers, from the sum t of the numbers. */
  ghost predicate AffineIdentity(total: real, t: real, m: real, g: real, b: real, k: real) {
    total == Times(t - k * m, g) + k * b
  }

  lemma AffineStep(total: real, t: real, m: real, g: real, b: real, k: real, x: real, total': real, t': real, k': real)
    requires AffineIdentity(total, t, m, g, b, k)
    requires total' == total + (Times(x - m, g) + b) && t' == t + x && k' == k + 1.0
    ensures AffineIdentity(total', t', m, g, b, k')
  {
    assert k' * m == k * m + m && k' * b == k * b + b;
    assert t' - k' * m == (t - k * m) + (x - m);
    Distribute(t - k * m, x - m, g);
  }

  lemma NoTerms(m: real, g: real, b: real)
    ensures AffineIdentity(0.0, 0.0, m, g, b, 0.0)
  {
  }

  lemma {:induction false} AffineSum(n: nat, f: int -> real, m: real, g: real, b: real)
    ensures AffineIdentity(Sum(n, AffineOf(f, m, g, b)), Sum(n, f), m, g, b, n as real)
  {
    hide AffineIdentity, Times;
    if n == 0 {
      NoTerms(m, g, b);
    } else {
      var k := n - 1;
      AffineSum(k, f, m, g, b);
      AffineStep(Sum(k, AffineOf(f, m, g, b)), Sum(k, f), m, g, b, k as real, f(k),
                 Sum(n, AffineOf(f, m, g, b)), Sum(n, f), n as real);
    }
  }

  lemma DeviationScaled(f: int -> real, m: real, g: real, b: real, i: int)
    ensures Deviations(AffineOf(f, m, g, b), b)(i) == Times(Deviations(f, m)(i), g * g)
  {
    var d := f(i) - m;
    assert d * g + b - b == d * g;
    assert (d * g) * (d * g) == d * d * (g * g);
  }

  lemma Distribute(a: real, b: real, c: real)
    ensures Times(a + b, c) == Times(a, c) + Times(b, c)
    ensures Times(0.0, c) == 0.0
  {
  }

  lemma {:induction false} ScaledSum(n: nat, f: int -> real, h: int -> real, c: real)
    requires forall i :: 0 <= i < n ==> h(i) == Times(f(i), c)
    ensures Sum(n, h) == Times(Sum(n, f), c)
  {
    hide Times;
    Distribute(0.0, 0.0, c);
    if n > 0 {
      ScaledSum(n - 1, f, h, c);
      Distribute(Sum(n - 1, f), f(n - 1), c);
    }
  }

  lemma AffineTotals(s: seq<real>, m: real, g: real, b: real)
    ensures var r := Affine(s, m, g, b);
      && AffineIdentity(Total(r), Total(s), m, g, b, |s| as real)
      && Sum(|s|, Deviations(At(r), b)) == Times(Sum(|s|, Deviations(At(s), m)), g * g)
  {
    var n, r := |s|, Affine(s, m, g, b);
    var f := AffineOf(At(s), m, g, b);
    assert |r| == n;
    TotalIs(s);
    TotalIs(r);
    hide *;
    forall i | 0 <= i < n ensures At(r)(i) == f(i) {
      AffineAt(s, m, g, b, i);
    }
    SumExt(n, At(r), f);
    AffineSum(n, At(s), m, g, b);
    forall i | 0 <= i < n ensures Deviations(At(r), b)(i) == Times(Deviations(At(s), m)(i), g * g) {
      SameDeviation(At(r), f, b, i);
      DeviationScaled(At(s), m, g, b, i);
    }
    ScaledSum(n, Deviations(At(s), m), Deviations(At(r), b), g * g);
  }

  lemma TotalIs(s: seq<real>)
    ensures Total(s) == Sum(|s|, At(s))
  {
  }

  lemma SameDeviation(f: int -> real, h: int -> real, b: real, i: int)
    requires f(i) == h(i)
    ensures Deviations(f, b)(i) == Deviations(h, b)(i)
  {
  }

  /** Around its own mean a row becomes one with mean b and with g * g times its variance. */
  lemma AffineMoments(s: seq<real>, g: real, b: real)
    requires |s| > 0
    ensures Mean(Affine(s, Mean(s), g, b)) == b
    ensures Variance(Affine(s, Mean(s), g, b)) == Times(Variance(s), g * g)
  {
    var m := Mean(s);
    AffineTotals(s, m, g, b);
    MeanOut(Total(Affine(s, m, g, b)), Total(s), |s| as real, m, g, b);
    hide Affine, Deviations, Sum, Total, Times;
    assert Mean(Affine(s, m, g, b)) == b;
    ScaledQuotient(Sum(|s|, Deviations(At(s), m)), g * g, |s| as real);
  }

  lemma MeanOut(total: real, t: real, n: real, m: real, g: real, b: real)
    requires n > 0.0 && m == t / n && AffineIdentity(total, t, m, g, b, n)
    ensures total / n == b
  {
    assert n * m == t;
    assert (t - n * m) * g == 0.0;
    assert n * b / n == b;
  }

  lemma ScaledQuotient(a: real, c: real, n: real)
    requires n > 0.0
    ensures Times(a, c) / n == Times(a / n, c)
  {
    var q := a / n;
    assert q * n == a;
    assert q * n * c == q * c * n;
  }

  lemma ModulatedIsAffine(s: seq<real>, scale: seq<real>, shift: seq<real>, rsqrt: real -> real, a: real, b: real,
                          g: real)
    requires |s| > 0 && |scale| == |shift| == |s| && forall i :: 0 <= i < |s| ==> scale[i] == a && shift[i] == b
    requires g == (1.0 + a) * rsqrt(Variance(s) + 1e-6)
    ensures ModulatedRow(s, scale, shift, rsqrt) == Affine(s, Mean(s), g, b)
  {
    hide Mean, Variance;
    var inv := rsqrt(Variance(s) + 1e-6);
    forall i | 0 <= i < |s|
      ensures ModulatedRow(s, scale, shift, rsqrt)[i] == Affine(s, Mean(s), g, b)[i]
    {
      ModulatedCell(s, scale, shift, rsqrt, i);
      Reassociate(1.0 + a, s[i] - Mean(s), inv);
    }
  }

  /** A row modulated with one scale a and one shift b has mean b and g^2 times its variance, where g is 1 + a times
      the inverse deviation. */
  lemma ModulatedMoments(s: seq<real>, scale: seq<real>, shift: seq<real>, rsqrt: real -> real, a: real, b: real,
                         g: real)
    requires |s| > 0 && |scale| == |shift| == |s| && forall i :: 0 <= i < |s| ==> scale[i] == a && shift[i] == b
    requires g == (1.0 + a) * rsqrt(Variance(s) + 1e-6)
    ensures Mean(ModulatedRow(s, scale, shift, rsqrt)) == b
    ensures Variance(ModulatedRow(s, scale, shift, rsqrt)) == Times(Variance(s), g * g)
  {
    hide *;
    ModulatedIsAffine(s, scale, shift, rsqrt, a, b, g);
    AffineMoments(s, g, b);
  }

  lemma Reassociate(a: real, d: real, i: real)
    ensures a * (d * i) == Times(d, a * i)
  {
  }

  /** Every position has its own scale and shift, applied to the normalised row, the one without modulation. */
  lemma ModulationIsLocal(s: seq<real>, scale: seq<real>, shift: seq<real>, none: seq<real>, rsqrt: real -> real,
                          i: nat)
    requires i < |s| == |scale| == |shift| == |none| && forall j :: 0 <= j < |s| ==> none[j] == 0.0
    ensures var normal := ModulatedRow(s, none, none, rsqrt)[i];
      ModulatedRow(s, scale, shift, rsqrt)[i] == normal + scale[i] * normal + shift[i]
  {
    hide Mean, Variance;
  }
}
