/** Finite sums over exact reals, and the two re-orderings every kernel here relies on:
    splitting an index range and dealing it out to a group of strided threads. */
module Sums {
  import opened Indexing

  /** f(0) + f(1) + ... + f(n-1) */
  ghost function Sum(n: nat, f: int -> real): real {
    if n == 0 then 0.0 else Sum(n - 1, f) + f(n - 1)
  }

  ghost function At(s: seq<real>): int -> real {
    i => if 0 <= i < |s| then s[i] else 0.0
  }

  ghost function Total(s: seq<real>): real {
    Sum(|s|, At(s))
  }

  /** Pointwise product: the terms of a dot product. */
  ghost function Product(f: int -> real, g: int -> real): int -> real {
    i => f(i) * g(i)
  }

  lemma {:induction false} SumExt(n: nat, f: int -> real, g: int -> real)
    requires forall i :: 0 <= i < n ==> f(i) == g(i)
    ensures Sum(n, f) == Sum(n, g)
  {
    if n > 0 {
      SumExt(n - 1, f, g);
    }
  }

  lemma {:induction false} SumSplit(m: nat, n: nat, f: int -> real)
    ensures Sum(m + n, f) == Sum(m, f) + Sum(n, i => f(m + i))
  {
    if n > 0 {
      SumSplit(m, n - 1, f);
    }
  }

  lemma {:induction false} SumAdd(n: nat, f: int -> real, g: int -> real)
    ensures Sum(n, i => f(i) + g(i)) == Sum(n, f) + Sum(n, g)
  {
    if n > 0 {
      SumAdd(n - 1, f, g);
    }
  }

  lemma {:induction false} SumZero(n: nat, f: int -> real)
    requires forall i :: 0 <= i < n ==> f(i) == 0.0
    ensures Sum(n, f) == 0.0
  {
    if n > 0 {
      SumZero(n - 1, f);
    }
  }

  lemma {:induction false} SumPositive(n: nat, f: int -> real)
    requires n > 0 && forall i :: 0 <= i < n ==> f(i) > 0.0
    ensures Sum(n, f) > 0.0
  {
    if n > 1 {
      SumPositive(n - 1, f);
    }
  }

  /** A sum with one non-zero term is that term. */
  lemma {:induction false} SumSingle(n: nat, k: nat, f: int -> real)
    requires k < n && forall i :: 0 <= i < n && i != k ==> f(i) == 0.0
    ensures Sum(n, f) == f(k)
  {
    if k == n - 1 {
      SumZero(n - 1, f);
    } else {
      SumSingle(n - 1, k, f);
    }
  }

  // ---- strided threads: for (w = tid; w < n; w += wg) acc += f(w) ----

  /** What thread `tid` of `wg` collects from the indices below n. */
  ghost function Share(n: nat, wg: nat, tid: int, f: int -> real): real
    requires wg > 0
  {
    if n == 0 then 0.0
    else Share(n - 1, wg, tid, f) + if (n - 1) % wg == tid then f(n - 1) else 0.0
  }

  lemma {:induction false} NotMine(w: nat, e: nat, wg: nat, tid: int, j: nat)
    requires 0 <= tid < wg && w == tid + j * wg && 0 < e < wg
    ensures w % wg == tid
    ensures (w + e) % wg != tid
  {
    ModIs(w, j, tid, wg);
    if tid + e < wg {
      ModIs(w + e, j, tid + e, wg);
    } else {
      assert (j + 1) * wg == j * wg + wg;
      ModIs(w + e, j + 1, tid + e - wg, wg);
    }
  }

  /** Nothing between two of a thread's own indices belongs to it. */
  lemma {:induction false} ShareSkip(w: nat, e: nat, wg: nat, tid: int, j: nat, f: int -> real)
    requires 0 <= tid < wg && w == tid + j * wg && 0 < e <= wg
    ensures Share(w + e, wg, tid, f) == Share(w, wg, tid, f) + f(w)
  {
    if e == 1 {
      ModIs(w, j, tid, wg);
    } else {
      ShareSkip(w, e - 1, wg, tid, j, f);
      NotMine(w, e - 1, wg, tid, j);
    }
  }

  lemma {:induction false} ShareStart(k: nat, wg: nat, tid: int, f: int -> real)
    requires 0 <= k <= tid < wg
    ensures Share(k, wg, tid, f) == 0.0
  {
    if k > 0 {
      ShareStart(k - 1, wg, tid, f);
      ModIs(k - 1, 0, k - 1, wg);
    }
  }

  /** A loop that left its range at w >= n collected exactly the thread's share of [0, n). */
  lemma {:induction false} ShareOvershoot(n: nat, w: nat, wg: nat, tid: int, j: nat, f: int -> real)
    requires 0 <= tid < wg && w == tid + j * wg && n <= w && (j == 0 || w - wg < n)
    ensures Share(w, wg, tid, f) == Share(n, wg, tid, f)
  {
    if j > 0 {
      hide Share;
      assert w - wg == tid + (j - 1) * wg by {
        assert (j - 1) * wg == j * wg - wg;
      }
      ShareSkip(w - wg, wg, wg, tid, j - 1, f);
      ShareSkip(w - wg, n - (w - wg), wg, tid, j - 1, f);
    } else {
      ShareStart(n, wg, tid, f);
      ShareStart(w, wg, tid, f);
    }
  }

  /** Every index is visited by exactly one thread: the shares add up to the whole sum,
      for every group size. */
  lemma {:induction false} SharesPartition(n: nat, wg: nat, f: int -> real)
    requires wg > 0
    ensures Sum(wg, tid => Share(n, wg, tid, f)) == Sum(n, f)
  {
    if n == 0 {
      SumZero(wg, tid => Share(0, wg, tid, f));
    } else {
      SharesPartition(n - 1, wg, f);
      var last := (tid: int) => if (n - 1) % wg == tid then f(n - 1) else 0.0;
      SumAdd(wg, tid => Share(n - 1, wg, tid, f), last);
      SumSingle(wg, (n - 1) % wg, last);
      SumExt(wg, tid => Share(n, wg, tid, f), tid => Share(n - 1, wg, tid, f) + last(tid));
      SumExt(wg, tid => Share(n - 1, wg, tid, f) + last(tid),
             i => (tid => Share(n - 1, wg, tid, f))(i) + last(i));
    }
  }

  // ---- a thread's loop index ----

  /** Thread tid stands at index i after j turns. */
  ghost predicate AtTurn(i: nat, j: nat, threads: nat, tid: nat) {
    tid < threads && i == tid + j * threads
  }

  lemma NextTurn(i: nat, j: nat, threads: nat, tid: nat, f: int -> real)
    requires AtTurn(i, j, threads, tid)
    ensures AtTurn(i + threads, j + 1, threads, tid)
    ensures Share(i + threads, threads, tid, f) == Share(i, threads, tid, f) + f(i)
  {
    ShareSkip(i, threads, threads, tid, j, f);
  }

  lemma LastTurn(dim: nat, i: nat, j: nat, threads: nat, tid: nat, f: int -> real)
    requires AtTurn(i, j, threads, tid) && dim <= i && (j == 0 || i - threads < dim)
    ensures Share(i, threads, tid, f) == Share(dim, threads, tid, f)
  {
    ShareOvershoot(dim, i, threads, tid, j, f);
  }

  /** A thread that stands at index w of a loop to n has collected acc. */
  ghost predicate Collected(acc: real, w: nat, turn: nat, n: nat, threads: nat, tid: nat, f: int -> real) {
    AtTurn(w, turn, threads, tid) && (turn == 0 || w - threads < n) && acc == Share(w, threads, tid, f)
  }

  lemma CollectedNone(n: nat, threads: nat, tid: nat, f: int -> real)
    requires tid < threads
    ensures Collected(0.0, tid, 0, n, threads, tid, f)
  {
    ShareStart(tid, threads, tid, f);
  }

  lemma CollectedMore(acc: real, w: nat, turn: nat, n: nat, threads: nat, tid: nat, f: int -> real, more: real)
    requires Collected(acc, w, turn, n, threads, tid, f) && w < n && more == acc + f(w)
    ensures Collected(more, w + threads, turn + 1, n, threads, tid, f)
  {
    hide Share;
    NextTurn(w, turn, threads, tid, f);
  }

  lemma CollectedAll(acc: real, w: nat, turn: nat, n: nat, threads: nat, tid: nat, f: int -> real)
    requires Collected(acc, w, turn, n, threads, tid, f) && w >= n
    ensures threads > 0 && acc == Share(n, threads, tid, f)
  {
    hide Share;
    LastTurn(n, w, turn, threads, tid, f);
  }

  /** One partial sum per thread: together they are the whole. */
  lemma SharesTotal(shares: seq<real>, n: nat, f: int -> real)
    requires |shares| > 0 && forall tid :: 0 <= tid < |shares| ==> shares[tid] == Share(n, |shares|, tid, f)
    ensures Total(shares) == Sum(n, f)
  {
    SumExt(|shares|, At(shares), tid => Share(n, |shares|, tid, f));
    SharesPartition(n, |shares|, f);
  }

  // ---- sums by blocks ----

  /** The sums of f over consecutive blocks of k. */
  ghost function Blocks(k: nat, f: int -> real): int -> real {
    w => Sum(k, j => f(w * k + j))
  }

  /** The first n terms of block w. */
  ghost function BlockPart(k: nat, f: int -> real, w: int, n: nat): real {
    Sum(n, j => f(w * k + j))
  }

  lemma BlockStart(k: nat, f: int -> real, w: int)
    ensures BlockPart(k, f, w, 0) == 0.0 && BlockPart(k, f, w, k) == Blocks(k, f)(w)
  {
    SumExt(k, j => f(w * k + j), j => f(w * k + j));
  }

  lemma BlockStep(k: nat, f: int -> real, w: int, n: nat)
    ensures BlockPart(k, f, w, n + 1) == BlockPart(k, f, w, n) + f(w * k + n)
  {
    var g := (j: int) => f(w * k + j);
    SumExt(n + 1, g, j => f(w * k + j));
    SumExt(n, g, j => f(w * k + j));
  }

  lemma {:induction false} SumBlocks(n: nat, k: nat, f: int -> real)
    ensures 0 <= n * k && Sum(n, Blocks(k, f)) == Sum(n * k, f)
  {
    if n > 0 {
      SumBlocks(n - 1, k, f);
      NextMultiple(n - 1, k);
      SumSplit((n - 1) * k, k, f);
      SumExt(k, i => f((n - 1) * k + i), j => f((n - 1) * k + j));
    }
  }
}
