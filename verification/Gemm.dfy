/** The serial GEMM and its column-strip parallel form. The arithmetic is abstract: `madd` is whatever
    acc + a * w computes on the machine, rounding included, so equal results here are equal bits. */
module Gemm {
  import opened Indexing
  import opened Sums

  datatype Problem<!T> = Problem(
    act: seq<T>,         // [m, k]
    w: seq<int>,         // [n, k], stored numbers
    decode: int -> T,
    zero: T,
    madd: (T, T, T) -> T,
    m: nat, k: nat, n: nat)
  {
    ghost predicate Valid() {
      |act| == m * k && |w| == n * k
    }

    function Act(row: int, i: int): T {
      if 0 <= row * k + i < |act| then act[row * k + i] else zero
    }

    function Weight(col: int, i: int): T {
      if 0 <= col * k + i < |w| then decode(w[col * k + i]) else zero
    }

    /** The accumulator of element (row, col) after i turns of the k-loop. */
    function Partial(row: int, col: int, i: nat): T {
      if i == 0 then zero else madd(Partial(row, col, i - 1), Act(row, i - 1), Weight(col, i - 1))
    }

    function Element(row: int, col: int): T {
      Partial(row, col, k)
    }

    /** Slot x of the output [m, n]. */
    function Slot(x: nat): T
      requires n > 0
    {
      Element(x / n, x % n)
    }
  }

  // ---- serial ----

  method Accumulate<T>(p: Problem<T>, row: nat, col: nat) returns (acc: T)
    requires p.Valid() && row < p.m && col < p.n
    ensures acc == p.Element(row, col)
  {
    acc := p.zero;
    for i := 0 to p.k
      invariant acc == p.Partial(row, col, i)
    {
      InRow(row, p.m, i, p.k);
      InRow(col, p.n, i, p.k);
      acc := p.madd(acc, p.act[row * p.k + i], p.decode(p.w[col * p.k + i]));
    }
  }

  method GemmWt<T>(p: Problem<T>, out: array<T>)
    requires p.Valid() && out.Length == p.m * p.n
    modifies out
    ensures p.n > 0 ==> forall x :: 0 <= x < out.Length ==> out[x] == p.Slot(x)
  {
    hide Problem.Element;
    if p.n == 0 {
      return;
    }
    for row := 0 to p.m
      invariant forall x :: 0 <= x < out.Length && x < row * p.n ==> out[x] == p.Slot(x)
    {
      for col := 0 to p.n
        invariant forall x :: 0 <= x < out.Length && x < row * p.n + col ==> out[x] == p.Slot(x)
      {
        var acc := Accumulate(p, row, col);
        InRow(row, p.m, col, p.n);
        out[row * p.n + col] := acc;
      }
      NextMultiple(row, p.n);
    }
  }

  // ---- parallel ----

  datatype Thread<T> = Working(row: nat, col: nat, i: nat, acc: T) | Done

  /** Column strips: t threads of `chunk` columns each, the last ones possibly short or empty. */
  datatype Split = Split(t: nat, chunk: nat)

  function CeilDiv(a: nat, b: nat): nat
    requires b > 0
  {
    (a + b - 1) / b
  }

  function Strips(n: nat, threads: nat): Split {
    var most := if n > 1 then n else 1;
    var t := if threads < 1 then 1 else if threads > most then most else threads;
    Split(t, CeilDiv(n, t))
  }

  function First(s: Split, tid: nat): nat {
    tid * s.chunk
  }

  function Last(s: Split, tid: nat, n: nat): nat {
    if tid * s.chunk + s.chunk < n then tid * s.chunk + s.chunk else n
  }

  /** The strips partition the columns: column c belongs to thread c / chunk and to no other. */
  lemma StripsPartition(n: nat, threads: nat, c: nat, tid: nat)
    requires c < n
    ensures var s := Strips(n, threads);
      && s.chunk > 0 && c / s.chunk < s.t
      && (First(s, tid) <= c < Last(s, tid, n) <==> tid == c / s.chunk)
  {
    var s := Strips(n, threads);
    ChunksCover(n, s.t);
    hide Strips, CeilDiv;
    ChunkOf(c, s.chunk, tid);
    ChunkOf(c, s.chunk, c / s.chunk);
    if c / s.chunk >= s.t {
      MulMono(s.t, c / s.chunk, s.chunk);
    }
  }

  lemma ChunkOf(c: nat, chunk: nat, tid: nat)
    requires chunk > 0
    ensures tid * chunk <= c < tid * chunk + chunk <==> tid == c / chunk
  {
    assert c == c / chunk * chunk + c % chunk;
    if tid * chunk <= c < tid * chunk + chunk {
      ModIs(c, tid, c - tid * chunk, chunk);
    }
  }

  lemma ChunksCover(n: nat, t: nat)
    requires n > 0 && t > 0
    ensures CeilDiv(n, t) > 0 && t * CeilDiv(n, t) >= n
  {
    var x := n + t - 1;
    var q := x / t;
    assert x == q * t + x % t;
    if q <= 0 {
      MulMono(q, 0, t);
    }
  }

  datatype State<T> = State(out: seq<T>, threads: seq<Thread<T>>)

  /** A thread whose strip is empty is never spawned; neither does one with no rows do anything. */
  function Start<T>(p: Problem<T>, s: Split, out: seq<T>): State<T> {
    State(out, seq(s.t, tid requires 0 <= tid < s.t =>
      if First(s, tid) >= p.n || p.m == 0 then Done else Working(0, First(s, tid), 0, p.zero)))
  }

  /** Where a thread goes after storing its element. */
  function Advance<T>(p: Problem<T>, s: Split, tid: nat, th: Thread<T>): Thread<T>
    requires th.Working?
  {
    if th.col + 1 < Last(s, tid, p.n) then Working(th.row, th.col + 1, 0, p.zero)
    else if th.row + 1 < p.m then Working(th.row + 1, First(s, tid), 0, p.zero)
    else Done
  }

  /** One step of one thread: a turn of the k-loop, or the store. Other threads' steps leave it as it is. */
  function Step<T>(p: Problem<T>, s: Split, st: State<T>, tid: nat): State<T> {
    if tid >= |st.threads| || st.threads[tid].Done? then st
    else
      var th := st.threads[tid];
      if th.i < p.k then
        var acc := p.madd(th.acc, p.Act(th.row, th.i), p.Weight(th.col, th.i));
        st.(threads := st.threads[tid := Working(th.row, th.col, th.i + 1, acc)])
      else if th.row * p.n + th.col < |st.out| then
        State(st.out[th.row * p.n + th.col := th.acc], st.threads[tid := Advance(p, s, tid, th)])
      else st
  }

  function Run<T>(p: Problem<T>, s: Split, st: State<T>, schedule: seq<nat>): State<T> {
    if schedule == [] then st
    else Step(p, s, Run(p, s, st, schedule[..|schedule| - 1]), schedule[|schedule| - 1])
  }

  /** The thread has passed element (r, c) of its strip. */
  predicate Passed<T>(th: Thread<T>, r: nat, c: nat) {
    th.Done? || r < th.row || (r == th.row && c < th.col)
  }

  ghost predicate ThreadOk<T>(p: Problem<T>, s: Split, tid: nat, th: Thread<T>) {
    th.Working? ==>
      && th.row < p.m && First(s, tid) <= th.col < Last(s, tid, p.n) && th.i <= p.k
      && th.acc == p.Partial(th.row, th.col, th.i)
  }

  /** Each slot holds its element once its owner has passed it, and its initial value until then. */
  ghost predicate SlotOk<T>(p: Problem<T>, s: Split, out: seq<T>, threads: seq<Thread<T>>, initial: seq<T>, x: nat)
    requires p.n > 0 && s.chunk > 0 && x < |out| == |initial|
  {
    Settled(p, out, threads, initial, x, x / p.n, x % p.n, x % p.n / s.chunk)
  }

  ghost predicate Settled<T>(p: Problem<T>, out: seq<T>, threads: seq<Thread<T>>, initial: seq<T>, x: nat, r: int,
                             c: int, owner: int)
    requires x < |out| == |initial|
  {
    && 0 <= owner < |threads| && 0 <= r && 0 <= c
    && out[x] == if Passed(threads[owner], r, c) then p.Element(r, c) else initial[x]
  }

  ghost predicate Inv<T>(p: Problem<T>, s: Split, st: State<T>, initial: seq<T>)
    requires p.n > 0 && s.chunk > 0
  {
    && |st.out| == |initial| == p.m * p.n && |st.threads| == s.t
    && (forall tid :: 0 <= tid < s.t ==> ThreadOk(p, s, tid, st.threads[tid]))
    && (forall x :: 0 <= x < |st.out| ==> SlotOk(p, s, st.out, st.threads, initial, x))
  }

  lemma SlotOwner<T>(p: Problem<T>, threads: nat, x: nat)
    requires p.n > 0 && x < p.m * p.n
    ensures x / p.n < p.m && Strips(p.n, threads).chunk > 0
    ensures var s, c := Strips(p.n, threads), x % p.n;
      c / s.chunk < s.t && First(s, c / s.chunk) <= c < Last(s, c / s.chunk, p.n)
  {
    hide Strips, First, Last;
    var s, c := Strips(p.n, threads), x % p.n;
    StripsPartition(p.n, threads, c, 0);
    StripsPartition(p.n, threads, c, c / s.chunk);
    DividesDown(x, p.m, p.n);
  }

  lemma InvStart<T>(p: Problem<T>, threads: nat, initial: seq<T>)
    requires p.n > 0 && |initial| == p.m * p.n
    ensures Strips(p.n, threads).chunk > 0
    ensures Inv(p, Strips(p.n, threads), Start(p, Strips(p.n, threads), initial), initial)
  {
    var s := Strips(p.n, threads);
    ChunksCover(p.n, s.t);
    var st := Start(p, s, initial);
    hide Strips, Problem.Slot, SlotOk, First, Last;
    forall x | 0 <= x < |initial| ensures SlotOk(p, s, st.out, st.threads, initial, x) {
      SlotStarts(p, threads, initial, x);
    }
    forall tid | 0 <= tid < s.t ensures ThreadOk(p, s, tid, st.threads[tid]) {
      ThreadStarts(p, s, initial, tid);
    }
  }

  lemma ThreadStarts<T>(p: Problem<T>, s: Split, initial: seq<T>, tid: nat)
    requires p.n > 0 && s.chunk > 0 && tid < s.t
    ensures ThreadOk(p, s, tid, Start(p, s, initial).threads[tid])
  {
  }

  lemma SlotStarts<T>(p: Problem<T>, threads: nat, initial: seq<T>, x: nat)
    requires p.n > 0 && |initial| == p.m * p.n && x < |initial|
    ensures var s := Strips(p.n, threads);
      s.chunk > 0 && SlotOk(p, s, initial, Start(p, s, initial).threads, initial, x)
  {
    hide Strips, First, Last, Problem.Element;
    SlotOwner(p, threads, x);
  }

  /** A turn of the k-loop touches no slot. */
  lemma InvTurn<T>(p: Problem<T>, s: Split, st: State<T>, initial: seq<T>, tid: nat)
    requires p.n > 0 && s.chunk > 0 && Inv(p, s, st, initial)
    requires tid < s.t && st.threads[tid].Working? && st.threads[tid].i < p.k
    ensures Inv(p, s, Step(p, s, st, tid), initial)
  {
    hide Problem.Slot, First, Last, Problem.Act, Problem.Weight;
    var st' := Step(p, s, st, tid);
    forall x | 0 <= x < |st'.out| ensures SlotOk(p, s, st'.out, st'.threads, initial, x) {
      assert SlotOk(p, s, st.out, st.threads, initial, x);
    }
    forall t | 0 <= t < s.t ensures ThreadOk(p, s, t, st'.threads[t]) {
      assert ThreadOk(p, s, t, st.threads[t]);
    }
  }

  /** What a store lets a thread pass: its own element and no other of its strip. */
  lemma AdvancePasses<T>(p: Problem<T>, s: Split, tid: nat, th: Thread<T>, r: nat, c: nat)
    requires th.Working? && ThreadOk(p, s, tid, th) && r < p.m && First(s, tid) <= c < Last(s, tid, p.n)
    ensures Passed(Advance(p, s, tid, th), r, c) <==> Passed(th, r, c) || (r == th.row && c == th.col)
    ensures ThreadOk(p, s, tid, Advance(p, s, tid, th))
  {
  }

  /** The store of thread tid settles its own slot and leaves the others as they were. */
  lemma SlotAfterStore<T>(p: Problem<T>, threads: nat, st: State<T>, initial: seq<T>, tid: nat, x: nat)
    requires p.n > 0 && Strips(p.n, threads).chunk > 0 && |initial| == |st.out| == p.m * p.n && x < |st.out|
    requires tid < |st.threads| && st.threads[tid].Working? && st.threads[tid].i == p.k
    requires ThreadOk(p, Strips(p.n, threads), tid, st.threads[tid])
    requires SlotOk(p, Strips(p.n, threads), st.out, st.threads, initial, x)
    ensures var s, th := Strips(p.n, threads), st.threads[tid];
      var slot := th.row * p.n + th.col;
      && 0 <= slot < |st.out|
      && SlotOk(p, s, st.out[slot := th.acc], st.threads[tid := Advance(p, s, tid, th)], initial, x)
  {
    var s, th := Strips(p.n, threads), st.threads[tid];
    StripBelow(p, threads, tid, th.col);
    InRow(th.row, p.m, th.col, p.n);
    SlotOwner(p, threads, x);
    StripsPartition(p.n, threads, th.col, tid);
    SlotIndex(th.row, th.col, p.n, x);
    hide Strips, Advance, First, Last, Settled, ThreadOk;
    SettledAfterStore(p, s, st, initial, tid, x, th.row * p.n + th.col, x / p.n, x % p.n, x % p.n / s.chunk);
  }

  lemma SlotIndex(row: nat, col: nat, n: nat, x: nat)
    requires col < n
    ensures x == row * n + col <==> x / n == row && x % n == col
  {
    assert x == x / n * n + x % n;
    if x == row * n + col {
      ModIs(x, row, col, n);
    }
  }

  lemma SettledAfterStore<T>(p: Problem<T>, s: Split, st: State<T>, initial: seq<T>, tid: nat, x: nat, slot: nat,
                             r: int, c: int, owner: int)
    requires x < |initial| == |st.out| && slot < |st.out| && tid < |st.threads| && st.threads[tid].Working?
      && st.threads[tid].i == p.k
    requires ThreadOk(p, s, tid, st.threads[tid])
    requires Settled(p, st.out, st.threads, initial, x, r, c, owner)
    requires r < p.m && First(s, owner) <= c < Last(s, owner, p.n)
    requires x == slot <==> r == st.threads[tid].row && c == st.threads[tid].col
    requires x == slot ==> owner == tid
    ensures Settled(p, st.out[slot := st.threads[tid].acc],
              st.threads[tid := Advance(p, s, tid, st.threads[tid])], initial, x, r, c, owner)
  {
    if owner == tid {
      hide Advance, First, Last, Problem.Partial;
      AdvancePasses(p, s, tid, st.threads[tid], r, c);
    }
  }

  lemma StripBelow<T>(p: Problem<T>, threads: nat, tid: nat, c: nat)
    requires c < Last(Strips(p.n, threads), tid, p.n)
    ensures c < p.n
  {
  }

  lemma InvStore<T>(p: Problem<T>, threads: nat, st: State<T>, initial: seq<T>, tid: nat)
    requires p.n > 0 && Strips(p.n, threads).chunk > 0 && Inv(p, Strips(p.n, threads), st, initial)
    requires tid < |st.threads| && st.threads[tid].Working? && st.threads[tid].i == p.k
    ensures Inv(p, Strips(p.n, threads), Step(p, Strips(p.n, threads), st, tid), initial)
    ensures Step(p, Strips(p.n, threads), st, tid).threads ==
         st.threads[tid := Advance(p, Strips(p.n, threads), tid, st.threads[tid])]
  {
    var s, th := Strips(p.n, threads), st.threads[tid];
    assert ThreadOk(p, s, tid, th);
    hide Strips, SlotOk, Advance, First, Last;
    if st.out == [] {
      StripBelow(p, threads, tid, th.col);
      InRow(th.row, p.m, th.col, p.n);
    } else {
      assert SlotOk(p, s, st.out, st.threads, initial, 0);
      SlotAfterStore(p, threads, st, initial, tid, 0);
    }
    var st' := Step(p, s, st, tid);
    forall x | 0 <= x < |st'.out| ensures SlotOk(p, s, st'.out, st'.threads, initial, x) {
      assert SlotOk(p, s, st.out, st.threads, initial, x);
      SlotAfterStore(p, threads, st, initial, tid, x);
    }
    forall t | 0 <= t < s.t ensures ThreadOk(p, s, t, st'.threads[t]) {
      assert ThreadOk(p, s, t, st.threads[t]);
      AdvancePasses(p, s, tid, th, th.row, th.col);
    }
  }

  /** At every point of every interleaving each slot is untouched or final. */
  lemma {:induction false} RunKeepsInv<T>(p: Problem<T>, threads: nat, initial: seq<T>, schedule: seq<nat>)
    requires p.n > 0 && |initial| == p.m * p.n
    ensures var s := Strips(p.n, threads);
      && s.chunk > 0 && Inv(p, s, Run(p, s, Start(p, s, initial), schedule), initial)
      && |Start(p, s, initial).threads| == |Run(p, s, Start(p, s, initial), schedule).threads| == s.t
    decreases |schedule|
  {
    var s := Strips(p.n, threads);
    hide Strips, Start;
    InvStart(p, threads, initial);
    if schedule != [] {
      var front, tid := schedule[..|schedule| - 1], schedule[|schedule| - 1];
      RunKeepsInv(p, threads, initial, front);
      StepKeepsInv(p, threads, Run(p, s, Start(p, s, initial), front), initial, tid);
    }
  }

  lemma StepKeepsInv<T>(p: Problem<T>, threads: nat, st: State<T>, initial: seq<T>, tid: nat)
    requires p.n > 0 && Strips(p.n, threads).chunk > 0 && Inv(p, Strips(p.n, threads), st, initial)
    ensures Inv(p, Strips(p.n, threads), Step(p, Strips(p.n, threads), st, tid), initial)
  {
    var s := Strips(p.n, threads);
    if tid < |st.threads| && st.threads[tid].Working? {
      assert ThreadOk(p, s, tid, st.threads[tid]);
      hide Strips, SlotOk;
      if st.threads[tid].i < p.k {
        InvTurn(p, s, st, initial, tid);
      } else {
        InvStore(p, threads, st, initial, tid);
      }
    }
  }

  // ---- how long it takes ----

  /** Steps a thread still has to make: k turns and a store for every element left in its strip. */
  function Left<T>(p: Problem<T>, s: Split, tid: nat, th: Thread<T>): int {
    if th.Done? then 0
    else Elements(p.m - th.row, Last(s, tid, p.n) - First(s, tid), th.col - First(s, tid)) * (p.k + 1) - th.i
  }

  function Elements(rows: int, width: int, done: int): int {
    rows * width - done
  }

  /** Every step of a working thread uses up exactly one of them. */
  lemma StepUsesOne<T>(p: Problem<T>, s: Split, tid: nat, th: Thread<T>, acc: T)
    requires th.Working? && ThreadOk(p, s, tid, th)
    ensures Left(p, s, tid, th) >= 1
    ensures th.i < p.k ==> Left(p, s, tid, Working(th.row, th.col, th.i + 1, acc)) == Left(p, s, tid, th) - 1
    ensures th.i == p.k ==> Left(p, s, tid, Advance(p, s, tid, th)) == Left(p, s, tid, th) - 1
  {
    var width, done := Last(s, tid, p.n) - First(s, tid), th.col - First(s, tid);
    hide First, Last, Problem.Partial;
    ElementsLeft(p.m - th.row, width, done, p.k);
  }

  lemma ElementsLeft(rows: int, width: int, done: int, k: nat)
    requires rows >= 1 && 0 <= done < width
    ensures Elements(rows, width, done) >= 1 && Elements(rows, width, done) * (k + 1) >= k + 1
    ensures Elements(rows, width, done + 1) * (k + 1) == Elements(rows, width, done) * (k + 1) - (k + 1)
    ensures done + 1 == width ==> Elements(rows - 1, width, 0) == Elements(rows, width, done + 1)
    ensures done + 1 == width && rows == 1 ==> Elements(rows, width, done + 1) == 0
  {
    var e := Elements(rows, width, done);
    assert rows * width == (rows - 1) * width + width;
    MulMono(0, rows - 1, width);
    assert Elements(rows, width, done + 1) == e - 1;
    assert (e - 1) * (k + 1) == e * (k + 1) - (k + 1);
    MulMono(1, e, k + 1);
  }

  function Turns(schedule: seq<nat>, tid: nat): nat {
    if schedule == [] then 0
    else Turns(schedule[..|schedule| - 1], tid) + if schedule[|schedule| - 1] == tid then 1 else 0
  }

  /** After any schedule a thread has its initial work left, less one for each turn it was given. */
  lemma {:induction false} RunUsesTurns<T>(p: Problem<T>, threads: nat, initial: seq<T>, schedule: seq<nat>, tid: nat)
    requires p.n > 0 && |initial| == p.m * p.n && tid < Strips(p.n, threads).t
    ensures var s := Strips(p.n, threads);
      var st, st' := Start(p, s, initial), Run(p, s, Start(p, s, initial), schedule);
      && |st.threads| == |st'.threads| == s.t
      && Left(p, s, tid, st'.threads[tid])
           == (if Turns(schedule, tid) <= Left(p, s, tid, st.threads[tid])
               then Left(p, s, tid, st.threads[tid]) - Turns(schedule, tid) else 0)
    decreases |schedule|
  {
    var s := Strips(p.n, threads);
    RunKeepsInv(p, threads, initial, schedule);
    ThreadStarts(p, s, initial, tid);
    LeftNonNegative(p, s, tid, Start(p, s, initial).threads[tid]);
    hide Strips, Start, Left, Inv, Step, ThreadOk;
    if schedule != [] {
      var front, last := schedule[..|schedule| - 1], schedule[|schedule| - 1];
      var before := Run(p, s, Start(p, s, initial), front);
      RunKeepsInv(p, threads, initial, front);
      RunUsesTurns(p, threads, initial, front, tid);
      OneTurn(p, threads, before, initial, last, tid);
    }
  }

  lemma LeftNonNegative<T>(p: Problem<T>, s: Split, tid: nat, th: Thread<T>)
    requires ThreadOk(p, s, tid, th)
    ensures Left(p, s, tid, th) >= 0 && (Left(p, s, tid, th) == 0 <==> th.Done?)
  {
    if th.Working? {
      StepUsesOne(p, s, tid, th, th.acc);
    }
  }

  lemma OneTurn<T>(p: Problem<T>, threads: nat, st: State<T>, initial: seq<T>, last: nat, tid: nat)
    requires p.n > 0 && Strips(p.n, threads).chunk > 0 && Inv(p, Strips(p.n, threads), st, initial)
    requires tid < |st.threads|
    ensures var s := Strips(p.n, threads);
      var st' := Step(p, s, st, last);
      && |st'.threads| == |st.threads|
      && Left(p, s, tid, st'.threads[tid])
           == Left(p, s, tid, st.threads[tid]) - (if last == tid && Left(p, s, tid, st.threads[tid]) > 0 then 1 else 0)
  {
    var s := Strips(p.n, threads);
    assert ThreadOk(p, s, tid, st.threads[tid]);
    hide Strips, SlotOk, Left, Advance;
    LeftNonNegative(p, s, tid, st.threads[tid]);
    if last == tid && st.threads[tid].Working? {
      var th := st.threads[tid];
      StepUsesOne(p, s, tid, th, p.madd(th.acc, p.Act(th.row, th.i), p.Weight(th.col, th.i)));
      if st.threads[tid].i == p.k {
        InvStore(p, threads, st, initial, tid);
      }
    }
  }

  /** Every interleaving that gives each thread enough turns ends with the serial result, in every slot. */
  lemma ParallelEqualsSerial<T>(p: Problem<T>, threads: nat, initial: seq<T>, schedule: seq<nat>)
    requires p.n > 0 && |initial| == p.m * p.n
    ensures var s := Strips(p.n, threads);
      var st, end := Start(p, s, initial), Run(p, s, Start(p, s, initial), schedule);
      && |st.threads| == |end.threads| == s.t
      && ((forall tid :: 0 <= tid < s.t ==> end.threads[tid].Done?)
          <==> forall tid :: 0 <= tid < s.t ==> Turns(schedule, tid) >= Left(p, s, tid, st.threads[tid]))
      && ((forall tid :: 0 <= tid < s.t ==> end.threads[tid].Done?)
          ==> |end.out| == |initial| && forall x :: 0 <= x < |end.out| ==> end.out[x] == p.Slot(x))
  {
    var s := Strips(p.n, threads);
    RunKeepsInv(p, threads, initial, schedule);
    var st, end := Start(p, s, initial), Run(p, s, Start(p, s, initial), schedule);
    forall tid | 0 <= tid < s.t ensures end.threads[tid].Done? <==>
      Turns(schedule, tid) >= Left(p, s, tid, st.threads[tid])
    {
      RunUsesTurns(p, threads, initial, schedule, tid);
      LeftNonNegative(p, s, tid, end.threads[tid]);
    }
    forall x | 0 <= x < |end.out|
      ensures (forall tid :: 0 <= tid < s.t ==> end.threads[tid].Done?) ==> end.out[x] == p.Slot(x)
    {
      assert SlotOk(p, s, end.out, end.threads, initial, x);
    }
  }

  // ---- over the reals ----

  /** Plain multiply-and-add over the reals. */
  ghost predicate IsReal(p: Problem<real>) {
    p.zero == 0.0 && forall a, x, y :: p.madd(a, x, y) == a + x * y
  }

  /** The terms of element (row, col), by buffer positions. */
  ghost function BufferTerms(p: Problem<real>, row: nat, col: nat): int -> real {
    j => At(p.act)(row * p.k + j) * p.decode(Stored(p.w, col * p.k + j))
  }

  lemma {:induction false} PartialIsSum(p: Problem<real>, row: nat, col: nat, i: nat)
    requires p.Valid() && IsReal(p) && row < p.m && col < p.n && i <= p.k
    ensures p.Partial(row, col, i) == Sum(i, BufferTerms(p, row, col))
  {
    if i > 0 {
      PartialIsSum(p, row, col, i - 1);
      InRow(row, p.m, i - 1, p.k);
      InRow(col, p.n, i - 1, p.k);
      var x, y := p.Act(row, i - 1), p.Weight(col, i - 1);
      assert At(p.act)(row * p.k + (i - 1)) == x && p.decode(Stored(p.w, col * p.k + (i - 1))) == y;
      assert BufferTerms(p, row, col)(i - 1) == x * y;
      hide BufferTerms;
      assert p.madd(p.Partial(row, col, i - 1), x, y) == p.Partial(row, col, i - 1) + x * y;
    }
  }

  function Stored(w: seq<int>, x: int): int {
    if 0 <= x < |w| then w[x] else 0
  }

  /** Over the reals, slot row * n + col of the output is the dot product of activation row `row` and decoded weight
      row `col`, each k numbers long in its own buffer. */
  lemma SlotIsDotProduct(p: Problem<real>, row: nat, col: nat)
    requires p.Valid() && IsReal(p) && row < p.m && col < p.n
    ensures 0 <= row * p.n + col < p.m * p.n
    ensures p.Slot(row * p.n + col) == Sum(p.k, BufferTerms(p, row, col))
  {
    InRow(row, p.m, col, p.n);
    PartialIsSum(p, row, col, p.k);
  }
}
