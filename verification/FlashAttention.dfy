/** Attention over head-major tensors, and the fused kernel that computes it one threadgroup per
    (query head, query position) with online softmax. */
module Attention {
  import opened Indexing
  import opened Softmax
  import opened Sums

  /** One attention problem, free of any memory layout: elements are indexed by (head, position, dimension). */
  datatype Problem = Problem(
    q: (int, int, int) -> real,
    k: (int, int, int) -> real,
    v: (int, int, int) -> real,
    headDim: nat,
    group: nat,      // query heads per key/value head
    scale: real)
  {
    ghost function Query(h: nat, t: nat): int -> real {
      d => q(h, t, d)
    }

    ghost function Key(h: nat, j: int): int -> real
      requires group > 0
    {
      d => k(h / group, j, d)
    }

    ghost function Score(h: nat, t: nat): int -> real
      requires group > 0
    {
      j => Sum(headDim, Product(Query(h, t), Key(h, j))) * scale
    }

    ghost function Column(h: nat, d: int): int -> real
      requires group > 0
    {
      j => v(h / group, j, d)
    }

    /** Query head h at position t, looking at the first `keys` positions; output dimension d. */
    ghost function Output(exp: real -> real, keys: nat, h: nat, t: nat, d: int): real
      requires group > 0 && IsExp(exp)
    {
      Attend(exp, keys, Score(h, t), Column(h, d))
    }
  }

  /** Problems with the same elements have the same outputs. */
  lemma SameElements(p: Problem, p': Problem, exp: real -> real, keys: nat, h: nat, t: nat, d: nat)
    requires IsExp(exp) && p.group == p'.group > 0 && p.headDim == p'.headDim && p.scale == p'.scale && d < p.headDim
    requires SameQueryRow(p, p', h, t) && SameKeyRows(p, p', h / p.group, keys)
    ensures p.Output(exp, keys, h, t, d) == p'.Output(exp, keys, h, t, d)
  {
    forall j | 0 <= j < keys ensures p.Score(h, t)(j) == p'.Score(h, t)(j) {
      SumExt(p.headDim, Product(p.Query(h, t), p.Key(h, j)), Product(p'.Query(h, t), p'.Key(h, j)));
    }
    AttendExt(exp, keys, p.Score(h, t), p.Column(h, d), p'.Score(h, t), p'.Column(h, d));
  }

  ghost predicate SameQueryRow(p: Problem, p': Problem, h: nat, t: nat) {
    forall e :: 0 <= e < p.headDim ==> p.q(h, t, e) == p'.q(h, t, e)
  }

  ghost predicate SameKeyRows(p: Problem, p': Problem, kvh: nat, keys: nat) {
    forall j, e :: 0 <= j < keys && 0 <= e < p.headDim ==>
      p.k(kvh, j, e) == p'.k(kvh, j, e) && p.v(kvh, j, e) == p'.v(kvh, j, e)
  }

  method Scaled(ghost p: Problem, ghost h: nat, ghost t: nat, ghost j: int, dot: real, scale: real)
    returns (score: real)
    requires p.group > 0 && p.scale == scale && dot == Sum(p.headDim, Product(p.Query(h, t), p.Key(h, j)))
    ensures score == p.Score(h, t)(j)
  {
    score := dot * scale;
  }

  /** Row r = i * n + k of a matrix whose rows are numbered by (i, k), element d. */
  lemma RowIndex(i: nat, k: nat, n: nat, d: nat, m: nat)
    ensures i * n * m + k * m + d == (i * n + k) * m + d >= 0
  {
    MulMono(0, i, n);
    MulMono(0, i * n + k, m);
    assert (i * n + k) * m == i * n * m + k * m;
  }
}

module FlashAttention {
  import opened Attention
  import opened Indexing
  import opened Reduction
  import opened Softmax
  import opened Sums

  /** Element (h, t, d) of a head-major buffer [heads, positions, headDim]. */
  ghost function Element(buffer: seq<real>, h: int, t: int, d: int, positions: nat, headDim: nat): real {
    At(buffer)(h * positions * headDim + t * headDim + d)
  }

  const INITIAL_MAX: real := -1e38

  /** The kernel's flat buffers and template arguments. */
  datatype Launch = Launch(
    q: seq<real>,       // [numHeads, seqQ, headDim]
    k: seq<real>,       // [numKvHeads, seqKv, headDim]
    v: seq<real>,
    numHeads: nat, numKvHeads: nat, seqQ: nat, seqKv: nat, headDim: nat,
    gqaFactor: nat, scale: real, causal: bool, kvOffset: nat)
  {
    ghost predicate Valid() {
      && numKvHeads > 0 && gqaFactor > 0 && numHeads == numKvHeads * gqaFactor
      && |q| == numHeads * seqQ * headDim
      && |k| == |v| == numKvHeads * seqKv * headDim
    }

    ghost function Problem(): (p: Problem)
      ensures p.group == gqaFactor && p.headDim == headDim && p.scale == scale
    {
      Attention.Problem.Problem(
        (h, t, d) => Element(q, h, t, d, seqQ, headDim),
        (h, t, d) => Element(k, h, t, d, seqKv, headDim),
        (h, t, d) => Element(v, h, t, d, seqKv, headDim),
        headDim, gqaFactor, scale)
    }

    /** max_kv_pos */
    function Limit(t: nat): nat {
      if causal && t + kvOffset + 1 < seqKv then t + kvOffset + 1 else seqKv
    }

    /** Element p of the output buffer [numHeads, seqQ, headDim]. */
    ghost function Cell(exp: real -> real, p: nat): real
      requires Valid() && IsExp(exp) && headDim > 0 && seqQ > 0
    {
      RowCell(exp, p / headDim, p % headDim)
    }

    /** Element d of the row that threadgroup tg computes. */
    ghost function RowCell(exp: real -> real, tg: nat, d: int): real
      requires Valid() && IsExp(exp) && seqQ > 0
    {
      Problem().Output(exp, Limit(tg % seqQ), tg / seqQ, tg % seqQ, d)
    }
  }

  /** The cooperative dot product of the shared query row with key row `kvOff`. */
  method CooperativeDot(sharedQ: array<real>, k: seq<real>, kvOff: nat, sharedDot: array<real>,
                        ghost query: int -> real, ghost key: int -> real)
    returns (dot: real)
    requires sharedQ != sharedDot && sharedQ.Length == sharedDot.Length && IsPow2(sharedDot.Length)
    requires kvOff + sharedDot.Length <= |k|
    requires forall d :: 0 <= d < sharedDot.Length ==> query(d) == sharedQ[d] && key(d) == k[kvOff + d]
    modifies sharedDot
    ensures dot == Sum(sharedDot.Length, Product(query, key))
  {
    for d := 0 to sharedDot.Length
      invariant forall e :: 0 <= e < d ==> sharedDot[e] == Product(query, key)(e)
    {
      sharedDot[d] := sharedQ[d] * k[kvOff + d];
    }
    ghost var products := sharedDot[..];
    TreeReduce(sharedDot);
    TreeIsTotal(products);
    SumExt(|products|, At(products), Product(query, key));
    dot := sharedDot[0];
  }

  /** One thread's private registers: running maximum, weight and blend. */
  datatype Registers = Registers(m: real, l: real, acc: real) {
    /** The thread has absorbed the first n keys. */
    ghost predicate Seen(exp: real -> real, n: nat, s: int -> real, v: int -> real) {
      l == Weight(exp, n, s, m) && acc == Blend(exp, n, s, v, m)
    }
  }

  /** The online softmax update of one thread for key n. */
  method Absorb(r: Registers, exp: real -> real, score: real, value: real, ghost n: nat, ghost s: int -> real,
                ghost v: int -> real)
    returns (r': Registers)
    requires IsExp(exp) && r.Seen(exp, n, s, v) && s(n) == score && v(n) == value
    ensures r'.Seen(exp, n + 1, s, v)
    ensures r'.m == if score > r.m then score else r.m
  {
    var newM := if score > r.m then score else r.m;
    var correction := exp(r.m - newM);
    var weight := exp(score - newM);
    OnlineStep(exp, n, s, v, r.m, newM);
    r' := Registers(newM, r.l * correction + weight, r.acc * correction + weight * value);
  }

  /** Every thread d of the group has absorbed the first n keys of its own column. */
  ghost predicate AllSeen(regs: seq<Registers>, launch: Launch, exp: real -> real, headQ: nat, qPos: nat, n: nat)
    requires launch.Valid()
  {
    forall d :: 0 <= d < |regs| ==>
      regs[d].Seen(exp, n, launch.Problem().Score(headQ, qPos), launch.Problem().Column(headQ, d))
  }

  /** Where the group's key row kv starts in the key and value buffers. */
  method KeyOffset(launch: Launch, headQ: nat, qPos: nat, kv: nat) returns (kvOff: nat)
    requires launch.Valid() && headQ < launch.numHeads && qPos < launch.seqQ && kv < launch.seqKv
    ensures kvOff + launch.headDim <= |launch.k| == |launch.v|
    ensures forall d :: 0 <= d < launch.headDim ==> launch.Problem().Key(headQ, kv)(d) == launch.k[kvOff + d]
    ensures forall d :: 0 <= d < launch.headDim ==> launch.Problem().Column(headQ, d)(kv) == launch.v[kvOff + d]
  {
    var headKv := headQ / launch.gqaFactor;
    QueryBounds(launch, headQ, qPos);
    KeyBounds(launch, headKv, kv);
    kvOff := headKv * launch.seqKv * launch.headDim + kv * launch.headDim;
    KeyRow(launch, headQ, kv, kvOff);
  }

  lemma KeyRow(launch: Launch, headQ: nat, kv: nat, kvOff: nat)
    requires launch.gqaFactor > 0 && kvOff + launch.headDim <= |launch.k| == |launch.v|
    requires kvOff == headQ / launch.gqaFactor * launch.seqKv * launch.headDim + kv * launch.headDim
    ensures forall d :: 0 <= d < launch.headDim ==> launch.Problem().Key(headQ, kv)(d) == launch.k[kvOff + d]
    ensures forall d :: 0 <= d < launch.headDim ==> launch.Problem().Column(headQ, d)(kv) == launch.v[kvOff + d]
  {
    hide Launch.Problem;
    forall d | 0 <= d < launch.headDim
      ensures launch.Problem().Key(headQ, kv)(d) == launch.k[kvOff + d]
      ensures launch.Problem().Column(headQ, d)(kv) == launch.v[kvOff + d]
    {
      KeyElement(launch, headQ / launch.gqaFactor, kv, d);
    }
  }

  lemma NothingSeen(regs: seq<Registers>, launch: Launch, exp: real -> real, headQ: nat, qPos: nat)
    requires launch.Valid() && forall d :: 0 <= d < |regs| ==> regs[d].l == regs[d].acc == 0.0
    ensures AllSeen(regs, launch, exp, headQ, qPos, 0)
  {
  }

  lemma SeenAt(regs: seq<Registers>, launch: Launch, exp: real -> real, headQ: nat, qPos: nat, n: nat, d: nat)
    requires launch.Valid() && d < |regs| && AllSeen(regs, launch, exp, headQ, qPos, n)
    ensures regs[d].Seen(exp, n, launch.Problem().Score(headQ, qPos), launch.Problem().Column(headQ, d))
  {
  }

  /** All threads cooperate in loading the query row. */
  method LoadQuery(launch: Launch, headQ: nat, qPos: nat) returns (sharedQ: array<real>)
    requires launch.Valid() && headQ < launch.numHeads && qPos < launch.seqQ
    ensures fresh(sharedQ) && sharedQ.Length == launch.headDim
    ensures forall d :: 0 <= d < launch.headDim ==> sharedQ[d] == launch.Problem().Query(headQ, qPos)(d)
  {
    QueryBounds(launch, headQ, qPos);
    var base := headQ * launch.seqQ * launch.headDim + qPos * launch.headDim;
    sharedQ := new real[launch.headDim](d requires 0 <= d < launch.headDim => launch.q[base + d]);
    forall d | 0 <= d < launch.headDim ensures sharedQ[d] == launch.Problem().Query(headQ, qPos)(d) {
      QueryElement(launch, headQ, qPos, d);
    }
  }

  /** All threads of a group absorb key kv. */
  method AbsorbKey(launch: Launch, exp: real -> real, headQ: nat, qPos: nat, kv: nat, kvOff: nat, score: real,
                   regs: array<Registers>)
    requires launch.Valid() && IsExp(exp) && regs.Length == launch.headDim
    requires score == launch.Problem().Score(headQ, qPos)(kv)
    requires kvOff + launch.headDim <= |launch.v|
    requires forall d :: 0 <= d < launch.headDim ==> launch.Problem().Column(headQ, d)(kv) == launch.v[kvOff + d]
    requires AllSeen(regs[..], launch, exp, headQ, qPos, kv)
    modifies regs
    ensures AllSeen(regs[..], launch, exp, headQ, qPos, kv + 1)
  {
    ghost var s := launch.Problem().Score(headQ, qPos);
    for d := 0 to launch.headDim
      invariant AllSeen(regs[..d], launch, exp, headQ, qPos, kv + 1)
      invariant regs[d..] == old(regs[d..])
    {
      ghost var column := launch.Problem().Column(headQ, d);
      assert regs[d] == old(regs[..])[d];
      var r := Absorb(regs[d], exp, score, launch.v[kvOff + d], kv, s, column);
      regs[d] := r;
    }
    assert regs[..] == regs[..launch.headDim];
  }

  /** The key loop of one threadgroup, query row (headQ, qPos). */
  method KeyLoop(launch: Launch, exp: real -> real, headQ: nat, qPos: nat) returns (regs: array<Registers>)
    requires launch.Valid() && IsExp(exp) && IsPow2(launch.headDim)
    requires headQ < launch.numHeads && qPos < launch.seqQ
    ensures fresh(regs) && regs.Length == launch.headDim
    ensures AllSeen(regs[..], launch, exp, headQ, qPos, launch.Limit(qPos))
  {
    hide Sum, Product, AllSeen;
    var sharedQ := LoadQuery(launch, headQ, qPos);
    var sharedDot := new real[launch.headDim];
    regs := new Registers[launch.headDim](_ => Registers(INITIAL_MAX, 0.0, 0.0));
    NothingSeen(regs[..], launch, exp, headQ, qPos);
    for kv := 0 to launch.Limit(qPos)
      invariant forall d :: 0 <= d < launch.headDim ==> sharedQ[d] == launch.Problem().Query(headQ, qPos)(d)
      invariant AllSeen(regs[..], launch, exp, headQ, qPos, kv)
    {
      var kvOff := KeyOffset(launch, headQ, qPos, kv);
      var dot := CooperativeDot(sharedQ, launch.k, kvOff, sharedDot,
        launch.Problem().Query(headQ, qPos), launch.Problem().Key(headQ, kv));
      var score := Scaled(launch.Problem(), headQ, qPos, kv, dot, launch.scale);
      AbsorbKey(launch, exp, headQ, qPos, kv, kvOff, score, regs);
    }
  }

  /** The guarded quotients of all threads of a group. */
  method Quotients(launch: Launch, exp: real -> real, tg: nat, regs: array<Registers>) returns (row: seq<real>)
    requires launch.Valid() && IsExp(exp) && launch.seqQ > 0 && regs.Length == launch.headDim
    requires AllSeen(regs[..], launch, exp, tg / launch.seqQ, tg % launch.seqQ, launch.Limit(tg % launch.seqQ))
    ensures row == RowCells(launch, exp, tg)
  {
    hide AllSeen, RowCells, Launch.RowCell, Launch.Problem, Launch.Limit;
    row := [];
    for d := 0 to launch.headDim
      invariant row == RowCells(launch, exp, tg)[..d]
    {
      SeenAt(regs[..], launch, exp, tg / launch.seqQ, tg % launch.seqQ, launch.Limit(tg % launch.seqQ), d);
      var y := Quotient(launch, exp, tg, regs[d], d);
      CellOf(launch, exp, tg, d);
      row := row + [y];
    }
  }

  /** The final write of a threadgroup's row. */
  method WriteRow(row: seq<real>, base: nat, out: array<real>)
    requires base + |row| <= out.Length
    modifies out
    ensures forall p :: 0 <= p < out.Length ==> out[p] == if base <= p < base + |row| then
              row[p - base] else old(out[p])
  {
    for d := 0 to |row|
      invariant forall p :: 0 <= p < out.Length ==> out[p] == if base <= p < base + d then
              row[p - base] else old(out[p])
    {
      out[base + d] := row[d];
    }
  }

  /** The row of output elements that threadgroup tg computes. */
  ghost function RowCells(launch: Launch, exp: real -> real, tg: nat): (cells: seq<real>)
    requires launch.Valid() && IsExp(exp) && launch.seqQ > 0
    ensures |cells| == launch.headDim
  {
    seq(launch.headDim, d => launch.RowCell(exp, tg, d))
  }

  lemma CellOf(launch: Launch, exp: real -> real, tg: nat, d: nat)
    requires launch.Valid() && IsExp(exp) && launch.seqQ > 0 && d < launch.headDim
    ensures RowCells(launch, exp, tg)[d] == launch.RowCell(exp, tg, d)
  {
  }

  /** Writing the row tg from `base` on is writing exactly the slots that belong to it. */
  lemma RowWritten(launch: Launch, exp: real -> real, tg: nat, base: nat, was: seq<real>, now: seq<real>)
    requires launch.Valid() && IsExp(exp) && launch.headDim > 0 && launch.seqQ > 0
    requires base == tg * launch.headDim && base + launch.headDim <= |was| == |now|
    requires forall p :: 0 <= p < |now| ==>
               now[p] == if base <= p < base + launch.headDim then RowCells(launch, exp, tg)[p - base] else was[p]
    ensures forall p :: 0 <= p < |now| ==>
              now[p] == if p / launch.headDim == tg then launch.Cell(exp, p) else was[p]
  {
    hide Launch.RowCell, Launch.Problem;
    hide RowCells;
    forall p | 0 <= p < |now|
      ensures now[p] == if p / launch.headDim == tg then launch.Cell(exp, p) else was[p]
    {
      SlotOf(p, tg, launch.headDim);
      if p / launch.headDim == tg {
        CellOf(launch, exp, tg, p - base);
      }
    }
  }

  /** The guarded quotient of thread d. */
  method Quotient(launch: Launch, exp: real -> real, tg: nat, r: Registers, d: nat) returns (y: real)
    requires launch.Valid() && IsExp(exp) && launch.seqQ > 0
    requires r.Seen(exp, launch.Limit(tg % launch.seqQ), launch.Problem().Score(tg / launch.seqQ, tg % launch.seqQ),
                    launch.Problem().Column(tg / launch.seqQ, d))
    ensures y == launch.RowCell(exp, tg, d)
  {
    var keys := launch.Limit(tg % launch.seqQ);
    if keys > 0 {
      ShiftInvariant(exp, keys, launch.Problem().Score(tg / launch.seqQ, tg % launch.seqQ),
                     launch.Problem().Column(tg / launch.seqQ, d), r.m);
    }
    y := if r.l > 0.0 then r.acc / r.l else 0.0;
  }

  /** One threadgroup: writes its own output row and nothing else. */
  method ThreadGroup(launch: Launch, exp: real -> real, tg: nat, out: array<real>)
    requires launch.Valid() && IsExp(exp) && IsPow2(launch.headDim) && launch.seqQ > 0
    requires tg < launch.numHeads * launch.seqQ && out.Length == launch.numHeads * launch.seqQ * launch.headDim
    modifies out
    ensures forall p :: 0 <= p < out.Length ==>
              out[p] == if p / launch.headDim == tg then launch.Cell(exp, p) else old(out[p])
  {
    var headQ, qPos := tg / launch.seqQ, tg % launch.seqQ;
    DividesDown(tg, launch.numHeads, launch.seqQ);
    RowIndex(headQ, qPos, launch.seqQ, 0, launch.headDim);
    RowInside(tg, launch.numHeads * launch.seqQ, launch.headDim);
    var regs := KeyLoop(launch, exp, headQ, qPos);
    var row := Quotients(launch, exp, tg, regs);
    var base := headQ * launch.seqQ * launch.headDim + qPos * launch.headDim;
    ghost var was := out[..];
    WriteRow(row, base, out);
    hide Launch.Cell, RowCells;
    RowWritten(launch, exp, tg, base, was, out[..]);
  }

  // ---- what the cells are, straight from the buffers ----

  /** Key j is visited for query t exactly when there is such a key and, under the causal limit, it does not lie
      behind the query's own position. */
  lemma LimitVisits(launch: Launch, t: nat, j: nat)
    ensures j < launch.Limit(t) <==> j < launch.seqKv && (launch.causal ==> j <= launch.kvOffset + t)
  {
  }

  /** Query row (h, t) and key row j of the head's group, by buffer positions. */
  ghost function QueryRow(l: Launch, h: nat, t: nat): int -> real {
    e => At(l.q)((h * l.seqQ + t) * l.headDim + e)
  }

  ghost function KeyRowOf(l: Launch, h: nat, j: int): int -> real
    requires l.gqaFactor > 0
  {
    e => At(l.k)((h / l.gqaFactor * l.seqKv + j) * l.headDim + e)
  }

  /** Their scaled dot product. */
  ghost function BufferScore(l: Launch, h: nat, t: nat): int -> real
    requires l.gqaFactor > 0
  {
    j => Sum(l.headDim, e => QueryRow(l, h, t)(e) * KeyRowOf(l, h, j)(e)) * l.scale
  }

  ghost function BufferValue(l: Launch, h: nat, d: nat): int -> real
    requires l.gqaFactor > 0
  {
    j => At(l.v)((h / l.gqaFactor * l.seqKv + j) * l.headDim + d)
  }

  /** Every output element is the softmax average of all the values its query may look at: of every key without the
      causal flag, of the keys up to kvOffset + t with it. */
  ghost predicate IsMaskedAttention(l: Launch, exp: real -> real, out: seq<real>)
    requires l.Valid()
  {
    forall h: nat, t: nat, d: nat {:trigger BufferScore(l, h, t), BufferValue(l, h, d)} ::
      h < l.numHeads && t < l.seqQ && d < l.headDim ==>
        At(out)((h * l.seqQ + t) * l.headDim + d)
        == Masked(exp, l.seqKv, BufferScore(l, h, t), BufferValue(l, h, d), j => l.causal ==> j <= l.kvOffset + t)
  }

  lemma BufferElement(buffer: seq<real>, h: nat, t: int, d: int, positions: nat, headDim: nat)
    ensures Element(buffer, h, t, d, positions, headDim) == At(buffer)((h * positions + t) * headDim + d)
  {
    assert (h * positions + t) * headDim == h * positions * headDim + t * headDim;
  }

  lemma RowsFromBuffers(l: Launch, h: nat, t: nat, j: int, e: int)
    requires l.Valid()
    ensures l.Problem().Query(h, t)(e) == QueryRow(l, h, t)(e)
    ensures l.Problem().Key(h, j)(e) == KeyRowOf(l, h, j)(e)
  {
    BufferElement(l.q, h, t, e, l.seqQ, l.headDim);
    BufferElement(l.k, h / l.gqaFactor, j, e, l.seqKv, l.headDim);
    hide Element, At;
  }

  lemma ScoreFromBuffers(l: Launch, h: nat, t: nat, j: int)
    requires l.Valid()
    ensures l.Problem().Score(h, t)(j) == BufferScore(l, h, t)(j)
  {
    hide Launch.Problem, Problem.Query, Problem.Key, QueryRow, KeyRowOf;
    var terms := (e: int) => QueryRow(l, h, t)(e) * KeyRowOf(l, h, j)(e);
    forall e | 0 <= e < l.headDim
      ensures Product(l.Problem().Query(h, t), l.Problem().Key(h, j))(e) == terms(e)
    {
      RowsFromBuffers(l, h, t, j, e);
    }
    SumExt(l.headDim, Product(l.Problem().Query(h, t), l.Problem().Key(h, j)), terms);
  }

  lemma CellFromBuffers(l: Launch, exp: real -> real, h: nat, t: nat, d: nat)
    requires l.Valid() && IsExp(exp) && t < l.seqQ && d < l.headDim
    ensures l.Problem().Output(exp, l.Limit(t), h, t, d)
         == Masked(exp, l.seqKv, BufferScore(l, h, t), BufferValue(l, h, d), j => l.causal ==> j <= l.kvOffset + t)
  {
    hide IsExp;
    var keys, allowed := l.Limit(t), (j: int) => l.causal ==> j <= l.kvOffset + t;
    forall j | 0 <= j < l.seqKv ensures allowed(j) <==> j < keys {
      LimitVisits(l, t, j);
    }
    LimitVisits(l, t, l.seqKv);
    hide Launch.Limit;
    forall j | 0 <= j < keys
      ensures l.Problem().Score(h, t)(j) == BufferScore(l, h, t)(j)
      ensures l.Problem().Column(h, d)(j) == BufferValue(l, h, d)(j)
    {
      ScoreFromBuffers(l, h, t, j);
      BufferElement(l.v, h / l.gqaFactor, j, d, l.seqKv, l.headDim);
    }
    hide BufferScore, BufferValue, Problem.Score, Problem.Column;
    MaskedPrefix(exp, l.seqKv, keys, BufferScore(l, h, t), BufferValue(l, h, d), allowed);
    AttendExt(exp, keys, l.Problem().Score(h, t), l.Problem().Column(h, d), BufferScore(l, h, t),
              BufferValue(l, h, d));
  }

  /** The cells of a launch are masked attention over its buffers. */
  lemma CellsAreMasked(l: Launch, exp: real -> real, out: seq<real>)
    requires l.Valid() && IsExp(exp) && l.seqQ > 0 && l.headDim > 0 && |out| == l.numHeads * l.seqQ * l.headDim
    requires forall p :: 0 <= p < |out| ==> out[p] == l.Cell(exp, p)
    ensures IsMaskedAttention(l, exp, out)
  {
    hide BufferScore, BufferValue, Masked, IsExp;
    forall h: nat, t: nat, d: nat | h < l.numHeads && t < l.seqQ && d < l.headDim
      ensures At(out)((h * l.seqQ + t) * l.headDim + d)
        == Masked(exp, l.seqKv, BufferScore(l, h, t), BufferValue(l, h, d), j => l.causal ==> j <= l.kvOffset + t)
    {
      CellAt(l, exp, h, t, d);
      CellFromBuffers(l, exp, h, t, d);
    }
  }

  lemma CellAt(l: Launch, exp: real -> real, h: nat, t: nat, d: nat)
    requires l.Valid() && IsExp(exp) && l.headDim > 0 && h < l.numHeads && t < l.seqQ && d < l.headDim
    ensures var p := (h * l.seqQ + t) * l.headDim + d;
      0 <= p < l.numHeads * l.seqQ * l.headDim && l.Cell(exp, p) == l.Problem().Output(exp, l.Limit(t), h, t, d)
  {
    hide Launch.Problem, Problem.Output, Launch.Limit, IsExp;
    InRow(h, l.numHeads, t, l.seqQ);
    InRow(h * l.seqQ + t, l.numHeads * l.seqQ, d, l.headDim);
  }

  // ---- host side ----

  datatype Tensor = Tensor(shape: seq<nat>, data: seq<real>)

  datatype Rejection = NotRank3 | HeadsNotDivisible | HeadDimNotPowerOfTwo

  datatype Result = Ok(launch: Launch, out: seq<real>) | Err(error: Rejection)

  /** What the kernel itself relies on: v is laid out like k, and buffers have their shapes' sizes. */
  ghost predicate WellShaped(queries: Tensor, keys: Tensor, values: Tensor) {
    |queries.shape| == 3 && |keys.shape| == 3 ==>
      && keys.shape[0] > 0
      && keys.shape[2] == queries.shape[2] && values.shape == keys.shape
      && |queries.data| == queries.shape[0] * queries.shape[1] * queries.shape[2]
      && |keys.data| == |values.data| == keys.shape[0] * keys.shape[1] * keys.shape[2]
  }

  /** The host entry point. It refuses exactly the inputs its error messages name; otherwise the
      threadgroups run in any order and every output element is the softmax average of its row. */
  method FlashAttention(queries: Tensor, keys: Tensor, values: Tensor, scale: real, causal: bool, kvOffset: nat,
                        exp: real -> real) returns (r: Result)
    requires IsExp(exp) && WellShaped(queries, keys, values)
    ensures r.Ok? <==> |queries.shape| == |keys.shape| == 3 && queries.shape[0] % keys.shape[0] == 0
                       && (queries.shape[2] == 0 || IsPow2(queries.shape[2]))
    ensures r == Err(NotRank3) <==> |queries.shape| != 3 || |keys.shape| != 3
    ensures r == Err(HeadsNotDivisible) <==>
      |queries.shape| == |keys.shape| == 3 && queries.shape[0] % keys.shape[0] != 0
    ensures r == Err(HeadDimNotPowerOfTwo) <==>
      |queries.shape| == |keys.shape| == 3 && queries.shape[0] % keys.shape[0] == 0
      && queries.shape[2] != 0 && !IsPow2(queries.shape[2])
    ensures r.Ok? && |r.out| > 0 ==> r.launch.Valid() && r.launch.headDim > 0 && r.launch.seqQ > 0
    ensures r.Ok? ==> |r.out| == queries.shape[0] * queries.shape[1] * queries.shape[2]
    ensures r.Ok? ==> r.launch == Launch(queries.data, keys.data, values.data, queries.shape[0], keys.shape[0],
                        queries.shape[1], keys.shape[1], queries.shape[2], queries.shape[0] / keys.shape[0],
                        scale, causal, kvOffset)
    ensures r.Ok? ==> forall p :: 0 <= p < |r.out| ==> r.out[p] == r.launch.Cell(exp, p)
    ensures r.Ok? && |r.out| > 0 ==> IsMaskedAttention(r.launch, exp, r.out)
  {
    if |queries.shape| != 3 || |keys.shape| != 3 {
      return Err(NotRank3);
    }
    var numQHeads, seqQ, headDim := queries.shape[0], queries.shape[1], queries.shape[2];
    var numKvHeads, seqKv := keys.shape[0], keys.shape[1];
    if numQHeads % numKvHeads != 0 {
      return Err(HeadsNotDivisible);
    }
    var gqaFactor := numQHeads / numKvHeads;
    AdmittedIffPow2(headDim);
    if !Admitted(headDim) {
      return Err(HeadDimNotPowerOfTwo);
    }
    var launch := Launch(queries.data, keys.data, values.data, numQHeads, numKvHeads, seqQ, seqKv, headDim,
                         gqaFactor, scale, causal, kvOffset);
    var out := new real[numQHeads * seqQ * headDim];
    if out.Length > 0 {
      NonEmptyLaunch(numQHeads, numKvHeads, seqQ, headDim);
      Dispatch(launch, exp, out);
    }
    r := Ok(launch, out[..]);
  }

  lemma NonEmptyLaunch(heads: nat, kvHeads: nat, seqQ: nat, headDim: nat)
    requires kvHeads > 0 && heads % kvHeads == 0 && heads * seqQ * headDim > 0
    ensures heads > 0 && seqQ > 0 && headDim > 0
    ensures heads / kvHeads > 0 && heads == kvHeads * (heads / kvHeads)
  {
    assert heads > 0 && seqQ > 0;
  }

  /** All threadgroups of a launch, in whatever order the device takes them. */
  method Dispatch(launch: Launch, exp: real -> real, out: array<real>)
    requires launch.Valid() && IsExp(exp) && IsPow2(launch.headDim) && launch.seqQ > 0
    requires out.Length == launch.numHeads * launch.seqQ * launch.headDim
    modifies out
    ensures forall p :: 0 <= p < out.Length ==> out[p] == launch.Cell(exp, p)
    ensures launch.headDim > 0 ==> IsMaskedAttention(launch, exp, out[..])
  {
    hide Launch.Cell, Launch.RowCell, Launch.Problem, Owners, IsMaskedAttention;
    var groups := launch.numHeads * launch.seqQ;
    var pending: set<int> := Threads(groups);
    ghost var owner := Owners(groups, launch.headDim);
    while pending != {}
      invariant forall tg :: tg in pending ==> 0 <= tg < groups
      invariant forall p :: 0 <= p < out.Length ==> owner[p] in pending || out[p] == launch.Cell(exp, p)
      decreases |pending|
    {
      var tg :| tg in pending;
      ghost var was := out[..];
      ThreadGroup(launch, exp, tg, out);
      forall p | 0 <= p < out.Length ensures owner[p] in pending - {tg} || out[p] == launch.Cell(exp, p) {
        assert owner[p] != tg ==> out[p] == was[p];
      }
      pending := pending - {tg};
    }
    if launch.headDim > 0 {
      CellsAreMasked(launch, exp, out[..]);
    }
  }

  lemma QueryElement(launch: Launch, h: nat, t: nat, d: nat)
    requires 0 <= h * launch.seqQ * launch.headDim + t * launch.headDim + d < |launch.q|
    ensures launch.Problem().q(h, t, d) == launch.q[h * launch.seqQ * launch.headDim + t * launch.headDim + d]
  {
    RowIndex(h, t, launch.seqQ, d, launch.headDim);
  }

  lemma KeyElement(launch: Launch, h: nat, t: nat, d: nat)
    requires 0 <= h * launch.seqKv * launch.headDim + t * launch.headDim + d < |launch.k| == |launch.v|
    ensures launch.Problem().k(h, t, d) == launch.k[h * launch.seqKv * launch.headDim + t * launch.headDim + d]
    ensures launch.Problem().v(h, t, d) == launch.v[h * launch.seqKv * launch.headDim + t * launch.headDim + d]
  {
    RowIndex(h, t, launch.seqKv, d, launch.headDim);
  }

  lemma SlotOf(p: nat, tg: nat, m: nat)
    requires m > 0
    ensures p / m == tg <==> tg * m <= p < tg * m + m
    ensures p / m == tg ==> p % m == p - tg * m
  {
    if tg * m <= p < tg * m + m {
      ModIs(p, tg, p - tg * m, m);
    }
  }

  lemma QueryBounds(launch: Launch, headQ: nat, qPos: nat)
    requires launch.Valid() && headQ < launch.numHeads && qPos < launch.seqQ
    ensures headQ / launch.gqaFactor < launch.numKvHeads
    ensures 0 <= headQ * launch.seqQ * launch.headDim + qPos * launch.headDim
    ensures headQ * launch.seqQ * launch.headDim + qPos * launch.headDim + launch.headDim <= |launch.q|
  {
    DividesDown(headQ, launch.numKvHeads, launch.gqaFactor);
    RowIndex(headQ, qPos, launch.seqQ, 0, launch.headDim);
    InRow(headQ, launch.numHeads, qPos, launch.seqQ);
    RowInside(headQ * launch.seqQ + qPos, launch.numHeads * launch.seqQ, launch.headDim);
  }

  /** The row that each of the rows * m slots belongs to. */
  ghost function Owners(rows: nat, m: nat): (owner: seq<nat>)
    requires m > 0
    ensures |owner| == rows * m
    ensures forall p :: 0 <= p < |owner| ==> owner[p] == p / m < rows
  {
    MulMono(0, rows, m);
    SlotsDivideDown(rows, m);
    seq(rows * m, p requires 0 <= p < rows * m => p / m)
  }

  lemma SlotsDivideDown(rows: nat, m: nat)
    requires m > 0
    ensures forall p :: 0 <= p < rows * m ==> 0 <= p / m < rows
  {
    forall p | 0 <= p < rows * m ensures 0 <= p / m < rows {
      DividesDown(p, rows, m);
    }
  }

  lemma KeyBounds(launch: Launch, headKv: nat, kv: nat)
    requires launch.Valid() && headKv < launch.numKvHeads && kv < launch.seqKv
    ensures 0 <= headKv * launch.seqKv * launch.headDim + kv * launch.headDim
    ensures headKv * launch.seqKv * launch.headDim + kv * launch.headDim + launch.headDim <= |launch.k|
  {
    RowIndex(headKv, kv, launch.seqKv, 0, launch.headDim);
    InRow(headKv, launch.numKvHeads, kv, launch.seqKv);
    RowInside(headKv * launch.seqKv + kv, launch.numKvHeads * launch.seqKv, launch.headDim);
  }
}
