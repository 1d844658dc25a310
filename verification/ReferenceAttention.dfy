/** The two-pass reference attention over token-major buffers, the causal mask, and their agreement
    with the fused kernel. */
module ReferenceAttention {
  import opened Attention
  import FlashAttention
  import opened Indexing
  import Reduction
  import opened Softmax
  import opened Sums
  import opened Wrappers

  const MINIMUM: real := -1.7976931348623157e308

  datatype Config = Config(
    q: seq<real>,       // [t, nq * hd]
    k: seq<real>,       // [t, nkv * hd]
    v: seq<real>,
    t: nat, nq: nat, nkv: nat, hd: nat, scale: Option<real>)
  {
    ghost predicate Valid() {
      && nkv > 0 && nq % nkv == 0
      && |q| == t * nq * hd && |k| == |v| == t * nkv * hd
    }

    function Group(): nat
      requires nkv > 0
    {
      nq / nkv
    }

    function Factor(): real {
      if scale.Some? then scale.value else 1.0
    }

    ghost function Problem(): (p: Problem)
      requires nkv > 0
      ensures p.group == Group() && p.headDim == hd && p.scale == Factor()
    {
      Attention.Problem.Problem(
        (h, i, d) => Element(q, i, h, d, nq, hd),
        (h, i, d) => Element(k, i, h, d, nkv, hd),
        (h, i, d) => Element(v, i, h, d, nkv, hd),
        hd, Group(), Factor())
    }

    /** Element d of output row r, the row of token r / nq and head r % nq. */
    ghost function RowCell(exp: real -> real, r: nat, d: int): real
      requires Valid() && IsExp(exp) && nq > 0 && Group() > 0
    {
      Problem().Output(exp, r / nq + 1, r % nq, r / nq, d)
    }

    ghost function Cell(exp: real -> real, p: nat): real
      requires Valid() && IsExp(exp) && nq > 0 && Group() > 0 && hd > 0
    {
      RowCell(exp, p / hd, p % hd)
    }
  }

  /** Element (i, h, d) of a token-major buffer [tokens, heads, hd]. */
  ghost function Element(buffer: seq<real>, i: int, h: int, d: int, heads: nat, hd: nat): real {
    At(buffer)(i * heads * hd + h * hd + d)
  }

  /** The row of `heads`-wide token i and head h lies inside a buffer of t tokens. */
  lemma HeadRowInside(i: nat, h: nat, t: nat, heads: nat, hd: nat)
    requires i < t && h < heads
    ensures 0 <= i * heads * hd + h * hd == (i * heads + h) * hd
    ensures i * heads * hd + h * hd + hd <= t * heads * hd
  {
    RowIndex(i, h, heads, 0, hd);
    InRow(i, t, h, heads);
    RowInside(i * heads + h, t * heads, hd);
  }

  lemma ElementInside(buffer: seq<real>, i: nat, h: nat, d: nat, t: nat, heads: nat, hd: nat)
    requires i < t && h < heads && d < hd && |buffer| == t * heads * hd
    ensures 0 <= i * heads * hd + h * hd + d < |buffer|
    ensures Element(buffer, i, h, d, heads, hd) == buffer[i * heads * hd + h * hd + d]
  {
    HeadRowInside(i, h, t, heads, hd);
  }

  method Dot(q: seq<real>, qOff: nat, k: seq<real>, kOff: nat, hd: nat, ghost query: int -> real,
             ghost key: int -> real)
    returns (dot: real)
    requires qOff + hd <= |q| && kOff + hd <= |k|
    requires forall d :: 0 <= d < hd ==> query(d) == q[qOff + d] && key(d) == k[kOff + d]
    ensures dot == Sum(hd, Product(query, key))
  {
    dot := 0.0;
    for d := 0 to hd
      invariant dot == Sum(d, Product(query, key))
    {
      dot := dot + q[qOff + d] * k[kOff + d];
    }
  }

  /** Where head kvh of token ki starts in the key and value buffers. */
  method KeyOffset(c: Config, ki: nat, h: nat) returns (off: nat)
    requires c.Valid() && ki < c.t && h < c.nq && c.Group() > 0
    ensures off + c.hd <= |c.k| == |c.v|
    ensures forall d :: 0 <= d < c.hd ==> c.Problem().Key(h, ki)(d) == c.k[off + d]
    ensures forall d :: 0 <= d < c.hd ==> c.Problem().Column(h, d)(ki) == c.v[off + d]
  {
    var kvh := h / c.Group();
    DividesDown(h, c.nkv, c.Group());
    HeadRowInside(ki, kvh, c.t, c.nkv, c.hd);
    off := ki * c.nkv * c.hd + kvh * c.hd;
    forall d | 0 <= d < c.hd
      ensures c.Problem().Key(h, ki)(d) == c.k[off + d] && c.Problem().Column(h, d)(ki) == c.v[off + d]
    {
      ElementInside(c.k, ki, kvh, d, c.t, c.nkv, c.hd);
      ElementInside(c.v, ki, kvh, d, c.t, c.nkv, c.hd);
    }
  }

  method QueryOffset(c: Config, qi: nat, h: nat) returns (off: nat)
    requires c.Valid() && qi < c.t && h < c.nq
    ensures off == (qi * c.nq + h) * c.hd && off + c.hd <= |c.q|
    ensures forall d :: 0 <= d < c.hd ==> c.Problem().Query(h, qi)(d) == c.q[off + d]
  {
    HeadRowInside(qi, h, c.t, c.nq, c.hd);
    off := qi * c.nq * c.hd + h * c.hd;
    forall d | 0 <= d < c.hd ensures c.Problem().Query(h, qi)(d) == c.q[off + d] {
      ElementInside(c.q, qi, h, d, c.t, c.nq, c.hd);
    }
  }

  method OneScore(c: Config, qi: nat, h: nat, ki: nat, qOff: nat) returns (score: real)
    requires c.Valid() && ki < c.t && h < c.nq && c.Group() > 0 && qOff + c.hd <= |c.q|
    requires forall d :: 0 <= d < c.hd ==> c.Problem().Query(h, qi)(d) == c.q[qOff + d]
    ensures score == c.Problem().Score(h, qi)(ki)
  {
    var kOff := KeyOffset(c, ki, h);
    var dot := Dot(c.q, qOff, c.k, kOff, c.hd, c.Problem().Query(h, qi), c.Problem().Key(h, ki));
    score := Scaled(c.Problem(), h, qi, ki, dot, c.Factor());
  }

  /** First pass: the scores of keys 0..=qi and their running maximum. */
  method Scores(c: Config, qi: nat, h: nat) returns (scores: seq<real>, maxs: real)
    requires c.Valid() && qi < c.t && h < c.nq && c.Group() > 0
    ensures |scores| == qi + 1
    ensures forall j :: 0 <= j <= qi ==> scores[j] == c.Problem().Score(h, qi)(j) && scores[j] <= maxs
  {
    scores, maxs := [], MINIMUM;
    var qOff := QueryOffset(c, qi, h);
    for ki := 0 to qi + 1
      invariant |scores| == ki
      invariant forall j :: 0 <= j < ki ==> scores[j] == c.Problem().Score(h, qi)(j) && scores[j] <= maxs
    {
      var dot := OneScore(c, qi, h, ki, qOff);
      if dot > maxs {
        maxs := dot;
      }
      scores := scores + [dot];
    }
  }

  /** Second pass: exponentials and their sum. */
  method Exponentials(scores: seq<real>, maxs: real, exp: real -> real, ghost s: int -> real)
    returns (weights: seq<real>, denom: real)
    requires forall j :: 0 <= j < |scores| ==> scores[j] == s(j)
    ensures |weights| == |scores| && denom == Weight(exp, |scores|, s, maxs)
    ensures forall j :: 0 <= j < |scores| ==> weights[j] == exp(s(j) - maxs)
  {
    weights, denom := [], 0.0;
    for j := 0 to |scores|
      invariant |weights| == j && denom == Weight(exp, j, s, maxs)
      invariant forall i :: 0 <= i < j ==> weights[i] == exp(s(i) - maxs)
    {
      var e := exp(scores[j] - maxs);
      weights := weights + [e];
      denom := denom + e;
    }
  }

  /** What the output row holds after its first n keys were accumulated. */
  ghost function Parts(c: Config, exp: real -> real, h: nat, qi: nat, n: nat, m: real, denom: real): (row: seq<real>)
    requires c.Valid() && c.Group() > 0 && denom > 0.0
    ensures |row| == c.hd
  {
    seq(c.hd, d => Partial(exp, n, c.Problem().Score(h, qi), c.Problem().Column(h, d), m, denom))
  }

  ghost function Partial(exp: real -> real, n: nat, s: int -> real, v: int -> real, m: real, denom: real): real
    requires denom > 0.0
  {
    Sum(n, j => exp(s(j) - m) / denom * v(j))
  }

  ghost function RowCells(c: Config, exp: real -> real, h: nat, qi: nat): (row: seq<real>)
    requires c.Valid() && c.Group() > 0 && IsExp(exp)
    ensures |row| == c.hd
  {
    seq(c.hd, d => c.Problem().Output(exp, qi + 1, h, qi, d))
  }

  lemma NoParts(c: Config, exp: real -> real, h: nat, qi: nat, m: real, denom: real)
    requires c.Valid() && c.Group() > 0 && denom > 0.0
    ensures forall d :: 0 <= d < c.hd ==> Parts(c, exp, h, qi, 0, m, denom)[d] == 0.0
  {
  }

  lemma PartsComplete(c: Config, exp: real -> real, h: nat, qi: nat, m: real, denom: real)
    requires c.Valid() && c.Group() > 0 && IsExp(exp)
    requires denom == Weight(exp, qi + 1, c.Problem().Score(h, qi), m)
    ensures denom > 0.0 && Parts(c, exp, h, qi, qi + 1, m, denom) == RowCells(c, exp, h, qi)
  {
    var s := c.Problem().Score(h, qi);
    ShiftInvariant(exp, qi + 1, s, s, m);
    forall d | 0 <= d < c.hd
      ensures Parts(c, exp, h, qi, qi + 1, m, denom)[d] == RowCells(c, exp, h, qi)[d]
    {
      var v := c.Problem().Column(h, d);
      NormaliseFirst(exp, qi + 1, s, v, m, denom);
      ShiftInvariant(exp, qi + 1, s, v, m);
    }
  }

  ghost function Added(row: seq<real>, p: real, v: seq<real>, off: nat): (sum: seq<real>)
    requires off + |row| <= |v|
    ensures |sum| == |row|
  {
    seq(|row|, d requires 0 <= d < |row| => row[d] + p * v[off + d])
  }

  lemma PartsStep(c: Config, exp: real -> real, h: nat, qi: nat, n: nat, m: real, denom: real, off: nat, p: real)
    requires c.Valid() && c.Group() > 0 && denom > 0.0 && off + c.hd <= |c.v|
    requires forall d :: 0 <= d < c.hd ==> c.Problem().Column(h, d)(n) == c.v[off + d]
    requires p == exp(c.Problem().Score(h, qi)(n) - m) / denom
    ensures Parts(c, exp, h, qi, n + 1, m, denom) == Added(Parts(c, exp, h, qi, n, m, denom), p, c.v, off)
  {
    hide Partial, Config.Problem, Problem.Score, Problem.Column;
    var next, sum := Parts(c, exp, h, qi, n + 1, m, denom), Added(Parts(c, exp, h, qi, n, m, denom), p, c.v, off);
    forall d | 0 <= d < c.hd ensures next[d] == sum[d] {
      PartialStep(exp, n, c.Problem().Score(h, qi), c.Problem().Column(h, d), m, denom, p, c.v[off + d]);
    }
  }

  lemma PartialStep(exp: real -> real, n: nat, s: int -> real, v: int -> real, m: real, denom: real, p: real,
                    value: real)
    requires denom > 0.0 && p == exp(s(n) - m) / denom && v(n) == value
    ensures Partial(exp, n + 1, s, v, m, denom) == Partial(exp, n, s, v, m, denom) + p * value
  {
  }

  /** Adds p times a value row to an output row. */
  method AddRow(out: array<real>, base: nat, p: real, v: seq<real>, off: nat, hd: nat)
    requires base + hd <= out.Length && off + hd <= |v|
    modifies out
    ensures out[..] == old(out[..base]) + Added(old(out[base..base + hd]), p, v, off) + old(out[base + hd..])
  {
    ghost var was := out[..];
    ghost var sums := Added(was[base..base + hd], p, v, off);
    for d := 0 to hd
      invariant forall x :: 0 <= x < out.Length ==> out[x] == if base <= x < base + d then sums[x - base] else was[x]
    {
      out[base + d] := out[base + d] + p * v[off + d];
    }
    assert out[..] == was[..base] + sums + was[base + hd..];
  }

  /** The output row of token qi and head h, from a zeroed row. */
  method AttendRow(c: Config, exp: real -> real, qi: nat, h: nat, out: array<real>, base: nat)
    requires c.Valid() && IsExp(exp) && qi < c.t && h < c.nq && c.Group() > 0
    requires base + c.hd <= out.Length && forall x :: base <= x < base + c.hd ==> out[x] == 0.0
    modifies out
    ensures out[..] == old(out[..base]) + RowCells(c, exp, h, qi) + old(out[base + c.hd..])
  {
    hide Weight, RowCells, Added, Parts, Config.Problem, Problem.Score, Problem.Column;
    var scores, maxs := Scores(c, qi, h);
    var weights, denom := Exponentials(scores, maxs, exp, c.Problem().Score(h, qi));
    PartsComplete(c, exp, h, qi, maxs, denom);
    ghost var was := out[..];
    NoParts(c, exp, h, qi, maxs, denom);
    assert was[base..base + c.hd] == Parts(c, exp, h, qi, 0, maxs, denom);
    assert was == was[..base] + was[base..base + c.hd] + was[base + c.hd..];
    for ki := 0 to |weights|
      invariant out[..] == was[..base] + Parts(c, exp, h, qi, ki, maxs, denom) + was[base + c.hd..]
    {
      var p := weights[ki] / denom;
      var off := KeyOffset(c, ki, h);
      PartsStep(c, exp, h, qi, ki, maxs, denom, off, p);
      ghost var row := Parts(c, exp, h, qi, ki, maxs, denom);
      assert out[..base] == out[..][..base] && out[base + c.hd..] == out[..][base + c.hd..];
      assert out[base..base + c.hd] == out[..][base..base + c.hd] == row;
      AddRow(out, base, p, c.v, off, c.hd);
    }
  }

  /** The whole reference: every output element is the softmax average over keys 0..=qi. */
  method SdpaCausalGqa(c: Config, exp: real -> real) returns (out: array<real>)
    requires c.Valid() && IsExp(exp)
    ensures fresh(out) && out.Length == c.t * c.nq * c.hd
    ensures c.nq > 0 ==> c.Group() > 0
    ensures c.nq > 0 && c.hd > 0 ==> forall p :: 0 <= p < out.Length ==> out[p] == c.Cell(exp, p)
  {
    out := new real[c.t * c.nq * c.hd](_ => 0.0);
    if c.nq == 0 {
      return;
    }
    assert c.Group() > 0;
    ghost var cells := Cells(c, exp);
    for qi := 0 to c.t
      invariant Filled(out[..], cells, qi * (c.nq * c.hd))
    {
      AttendToken(c, exp, qi, out, cells);
      TokenStart(qi, c.nq, c.hd);
    }
    TokenStart(c.t, c.nq, c.hd);
  }

  /** All heads of one token. */
  method AttendToken(c: Config, exp: real -> real, qi: nat, out: array<real>, ghost cells: seq<real>)
    requires c.Valid() && IsExp(exp) && qi < c.t && c.nq > 0 && c.Group() > 0 && cells == Cells(c, exp)
    requires Filled(out[..], cells, qi * (c.nq * c.hd))
    modifies out
    ensures Filled(out[..], cells, qi * (c.nq * c.hd) + c.nq * c.hd)
  {
    hide Filled, Cells, Config.Cell, Config.Problem;
    var start := qi * c.nq * c.hd;
    TokenStart(qi, c.nq, c.hd);
    for h := 0 to c.nq
      invariant Filled(out[..], cells, start + h * c.hd)
    {
      var base := start + h * c.hd;
      AttendHead(c, exp, qi, h, out, base, cells);
      TokenStart(h, 1, c.hd);
    }
  }

  method AttendHead(c: Config, exp: real -> real, qi: nat, h: nat, out: array<real>, base: nat, ghost cells: seq<real>)
    requires c.Valid() && IsExp(exp) && qi < c.t && h < c.nq && c.Group() > 0 && cells == Cells(c, exp)
    requires base == qi * c.nq * c.hd + h * c.hd && Filled(out[..], cells, base)
    modifies out
    ensures Filled(out[..], cells, base + c.hd)
  {
    RowOfCells(c, exp, qi, h, cells);
    ghost var was := out[..];
    assert forall x :: base <= x < base + c.hd ==> out[x] == was[x];
    AttendRow(c, exp, qi, h, out, base);
    FillRow(was, out[..], cells, base, RowCells(c, exp, h, qi));
  }

  lemma TokenStart(i: nat, n: nat, m: nat)
    ensures i * n * m == i * (n * m) >= 0
    ensures (i + 1) * (n * m) == i * (n * m) + n * m
  {
    MulMono(0, n, m);
    MulMono(0, i, n * m);
  }

  lemma FillRow(was: seq<real>, now: seq<real>, cells: seq<real>, base: nat, row: seq<real>)
    requires Filled(was, cells, base) && base + |row| <= |cells| && cells[base..base + |row|] == row
    requires now == was[..base] + row + was[base + |row|..]
    ensures Filled(now, cells, base + |row|)
  {
    assert cells[..base + |row|] == cells[..base] + row;
  }

  /** The first n slots hold their final cells, the rest are still zero. */
  ghost predicate Filled(out: seq<real>, cells: seq<real>, n: int) {
    && |out| == |cells| && 0 <= n <= |out|
    && out[..n] == cells[..n] && forall x :: n <= x < |out| ==> out[x] == 0.0
  }

  ghost function Cells(c: Config, exp: real -> real): (cells: seq<real>)
    requires c.Valid() && IsExp(exp) && c.nq > 0 && c.Group() > 0
    ensures |cells| == c.t * c.nq * c.hd
    ensures c.hd > 0 ==> forall p :: 0 <= p < |cells| ==> cells[p] == c.Cell(exp, p)
  {
    seq(c.t * c.nq * c.hd, p requires 0 <= p < c.t * c.nq * c.hd => if c.hd > 0 then c.Cell(exp, p) else 0.0)
  }

  lemma RowOfCells(c: Config, exp: real -> real, qi: nat, h: nat, cells: seq<real>)
    requires c.Valid() && IsExp(exp) && c.nq > 0 && c.Group() > 0 && qi < c.t && h < c.nq
    requires cells == Cells(c, exp)
    ensures var base := qi * c.nq * c.hd + h * c.hd;
      0 <= base && base + c.hd <= |cells| && cells[base..base + c.hd] == RowCells(c, exp, h, qi)
  {
    hide Config.Problem, Config.Cell, Problem.Output;
    HeadRowInside(qi, h, c.t, c.nq, c.hd);
    var base := qi * c.nq * c.hd + h * c.hd;
    forall d | 0 <= d < c.hd ensures cells[base + d] == RowCells(c, exp, h, qi)[d] {
      ReferenceCell(c, exp, h, qi, d, base + d);
    }
  }

  // ---- the kernel against the reference, and the mask ----

  /** The buffers of both layouts hold the same tensor [heads, positions, hd]. */
  ghost predicate Transposed(headMajor: seq<real>, tokenMajor: seq<real>, heads: nat, positions: nat, hd: nat) {
    forall h, i, d :: 0 <= h < heads && 0 <= i < positions && 0 <= d < hd ==>
      FlashAttention.Element(headMajor, h, i, d, positions, hd) == Element(tokenMajor, i, h, d, heads, hd)
  }

  /** The same self-attention problem, handed to the kernel and to the reference. */
  ghost predicate SameInputs(l: FlashAttention.Launch, c: Config) {
    && l.Valid() && c.Valid() && l.headDim == c.hd > 0
    && l.numHeads == c.nq > 0 && l.numKvHeads == c.nkv && l.seqQ == l.seqKv == c.t > 0
    && l.causal && l.kvOffset == 0 && (c.scale == Some(l.scale) || (c.scale == None && l.scale == 1.0))
    && Transposed(l.q, c.q, c.nq, c.t, c.hd)
    && Transposed(l.k, c.k, c.nkv, c.t, c.hd) && Transposed(l.v, c.v, c.nkv, c.t, c.hd)
  }

  lemma SameGroup(l: FlashAttention.Launch, c: Config)
    requires SameInputs(l, c)
    ensures l.gqaFactor == c.Group() > 0
  {
    ModIs(c.nq, l.gqaFactor, 0, c.nkv);
  }

  lemma SameQuery(l: FlashAttention.Launch, c: Config, h: nat, i: nat)
    requires SameInputs(l, c) && h < c.nq && i < c.t
    ensures SameQueryRow(l.Problem(), c.Problem(), h, i)
  {
    hide FlashAttention.Element, Element;
  }

  lemma SameKeys(l: FlashAttention.Launch, c: Config, kvh: nat, keys: nat)
    requires SameInputs(l, c) && kvh < c.nkv && keys <= c.t
    ensures SameKeyRows(l.Problem(), c.Problem(), kvh, keys)
  {
    hide FlashAttention.Element, Element;
  }

  lemma SameScalars(l: FlashAttention.Launch, c: Config)
    requires SameInputs(l, c)
    ensures c.nkv > 0 && c.nq == c.nkv * c.Group() && l.headDim == c.hd && l.scale == c.Factor()
  {
    hide Transposed;
    NoRemainder(c.nq, c.nkv);
  }

  lemma NoRemainder(a: nat, b: nat)
    requires b > 0 && a % b == 0
    ensures a == b * (a / b)
  {
  }

  lemma SameOutput(l: FlashAttention.Launch, c: Config, exp: real -> real, h: nat, i: nat, d: nat)
    requires SameInputs(l, c) && IsExp(exp) && h < c.nq && i < c.t && d < c.hd
    ensures c.Group() > 0
    ensures l.Problem().Output(exp, i + 1, h, i, d) == c.Problem().Output(exp, i + 1, h, i, d)
  {
    hide *;
    SameGroup(l, c);
    SameScalars(l, c);
    DividesDown(h, c.nkv, c.Group());
    SameQuery(l, c, h, i);
    SameKeys(l, c, h / c.Group(), i + 1);
    SameElements(l.Problem(), c.Problem(), exp, i + 1, h, i, d);
  }

  /** Fused single-pass kernel and two-pass reference give the same tensor, each in its own layout. */
  lemma KernelEqualsReference(l: FlashAttention.Launch, c: Config, exp: real -> real, fused: seq<real>,
                              reference: seq<real>)
    requires SameInputs(l, c) && IsExp(exp)
    requires |fused| == c.nq * c.t * c.hd && |reference| == c.t * c.nq * c.hd
    requires forall p :: 0 <= p < |fused| ==> fused[p] == l.Cell(exp, p)
    requires c.Group() > 0 ==> forall p :: 0 <= p < |reference| ==> reference[p] == c.Cell(exp, p)
    ensures Transposed(fused, reference, c.nq, c.t, c.hd)
  {
    SameGroup(l, c);
    forall h, i, d | 0 <= h < c.nq && 0 <= i < c.t && 0 <= d < c.hd
      ensures FlashAttention.Element(fused, h, i, d, c.t, c.hd) == Element(reference, i, h, d, c.nq, c.hd)
    {
      FusedElement(l, c, exp, fused, h, i, d);
      ReferenceElement(c, exp, reference, h, i, d);
      SameOutput(l, c, exp, h, i, d);
    }
  }

  lemma FusedElement(l: FlashAttention.Launch, c: Config, exp: real -> real, fused: seq<real>, h: nat, i: nat, d: nat)
    requires SameInputs(l, c) && IsExp(exp) && h < c.nq && i < c.t && d < c.hd
    requires |fused| == c.nq * c.t * c.hd && forall p :: 0 <= p < |fused| ==> fused[p] == l.Cell(exp, p)
    ensures FlashAttention.Element(fused, h, i, d, c.t, c.hd) == l.Problem().Output(exp, i + 1, h, i, d)
  {
    hide FlashAttention.Launch.Problem, Problem.Output, FlashAttention.Launch.Cell, Transposed;
    ElementInside(fused, h, i, d, c.nq, c.t, c.hd);
    HeadRowInside(h, i, c.nq, c.t, c.hd);
    FusedCell(l, exp, h, i, d, (h * c.t + i) * c.hd + d);
  }

  lemma FusedCell(l: FlashAttention.Launch, exp: real -> real, h: nat, i: nat, d: nat, p: nat)
    requires l.Valid() && IsExp(exp) && i < l.seqQ == l.seqKv && d < l.headDim && p == (h * l.seqQ + i) * l.headDim + d
    requires l.causal && l.kvOffset == 0
    ensures l.Cell(exp, p) == l.Problem().Output(exp, i + 1, h, i, d)
  {
    hide FlashAttention.Launch.Problem, Problem.Output;
    ModIs(h * l.seqQ + i, h, i, l.seqQ);
    ModIs(p, h * l.seqQ + i, d, l.headDim);
  }

  lemma ReferenceElement(c: Config, exp: real -> real, reference: seq<real>, h: nat, i: nat, d: nat)
    requires c.Valid() && IsExp(exp) && c.Group() > 0 && h < c.nq && i < c.t && d < c.hd
    requires |reference| == c.t * c.nq * c.hd && forall p :: 0 <= p < |reference| ==> reference[p] == c.Cell(exp, p)
    ensures Element(reference, i, h, d, c.nq, c.hd) == c.Problem().Output(exp, i + 1, h, i, d)
  {
    hide Config.Problem, Problem.Output, Config.Cell;
    ElementInside(reference, i, h, d, c.t, c.nq, c.hd);
    HeadRowInside(i, h, c.t, c.nq, c.hd);
    ReferenceCell(c, exp, h, i, d, (i * c.nq + h) * c.hd + d);
  }

  lemma ReferenceCell(c: Config, exp: real -> real, h: nat, i: nat, d: nat, p: nat)
    requires c.Valid() && IsExp(exp) && c.Group() > 0 && h < c.nq && d < c.hd && p == (i * c.nq + h) * c.hd + d
    ensures c.Cell(exp, p) == c.Problem().Output(exp, i + 1, h, i, d)
  {
    hide Config.Problem, Problem.Output;
    ModIs(i * c.nq + h, i, h, c.nq);
    ModIs(p, i * c.nq + h, d, c.hd);
  }

  /** mask[i][j] of create_causal_mask: n query rows after `offset` cached positions. */
  function CausalMask(n: nat, offset: nat, window: Option<int>): seq<seq<bool>> {
    seq(n, i => seq(offset + n, j => offset + i >= j && (window.None? || offset + i <= j + window.value)))
  }

  /** The kernel's causal limit visits exactly the keys the unwindowed mask allows. */
  lemma LimitIsMask(l: FlashAttention.Launch, i: nat, j: nat)
    requires l.causal && i < l.seqQ && l.seqKv == l.kvOffset + l.seqQ && j < l.seqKv
    ensures j < l.Limit(i) <==> CausalMask(l.seqQ, l.kvOffset, None)[i][j]
  {
  }

  /** A window of w keeps, for each query, its own position and the w before it. */
  lemma WindowIsBand(n: nat, offset: nat, w: nat, i: nat, j: nat)
    requires i < n && j < offset + n
    ensures CausalMask(n, offset, Some(w))[i][j] <==> offset + i - w <= j <= offset + i
    ensures CausalMask(n, offset, None)[i][j] <==> j <= offset + i
  {
  }

  /** Both methods on one input: whatever the scheduler does, the buffers are transposes of each other. */
  method CrossCheck(l: FlashAttention.Launch, c: Config, exp: real -> real)
    returns (fused: array<real>, reference: array<real>)
    requires SameInputs(l, c) && IsExp(exp) && Reduction.IsPow2(l.headDim)
    ensures Transposed(fused[..], reference[..], c.nq, c.t, c.hd)
  {
    SameGroup(l, c);
    fused := new real[l.numHeads * l.seqQ * l.headDim];
    FlashAttention.Dispatch(l, exp, fused);
    reference := SdpaCausalGqa(c, exp);
    KernelEqualsReference(l, c, exp, fused[..], reference[..]);
  }
}
