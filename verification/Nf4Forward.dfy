/** Reading an NF4Tile640 arena back: column by column, byte by byte, and inside the guarded GEMV kernel. */
module Nf4Forward {
  import opened Codebook
  import opened Indexing
  import opened Nf4Tile640
  import opened Reals
  import opened Sums

  /** A code's weight: codebook entry times group scale. */
  function CodeValue(b: bv8, scale: real): real
    requires b < 16
  {
    CodeIndex(b);
    Times(NF4[b as int], scale)
  }

  lemma CodeIndex(b: bv8)
    requires b < 16
    ensures 0 <= b as int < 16
  {
  }

  /** An arena of the right size for a rows x cols matrix, whatever it holds. */
  datatype Arena = Arena(packed: seq<bv8>, scales: seq<real>, rows: nat, cols: nat) {
    function Padded(): nat {
      TilesFor(cols) * TILE
    }

    ghost predicate Valid() {
      2 * |packed| == |scales| * GROUP == rows * Padded()
    }

    /** The weight at padded position x. */
    function Recon(x: nat): real
      requires Valid() && x < rows * Padded()
    {
      NibbleRange(packed, x);
      CodeValue(Nibble(packed, x), scales[x / GROUP])
    }

    /** The weight reconstructed at (r, col), zero outside the padded matrix. */
    function At(r: int, col: int): real
      requires Valid()
    {
      if 0 <= r < rows && 0 <= col < Padded() then
        PositionInside(this, r, col);
        Recon(r * Padded() + col)
      else 0.0
    }

    /** The terms of output row r. */
    ghost function Terms(v: seq<real>, r: nat): int -> real
      requires Valid()
    {
      c => if 0 <= c < |v| then Times(At(r, c), v[c]) else 0.0
    }
  }

  lemma NibbleRange(packed: seq<bv8>, x: nat)
    requires x / 2 < |packed|
    ensures Nibble(packed, x) < 16
  {
  }

  lemma PositionInside(a: Arena, r: nat, col: nat)
    requires a.Valid() && r < a.rows && col < a.Padded()
    ensures 0 <= r * a.Padded() + col < a.rows * a.Padded()
  {
    InRow(r, a.rows, col, a.Padded());
  }

  lemma ColumnInside(a: Arena, t: nat, g: nat, lane: nat, i: nat)
    requires t < TilesFor(a.cols) && g < GPT && lane < LANES && i < VPL
    ensures Column(t, g, lane, i) < a.Padded()
  {
    MulMono(t + 1, TilesFor(a.cols), TILE);
  }

  lemma ScaleInside(a: Arena, r: nat, t: nat, g: nat)
    requires a.Valid() && r < a.rows && t < TilesFor(a.cols) && g < GPT
    ensures ScaleAddress(r, TilesFor(a.cols), t, g) < |a.scales|
  {
    ColumnInside(a, t, g, 0, 0);
    PositionInside(a, r, Column(t, g, 0, 0));
    AddressIsLinear(r, TilesFor(a.cols), t, g, 0, 0);
  }

  lemma PositionBounds(a: Arena, x: nat)
    requires a.Valid() && x < a.rows * a.Padded()
    ensures x / 2 < |a.packed| && x / GROUP < |a.scales|
  {
  }

  // ---- decoding ----

  /** One weight, addressed by tile, group, lane and index. */
  method Decode(a: Arena, r: nat, t: nat, g: nat, lane: nat, i: nat, scale: real) returns (weight: real)
    requires a.Valid() && r < a.rows && t < TilesFor(a.cols) && g < GPT && lane < LANES && i < VPL
    requires ScaleAddress(r, TilesFor(a.cols), t, g) < |a.scales|
      && scale == a.scales[ScaleAddress(r, TilesFor(a.cols), t, g)]
    ensures weight == a.At(r, Column(t, g, lane, i))
  {
    ghost var x := r * a.Padded() + Column(t, g, lane, i);
    ColumnInside(a, t, g, lane, i);
    PositionInside(a, r, Column(t, g, lane, i));
    AddressIsLinear(r, TilesFor(a.cols), t, g, lane, i);
    PositionBounds(a, x);
    assert scale == a.scales[x / GROUP];
    var byte := ByteAddress(r, TilesFor(a.cols), t, g, lane, i);
    assert byte == x / 2;
    assert a.At(r, Column(t, g, lane, i)) == a.Recon(x);
    hide ByteAddress, ScaleAddress, Column, Arena.Padded, Nibble, Arena.Valid, Arena.At, TilesFor;
    var idx := ReadNibble(a.packed, byte, i, x);
    hide Times, CodeValue;
    weight := CodeValue(idx, scale);
  }

  method ReadNibble(packed: seq<bv8>, byte: nat, i: nat, ghost x: nat) returns (idx: bv8)
    requires byte == x / 2 < |packed| && i % 2 == x % 2
    ensures idx == Nibble(packed, x) < 16
  {
    NibbleRange(packed, x);
    idx := if i % 2 == 0 then packed[byte] & 0x0F else (packed[byte] >> 4) & 0x0F;
  }

  /** The first n elements of the decoded row-major matrix. */
  ghost predicate Decoded(a: Arena, w: seq<real>, n: int)
    requires a.Valid()
  {
    && |w| == a.rows * a.cols
    && (a.cols > 0 ==> forall p :: 0 <= p < |w| && p < n ==> w[p] == a.At(p / a.cols, p % a.cols))
  }

  lemma DecodesMore(a: Arena, w: seq<real>, r: nat, col: nat)
    requires a.Valid() && r < a.rows && col < a.cols && Decoded(a, w, r * a.cols + col)
    ensures 0 <= r * a.cols + col < |w|
    ensures Decoded(a, w[r * a.cols + col := a.At(r, col)], r * a.cols + col + 1)
  {
    InRow(r, a.rows, col, a.cols);
    hide Arena.At, Arena.Valid;
  }

  /** Column-by-column decoding of the real columns. */
  method DequantCol(a: Arena) returns (w: array<real>)
    requires a.Valid()
    ensures fresh(w) && Decoded(a, w[..], w.Length)
  {
    MulMono(0, a.rows, a.cols);
    w := new real[a.rows * a.cols];
    for r := 0 to a.rows
      invariant Decoded(a, w[..], r * a.cols)
    {
      for col := 0 to a.cols
        invariant Decoded(a, w[..], r * a.cols + col)
      {
        hide Decoded, Arena.At;
        var weight := DequantOne(a, r, col);
        DecodesMore(a, w[..], r, col);
        ghost var was := w[..];
        w[r * a.cols + col] := weight;
        assert w[..] == was[r * a.cols + col := a.At(r, col)];
      }
      NextMultiple(r, a.cols);
    }
  }

  method DequantOne(a: Arena, r: nat, col: nat) returns (weight: real)
    requires a.Valid() && r < a.rows && col < a.cols
    ensures weight == a.At(r, col)
  {
    ColumnParts(col);
    TileInside(col, a.cols);
    var t, wt := col / TILE, col % TILE;
    var g, gl := wt / GROUP, wt % GROUP;
    ScaleInside(a, r, t, g);
    hide Arena.Valid, Arena.At, Column, TilesFor;
    weight := Decode(a, r, t, g, gl / VPL, gl % VPL, a.scales[ScaleAddress(r, TilesFor(a.cols), t, g)]);
  }

  lemma TileInside(col: nat, cols: nat)
    requires col < cols
    ensures col / TILE < TilesFor(cols)
  {
  }

  /** Byte-by-byte decoding: both nibbles of every byte, padding skipped. */
  method DequantBytes(a: Arena) returns (w: array<real>)
    requires a.Valid()
    ensures fresh(w) && Decoded(a, w[..], w.Length)
  {
    MulMono(0, a.rows, a.cols);
    w := new real[a.rows * a.cols];
    for r := 0 to a.rows
      invariant Decoded(a, w[..], r * a.cols)
    {
      for t := 0 to TilesFor(a.cols)
        invariant Decoded(a, w[..], r * a.cols + Min(t * TILE, a.cols))
      {
        hide Decoded;
        DequantTileBytes(a, r, t, w);
      }
      PaddedWidth(a.cols);
      NextMultiple(r, a.cols);
    }
  }

  method DequantTileBytes(a: Arena, r: nat, t: nat, w: array<real>)
    requires a.Valid() && r < a.rows && t < TilesFor(a.cols)
    requires Decoded(a, w[..], r * a.cols + Min(t * TILE, a.cols))
    modifies w
    ensures Decoded(a, w[..], r * a.cols + Min((t + 1) * TILE, a.cols))
  {
    hide Decoded, TilesFor;
    for g := 0 to GPT
      invariant Decoded(a, w[..], r * a.cols + Min(t * TILE + g * GROUP, a.cols))
    {
      for b := 0 to BYTES_GROUP
        invariant Decoded(a, w[..], r * a.cols + Min(t * TILE + g * GROUP + 2 * b, a.cols))
      {
        DequantNibble(a, r, t, g, b, 0, w);
        DequantNibble(a, r, t, g, b, 1, w);
      }
    }
  }

  /** Nibble `half` of byte b of a group: lane b / 2, index 2 * (b % 2) + half. */
  method DequantNibble(a: Arena, r: nat, t: nat, g: nat, b: nat, half: nat, w: array<real>)
    requires a.Valid() && r < a.rows && t < TilesFor(a.cols) && g < GPT && b < BYTES_GROUP && half < 2
    requires Decoded(a, w[..], r * a.cols + Min(t * TILE + g * GROUP + 2 * b + half, a.cols))
    modifies w
    ensures Decoded(a, w[..], r * a.cols + Min(t * TILE + g * GROUP + 2 * b + half + 1, a.cols))
  {
    var lane, i := b / 2, b % 2 * 2 + half;
    var col := Column(t, g, lane, i);
    assert col == t * TILE + g * GROUP + 2 * b + half;
    if col < a.cols {
      ScaleInside(a, r, t, g);
      hide Decoded, Column, ScaleAddress, Arena.At, Arena.Valid, TilesFor;
      var scale := a.scales[ScaleAddress(r, TilesFor(a.cols), t, g)];
      var weight := Decode(a, r, t, g, lane, i, scale);
      DecodesMore(a, w[..], r, col);
      ghost var was := w[..];
      w[r * a.cols + col] := weight;
      assert w[..] == was[r * a.cols + col := a.At(r, col)];
    }
  }

  // ---- what an arena packed from a matrix decodes to ----

  /** The arena holds the packed form of m. */
  ghost predicate Packs(a: Arena, m: Matrix)
    requires m.Valid()
  {
    a.rows == m.rows && a.cols == m.cols && Filled(m, a.packed, a.scales, m.rows * m.Padded())
  }

  lemma PackedPosition(a: Arena, m: Matrix, x: nat)
    requires m.Valid() && Packs(a, m) && a.Valid() && x < m.rows * m.Padded()
    ensures x / 2 < |a.packed| && x / GROUP < |a.scales| && Nibble(a.packed, x) < 16
    ensures IsCode(m, x, Nibble(a.packed, x) as nat)
    ensures x / GROUP * GROUP + GROUP <= m.rows * m.Padded() && a.scales[x / GROUP] == m.GroupScale(x / GROUP)
    ensures a.Recon(x) == CodeValue(Nibble(a.packed, x), a.scales[x / GROUP])
  {
    PositionBounds(a, x);
    NibbleRange(a.packed, x);
    hide Matrix.GroupScale, IsCode, Nibble, TilesFor, CodeValue, Times;
    GroupInside(m, x);
    assert NibbleOk(m, a.packed, m.rows * m.Padded(), x);
  }

  lemma NormalisedIsQuotient(w: real, scale: real)
    requires scale > 0.0
    ensures Normalised(w, scale) == w / scale
  {
  }

  lemma NormalisedPosition(m: Matrix, x: nat)
    requires m.Valid() && x < m.rows * m.Padded()
    ensures x / GROUP * GROUP + GROUP <= m.rows * m.Padded() && m.GroupScale(x / GROUP) > 0.0
    ensures -1.0 <= m.At(x) / m.GroupScale(x / GROUP) <= 1.0
    ensures forall b :: IsCode(m, x, b) <==> IsNearest(NF4, m.At(x) / m.GroupScale(x / GROUP), 16, b)
  {
    var g := x / GROUP;
    GroupInside(m, x);
    AbsMaxNonNegative(m, g, GROUP);
    NormalisedIsQuotient(m.At(x), m.GroupScale(g));
    assert Abs(m.At(x)) <= m.AbsMax(g, GROUP);
    hide Matrix.At, Matrix.AbsMax, IsNearest, Matrix.Padded, TilesFor;
    RatioInRange(m.At(x), m.GroupScale(g));
  }

  /** Every weight comes back within 0.1519036 of its group's scale. */
  lemma ReconstructionError(a: Arena, m: Matrix, r: nat, col: nat)
    requires m.Valid() && Packs(a, m) && a.Valid() && r < m.rows && col < m.cols
    ensures 0 <= r * m.cols + col < |m.w| && 0 <= (r * m.Padded() + col) / GROUP < |a.scales|
    ensures Abs(m.w[r * m.cols + col] - a.At(r, col)) <= HALF_GAP * a.scales[(r * m.Padded() + col) / GROUP]
  {
    PaddedWidth(m.cols);
    InRow(r, m.rows, col, m.cols);
    PositionAt(m, r, col);
    assert m.At(r * m.Padded() + col) == m.w[r * m.cols + col];
    assert a.At(r, col) == a.Recon(r * m.Padded() + col);
    PositionError(a, m, r * m.Padded() + col);
  }

  /** A weight within its scale, its code, and the code's value. */
  lemma CodedWeight(w: real, s: real, code: bv8)
    requires code < 16 && s > 0.0 && -1.0 <= w / s <= 1.0 && IsNearest(NF4, w / s, 16, code as nat)
    ensures Abs(w - CodeValue(code, s)) <= HALF_GAP * s
    ensures w == 0.0 ==> CodeValue(code, s) == 0.0
  {
    CodeIndex(code);
    var b := code as nat;
    NF4Error(w / s, b);
    hide Abs, IsNearest, Times;
    ScaledTimes(w, s, NF4[b]);
    if w == 0.0 {
      ZeroCode(s, code);
    }
  }

  lemma ScaledTimes(w: real, s: real, c: real)
    requires s > 0.0 && Abs(w / s - c) <= HALF_GAP
    ensures Abs(w - Times(c, s)) <= HALF_GAP * s
  {
    ScaledError(w, s, c, HALF_GAP);
  }

  lemma ZeroCode(s: real, code: bv8)
    requires code < 16 && s > 0.0 && IsNearest(NF4, 0.0 / s, 16, code as nat)
    ensures CodeValue(code, s) == 0.0
  {
    CodeIndex(code);
    ZeroQuotient(s);
    NF4Zero(code as nat);
    ZeroProduct(s);
  }

  lemma PositionError(a: Arena, m: Matrix, x: nat)
    requires m.Valid() && Packs(a, m) && a.Valid() && x < m.rows * m.Padded()
    ensures x / GROUP < |a.scales| && Abs(m.At(x) - a.Recon(x)) <= HALF_GAP * a.scales[x / GROUP]
    ensures m.At(x) == 0.0 ==> a.Recon(x) == 0.0
  {
    PackedPosition(a, m, x);
    NormalisedPosition(m, x);
    hide *;
    CodedWeight(m.At(x), m.GroupScale(x / GROUP), Nibble(a.packed, x));
  }

  /** The largest weight of a group above 1e-12 is coded by an end of the codebook and comes back exactly. */
  lemma LargestComesBack(a: Arena, m: Matrix, x: nat)
    requires m.Valid() && Packs(a, m) && a.Valid() && x < m.rows * m.Padded() && Abs(m.At(x)) > 1e-12
    requires x / 128 * 128 + 128 <= m.rows * m.Padded() && IsLargest(m, x / 128, Abs(m.At(x)))
    ensures x / 2 < |a.packed| && Nibble(a.packed, x) == (if m.At(x) > 0.0 then 15 else 0)
    ensures a.Recon(x) == m.At(x)
  {
    PackedPosition(a, m, x);
    NormalisedPosition(m, x);
    GroupScaleIs(m, x / 128);
    LargestIsScale(m, x);
    hide *;
    EndOfBook(m.At(x), m.GroupScale(x / GROUP), Nibble(a.packed, x));
  }

  lemma LargestIsScale(m: Matrix, x: nat)
    requires m.Valid() && x < m.rows * m.Padded() && Abs(m.At(x)) > 1e-12
    requires x / 128 * 128 + 128 <= m.rows * m.Padded() && IsLargest(m, x / 128, Abs(m.At(x)))
    ensures m.GroupScale(x / 128) == Abs(m.At(x))
  {
    GroupScaleIs(m, x / 128);
    var s := m.GroupScale(x / 128);
    hide Matrix.At, Matrix.GroupScale, Abs;
    assert x / 128 * 128 <= x < x / 128 * 128 + 128;
    assert IsLargest(m, x / 128, s);
  }

  lemma EndOfBook(w: real, s: real, code: bv8)
    requires code < 16 && s > 0.0 && s == Abs(w) && IsNearest(NF4, w / s, 16, code as nat)
    ensures code == (if w > 0.0 then 15 else 0)
    ensures CodeValue(code, s) == w
  {
    CodeIndex(code);
    var b := code as nat;
    UnitQuotient(w, s);
    NF4EndCodes(w / s, b);
    hide IsNearest, Abs;
    UnitProducts(s);
  }

  lemma UnitQuotient(w: real, s: real)
    requires s > 0.0 && s == Abs(w)
    ensures w / s == if w > 0.0 then 1.0 else -1.0
  {
    if w > 0.0 {
      assert w == s;
    } else {
      assert w == -s;
    }
  }

  lemma UnitProducts(s: real)
    ensures Times(1.0, s) == s && Times(-1.0, s) == -s
  {
  }

  lemma NF4EndCodes(v: real, b: nat)
    requires (v == 1.0 || v == -1.0) && IsNearest(NF4, v, 16, b)
    ensures b == if v == 1.0 then 15 else 0
    ensures NF4[15] == 1.0 && NF4[0] == -1.0
  {
    assert Abs(v - NF4[b]) <= Abs(v - NF4[15]);
    assert Abs(v - NF4[b]) <= Abs(v - NF4[0]);
  }

  lemma ZeroQuotient(s: real)
    requires s > 0.0
    ensures 0.0 / s == 0.0
  {
  }

  lemma ZeroProduct(s: real)
    ensures 0.0 * s == 0.0
  {
  }

  /** Every padded column decodes to exactly zero. */
  lemma PaddingIsZero(a: Arena, m: Matrix, r: nat, col: nat)
    requires m.Valid() && Packs(a, m) && a.Valid() && r < m.rows && m.cols <= col < m.Padded()
    ensures a.At(r, col) == 0.0
  {
    PositionAt(m, r, col);
    assert a.At(r, col) == a.Recon(r * m.Padded() + col);
    PositionError(a, m, r * m.Padded() + col);
  }

  // ---- the GEMVs ----

  /** The terms of row r of a dense row-major matrix. */
  ghost function DenseTerms(w: seq<real>, v: seq<real>, r: nat): int -> real {
    c => if 0 <= c < |v| && r * |v| + c < |w| then Times(w[r * |v| + c], v[c]) else 0.0
  }

  /** Dense reference over a row-major matrix. */
  method DenseGemv(w: seq<real>, v: seq<real>, rows: nat, cols: nat) returns (y: array<real>)
    requires |w| == rows * cols && |v| == cols
    ensures fresh(y) && y.Length == rows
    ensures forall r :: 0 <= r < rows ==> y[r] == Sum(cols, DenseTerms(w, v, r))
  {
    y := new real[rows];
    for r := 0 to rows
      invariant forall q :: 0 <= q < r ==> y[q] == Sum(cols, DenseTerms(w, v, q))
    {
      hide DenseTerms, Sum;
      y[r] := DenseRow(w, v, rows, cols, r);
    }
  }

  method DenseRow(w: seq<real>, v: seq<real>, rows: nat, cols: nat, r: nat) returns (acc: real)
    requires |w| == rows * cols && |v| == cols && r < rows
    ensures acc == Sum(cols, DenseTerms(w, v, r))
  {
    acc := 0.0;
    for c := 0 to cols
      invariant acc == Sum(c, DenseTerms(w, v, r))
    {
      InRow(r, rows, c, cols);
      hide Times;
      var term := Times(w[r * cols + c], v[c]);
      assert term == DenseTerms(w, v, r)(c);
      hide DenseTerms;
      acc := acc + term;
    }
  }

  /** The kernel's traversal of the whole padded grid, with its guard on the column. */
  method KernelGemv(a: Arena, v: seq<real>) returns (y: array<real>)
    requires a.Valid() && |v| == a.cols
    ensures fresh(y) && y.Length == a.rows
    ensures forall r :: 0 <= r < a.rows ==> y[r] == Sum(a.cols, a.Terms(v, r))
  {
    y := new real[a.rows];
    for r := 0 to a.rows
      invariant forall q :: 0 <= q < r ==> y[q] == Sum(a.cols, a.Terms(v, q))
    {
      hide Arena.Terms, Sum, Arena.Valid;
      y[r] := KernelRow(a, v, r);
    }
  }

  /** acc holds the terms of row r over the real columns below n. */
  ghost predicate Reached(a: Arena, v: seq<real>, r: nat, n: nat, acc: real)
    requires a.Valid()
  {
    acc == Sum(Min(n, a.cols), a.Terms(v, r))
  }

  method KernelRow(a: Arena, v: seq<real>, r: nat) returns (acc: real)
    requires a.Valid() && |v| == a.cols && r < a.rows
    ensures acc == Sum(a.cols, a.Terms(v, r))
  {
    PaddedWidth(a.cols);
    acc := 0.0;
    assert Reached(a, v, r, 0, acc);
    ghost var at := 0;
    hide Reached, Arena.Terms, Sum, Arena.Valid, TilesFor;
    for t := 0 to TilesFor(a.cols)
      invariant at == 640 * t && Reached(a, v, r, at, acc)
    {
      ghost var start := at;
      for g := 0 to GPT
        invariant at == start + 128 * g && Reached(a, v, r, at, acc)
      {
        acc := KernelGroup(a, v, r, t, g, at, acc);
        at := at + 128;
      }
    }
    RowReached(a, v, r, at, acc);
  }

  lemma RowReached(a: Arena, v: seq<real>, r: nat, n: nat, acc: real)
    requires a.Valid() && n >= a.cols && Reached(a, v, r, n, acc)
    ensures acc == Sum(a.cols, a.Terms(v, r))
  {
  }

  method KernelGroup(a: Arena, v: seq<real>, r: nat, t: nat, g: nat, ghost start: nat, acc0: real) returns (acc: real)
    requires a.Valid() && |v| == a.cols && r < a.rows && t < TilesFor(a.cols) && g < GPT
    requires start == 640 * t + 128 * g && Reached(a, v, r, start, acc0)
    ensures Reached(a, v, r, start + 128, acc)
  {
    ScaleInside(a, r, t, g);
    var scale := a.scales[ScaleAddress(r, TilesFor(a.cols), t, g)];
    ghost var at := start;
    hide TilesFor, ScaleAddress, Arena.Valid, Reached;
    acc := acc0;
    for lane := 0 to LANES
      invariant at == start + 4 * lane && Reached(a, v, r, at, acc)
    {
      for i := 0 to VPL
        invariant at == start + 4 * lane + i && Reached(a, v, r, at, acc)
      {
        assert at == Column(t, g, lane, i);
        acc := KernelStep(a, v, r, t, g, lane, i, scale, at, acc);
        at := at + 1;
      }
    }
  }

  /** A column past the last is skipped, without reading v. */
  method KernelStep(a: Arena, v: seq<real>, r: nat, t: nat, g: nat, lane: nat, i: nat, scale: real, ghost at: nat,
                    acc0: real)
    returns (acc: real)
    requires a.Valid() && |v| == a.cols && r < a.rows && t < TilesFor(a.cols) && g < GPT && lane < LANES && i < VPL
    requires ScaleAddress(r, TilesFor(a.cols), t, g) < |a.scales|
      && scale == a.scales[ScaleAddress(r, TilesFor(a.cols), t, g)]
    requires at == Column(t, g, lane, i) && Reached(a, v, r, at, acc0)
    ensures Reached(a, v, r, at + 1, acc)
  {
    hide Arena.Terms, Arena.Valid, Sum, Column, ScaleAddress, TilesFor;
    var col := Column(t, g, lane, i);
    if col >= a.cols {
      return acc0;
    }
    AddTerm(col, a.Terms(v, r));
    var term := KernelTerm(a, v, r, t, g, lane, i, scale);
    acc := acc0 + term;
  }

  lemma AddTerm(n: nat, f: int -> real)
    ensures Sum(n + 1, f) == Sum(n, f) + f(n)
  {
  }

  method KernelTerm(a: Arena, v: seq<real>, r: nat, t: nat, g: nat, lane: nat, i: nat, scale: real) returns (term: real)
    requires a.Valid() && |v| == a.cols && r < a.rows && t < TilesFor(a.cols) && g < GPT && lane < LANES && i < VPL
    requires ScaleAddress(r, TilesFor(a.cols), t, g) < |a.scales|
      && scale == a.scales[ScaleAddress(r, TilesFor(a.cols), t, g)]
    requires Column(t, g, lane, i) < a.cols
    ensures term == a.Terms(v, r)(Column(t, g, lane, i))
  {
    var weight := Decode(a, r, t, g, lane, i, scale);
    hide Arena.At, Column, ScaleAddress, Arena.Valid, TilesFor, Times;
    term := Times(weight, v[Column(t, g, lane, i)]);
  }

  /** A decoded matrix has the arena's own row sums. */
  lemma DecodedRow(a: Arena, w: seq<real>, v: seq<real>, r: nat)
    requires a.Valid() && |v| == a.cols && r < a.rows && Decoded(a, w, |w|)
    ensures Sum(a.cols, DenseTerms(w, v, r)) == Sum(a.cols, a.Terms(v, r))
  {
    forall c | 0 <= c < a.cols ensures DenseTerms(w, v, r)(c) == a.Terms(v, r)(c) {
      DecodedTerm(a, w, v, r, c);
    }
    hide DenseTerms, Arena.Terms;
    SumExt(a.cols, DenseTerms(w, v, r), a.Terms(v, r));
  }

  lemma DecodedTerm(a: Arena, w: seq<real>, v: seq<real>, r: nat, c: nat)
    requires a.Valid() && |v| == a.cols && r < a.rows && c < a.cols && Decoded(a, w, |w|)
    ensures DenseTerms(w, v, r)(c) == a.Terms(v, r)(c)
  {
    InRow(r, a.rows, c, a.cols);
    hide Arena.At, Arena.Valid, Times;
    assert w[r * a.cols + c] == a.At(r, c);
  }

  /** Two full decodings are the same matrix. */
  lemma DecodedOnce(a: Arena, w: seq<real>, w': seq<real>)
    requires a.Valid() && Decoded(a, w, |w|) && Decoded(a, w', |w'|)
    ensures w == w'
  {
    hide Arena.At, Arena.Valid;
    if a.cols == 0 {
      assert |w| == 0;
    }
  }

  /** Pack, then decode both ways and multiply both ways: the decodings agree and so do the products. */
  method CrossCheck(m: Matrix, v: seq<real>) returns (byColumn: array<real>, byByte: array<real>, dense: array<real>,
                    kernel: array<real>)
    requires m.Valid() && |v| == m.cols
    ensures byColumn[..] == byByte[..] && dense[..] == kernel[..]
  {
    var packed, scales := Pack(m);
    var a := Arena(packed[..], scales[..], m.rows, m.cols);
    assert a.Valid();
    hide Filled, Arena.Valid, Arena.Terms, DenseTerms, Sum;
    byColumn := DequantCol(a);
    byByte := DequantBytes(a);
    DecodedOnce(a, byColumn[..], byByte[..]);
    assert |byColumn[..]| == m.rows * m.cols;
    hide Decoded;
    dense := DenseGemv(byColumn[..], v, m.rows, m.cols);
    kernel := KernelGemv(a, v);
    forall r | 0 <= r < m.rows ensures dense[r] == kernel[r] {
      DecodedRow(a, byColumn[..], v, r);
    }
  }
}
