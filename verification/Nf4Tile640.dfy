/** The interleaved NF4Tile640 arena. All its nested (row, tile, group, lane, i) addresses turn out to be
    linear in x = row * padded + col over the zero-padded matrix: nibble x, byte x / 2, scale x / 128. */
module Nf4Tile640 {
  import opened Codebook
  import opened Indexing
  import opened Reals

  const TILE: nat := 640
  const GROUP: nat := 128
  const GPT: nat := 5
  const LANES: nat := 32
  const VPL: nat := 4
  const BYTES_TILE: nat := 320
  const BYTES_GROUP: nat := 64

  function TilesFor(cols: nat): nat {
    (cols + 639) / TILE
  }

  /** A row-major weight matrix. */
  datatype Matrix = Matrix(w: seq<real>, rows: nat, cols: nat) {
    ghost predicate Valid() {
      |w| == rows * cols
    }

    function Padded(): nat {
      TilesFor(cols) * TILE
    }

    /** Weight at (r, col), zero in the padding. */
    function Wval(r: nat, col: nat): real
      requires Valid() && r < rows
    {
      if col < cols then InRow(r, rows, col, cols); w[r * cols + col] else 0.0
    }

    /** Position x of the padded matrix. */
    function At(x: nat): real
      requires Valid() && x < rows * Padded()
    {
      PaddedPosition(this, x);
      Wval(x / Padded(), x % Padded())
    }

    /** Largest |weight| among the first n of group g. */
    function AbsMax(g: nat, n: nat): real
      requires Valid() && n <= GROUP && g * GROUP + n <= rows * Padded()
    {
      if n == 0 then 0.0
      else
        var m := AbsMax(g, n - 1);
        var a := Abs(At(g * GROUP + n - 1));
        if a > m then a else m
    }

    function GroupScale(g: nat): real
      requires Valid() && g * GROUP + GROUP <= rows * Padded()
    {
      Scale(AbsMax(g, GROUP))
    }
  }

  lemma PaddedWidth(cols: nat)
    ensures cols <= TilesFor(cols) * TILE < cols + TILE
  {
  }

  lemma PaddedPosition(m: Matrix, x: nat)
    requires m.Valid() && x < m.rows * m.Padded()
    ensures m.Padded() > 0 && x / m.Padded() < m.rows && x == x / m.Padded() * m.Padded() + x % m.Padded()
  {
    NonZeroWidth(m.rows, m.Padded());
    DividesDown(x, m.rows, m.Padded());
  }

  lemma NonZeroWidth(rows: nat, width: nat)
    requires 0 < rows * width
    ensures width > 0
  {
  }

  // ---- addresses ----

  /** The packer's and the kernel's byte and scale addresses. */
  function ByteAddress(r: nat, tiles: nat, t: nat, g: nat, lane: nat, i: nat): nat {
    r * tiles * BYTES_TILE + t * BYTES_TILE + g * BYTES_GROUP + lane * 2 + i / 2
  }

  function ScaleAddress(r: nat, tiles: nat, t: nat, g: nat): nat {
    r * tiles * GPT + t * GPT + g
  }

  function Column(t: nat, g: nat, lane: nat, i: nat): nat {
    t * TILE + g * GROUP + lane * VPL + i
  }

  /** (tile, group, lane, i) to (byte, nibble) is the linear numbering of the padded row. */
  lemma AddressIsLinear(r: nat, tiles: nat, t: nat, g: nat, lane: nat, i: nat)
    requires g < GPT && lane < LANES && i < VPL
    ensures var x := r * (tiles * TILE) + Column(t, g, lane, i);
      && ByteAddress(r, tiles, t, g, lane, i) == x / 2 && i % 2 == x % 2
      && ScaleAddress(r, tiles, t, g) == x / GROUP
  {
    var k := r * tiles;
    assert r * (tiles * TILE) == k * TILE by {
      assert r * (tiles * TILE) == r * tiles * TILE;
    }
  }

  /** Column-wise addressing: tile, group, lane and i recovered from a column. */
  lemma ColumnParts(col: nat)
    ensures var t, wt := col / TILE, col % TILE;
      var g, gl := wt / GROUP, wt % GROUP;
      var lane, i := gl / VPL, gl % VPL;
      g < GPT && lane < LANES && i < VPL && Column(t, g, lane, i) == col
  {
  }

  /** Distinct padded positions are distinct (byte, nibble) pairs, and every nibble of the arena is one. */
  lemma AddressBijection(r: nat, tiles: nat, t: nat, g: nat, lane: nat, i: nat,
                         r': nat, t': nat, g': nat, lane': nat, i': nat)
    requires g < GPT && lane < LANES && i < VPL && g' < GPT && lane' < LANES && i' < VPL && t < tiles && t' < tiles
    requires ByteAddress(r, tiles, t, g, lane, i) == ByteAddress(r', tiles, t', g', lane', i') && i % 2 == i' % 2
    ensures r == r' && t == t' && g == g' && lane == lane' && i == i'
  {
    AddressIsLinear(r, tiles, t, g, lane, i);
    AddressIsLinear(r', tiles, t', g', lane', i');
    var c, c' := Column(t, g, lane, i), Column(t', g', lane', i');
    DivisionUnique(r, c, r', c', tiles * TILE);
  }

  lemma NibbleCount(rows: nat, tiles: nat)
    ensures rows * (tiles * TILE) == rows * tiles * TILE == 2 * (rows * tiles * BYTES_TILE)
    ensures rows * tiles * BYTES_TILE > 0 ==> tiles > 0
  {
  }

  lemma AddressOnto(rows: nat, tiles: nat, byte: nat, high: bool) returns (r: nat, t: nat, g: nat, lane: nat, i: nat)
    requires byte < rows * tiles * BYTES_TILE
    ensures r < rows && t < tiles && g < GPT && lane < LANES && i < VPL
    ensures ByteAddress(r, tiles, t, g, lane, i) == byte && (i % 2 == 1 <==> high)
  {
    hide ByteAddress;
    var x := 2 * byte + if high then 1 else 0;
    NibbleCount(rows, tiles);
    r := RowOf(rows, x, tiles * TILE);
    t, g, lane, i := RowAddress(r, tiles, x - r * (tiles * TILE));
  }

  lemma RowOf(rows: nat, x: nat, width: nat) returns (r: nat)
    requires x < rows * width && width > 0
    ensures r < rows && 0 <= x - r * width < width
  {
    DividesDown(x, rows, width);
    r := x / width;
  }

  lemma RowAddress(r: nat, tiles: nat, col: nat) returns (t: nat, g: nat, lane: nat, i: nat)
    requires col < tiles * TILE
    ensures t < tiles && g < GPT && lane < LANES && i < VPL
    ensures ByteAddress(r, tiles, t, g, lane, i) == (r * (tiles * TILE) + col) / 2
      && i % 2 == (r * (tiles * TILE) + col) % 2
  {
    ColumnParts(col);
    t, g := col / TILE, col % TILE / GROUP;
    lane, i := col % TILE % GROUP / VPL, col % TILE % GROUP % VPL;
    hide ByteAddress;
    AddressIsLinear(r, tiles, t, g, lane, i);
  }

  // ---- nibbles ----

  function Nibble(packed: seq<bv8>, x: nat): bv8
    requires x / 2 < |packed|
  {
    if x % 2 == 0 then packed[x / 2] & 0x0F else (packed[x / 2] >> 4) & 0x0F
  }

  /** The code the packer gives position x. */
  ghost predicate IsCode(m: Matrix, x: nat, b: nat)
    requires m.Valid() && x < m.rows * m.Padded()
  {
    GroupInside(m, x);
    IsNearest(NF4, Clamp(Normalised(m.At(x), m.GroupScale(x / GROUP)), -1.0, 1.0), 16, b)
  }

  /** A weight times the inverse of its scale. */
  function Normalised(w: real, scale: real): real
    requires scale > 0.0
  {
    w * (1.0 / scale)
  }

  lemma GroupInside(m: Matrix, x: nat)
    requires m.Valid() && x < m.rows * m.Padded()
    ensures x / GROUP * GROUP + GROUP <= m.rows * m.Padded()
    ensures m.GroupScale(x / GROUP) > 0.0
  {
    NibbleCount(m.rows, TilesFor(m.cols));
    assert m.rows * m.Padded() == m.rows * TilesFor(m.cols) * GPT * GROUP;
    AbsMaxNonNegative(m, x / GROUP, GROUP);
  }

  lemma {:induction false} AbsMaxNonNegative(m: Matrix, g: nat, n: nat)
    requires m.Valid() && n <= GROUP && g * GROUP + n <= m.rows * m.Padded()
    ensures m.AbsMax(g, n) >= 0.0
    ensures forall x :: g * GROUP <= x < g * GROUP + n ==> Abs(m.At(x)) <= m.AbsMax(g, n)
    ensures n > 0 ==> exists x :: g * GROUP <= x < g * GROUP + n && Abs(m.At(x)) == m.AbsMax(g, n)
  {
    hide Matrix.At;
    if n > 0 {
      AbsMaxNonNegative(m, g, n - 1);
      var last := g * GROUP + n - 1;
      assert Abs(m.At(last)) == m.AbsMax(g, n) || (n > 1 && m.AbsMax(g, n) == m.AbsMax(g, n - 1));
    }
  }

  /** The largest magnitude of a group: it bounds all of them and occurs among them. */
  ghost predicate IsLargest(m: Matrix, g: nat, largest: real)
    requires m.Valid() && g * 128 + 128 <= m.rows * m.Padded()
  {
    && (forall x :: g * 128 <= x < g * 128 + 128 ==> Abs(m.At(x)) <= largest)
    && exists x :: g * 128 <= x < g * 128 + 128 && Abs(m.At(x)) == largest
  }

  /** The scale of a group: 1 when every magnitude is at most 1e-12, otherwise the largest of them. */
  ghost predicate IsGroupScale(m: Matrix, g: nat, scale: real)
    requires m.Valid() && g * 128 + 128 <= m.rows * m.Padded()
  {
    if forall x :: g * 128 <= x < g * 128 + 128 ==> Abs(m.At(x)) <= 1e-12 then scale == 1.0
    else IsLargest(m, g, scale)
  }

  lemma AbsMaxIsLargest(m: Matrix, g: nat)
    requires m.Valid() && g * GROUP + GROUP <= m.rows * m.Padded()
    ensures IsLargest(m, g, m.AbsMax(g, GROUP))
  {
    AbsMaxNonNegative(m, g, GROUP);
    hide Matrix.At, Matrix.AbsMax;
  }

  lemma GroupScaleIs(m: Matrix, g: nat)
    requires m.Valid() && g * GROUP + GROUP <= m.rows * m.Padded()
    ensures IsGroupScale(m, g, m.GroupScale(g))
  {
    AbsMaxNonNegative(m, g, GROUP);
    hide Matrix.At, Matrix.AbsMax;
  }

  /** Nibble y once the first n are written. */
  ghost predicate NibbleOk(m: Matrix, packed: seq<bv8>, n: nat, y: nat)
    requires m.Valid() && 2 * |packed| == m.rows * m.Padded() && y < 2 * |packed|
  {
    if y < n then IsCode(m, y, Nibble(packed, y) as nat) else Nibble(packed, y) == 0
  }

  /** The first n nibbles hold their codes and the others are still clear; the scales begun are set. */
  ghost predicate Filled(m: Matrix, packed: seq<bv8>, scales: seq<real>, n: nat)
    requires m.Valid()
  {
    && 2 * |packed| == |scales| * GROUP == m.rows * m.Padded()
    && (forall y :: 0 <= y < 2 * |packed| ==> NibbleOk(m, packed, n, y))
    && (forall g {:trigger scales[g]} :: 0 <= g < |scales| && g * GROUP < n ==> scales[g] == m.GroupScale(g))
  }

  lemma OrLow(b: bv8, v: bv8)
    requires v < 16 && b & 0x0F == 0
    ensures (b | (v << 0)) & 0x0F == v && ((b | (v << 0)) >> 4) & 0x0F == (b >> 4) & 0x0F
  {
  }

  lemma OrHigh(b: bv8, v: bv8)
    requires v < 16 && (b >> 4) & 0x0F == 0
    ensures ((b | (v << 4)) >> 4) & 0x0F == v && (b | (v << 4)) & 0x0F == b & 0x0F
  {
  }

  /** Or-ing a code into a clear nibble sets it and changes no other nibble. */
  lemma OrNibble(packed: seq<bv8>, x: nat, v: bv8, y: nat)
    requires x / 2 < |packed| && y / 2 < |packed| && v < 16 && Nibble(packed, x) == 0
    ensures var shifted := if x % 2 == 0 then v << 0 else v << 4;
      Nibble(packed[x / 2 := packed[x / 2] | shifted], y) == if y == x then v else Nibble(packed, y)
  {
    if x % 2 == 0 {
      OrLow(packed[x / 2], v);
    } else {
      OrHigh(packed[x / 2], v);
    }
  }

  function Shifted(x: nat, b: nat): bv8
    requires b < 16
  {
    if x % 2 == 0 then (b as bv8) << 0 else (b as bv8) << 4
  }

  lemma NibbleStep(m: Matrix, packed: seq<bv8>, x: nat, b: nat, y: nat)
    requires m.Valid() && 2 * |packed| == m.rows * m.Padded() && x < 2 * |packed| && y < 2 * |packed| && b < 16
      && IsCode(m, x, b)
    requires NibbleOk(m, packed, x, x) && NibbleOk(m, packed, x, y)
    ensures NibbleOk(m, packed[x / 2 := packed[x / 2] | Shifted(x, b)], x + 1, y)
  {
    hide IsCode, Nibble, Matrix.Padded;
    CodeByte(b);
    OrNibble(packed, x, b as bv8, y);
  }

  lemma FillsNibble(m: Matrix, packed: seq<bv8>, scales: seq<real>, x: nat, b: nat)
    requires m.Valid() && Filled(m, packed, scales, x) && x < m.rows * m.Padded() && b < 16 && IsCode(m, x, b)
    requires x % GROUP == 0 ==> scales[x / GROUP] == m.GroupScale(x / GROUP)
    ensures x / 2 < |packed| && x / GROUP < |scales|
    ensures Filled(m, packed[x / 2 := packed[x / 2] | Shifted(x, b)], scales, x + 1)
  {
    hide IsCode, NibbleOk, Shifted, Matrix.GroupScale, Matrix.Padded, TilesFor;
    var packed', next := packed[x / 2 := packed[x / 2] | Shifted(x, b)], x + 1;
    forall y | 0 <= y < 2 * |packed| ensures NibbleOk(m, packed', next, y) {
      NibbleStep(m, packed, x, b, y);
    }
  }

  lemma CodeByte(b: nat)
    requires b < 16
    ensures b as bv8 < 16 && (b as bv8) as nat == b
  {
  }

  // ---- packing ----

  lemma PositionAt(m: Matrix, r: nat, col: nat)
    requires m.Valid() && r < m.rows && col < m.Padded()
    ensures 0 <= r * m.Padded() + col < m.rows * m.Padded()
    ensures m.At(r * m.Padded() + col) == m.Wval(r, col)
  {
    InRow(r, m.rows, col, m.Padded());
  }

  /** Where group (r, t, g) starts in the padded numbering. */
  function GroupStart(m: Matrix, r: nat, t: nat, g: nat): nat {
    r * m.Padded() + t * TILE + g * GROUP
  }

  lemma GroupPlace(m: Matrix, r: nat, t: nat, g: nat)
    requires m.Valid() && r < m.rows && t < TilesFor(m.cols) && g < GPT
    ensures var x0 := GroupStart(m, r, t, g);
      && x0 % GROUP == 0 && x0 / GROUP == ScaleAddress(r, TilesFor(m.cols), t, g)
      && x0 + GROUP <= m.rows * m.Padded()
      && t * TILE + g * GROUP + GROUP <= m.Padded()
  {
    AddressIsLinear(r, TilesFor(m.cols), t, g, 0, 0);
    MulMono(t + 1, TilesFor(m.cols), TILE);
    InRow(r, m.rows, m.Padded() - 1, m.Padded());
  }

  lemma GroupColumn(m: Matrix, r: nat, t: nat, g: nat, gl: nat)
    requires m.Valid() && r < m.rows && t < TilesFor(m.cols) && g < GPT && gl < GROUP
    ensures GroupStart(m, r, t, g) + gl < m.rows * m.Padded()
    ensures m.At(GroupStart(m, r, t, g) + gl) == m.Wval(r, t * TILE + g * GROUP + gl)
  {
    GroupPlace(m, r, t, g);
    PositionAt(m, r, t * TILE + g * GROUP + gl);
  }

  method GroupAbsMax(m: Matrix, r: nat, t: nat, g: nat, ghost group: nat) returns (absmax: real)
    requires m.Valid() && r < m.rows && t < TilesFor(m.cols) && g < GPT
    requires group * GROUP == GroupStart(m, r, t, g) && group * GROUP + GROUP <= m.rows * m.Padded()
    ensures absmax == m.AbsMax(group, GROUP) && IsLargest(m, group, absmax)
  {
    AbsMaxIsLargest(m, group);
    hide Matrix.At, GroupStart;
    absmax := 0.0;
    for gl := 0 to GROUP
      invariant absmax == m.AbsMax(group, gl)
    {
      GroupColumn(m, r, t, g, gl);
      var a := Abs(m.Wval(r, t * TILE + g * GROUP + gl));
      absmax := if a > absmax then a else absmax;
    }
  }

  lemma StartsGroup(m: Matrix, packed: seq<bv8>, scales: seq<real>, group: nat)
    requires m.Valid() && Filled(m, packed, scales, group * GROUP) && group < |scales|
    requires group * GROUP + GROUP <= m.rows * m.Padded()
    ensures Filled(m, packed, scales[group := m.GroupScale(group)], group * GROUP)
  {
    hide NibbleOk, Matrix.GroupScale;
  }

  method CodeOf(m: Matrix, r: nat, col: nat, inv: real, ghost x: nat) returns (idx: nat)
    requires m.Valid() && r < m.rows && x < m.rows * m.Padded() && m.At(x) == m.Wval(r, col)
    requires x / GROUP * GROUP + GROUP <= m.rows * m.Padded() && m.GroupScale(x / GROUP) > 0.0
    requires inv == 1.0 / m.GroupScale(x / GROUP)
    ensures idx < 16 && IsCode(m, x, idx)
  {
    hide Matrix.At, Matrix.Wval, Matrix.GroupScale, IsNearest, Clamp, Matrix.Padded;
    var u := m.Wval(r, col) * inv;
    NormalisedIs(m.Wval(r, col), inv, m.GroupScale(x / GROUP));
    assert u == Normalised(m.At(x), m.GroupScale(x / GROUP));
    hide Normalised;
    idx := Nearest(NF4, Clamp(u, -1.0, 1.0));
    NearestInRange(NF4, Clamp(u, -1.0, 1.0), idx);
  }

  lemma NormalisedIs(w: real, inv: real, scale: real)
    requires scale > 0.0 && inv == 1.0 / scale
    ensures w * inv == Normalised(w, scale)
  {
  }

  /** One nibble: normalise, clamp, find the code, or it into its byte. */
  method PackNibble(m: Matrix, r: nat, t: nat, g: nat, lane: nat, i: nat, inv: real, packed: array<bv8>,
                    ghost scales: seq<real>, ghost x: nat)
    requires m.Valid() && r < m.rows && t < TilesFor(m.cols) && g < GPT && lane < LANES && i < VPL
    requires x == GroupStart(m, r, t, g) + lane * VPL + i && x < m.rows * m.Padded()
    requires x / GROUP * GROUP + GROUP <= m.rows * m.Padded() && m.GroupScale(x / GROUP) > 0.0
    requires inv == 1.0 / m.GroupScale(x / GROUP)
    requires Filled(m, packed[..], scales, x)
    requires x / GROUP < |scales| && scales[x / GROUP] == m.GroupScale(x / GROUP)
    modifies packed
    ensures Filled(m, packed[..], scales, x + 1)
  {
    GroupColumn(m, r, t, g, lane * VPL + i);
    var byte := NibbleByte(m, r, t, g, lane, i, x);
    hide Filled, Matrix.At, Matrix.Wval, Matrix.GroupScale, Matrix.Padded, IsCode, GroupStart, Shifted;
    var idx := CodeOf(m, r, Column(t, g, lane, i), inv, x);
    FillsNibble(m, packed[..], scales, x, idx);
    ghost var was := packed[..];
    SameShift(x, i, idx);
    packed[byte] := packed[byte] | Shifted(i, idx);
    assert packed[..] == was[x / 2 := was[x / 2] | Shifted(x, idx)];
  }

  method NibbleByte(m: Matrix, r: nat, t: nat, g: nat, lane: nat, i: nat, ghost x: nat) returns (byte: nat)
    requires g < GPT && lane < LANES && i < VPL && x == GroupStart(m, r, t, g) + lane * VPL + i
    ensures byte == ByteAddress(r, TilesFor(m.cols), t, g, lane, i) == x / 2 && i % 2 == x % 2
  {
    AddressIsLinear(r, TilesFor(m.cols), t, g, lane, i);
    byte := ByteAddress(r, TilesFor(m.cols), t, g, lane, i);
  }

  lemma NearestInRange(cb: seq<real>, v: real, b: nat)
    requires IsNearest(cb, v, 16, b)
    ensures b < 16
  {
  }

  lemma SameShift(x: nat, i: nat, b: nat)
    requires b < 16 && x % 2 == i % 2
    ensures Shifted(x, b) == Shifted(i, b)
  {
  }

  /** The scale of a group, stored and returned inverted. */
  method PackScale(m: Matrix, r: nat, t: nat, g: nat, group: nat, ghost packed: seq<bv8>,
                   scales: array<real>) returns (inv: real)
    requires m.Valid() && r < m.rows && t < TilesFor(m.cols) && g < GPT
    requires group * GROUP == GroupStart(m, r, t, g) && group * GROUP + GROUP <= m.rows * m.Padded()
      && group < scales.Length
    requires Filled(m, packed, scales[..], group * GROUP)
    modifies scales
    ensures Filled(m, packed, scales[..], group * GROUP)
    ensures scales[group] == m.GroupScale(group) > 0.0 && inv == 1.0 / scales[group]
    ensures IsGroupScale(m, group, scales[group])
  {
    GroupScaleIs(m, group);
    var absmax := GroupAbsMax(m, r, t, g, group);
    hide Filled, Matrix.At, Matrix.AbsMax, Matrix.Padded, Scale, GroupStart, IsLargest, IsGroupScale;
    var scale := Scale(absmax);
    ScalePositive(absmax);
    StartsGroup(m, packed, scales[..], group);
    ghost var was := scales[..];
    scales[group] := scale;
    assert scales[..] == was[group := scale];
    inv := 1.0 / scale;
  }

  method PackNibbles(m: Matrix, r: nat, t: nat, g: nat, inv: real, packed: array<bv8>, ghost scales: seq<real>,
                     ghost group: nat)
    requires m.Valid() && r < m.rows && t < TilesFor(m.cols) && g < GPT
    requires group * GROUP == GroupStart(m, r, t, g) && group * GROUP + GROUP <= m.rows * m.Padded() && group < |scales|
    requires scales[group] == m.GroupScale(group) > 0.0 && inv == 1.0 / scales[group]
    requires Filled(m, packed[..], scales, group * GROUP)
    modifies packed
    ensures Filled(m, packed[..], scales, group * GROUP + GROUP)
  {
    hide Filled, Matrix.GroupScale, Matrix.Padded, GroupStart;
    for lane := 0 to LANES
      invariant Filled(m, packed[..], scales, group * GROUP + lane * VPL)
    {
      for i := 0 to VPL
        invariant Filled(m, packed[..], scales, group * GROUP + lane * VPL + i)
      {
        ghost var x := group * GROUP + lane * VPL + i;
        assert x / GROUP == group;
        PackNibble(m, r, t, g, lane, i, inv, packed, scales, x);
      }
    }
  }

  method PackGroup(m: Matrix, r: nat, t: nat, g: nat, packed: array<bv8>, scales: array<real>)
    requires m.Valid() && r < m.rows && t < TilesFor(m.cols) && g < GPT
    requires Filled(m, packed[..], scales[..], GroupStart(m, r, t, g))
    modifies packed, scales
    ensures Filled(m, packed[..], scales[..], GroupStart(m, r, t, g) + GROUP)
  {
    GroupPlace(m, r, t, g);
    var group := ScaleAddress(r, TilesFor(m.cols), t, g);
    assert group * GROUP == GroupStart(m, r, t, g) && group < scales.Length;
    hide Filled, GroupStart, ScaleAddress, Matrix.Padded, Matrix.GroupScale;
    var inv := PackScale(m, r, t, g, group, packed[..], scales);
    PackNibbles(m, r, t, g, inv, packed, scales[..], group);
  }

  method PackTile(m: Matrix, r: nat, t: nat, packed: array<bv8>, scales: array<real>)
    requires m.Valid() && r < m.rows && t < TilesFor(m.cols)
    requires Filled(m, packed[..], scales[..], r * m.Padded() + t * TILE)
    modifies packed, scales
    ensures Filled(m, packed[..], scales[..], r * m.Padded() + (t + 1) * TILE)
  {
    hide Filled, Matrix.Padded, TilesFor;
    for g := 0 to GPT
      invariant Filled(m, packed[..], scales[..], r * m.Padded() + t * TILE + g * GROUP)
    {
      PackGroup(m, r, t, g, packed, scales);
    }
  }

  method NewArena(m: Matrix) returns (packed: array<bv8>, scales: array<real>)
    requires m.Valid()
    ensures fresh(packed) && fresh(scales) && Filled(m, packed[..], scales[..], 0)
  {
    var tiles := TilesFor(m.cols);
    ArenaSizes(m);
    packed := new bv8[m.rows * tiles * BYTES_TILE](_ => 0);
    scales := new real[m.rows * tiles * GPT](_ => 0.0);
    NothingFilled(m, packed[..], scales[..]);
  }

  /** Packs a matrix of any shape: every nibble of the arena is the code of its padded position. */
  method Pack(m: Matrix) returns (packed: array<bv8>, scales: array<real>)
    requires m.Valid()
    ensures Filled(m, packed[..], scales[..], m.rows * m.Padded())
    ensures BytesAndScales(m, packed[..], scales[..])
  {
    hide Filled, TilesFor, Matrix.Valid, BytesAndScales;
    packed, scales := NewArena(m);
    var tiles := TilesFor(m.cols);
    for r := 0 to m.rows
      invariant Filled(m, packed[..], scales[..], r * m.Padded())
    {
      for t := 0 to tiles
        invariant Filled(m, packed[..], scales[..], r * m.Padded() + t * TILE)
      {
        PackTile(m, r, t, packed, scales);
      }
      NextMultiple(r, m.Padded());
    }
    WhatIsPacked(m, packed[..], scales[..]);
  }

  /** The low half of byte b is the code of padded position 2 * b, the high half that of the next one, and every
      scale is its group's. */
  ghost predicate BytesAndScales(m: Matrix, packed: seq<bv8>, scales: seq<real>)
    requires m.Valid()
  {
    && 2 * |packed| == m.rows * m.Padded() == 128 * |scales|
    && (forall b :: 0 <= b < |packed| ==>
          IsCode(m, 2 * b, packed[b] as nat % 16) && IsCode(m, 2 * b + 1, packed[b] as nat / 16))
    && (forall g :: 0 <= g < |scales| ==> IsGroupScale(m, g, scales[g]))
  }

  lemma Halves(b: bv8)
    ensures (b & 0x0F) as nat == b as nat % 16
    ensures ((b >> 4) & 0x0F) as nat == b as nat / 16
  {
    assert b & 0x0F == b % 16 && (b >> 4) & 0x0F == b / 16;
  }

  lemma PackedByte(m: Matrix, packed: seq<bv8>, scales: seq<real>, b: nat)
    requires m.Valid() && Filled(m, packed, scales, m.rows * m.Padded()) && b < |packed|
    ensures IsCode(m, 2 * b, packed[b] as nat % 16) && IsCode(m, 2 * b + 1, packed[b] as nat / 16)
  {
    hide IsCode, Matrix.Padded;
    assert NibbleOk(m, packed, 2 * |packed|, 2 * b) && NibbleOk(m, packed, 2 * |packed|, 2 * b + 1);
    Halves(packed[b]);
  }

  lemma WhatIsPacked(m: Matrix, packed: seq<bv8>, scales: seq<real>)
    requires m.Valid() && Filled(m, packed, scales, m.rows * m.Padded())
    ensures BytesAndScales(m, packed, scales)
  {
    hide IsCode, NibbleOk, IsGroupScale, Matrix.GroupScale, Matrix.Padded;
    forall b | 0 <= b < |packed|
      ensures IsCode(m, 2 * b, packed[b] as nat % 16) && IsCode(m, 2 * b + 1, packed[b] as nat / 16)
    {
      PackedByte(m, packed, scales, b);
    }
    forall g | 0 <= g < |scales| ensures IsGroupScale(m, g, scales[g]) {
      GroupScaleIs(m, g);
    }
  }

  lemma ArenaSizes(m: Matrix)
    requires m.Valid()
    ensures var tiles := TilesFor(m.cols);
      0 <= 2 * (m.rows * tiles * BYTES_TILE) == m.rows * tiles * GPT * GROUP == m.rows * m.Padded()
  {
    NibbleCount(m.rows, TilesFor(m.cols));
    MulMono(0, m.rows, TilesFor(m.cols));
  }

  lemma NothingFilled(m: Matrix, packed: seq<bv8>, scales: seq<real>)
    requires m.Valid() && 2 * |packed| == |scales| * GROUP == m.rows * m.Padded()
    requires forall k :: 0 <= k < |packed| ==> packed[k] == 0
    ensures Filled(m, packed, scales, 0)
  {
    hide Matrix.Padded;
    forall y | 0 <= y < 2 * |packed| ensures NibbleOk(m, packed, 0, y) {
    }
  }
}
