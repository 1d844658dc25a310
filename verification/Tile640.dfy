/** Base-3 tile640 packing (20 ternary digits in one 32-bit word) and its tiled GEMV, against the dense
    reference GEMV of the CPU backend. Words are 32-bit; sums are over exact reals. */
module Tile640 {
  import opened Indexing
  import opened Sums

  const LANES: nat := 32
  const TRITS: nat := 20
  const TILE: nat := 640
  const BLOCK: nat := 256
  const WORD: nat := 0x1_0000_0000

  // ---- the CPU backend's weights and GEMV ----

  /** Row-major ternary digits with one scale per block of flattened elements. */
  datatype TernaryWeights = TernaryWeights(outDim: nat, inDim: nat, blockSize: nat,
                                           digits: seq<int>, scales: seq<real>) {
    ghost predicate Valid() {
      && blockSize > 0 && |digits| == outDim * inDim && outDim * inDim <= |scales| * blockSize
      && forall i :: 0 <= i < |digits| ==> -1 <= digits[i] <= 1
    }

    function Dequant(row: nat, col: nat): real
      requires Valid() && row < outDim && col < inDim
    {
      FlatIndex(this, row, col);
      var flat := row * inDim + col;
      digits[flat] as real * scales[flat / blockSize]
    }

    /** The terms of output element o. */
    ghost function Terms(x: seq<real>, o: nat): int -> real
      requires Valid() && o < outDim && |x| == inDim
    {
      i => if 0 <= i < inDim then Dequant(o, i) * x[i] else 0.0
    }
  }

  lemma FlatIndex(w: TernaryWeights, row: nat, col: nat)
    requires w.Valid() && row < w.outDim && col < w.inDim
    ensures 0 <= row * w.inDim + col < |w.digits|
    ensures (row * w.inDim + col) / w.blockSize < |w.scales|
  {
    MulMono(0, row, w.inDim);
    MulMono(row + 1, w.outDim, w.inDim);
    assert (row + 1) * w.inDim == row * w.inDim + w.inDim;
    DividesDown(row * w.inDim + col, |w.scales|, w.blockSize);
  }

  /** The specification every other backend is compared with. */
  method FusedTernaryGemv(w: TernaryWeights, x: seq<real>, y: array<real>)
    requires w.Valid() && |x| == w.inDim && y.Length == w.outDim
    modifies y
    ensures forall o :: 0 <= o < w.outDim ==> y[o] == Sum(w.inDim, w.Terms(x, o))
  {
    hide TernaryWeights.Dequant;
    for o := 0 to w.outDim
      invariant forall r :: 0 <= r < o ==> y[r] == Sum(w.inDim, w.Terms(x, r))
    {
      var acc := 0.0;
      for i := 0 to w.inDim
        invariant acc == Sum(i, w.Terms(x, o))
      {
        acc := acc + w.Dequant(o, i) * x[i];
      }
      y[o] := acc;
    }
  }

  // ---- base-3 words ----

  function SignToDigit(s: int): (d: nat)
    ensures d < 3
  {
    if s == 1 then 1 else if s == -1 then 2 else 0
  }

  function TritValue(d: nat): int {
    if d == 1 then 1 else if d == 2 then -1 else 0
  }

  function Pow3(n: nat): nat {
    if n == 0 then 1 else 3 * Pow3(n - 1)
  }

  /** The number whose base-3 digits, least significant first, are ds. */
  function Horner(ds: seq<int>): int {
    if ds == [] then 0 else ds[0] + 3 * Horner(ds[1..])
  }

  predicate Digits(ds: seq<int>) {
    forall i :: 0 <= i < |ds| ==> 0 <= ds[i] < 3
  }

  lemma {:induction false} HornerSnoc(ds: seq<int>, d: int)
    ensures Horner(ds + [d]) == Horner(ds) + d * Pow3(|ds|)
  {
    if ds != [] {
      HornerSnoc(ds[1..], d);
      assert (ds + [d])[1..] == ds[1..] + [d];
      assert d * Pow3(|ds|) == 3 * (d * Pow3(|ds| - 1));
    } else {
      assert ([] + [d])[1..] == [];
    }
  }

  lemma {:induction false} HornerBound(ds: seq<int>)
    requires Digits(ds)
    ensures 0 <= Horner(ds) < Pow3(|ds|)
  {
    if ds != [] {
      HornerBound(ds[1..]);
    }
  }

  /** Twenty digits fit a 32-bit word. */
  lemma TwentyTritsFit(ds: seq<int>)
    requires Digits(ds) && |ds| <= TRITS
    ensures 0 <= Horner(ds) < Pow3(TRITS) == 3486784401 < WORD
  {
    HornerBound(ds);
    Pow3Monotone(|ds|, TRITS);
    assert Pow3(5) == 243 && Pow3(10) == 59049 && Pow3(15) == 14348907;
  }

  lemma {:induction false} Pow3Monotone(a: nat, b: nat)
    requires a <= b
    ensures Pow3(a) <= Pow3(b)
  {
    if a < b {
      Pow3Monotone(a, b - 1);
    }
  }

  /** Taking the remainder and the quotient by 3, vi times, arrives at digit vi. */
  lemma {:induction false} HornerDigit(ds: seq<int>, vi: nat)
    requires Digits(ds) && vi < |ds|
    ensures Horner(ds[vi..]) % 3 == ds[vi] && Horner(ds[vi..]) / 3 == Horner(ds[vi + 1..])
  {
    assert ds[vi..][1..] == ds[vi + 1..];
  }

  // ---- packing ----

  /** Digit at (row, col), zero in the padding of the last tile. */
  function DigitAt(w: TernaryWeights, row: nat, col: nat): (d: nat)
    requires w.Valid() && row < w.outDim
    ensures d < 3
  {
    if col < w.inDim then FlatIndex(w, row, col); SignToDigit(w.digits[row * w.inDim + col]) else 0
  }

  /** The 20 digits of lane q of a row, q counting lanes through all tiles of the row. */
  function LaneDigits(w: TernaryWeights, row: nat, q: nat): (ds: seq<int>)
    requires w.Valid() && row < w.outDim
    ensures |ds| == TRITS && Digits(ds)
  {
    var ds: seq<int> := seq(TRITS, vi requires 0 <= vi < TRITS => DigitAt(w, row, q * TRITS + vi));
    assert forall i :: 0 <= i < |ds| ==> ds[i] == DigitAt(w, row, q * TRITS + i);
    ds
  }

  function Tiles(cols: nat): nat {
    (cols + 639) / TILE
  }

  /** Word i of the packed matrix: row-major, 32 lanes to a tile. */
  function WordAt(w: TernaryWeights, i: nat): int
    requires w.Valid() && w.inDim > 0 && i < w.outDim * (Tiles(w.inDim) * LANES)
  {
    DividesDown(i, w.outDim, Tiles(w.inDim) * LANES);
    Horner(LaneDigits(w, i / (Tiles(w.inDim) * LANES), i % (Tiles(w.inDim) * LANES)))
  }

  lemma {:induction false} ZeroDigits(ds: seq<int>, n: nat)
    requires n <= |ds| && forall i :: n <= i < |ds| ==> ds[i] == 0
    ensures Horner(ds[..n]) == Horner(ds)
    decreases |ds| - n
  {
    if n == |ds| {
      assert ds[..n] == ds;
    } else {
      ZeroDigits(ds, n + 1);
      assert ds[..n + 1] == ds[..n] + [0];
      HornerSnoc(ds[..n], 0);
    }
  }

  /** The lane loop: powers of 3 added in 32-bit arithmetic, stopping at the last column. */
  method PackLane(w: TernaryWeights, row: nat, base: nat, ghost q: nat) returns (word: int)
    requires w.Valid() && row < w.outDim && base == q * TRITS
    ensures 0 <= word == Horner(LaneDigits(w, row, q)) < WORD
  {
    ghost var ds := LaneDigits(w, row, q);
    word := 0;
    var power: int := 1;
    TwentyTritsFit(ds);
    hide Horner, Pow3, LaneDigits;
    NoDigits(ds);
    for vi := 0 to TRITS
      invariant word == Horner(ds[..vi]) && power == Pow3(vi)
    {
      var col := base + vi;
      LaneDigit(w, row, q, vi);
      if col >= w.inDim {
        PaddingDigits(w, row, q, vi);
        ZeroDigits(ds, vi);
        assert ds[..TRITS] == ds;
        return;
      }
      FlatIndex(w, row, col);
      PackStep(ds, vi, word, power);
      word := (word + SignToDigit(w.digits[row * w.inDim + col]) * power) % WORD;
      power := 3 * power;
    }
    assert ds[..TRITS] == ds;
  }

  lemma NoDigits(ds: seq<int>)
    ensures Horner(ds[..0]) == 0 && Pow3(0) == 1
  {
  }

  lemma LaneDigit(w: TernaryWeights, row: nat, q: nat, vi: nat)
    requires w.Valid() && row < w.outDim && vi < TRITS
    ensures LaneDigits(w, row, q)[vi] == DigitAt(w, row, q * TRITS + vi)
  {
  }

  lemma PaddingDigits(w: TernaryWeights, row: nat, q: nat, vi: nat)
    requires w.Valid() && row < w.outDim && vi < TRITS && q * TRITS + vi >= w.inDim
    ensures forall i :: vi <= i < TRITS ==> LaneDigits(w, row, q)[i] == 0
  {
    forall i | vi <= i < TRITS ensures LaneDigits(w, row, q)[i] == 0 {
      LaneDigit(w, row, q, i);
    }
  }

  /** Adding digit * 3^vi in 32 bits never wraps. */
  lemma PackStep(ds: seq<int>, vi: nat, word: int, power: int)
    requires Digits(ds) && vi < |ds| <= TRITS && word == Horner(ds[..vi]) && power == Pow3(vi)
    ensures (word + ds[vi] * power) % WORD == Horner(ds[..vi + 1]) && 3 * power == Pow3(vi + 1)
  {
    HornerSnoc(ds[..vi], ds[vi]);
    assert ds[..vi] + [ds[vi]] == ds[..vi + 1];
    TwentyTritsFit(ds[..vi + 1]);
  }

  /** The first n words are written. */
  ghost predicate Packed(w: TernaryWeights, packed: seq<int>, n: int)
    requires w.Valid() && w.inDim > 0
  {
    && |packed| == w.outDim * (Tiles(w.inDim) * LANES)
    && forall i :: 0 <= i < |packed| && i < n ==> 0 <= packed[i] == WordAt(w, i) < WORD
  }

  lemma PackedMore(w: TernaryWeights, packed: seq<int>, n: nat, word: int)
    requires w.Valid() && w.inDim > 0 && n < |packed| && Packed(w, packed, n) && 0 <= word == WordAt(w, n) < WORD
    ensures Packed(w, packed[n := word], n + 1)
  {
  }

  method PackTile(w: TernaryWeights, r: nat, t: nat, packed: array<int>)
    requires w.Valid() && r < w.outDim && w.inDim > 0 && t < Tiles(w.inDim)
    requires Packed(w, packed[..], r * (Tiles(w.inDim) * LANES) + t * LANES)
    modifies packed
    ensures Packed(w, packed[..], r * (Tiles(w.inDim) * LANES) + (t + 1) * LANES)
  {
    hide WordAt, Horner, LaneDigits, Packed;
    var nt := Tiles(w.inDim);
    for lane := 0 to LANES
      invariant Packed(w, packed[..], r * (nt * LANES) + t * LANES + lane)
    {
      var word := PackLane(w, r, t * TILE + lane * TRITS, t * LANES + lane);
      WordIndex(w, r, t, lane);
      PackedLength(w, packed[..], r * (nt * LANES) + t * LANES + lane);
      PackedMore(w, packed[..], r * nt * LANES + t * LANES + lane, word);
      ghost var was := packed[..];
      var i := r * nt * LANES + t * LANES + lane;
      packed[i] := word;
      assert packed[..] == was[i := word];
    }
  }

  lemma PackedLength(w: TernaryWeights, packed: seq<int>, n: int)
    requires w.Valid() && w.inDim > 0 && Packed(w, packed, n)
    ensures |packed| == w.outDim * (Tiles(w.inDim) * LANES)
  {
  }

  /** The packed words of a matrix of any shape; a matrix without columns has none. */
  ghost predicate PackedAll(w: TernaryWeights, packed: seq<int>)
    requires w.Valid()
  {
    if w.inDim == 0 then packed == [] else Packed(w, packed, |packed|)
  }

  method Pack(w: TernaryWeights) returns (packed: array<int>)
    requires w.Valid()
    ensures fresh(packed) && PackedAll(w, packed[..])
  {
    var nt := Tiles(w.inDim);
    MulMono(0, w.outDim, nt * LANES);
    packed := new int[w.outDim * (nt * LANES)];
    for r := 0 to w.outDim
      invariant w.inDim > 0 ==> Packed(w, packed[..], r * (nt * LANES))
    {
      for t := 0 to nt
        invariant w.inDim > 0 ==> Packed(w, packed[..], r * (nt * LANES) + t * LANES)
      {
        hide Packed;
        PackTile(w, r, t, packed);
      }
      NextMultiple(r, nt * LANES);
    }
  }

  lemma WordIndex(w: TernaryWeights, r: nat, t: nat, lane: nat)
    requires w.Valid() && w.inDim > 0 && r < w.outDim && t < Tiles(w.inDim) && lane < LANES
    ensures var nt := Tiles(w.inDim);
      var i := r * nt * LANES + t * LANES + lane;
      && i == r * (nt * LANES) + t * LANES + lane && 0 <= i < w.outDim * (nt * LANES)
      && WordAt(w, i) == Horner(LaneDigits(w, r, t * LANES + lane))
  {
    var width, q := Tiles(w.inDim) * LANES, t * LANES + lane;
    MulMono(0, r, width);
    MulMono(r + 1, w.outDim, width);
    assert (r + 1) * width == r * width + width;
    assert r * Tiles(w.inDim) * LANES == r * width;
    ModIs(r * width + q, r, q, width);
  }

  // ---- the tiled GEMV ----

  /** One lane: digits come out of the word by remainder and quotient; columns past the last are skipped. */
  method LaneDot(ghost w: TernaryWeights, row: nat, base: nat, ghost q: nat, word: int, cols: nat, scales: seq<real>,
                 x: seq<real>, acc0: real) returns (acc: real)
    requires w.Valid() && w.blockSize == BLOCK && scales == w.scales && cols == w.inDim == |x|
    requires row < w.outDim && base == q * TRITS && word == Horner(LaneDigits(w, row, q))
    requires acc0 == Sum(Min(base, cols), w.Terms(x, row))
    ensures acc == Sum(Min(base + TRITS, cols), w.Terms(x, row))
  {
    ghost var ds := LaneDigits(w, row, q);
    acc := acc0;
    var rem := word;
    assert ds[0..] == ds;
    hide Horner, LaneDigits, TernaryWeights.Terms, DigitAt;
    for vi := 0 to TRITS
      invariant rem == Horner(ds[vi..])
      invariant acc == Sum(Min(base + vi, cols), w.Terms(x, row))
    {
      var col := base + vi;
      HornerDigit(ds, vi);
      LaneDigit(w, row, q, vi);
      var d := rem % 3;
      rem := rem / 3;
      if col >= cols {
        continue;
      }
      var term := Term(w, row, col, d, cols, scales, x);
      acc := acc + term;
    }
  }

  method Term(ghost w: TernaryWeights, row: nat, col: nat, d: int, cols: nat, scales: seq<real>,
              x: seq<real>) returns (term: real)
    requires w.Valid() && w.blockSize == BLOCK && scales == w.scales && cols == w.inDim == |x|
    requires row < w.outDim && col < cols && d == DigitAt(w, row, col)
    ensures term == w.Terms(x, row)(col)
  {
    DigitTerm(w, row, col, x, d);
    var blk := (row * cols + col) / BLOCK;
    term := x[col] * (TritValue(d) as real * scales[blk]);
  }

  /** The unpacked digit, decoded and scaled, gives the reference's term. */
  lemma DigitTerm(w: TernaryWeights, row: nat, col: nat, x: seq<real>, d: int)
    requires w.Valid() && row < w.outDim && col < w.inDim == |x| && d == DigitAt(w, row, col)
    ensures 0 <= row * w.inDim + col < |w.digits| && 0 <= (row * w.inDim + col) / w.blockSize < |w.scales|
    ensures x[col] * (TritValue(d) as real * w.scales[(row * w.inDim + col) / w.blockSize]) == w.Terms(x, row)(col)
  {
    FlatIndex(w, row, col);
    Commute(x[col], w.Dequant(row, col));
  }

  lemma Commute(a: real, b: real)
    ensures a * b == b * a
  {
  }

  method RowDot(ghost w: TernaryWeights, packed: seq<int>, row: nat, cols: nat, scales: seq<real>,
                x: seq<real>) returns (acc: real)
    requires w.Valid() && w.blockSize == BLOCK && scales == w.scales && cols == w.inDim == |x| && row < w.outDim
    requires PackedAll(w, packed)
    ensures acc == Sum(cols, w.Terms(x, row))
  {
    hide WordAt, TernaryWeights.Terms, Sum, LaneDigits, Horner;
    var nt := Tiles(cols);
    acc := 0.0;
    EmptySum(w.Terms(x, row));
    for t := 0 to nt
      invariant acc == Sum(Min(t * TILE, cols), w.Terms(x, row))
    {
      for lane := 0 to LANES
        invariant acc == Sum(Min(t * TILE + lane * TRITS, cols), w.Terms(x, row))
      {
        WordIndex(w, row, t, lane);
        var word := packed[row * nt * LANES + t * LANES + lane];
        acc := LaneDot(w, row, t * TILE + lane * TRITS, t * LANES + lane, word, cols, scales, x, acc);
      }
    }
  }

  lemma EmptySum(f: int -> real)
    ensures Sum(0, f) == 0.0
  {
  }

  /** For every shape, the tile and lane traversal of the packed words computes the reference GEMV. */
  method TiledGemv(ghost w: TernaryWeights, packed: seq<int>, rows: nat, cols: nat, scales: seq<real>,
                   x: seq<real>) returns (y: array<real>)
    requires w.Valid() && w.blockSize == BLOCK && scales == w.scales && rows == w.outDim && cols == w.inDim == |x|
    requires PackedAll(w, packed)
    ensures fresh(y) && y.Length == rows
    ensures forall o :: 0 <= o < rows ==> y[o] == Sum(cols, w.Terms(x, o))
  {
    hide WordAt, TernaryWeights.Terms, PackedAll;
    y := new real[rows];
    for r := 0 to rows
      invariant forall o :: 0 <= o < r ==> y[o] == Sum(cols, w.Terms(x, o))
    {
      y[r] := RowDot(w, packed, r, cols, scales, x);
    }
  }

  /** Pack, then both GEMVs: equal results. */
  method CrossCheck(w: TernaryWeights, x: seq<real>) returns (reference: array<real>, tiled: array<real>)
    requires w.Valid() && w.blockSize == BLOCK && |x| == w.inDim
    ensures reference[..] == tiled[..]
  {
    var packed := Pack(w);
    reference := new real[w.outDim];
    FusedTernaryGemv(w, x, reference);
    tiled := TiledGemv(w, packed[..], w.outDim, w.inDim, w.scales, x);
  }

  // ---- one digit of a word ----

  lemma DivideTwice(x: nat, p: nat)
    requires p > 0
    ensures x / (3 * p) == x / 3 / p
  {
    var q, r, t := x / 3 / p, x / 3 % p, x % 3;
    assert x / 3 == p * q + r;
    assert q * (3 * p) == 3 * (p * q);
    ModIs(x, q, 3 * r + t, 3 * p);
  }

  lemma {:induction false} WordDigit(ds: seq<int>, vi: nat)
    requires Digits(ds) && vi < |ds|
    ensures 0 <= Horner(ds) && Pow3(vi) > 0 && Horner(ds) / Pow3(vi) % 3 == ds[vi]
  {
    HornerBound(ds);
    if vi > 0 {
      WordDigit(ds[1..], vi - 1);
      DivideTwice(Horner(ds), Pow3(vi - 1));
    }
  }

  lemma PackedWord(w: TernaryWeights, packed: seq<int>, i: nat)
    requires w.Valid() && w.inDim > 0 && PackedAll(w, packed) && i < w.outDim * (Tiles(w.inDim) * LANES)
    ensures i < |packed| && packed[i] == WordAt(w, i)
  {
    hide WordAt;
  }

  lemma DigitIsRemainder(w: TernaryWeights, row: nat, col: nat)
    requires w.Valid() && row < w.outDim && col < w.inDim
    ensures 0 <= row * w.inDim + col < |w.digits|
    ensures DigitAt(w, row, col) == w.digits[row * w.inDim + col] % 3
  {
    FlatIndex(w, row, col);
  }

  lemma WhereColumn(col: nat)
    ensures var t, lane, vi := col / 640, col % 640 / 20, col % 20;
      lane < 32 && t * 32 + lane == col / 20 && (t * 32 + lane) * 20 + vi == col
  {
  }

  /** The digit of column `col` stands in word col / 20 of its row's 32 words a tile, at place 3^(col % 20), as the
      remainder of the weight's sign by 3. */
  lemma PackedDigit(w: TernaryWeights, packed: seq<int>, row: nat, col: nat, i: nat)
    requires w.Valid() && PackedAll(w, packed) && row < w.outDim && col < w.inDim
    requires i == row * ((w.inDim + 639) / 640 * 32) + col / 20
    ensures i < |packed| && 0 <= row * w.inDim + col < |w.digits| && Pow3(col % 20) > 0
    ensures packed[i] / Pow3(col % 20) % 3 == w.digits[row * w.inDim + col] % 3
  {
    var t, lane := col / 640, col % 640 / 20;
    assert t < Tiles(w.inDim) && Tiles(w.inDim) == (w.inDim + 639) / 640;
    WhereColumn(col);
    hide *;
    WordIndex(w, row, t, lane);
    PackedWord(w, packed, i);
    LaneDigit(w, row, t * LANES + lane, col % 20);
    DigitIsRemainder(w, row, col);
    WordDigit(LaneDigits(w, row, t * LANES + lane), col % 20);
  }
}
