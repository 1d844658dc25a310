/** GEMVs over 4-bit palette indices: the byte-wise reference, the word-and-shift form, and the work-group
    kernels whose threads stride over words. */
module Palettized {
  import opened Indexing
  import opened Reals
  import opened Sums

  // ---- nibbles ----

  /** The low nibble of a byte is its even element. */
  function ByteNibble(b: bv8, i: nat): bv32 {
    if i % 2 == 1 then ((b as bv32) >> 4) & 0xF else (b as bv32) & 0xF
  }

  /** Four bytes read as a little-endian word. */
  function LittleEndian(b0: bv8, b1: bv8, b2: bv8, b3: bv8): bv32 {
    (b0 as bv32) | ((b1 as bv32) << 8) | ((b2 as bv32) << 16) | ((b3 as bv32) << 24)
  }

  /** Nibble j by shift and mask, the shift written out. */
  function WordNibble(word: bv32, j: nat): bv32
    requires j < 8
  {
    match j
    case 0 => word & 0xF
    case 1 => (word >> 4) & 0xF
    case 2 => (word >> 8) & 0xF
    case 3 => (word >> 12) & 0xF
    case 4 => (word >> 16) & 0xF
    case 5 => (word >> 20) & 0xF
    case 6 => (word >> 24) & 0xF
    case _ => (word >> 28) & 0xF
  }

  /** Nibble j of the word is nibble j % 2 of byte j / 2. */
  lemma NibbleAgrees(b: seq<bv8>, j: nat)
    requires |b| == 4 && j < 8
    ensures WordNibble(LittleEndian(b[0], b[1], b[2], b[3]), j) == ByteNibble(b[j / 2], j)
  {
    LowBytes(b[0], b[1], b[2], b[3]);
    HighBytes(b[0], b[1], b[2], b[3]);
    hide LittleEndian;
    match j {
      case 0 => {}
      case 1 => {}
      case 2 => {}
      case 3 => {}
      case 4 => {}
      case 5 => {}
      case 6 => {}
      case _ => {}
    }
  }

  lemma LowBytes(b0: bv8, b1: bv8, b2: bv8, b3: bv8)
    ensures var word := LittleEndian(b0, b1, b2, b3);
      && word & 0xF == (b0 as bv32) & 0xF && (word >> 4) & 0xF == ((b0 as bv32) >> 4) & 0xF
      && (word >> 8) & 0xF == (b1 as bv32) & 0xF && (word >> 12) & 0xF == ((b1 as bv32) >> 4) & 0xF
  {
  }

  lemma HighBytes(b0: bv8, b1: bv8, b2: bv8, b3: bv8)
    ensures var word := LittleEndian(b0, b1, b2, b3);
      && (word >> 16) & 0xF == (b2 as bv32) & 0xF && (word >> 20) & 0xF == ((b2 as bv32) >> 4) & 0xF
      && (word >> 24) & 0xF == (b3 as bv32) & 0xF && (word >> 28) & 0xF == ((b3 as bv32) >> 4) & 0xF
  {
  }

  lemma NibbleIndex(n: bv32)
    requires n < 16
    ensures 0 <= n as int < 16
  {
  }

  // ---- the palettized matrix ----

  /** 16 codebook entries and inDim / 2 index bytes per output row. */
  datatype Palette = Palette(codebook: seq<real>, indices: seq<bv8>, inDim: nat, outDim: nat) {
    ghost predicate Valid() {
      |codebook| == outDim * 16 && |indices| == outDim * (inDim / 2)
    }

    /** Whole 32-bit words of indices per row. */
    function Words(): nat {
      inDim / 8
    }

    function RowCodebook(o: nat): (r: seq<real>)
      requires Valid() && o < outDim
      ensures |r| == 16
    {
      RowInside(o, outDim, 16);
      codebook[o * 16..(o + 1) * 16]
    }

    function RowIndices(o: nat): (r: seq<bv8>)
      requires Valid() && o < outDim
      ensures |r| == inDim / 2
    {
      RowInside(o, outDim, inDim / 2);
      indices[o * (inDim / 2)..o * (inDim / 2) + inDim / 2]
    }

    /** The terms of output row o: element i times the codebook entry of its nibble. */
    ghost function Terms(x: seq<real>, o: nat): int -> real
      requires Valid() && o < outDim
    {
      i => if 0 <= i < |x| && i / 2 < inDim / 2 then
        Times(x[i], Entry(RowCodebook(o), ByteNibble(RowIndices(o)[i / 2], i))) else 0.0
    }
  }

  /** Row o of the dense product, over its first n elements. */
  ghost function Dense(p: Palette, x: seq<real>, o: nat, n: nat): real
    requires p.Valid() && o < p.outDim
  {
    Sum(n, p.Terms(x, o))
  }

  lemma WordInside(p: Palette, o: nat, w: nat)
    requires p.Valid() && o < p.outDim && w < p.Words()
    ensures 4 * w + 4 <= |p.RowIndices(o)| && w * 8 + 8 <= p.inDim
  {
    hide Palette.RowIndices;
  }

  function Entry(cb: seq<real>, n: bv32): real
    requires |cb| == 16
  {
    if n < 16 then NibbleIndex(n); cb[n as int] else 0.0
  }

  /** The byte-wise reference. */
  method ReferenceGemv(p: Palette, x: seq<real>) returns (y: array<real>)
    requires p.Valid() && |x| == p.inDim && p.inDim % 2 == 0
    ensures fresh(y) && y.Length == p.outDim
    ensures forall o :: 0 <= o < p.outDim ==> y[o] == Dense(p, x, o, p.inDim)
  {
    y := new real[p.outDim];
    hide Dense;
    for o := 0 to p.outDim
      invariant forall q :: 0 <= q < o ==> y[q] == Dense(p, x, q, p.inDim)
    {
      y[o] := ReferenceRow(p, x, o);
    }
  }

  method ReferenceRow(p: Palette, x: seq<real>, o: nat) returns (acc: real)
    requires p.Valid() && |x| == p.inDim && p.inDim % 2 == 0 && o < p.outDim
    ensures acc == Dense(p, x, o, p.inDim)
  {
    var cb, row := p.RowCodebook(o), p.RowIndices(o);
    hide Palette.Terms, Palette.RowCodebook, Palette.RowIndices, Palette.Valid;
    acc := 0.0;
    for i := 0 to p.inDim
      invariant acc == Sum(i, p.Terms(x, o))
    {
      var term := ReferenceTerm(p, x, o, i, cb, row);
      acc := acc + term;
    }
  }

  method ReferenceTerm(p: Palette, x: seq<real>, o: nat, i: nat, cb: seq<real>, row: seq<bv8>) returns (term: real)
    requires p.Valid() && |x| == p.inDim && p.inDim % 2 == 0 && o < p.outDim && i < p.inDim
    requires cb == p.RowCodebook(o) && row == p.RowIndices(o)
    ensures term == p.Terms(x, o)(i)
  {
    var byte := row[i / 2];
    var nib := if i % 2 == 1 then ((byte as bv32) >> 4) & 0xF else (byte as bv32) & 0xF;
    assert nib == ByteNibble(byte, i);
    hide ByteNibble, Entry, Times, Palette.Valid, Palette.RowCodebook, Palette.RowIndices;
    term := Times(x[i], Entry(cb, nib));
  }

  /** The row's w-th word. */
  function LoadWord(row: seq<bv8>, w: nat): bv32
    requires 4 * w + 4 <= |row|
  {
    LittleEndian(row[4 * w], row[4 * w + 1], row[4 * w + 2], row[4 * w + 3])
  }

  lemma WordNibbleIsByteNibble(row: seq<bv8>, w: nat, j: nat)
    requires 4 * w + 4 <= |row| && j < 8
    ensures (8 * w + j) / 2 < |row| && WordNibble(LoadWord(row, w), j) == ByteNibble(row[(8 * w + j) / 2], 8 * w + j)
  {
    NibbleAgrees(row[4 * w..4 * w + 4], j);
    hide WordNibble, LittleEndian;
    SameParity(row[(8 * w + j) / 2], w, j);
  }

  lemma SameParity(b: bv8, w: nat, j: nat)
    ensures ByteNibble(b, 8 * w + j) == ByteNibble(b, j)
  {
  }

  /** One of the eight products of a word. */
  method WordTerm(p: Palette, x: seq<real>, o: nat, w: nat, j: nat, packed: bv32, cb: seq<real>,
                  ghost f: int -> real) returns (term: real)
    requires p.Valid() && o < p.outDim && |x| == p.inDim && w < p.Words() && j < 8
    requires 4 * w + 4 <= |p.RowIndices(o)| && packed == LoadWord(p.RowIndices(o), w) && cb == p.RowCodebook(o)
      && f == p.Terms(x, o)
    ensures term == f(w * 8 + j)
  {
    WordNibbleIsByteNibble(p.RowIndices(o), w, j);
    hide ByteNibble, WordNibble, LoadWord, Entry, Times, Palette.RowCodebook, Palette.RowIndices, Palette.Valid;
    term := Times(x[w * 8 + j], Entry(cb, WordNibble(packed, j)));
  }

  lemma SumOfEight(f: int -> real)
    ensures Sum(8, f) == f(0) + f(1) + f(2) + f(3) + f(4) + f(5) + f(6) + f(7)
  {
    assert Sum(4, f) == f(0) + f(1) + f(2) + f(3);
  }

  lemma BlockOfEight(f: int -> real, w: nat)
    ensures var at := w * 8;
      Blocks(8, f)(w) == f(at) + f(at + 1) + f(at + 2) + f(at + 3) + f(at + 4) + f(at + 5) + f(at + 6) + f(at + 7)
  {
    SumOfEight(j => f(w * 8 + j));
  }

  /** One word: eight products added together. */
  method WordSum(p: Palette, x: seq<real>, o: nat, w: nat, packed: bv32, cb: seq<real>, ghost f: int -> real)
    returns (sum: real)
    requires p.Valid() && o < p.outDim && |x| == p.inDim && w < p.Words()
    requires 4 * w + 4 <= |p.RowIndices(o)| && packed == LoadWord(p.RowIndices(o), w) && cb == p.RowCodebook(o)
      && f == p.Terms(x, o)
    ensures sum == Blocks(8, f)(w)
  {
    BlockOfEight(f, w);
    hide *;
    var t0 := WordTerm(p, x, o, w, 0, packed, cb, f);
    var t1 := WordTerm(p, x, o, w, 1, packed, cb, f);
    var t2 := WordTerm(p, x, o, w, 2, packed, cb, f);
    var t3 := WordTerm(p, x, o, w, 3, packed, cb, f);
    var t4 := WordTerm(p, x, o, w, 4, packed, cb, f);
    var t5 := WordTerm(p, x, o, w, 5, packed, cb, f);
    var t6 := WordTerm(p, x, o, w, 6, packed, cb, f);
    var t7 := WordTerm(p, x, o, w, 7, packed, cb, f);
    sum := t0 + t1 + t2 + t3 + t4 + t5 + t6 + t7;
  }

  /** The word-and-shift form of the reference: it covers the elements of whole words. */
  method KernelEquivGemv(p: Palette, x: seq<real>) returns (y: array<real>)
    requires p.Valid() && |x| == p.inDim
    ensures fresh(y) && y.Length == p.outDim
    ensures forall o :: 0 <= o < p.outDim ==> y[o] == Dense(p, x, o, p.Words() * 8)
  {
    y := new real[p.outDim];
    hide Dense, Palette.Words;
    for o := 0 to p.outDim
      invariant forall q :: 0 <= q < o ==> y[q] == Dense(p, x, q, p.Words() * 8)
    {
      y[o] := KernelEquivRow(p, x, o);
    }
  }

  method KernelEquivRow(p: Palette, x: seq<real>, o: nat) returns (acc: real)
    requires p.Valid() && |x| == p.inDim && o < p.outDim
    ensures acc == Dense(p, x, o, p.Words() * 8)
  {
    var cb, row := p.RowCodebook(o), p.RowIndices(o);
    ghost var f := p.Terms(x, o);
    acc := 0.0;
    hide Palette.Terms, LoadWord, Palette.RowCodebook, Palette.RowIndices, Palette.Valid, Palette.Words, Blocks;
    for w := 0 to p.Words()
      invariant acc == Sum(w, Blocks(8, f))
    {
      WordInside(p, o, w);
      var sum := WordSum(p, x, o, w, LoadWord(row, w), cb, f);
      acc := acc + sum;
    }
    SumBlocks(p.Words(), 8, f);
  }

  /** Both forms give the same output for every input width the layout allows, a multiple of 8. */
  method CrossCheck(p: Palette, x: seq<real>) returns (reference: array<real>, kernel: array<real>)
    requires p.Valid() && |x| == p.inDim && p.inDim % 8 == 0
    ensures reference[..] == kernel[..]
  {
    hide Dense;
    reference := ReferenceGemv(p, x);
    kernel := KernelEquivGemv(p, x);
  }

  // ---- the work-group kernel ----

  /** The first 16 threads copy the row's codebook into local memory. */
  method FillCodebook(p: Palette, o: nat, wg: nat, shared: array<real>)
    requires p.Valid() && o < p.outDim && shared.Length == 16
    modifies shared
    ensures forall k :: 0 <= k < 16 ==> shared[k] == if k < wg then p.RowCodebook(o)[k] else old(shared[k])
  {
    for tid := 0 to wg
      invariant forall k :: 0 <= k < 16 ==> shared[k] == if k < tid then p.RowCodebook(o)[k] else old(shared[k])
    {
      if tid < 16 {
        RowInside(o, p.outDim, 16);
        shared[tid] := p.codebook[o * 16 + tid];
      }
    }
  }

  method WordStep(p: Palette, x: seq<real>, o: nat, w: nat, j: nat, packed: bv32, cb: seq<real>, ghost f: int -> real,
                  ghost before: real, acc0: real) returns (acc: real)
    requires p.Valid() && o < p.outDim && |x| == p.inDim && w < p.Words() && j < 8
    requires 4 * w + 4 <= |p.RowIndices(o)| && packed == LoadWord(p.RowIndices(o), w) && cb == p.RowCodebook(o)
      && f == p.Terms(x, o)
    requires acc0 == before + BlockPart(8, f, w, j)
    ensures acc == before + BlockPart(8, f, w, j + 1)
  {
    hide *;
    var term := WordTerm(p, x, o, w, j, packed, cb, f);
    BlockStep(8, f, w, j);
    acc := acc0 + term;
  }

  /** One word: eight products added to the accumulator one by one. */
  method WordLoop(p: Palette, x: seq<real>, o: nat, w: nat, packed: bv32, shared: seq<real>, ghost f: int -> real,
                  ghost blocks: int -> real, acc0: real) returns (acc: real)
    requires p.Valid() && o < p.outDim && |x| == p.inDim && w < p.Words()
    requires 4 * w + 4 <= |p.RowIndices(o)| && packed == LoadWord(p.RowIndices(o), w) && shared == p.RowCodebook(o)
    requires f == p.Terms(x, o) && blocks == Blocks(8, f)
    ensures acc == acc0 + blocks(w)
  {
    acc := acc0;
    BlockStart(8, f, w);
    hide *;
    for j := 0 to 8
      invariant acc == acc0 + BlockPart(8, f, w, j)
    {
      acc := WordStep(p, x, o, w, j, packed, shared, f, acc0, acc);
    }
  }

  /** One round of thread tid's loop: its w-th word. */
  method ThreadStep(p: Palette, x: seq<real>, o: nat, ghost wg: nat, ghost tid: nat, shared: seq<real>, row: seq<bv8>,
                    ghost f: int -> real, ghost blocks: int -> real, w: nat, ghost turn: nat, acc0: real)
    returns (acc: real)
    requires p.Valid() && o < p.outDim && |x| == p.inDim && w < p.Words()
    requires shared == p.RowCodebook(o) && row == p.RowIndices(o) && f == p.Terms(x, o) && blocks == Blocks(8, f)
    requires Collected(acc0, w, turn, p.Words(), wg, tid, blocks)
    ensures Collected(acc, w + wg, turn + 1, p.Words(), wg, tid, blocks)
  {
    hide *;
    WordInside(p, o, w);
    acc := WordLoop(p, x, o, w, LoadWord(row, w), shared, f, blocks, acc0);
    CollectedMore(acc0, w, turn, p.Words(), wg, tid, blocks, acc);
  }

  /** Thread tid's strided loop over the words. */
  method ThreadSum(p: Palette, x: seq<real>, o: nat, wg: nat, tid: nat, shared: seq<real>) returns (acc: real)
    requires p.Valid() && o < p.outDim && |x| == p.inDim && tid < wg && shared == p.RowCodebook(o)
    ensures acc == Share(p.Words(), wg, tid, Blocks(8, p.Terms(x, o)))
  {
    var row := p.RowIndices(o);
    var words := p.Words();
    ghost var f := p.Terms(x, o);
    ghost var blocks := Blocks(8, f);
    acc := 0.0;
    var w := tid;
    ghost var turn := 0;
    CollectedNone(words, wg, tid, blocks);
    hide *;
    while w < words
      invariant Collected(acc, w, turn, words, wg, tid, blocks)
      decreases words - w
    {
      acc := ThreadStep(p, x, o, wg, tid, shared, row, f, blocks, w, turn, acc);
      w, turn := w + wg, turn + 1;
    }
    CollectedAll(acc, w, turn, words, wg, tid, blocks);
  }

  /** One work-group: copy the codebook, stride over the words, reduce over the group. */
  method WorkGroup(p: Palette, x: seq<real>, o: nat, wg: nat, shared: array<real>) returns (total: real)
    requires p.Valid() && o < p.outDim && |x| == p.inDim && wg >= 16 && shared.Length == 16
    modifies shared
    ensures total == Dense(p, x, o, p.Words() * 8)
  {
    FillCodebook(p, o, wg, shared);
    var cb := shared[..];
    assert cb == p.RowCodebook(o);
    ghost var f := p.Terms(x, o);
    hide Palette.Terms, Share, Sum, Palette.Valid, Palette.RowCodebook, Palette.Words, Blocks;
    var accs: seq<real> := [];
    for tid := 0 to wg
      invariant |accs| == tid && forall d :: 0 <= d < tid ==> accs[d] == Share(p.Words(), wg, d, Blocks(8, f))
    {
      var acc := ThreadSum(p, x, o, wg, tid, cb);
      accs := accs + [acc];
    }
    total := ReduceOverGroup(accs);
    SharesTotal(accs, p.Words(), Blocks(8, f));
    SumBlocks(p.Words(), 8, f);
  }

  /** The group's sum of its threads' values. */
  method ReduceOverGroup(accs: seq<real>) returns (total: real)
    ensures total == Total(accs)
  {
    total := 0.0;
    for i := 0 to |accs|
      invariant total == Sum(i, At(accs))
    {
      total := total + accs[i];
    }
  }

  /** The decode kernel of either device: the work-group size, 64 or 32, does not show in the result. */
  method DecodeGemv(p: Palette, x: seq<real>, wg: nat) returns (output: array<real>)
    requires p.Valid() && |x| == p.inDim && wg >= 16
    ensures fresh(output) && output.Length == p.outDim
    ensures forall o :: 0 <= o < p.outDim ==> output[o] == Dense(p, x, o, p.Words() * 8)
  {
    output := new real[p.outDim];
    hide Dense, Palette.Words;
    for o := 0 to p.outDim
      invariant forall q :: 0 <= q < o ==> output[q] == Dense(p, x, q, p.Words() * 8)
    {
      var shared := new real[16];
      output[o] := WorkGroup(p, x, o, wg, shared);
    }
  }

  /** What the word-wise forms leave out when the width is not a multiple of 8. */
  lemma TailDropped(p: Palette, x: seq<real>, o: nat)
    requires p.Valid() && o < p.outDim
    ensures Dense(p, x, o, p.inDim) ==
      Dense(p, x, o, p.Words() * 8) + Sum(p.inDim % 8, i => p.Terms(x, o)(p.Words() * 8 + i))
  {
    SumSplit(p.Words() * 8, p.inDim % 8, p.Terms(x, o));
    SumExt(p.inDim % 8, i => p.Terms(x, o)(p.Words() * 8 + i), i => p.Terms(x, o)(p.Words() * 8 + i));
  }

  /** Any two work-group sizes give the same output, and for whole words it is the reference's. */
  method GroupSizeCheck(p: Palette, x: seq<real>, wg: nat, wg': nat)
    returns (reference: array<real>, a: array<real>, b: array<real>)
    requires p.Valid() && |x| == p.inDim && p.inDim % 8 == 0 && wg >= 16 && wg' >= 16
    ensures reference[..] == a[..] == b[..]
  {
    hide Dense;
    reference := ReferenceGemv(p, x);
    a := DecodeGemv(p, x, wg);
    b := DecodeGemv(p, x, wg');
  }

  // ---- prefill ----

  /** Input vector b of a batch. */
  function BatchRow(inputs: seq<real>, b: nat, width: nat): (x: seq<real>)
    requires b * width + width <= |inputs|
    ensures |x| == width
  {
    MulMono(0, b, width);
    inputs[b * width..b * width + width]
  }

  /** Output cell k of a batch: row k % outDim of vector k / outDim. */
  ghost predicate BatchCell(p: Palette, inputs: seq<real>, batch: nat, k: nat, value: real)
    requires p.Valid() && |inputs| == batch * p.inDim
  {
    && k < batch * p.outDim && p.outDim > 0 && k / p.outDim < batch
    && (RowInside(k / p.outDim, batch, p.inDim);
        value == Dense(p, BatchRow(inputs, k / p.outDim, p.inDim), k % p.outDim, p.Words() * 8))
  }

  lemma CellWritten(p: Palette, inputs: seq<real>, batch: nat, b: nat, o: nat, value: real)
    requires p.Valid() && |inputs| == batch * p.inDim && b < batch && o < p.outDim
    requires b * p.inDim + p.inDim <= |inputs| && value == Dense(p, BatchRow(inputs, b, p.inDim), o, p.Words() * 8)
    ensures 0 <= b * p.outDim + o < batch * p.outDim && BatchCell(p, inputs, batch, b * p.outDim + o, value)
  {
    hide Dense, BatchRow;
    RowInside(b, batch, p.outDim);
    ModIs(b * p.outDim + o, b, o, p.outDim);
  }

  /** The first n cells of a batched output. */
  ghost predicate BatchDone(p: Palette, inputs: seq<real>, batch: nat, output: seq<real>, n: int)
    requires p.Valid() && |inputs| == batch * p.inDim
  {
    |output| == batch * p.outDim && forall k :: 0 <= k < |output| && k < n ==> BatchCell(p, inputs, batch, k, output[k])
  }

  lemma BatchMore(p: Palette, inputs: seq<real>, batch: nat, output: seq<real>, n: nat, value: real)
    requires p.Valid() && |inputs| == batch * p.inDim && n < |output|
    requires BatchDone(p, inputs, batch, output, n) && BatchCell(p, inputs, batch, n, value)
    ensures BatchDone(p, inputs, batch, output[n := value], n + 1)
  {
    hide BatchCell;
  }

  /** The batched kernel: one work-group per (row, vector), each writing its own cell. */
  method BatchedGemv(p: Palette, inputs: seq<real>, batch: nat, wg: nat) returns (output: array<real>)
    requires p.Valid() && |inputs| == batch * p.inDim && wg >= 16
    ensures fresh(output) && BatchDone(p, inputs, batch, output[..], output.Length)
  {
    MulMono(0, batch, p.outDim);
    output := new real[batch * p.outDim];
    for b := 0 to batch
      invariant BatchDone(p, inputs, batch, output[..], b * p.outDim)
    {
      hide BatchDone;
      BatchVector(p, inputs, batch, b, wg, output);
      NextMultiple(b, p.outDim);
    }
  }

  method BatchVector(p: Palette, inputs: seq<real>, batch: nat, b: nat, wg: nat, output: array<real>)
    requires p.Valid() && |inputs| == batch * p.inDim && wg >= 16 && b < batch
    requires BatchDone(p, inputs, batch, output[..], b * p.outDim)
    modifies output
    ensures BatchDone(p, inputs, batch, output[..], b * p.outDim + p.outDim)
  {
    RowInside(b, batch, p.inDim);
    var x := BatchRow(inputs, b, p.inDim);
    assert |output[..]| == batch * p.outDim;
    hide BatchDone, BatchCell, BatchRow, Palette.Valid, Palette.Words, Dense;
    for o := 0 to p.outDim
      invariant BatchDone(p, inputs, batch, output[..], b * p.outDim + o)
    {
      var shared := new real[16];
      var total := WorkGroup(p, x, o, wg, shared);
      CellWritten(p, inputs, batch, b, o, total);
      BatchMore(p, inputs, batch, output[..], b * p.outDim + o, total);
      ghost var was := output[..];
      output[b * p.outDim + o] := total;
      assert output[..] == was[b * p.outDim + o := total];
    }
  }

  // ---- the terms, straight from the buffers ----

  lemma HalvesWidened(b: bv8)
    ensures ((b as bv32) >> 4) & 0xF == (b / 16) as bv32 && (b as bv32) & 0xF == (b % 16) as bv32
  {
  }

  lemma HalvesAsNumbers(b: bv8)
    ensures (b / 16) as int == b as int / 16 && (b % 16) as int == b as int % 16
  {
  }

  lemma SmallWidened(c: bv8)
    requires c < 16
    ensures c as bv32 < 16 && (c as bv32) as int == c as int
  {
  }

  lemma HalfOfByte(b: bv8, i: nat)
    ensures ByteNibble(b, i) < 16
    ensures ByteNibble(b, i) as int == if i % 2 == 1 then b as int / 16 else b as int % 16
  {
    HalvesWidened(b);
    HalvesAsNumbers(b);
    var c := if i % 2 == 1 then b / 16 else b % 16;
    assert ByteNibble(b, i) == c as bv32;
    hide ByteNibble;
    assert c < 16;
    SmallWidened(c);
  }

  /** Element i of output row o meets the entry of the row's own 16 that the low half of byte i / 2 selects when i is
      even, the high half when i is odd. */
  lemma TermFromBuffers(p: Palette, x: seq<real>, o: nat, i: nat)
    requires p.Valid() && o < p.outDim && i < p.inDim == |x| && p.inDim % 2 == 0
    ensures 0 <= o * (p.inDim / 2) + i / 2 < |p.indices|
    ensures var byte := p.indices[o * (p.inDim / 2) + i / 2] as int;
      var nibble := if i % 2 == 0 then byte % 16 else byte / 16;
      0 <= nibble < 16 && 0 <= o * 16 + nibble < |p.codebook|
      && p.Terms(x, o)(i) == x[i] * p.codebook[o * 16 + nibble]
  {
    RowInside(o, p.outDim, 16);
    RowInside(o, p.outDim, p.inDim / 2);
    var b := p.indices[o * (p.inDim / 2) + i / 2];
    assert p.RowIndices(o)[i / 2] == b;
    HalfOfByte(b, i);
    hide ByteNibble, Palette.RowIndices;
  }
}
