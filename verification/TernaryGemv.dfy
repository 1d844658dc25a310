/** The 2-bit ternary GEMV: four codes per byte, conditional add, pass or subtract instead of a product. */
module TernaryGemv {
  import opened Indexing
  import opened Palettized
  import opened Reals
  import opened Sums

  // ---- codes ----

  /** Code k of a byte by shift and mask, the shift written out. */
  function Code(b: bv8, k: nat): bv32
    requires k < 4
  {
    match k
    case 0 => (b as bv32) & 3
    case 1 => ((b as bv32) >> 2) & 3
    case 2 => ((b as bv32) >> 4) & 3
    case _ => ((b as bv32) >> 6) & 3
  }

  /** 00 = 0, 01 = +1, 10 = -1, 11 = 0 */
  function Weight(code: bv32): int {
    if code == 1 then 1 else if code == 2 then -1 else 0
  }

  /** The packer's code for a sign. */
  function CodeOf(sign: int): bv8 {
    if sign == 1 then 1 else if sign == -1 then 2 else 0
  }

  predicate Signs(s: seq<int>) {
    forall i :: 0 <= i < |s| ==> -1 <= s[i] <= 1
  }

  lemma CodeRoundTrip(c0: bv8, c1: bv8, c2: bv8, c3: bv8)
    requires c0 < 3 && c1 < 3 && c2 < 3 && c3 < 3
    ensures var b := PackedByte(c0, c1, c2, c3);
      && (b as bv32) & 3 == c0 as bv32 && ((b as bv32) >> 2) & 3 == c1 as bv32
      && ((b as bv32) >> 4) & 3 == c2 as bv32 && ((b as bv32) >> 6) & 3 == c3 as bv32
  {
  }

  function PackedByte(c0: bv8, c1: bv8, c2: bv8, c3: bv8): bv8 {
    (((0 | (c0 << 0)) | (c1 << 2)) | (c2 << 4)) | (c3 << 6)
  }

  lemma WeightOfCode(sign: int)
    requires -1 <= sign <= 1
    ensures CodeOf(sign) < 3 && Weight(CodeOf(sign) as bv32) == sign
  {
  }

  /** Packing four signs and reading code k gives sign k back. */
  lemma ByteRoundTrip(s0: int, s1: int, s2: int, s3: int, k: nat)
    requires Signs([s0, s1, s2, s3]) && k < 4
    ensures Weight(Code(PackedByte(CodeOf(s0), CodeOf(s1), CodeOf(s2), CodeOf(s3)), k)) == [s0, s1, s2, s3][k]
  {
    var s := [s0, s1, s2, s3];
    assert -1 <= s[0] <= 1 && -1 <= s[1] <= 1 && -1 <= s[2] <= 1 && -1 <= s[3] <= 1;
    WeightOfCode(s0);
    WeightOfCode(s1);
    WeightOfCode(s2);
    WeightOfCode(s3);
    CodeRoundTrip(CodeOf(s0), CodeOf(s1), CodeOf(s2), CodeOf(s3));
    hide PackedByte, Weight, CodeOf;
  }

  /** Packs a row-major sign matrix whose rows fill whole bytes. */
  method PackSigns(signs: seq<int>) returns (bytes: seq<bv8>)
    requires Signs(signs) && |signs| % 4 == 0
    ensures |bytes| == |signs| / 4
    ensures forall i :: 0 <= i < |signs| ==> Weight(Code(bytes[i / 4], i % 4)) == signs[i]
  {
    bytes := [];
    for c := 0 to |signs| / 4
      invariant |bytes| == c
      invariant forall i :: 0 <= i < 4 * c ==> Weight(Code(bytes[i / 4], i % 4)) == signs[i]
    {
      hide Weight, Code, CodeOf, PackedByte;
      var b := PackByte(signs, c);
      bytes := bytes + [b];
    }
  }

  method PackByte(signs: seq<int>, c: nat) returns (b: bv8)
    requires Signs(signs) && 4 * c + 4 <= |signs|
    ensures forall i :: 4 * c <= i < 4 * c + 4 ==> Weight(Code(b, i % 4)) == signs[i]
  {
    b := 0;
    b := b | (CodeOf(signs[4 * c]) << 0);
    b := b | (CodeOf(signs[4 * c + 1]) << 2);
    b := b | (CodeOf(signs[4 * c + 2]) << 4);
    b := b | (CodeOf(signs[4 * c + 3]) << 6);
    assert b == PackedByte(CodeOf(signs[4 * c]), CodeOf(signs[4 * c + 1]),
                           CodeOf(signs[4 * c + 2]), CodeOf(signs[4 * c + 3]));
    hide Weight, Code, CodeOf, PackedByte;
    forall i | 4 * c <= i < 4 * c + 4 ensures Weight(Code(b, i % 4)) == signs[i] {
      ByteRoundTrip(signs[4 * c], signs[4 * c + 1], signs[4 * c + 2], signs[4 * c + 3], i - 4 * c);
    }
  }

  // ---- the matrix ----

  datatype Ternary = Ternary(weights: seq<bv8>, inDim: nat, outDim: nat) {
    ghost predicate Valid() {
      |weights| == outDim * Cols()
    }

    /** Packed bytes per row. */
    function Cols(): nat {
      inDim / 4
    }

    function Row(o: nat): (r: seq<bv8>)
      requires Valid() && o < outDim
      ensures |r| == Cols()
    {
      RowInside(o, outDim, Cols());
      weights[o * Cols()..o * Cols() + Cols()]
    }

    /** The terms of the dense product: element times weight. */
    ghost function Terms(input: seq<real>, o: nat): int -> real
      requires Valid() && o < outDim
    {
      i => if 0 <= i < |input| && i / 4 < Cols() then
        Times(input[i], Weight(Code(Row(o)[i / 4], i % 4)) as real) else 0.0
    }
  }

  /** Add, subtract or pass. */
  function Signed(code: bv32, iv: real): real {
    if code == 1 then iv else if code == 2 then -iv else 0.0
  }

  lemma SignedIsProduct(code: bv32, iv: real)
    ensures Signed(code, iv) == Times(iv, Weight(code) as real)
  {
  }

  // ---- the kernel ----

  method ByteTerm(p: Ternary, input: seq<real>, o: nat, c: nat, k: nat, byte: bv8, ghost f: int -> real)
    returns (term: real)
    requires p.Valid() && o < p.outDim && |input| == p.inDim && c < p.Cols() && k < 4
    requires byte == p.Row(o)[c] && f == p.Terms(input, o)
    ensures term == f(c * 4 + k)
  {
    ModIs(c * 4 + k, c, k, 4);
    SignedIsProduct(Code(byte, k), input[c * 4 + k]);
    assert f(c * 4 + k) == Times(input[c * 4 + k], Weight(Code(byte, k)) as real);
    hide *;
    term := Signed(Code(byte, k), input[c * 4 + k]);
  }

  method ByteStep(p: Ternary, input: seq<real>, o: nat, c: nat, k: nat, byte: bv8, ghost f: int -> real,
                  ghost before: real,
                  acc0: real) returns (acc: real)
    requires p.Valid() && o < p.outDim && |input| == p.inDim && c < p.Cols() && k < 4
    requires byte == p.Row(o)[c] && f == p.Terms(input, o) && acc0 == before + BlockPart(4, f, c, k)
    ensures acc == before + BlockPart(4, f, c, k + 1)
  {
    hide *;
    var term := ByteTerm(p, input, o, c, k, byte, f);
    BlockStep(4, f, c, k);
    acc := acc0 + term;
  }

  /** One byte: four signed elements added to the accumulator. */
  method ByteLoop(p: Ternary, input: seq<real>, o: nat, c: nat, byte: bv8, ghost f: int -> real,
                  ghost blocks: int -> real,
                  acc0: real) returns (acc: real)
    requires p.Valid() && o < p.outDim && |input| == p.inDim && c < p.Cols()
    requires byte == p.Row(o)[c] && f == p.Terms(input, o) && blocks == Blocks(4, f)
    ensures acc == acc0 + blocks(c)
  {
    acc := acc0;
    BlockStart(4, f, c);
    hide *;
    for k := 0 to 4
      invariant acc == acc0 + BlockPart(4, f, c, k)
    {
      acc := ByteStep(p, input, o, c, k, byte, f, acc0, acc);
    }
  }

  method ThreadStep(p: Ternary, input: seq<real>, o: nat, ghost wg: nat, ghost tid: nat, row: seq<bv8>,
                    ghost f: int -> real,
                    ghost blocks: int -> real, c: nat, ghost turn: nat, acc0: real) returns (acc: real)
    requires p.Valid() && o < p.outDim && |input| == p.inDim && c < p.Cols()
    requires row == p.Row(o) && f == p.Terms(input, o) && blocks == Blocks(4, f)
    requires Collected(acc0, c, turn, p.Cols(), wg, tid, blocks)
    ensures Collected(acc, c + wg, turn + 1, p.Cols(), wg, tid, blocks)
  {
    hide *;
    acc := ByteLoop(p, input, o, c, row[c], f, blocks, acc0);
    CollectedMore(acc0, c, turn, p.Cols(), wg, tid, blocks, acc);
  }

  /** Thread tid's strided loop over the bytes of its row. */
  method ThreadSum(p: Ternary, input: seq<real>, o: nat, wg: nat, tid: nat) returns (acc: real)
    requires p.Valid() && o < p.outDim && |input| == p.inDim && tid < wg
    ensures acc == Share(p.Cols(), wg, tid, Blocks(4, p.Terms(input, o)))
  {
    var row := p.Row(o);
    var cols := p.Cols();
    ghost var f := p.Terms(input, o);
    ghost var blocks := Blocks(4, f);
    acc := 0.0;
    var c := tid;
    ghost var turn := 0;
    CollectedNone(cols, wg, tid, blocks);
    hide *;
    while c < cols
      invariant Collected(acc, c, turn, cols, wg, tid, blocks)
      decreases cols - c
    {
      acc := ThreadStep(p, input, o, wg, tid, row, f, blocks, c, turn, acc);
      c, turn := c + wg, turn + 1;
    }
    CollectedAll(acc, c, turn, cols, wg, tid, blocks);
  }

  /** One work-group: its threads' sums, reduced. */
  method WorkGroup(p: Ternary, input: seq<real>, o: nat, wg: nat) returns (total: real)
    requires p.Valid() && o < p.outDim && |input| == p.inDim && wg > 0
    ensures total == DenseRow(p, input, o)
  {
    ghost var f := p.Terms(input, o);
    assert DenseRow(p, input, o) == Sum(p.Cols() * 4, f);
    hide Ternary.Terms, Share, Sum, Ternary.Valid, Ternary.Cols, Blocks, DenseRow;
    var accs: seq<real> := [];
    for tid := 0 to wg
      invariant |accs| == tid && forall d :: 0 <= d < tid ==> accs[d] == Share(p.Cols(), wg, d, Blocks(4, f))
    {
      var acc := ThreadSum(p, input, o, wg, tid);
      accs := accs + [acc];
    }
    total := ReduceOverGroup(accs);
    SharesTotal(accs, p.Cols(), Blocks(4, f));
    SumBlocks(p.Cols(), 4, f);
  }

  /** Row o of the dense product over the packed columns. */
  ghost function DenseRow(p: Ternary, input: seq<real>, o: nat): real
    requires p.Valid() && o < p.outDim
  {
    Sum(p.Cols() * 4, p.Terms(input, o))
  }

  method Gemv(p: Ternary, input: seq<real>, wg: nat) returns (output: array<real>)
    requires p.Valid() && |input| == p.inDim && wg > 0
    ensures fresh(output) && output.Length == p.outDim
    ensures forall o :: 0 <= o < p.outDim ==> output[o] == DenseRow(p, input, o)
  {
    output := new real[p.outDim];
    hide DenseRow;
    for o := 0 to p.outDim
      invariant forall q :: 0 <= q < o ==> output[q] == DenseRow(p, input, q)
    {
      output[o] := WorkGroup(p, input, o, wg);
    }
  }

  // ---- packed signs ----

  /** The terms of the dense product with an unpacked sign matrix. */
  ghost function SignTerms(signs: seq<int>, input: seq<real>, o: nat): int -> real {
    i => if 0 <= i < |input| && 0 <= o * |input| + i < |signs|
      then Times(input[i], signs[o * |input| + i] as real) else 0.0
  }

  /** Byte i / 4 of row o, in the packed matrix. */
  lemma RowByte(p: Ternary, o: nat, i: nat)
    requires p.Valid() && o < p.outDim && p.inDim % 4 == 0 && i < p.inDim
    ensures 0 <= o * p.inDim + i < p.outDim * p.inDim && (o * p.inDim + i) % 4 == i % 4
    ensures (o * p.inDim + i) / 4 < |p.weights| && i / 4 < p.Cols()
      && p.Row(o)[i / 4] == p.weights[(o * p.inDim + i) / 4]
  {
    RowInside(o, p.outDim, p.inDim);
    RowInside(o, p.outDim, p.Cols());
    FlatByte(o, p.Cols(), p.inDim, i);
  }

  lemma SignTerm(p: Ternary, signs: seq<int>, input: seq<real>, o: nat, i: nat)
    requires p.Valid() && o < p.outDim && |input| == p.inDim && i < p.inDim && i / 4 < p.Cols()
    requires 0 <= o * p.inDim + i < |signs| && Weight(Code(p.Row(o)[i / 4], i % 4)) == signs[o * p.inDim + i]
    ensures p.Terms(input, o)(i) == SignTerms(signs, input, o)(i)
  {
    hide Weight, Code, Times, Ternary.Valid, Ternary.Row, Ternary.Cols;
  }

  lemma FlatByte(o: nat, cols: nat, width: nat, i: nat)
    requires width == 4 * cols
    ensures (o * width + i) / 4 == o * cols + i / 4 && (o * width + i) % 4 == i % 4
  {
    assert o * width == 4 * (o * cols);
  }

  /** Pack, then multiply with any work-group size: the dense product with the signs themselves. */
  method PackedGemv(signs: seq<int>, input: seq<real>, outDim: nat, wg: nat) returns (output: array<real>)
    requires Signs(signs) && |input| % 4 == 0 && |signs| == outDim * |input| && wg > 0
    ensures output.Length == outDim
    ensures forall o :: 0 <= o < outDim ==> output[o] == Sum(|input|, SignTerms(signs, input, o))
  {
    var inDim := |input|;
    FlatByte(outDim, inDim / 4, inDim, 0);
    var bytes := PackSigns(signs);
    var p := Ternary(bytes, inDim, outDim);
    output := Gemv(p, input, wg);
    assert forall o :: 0 <= o < outDim ==> DenseRow(p, input, o) == Sum(inDim, p.Terms(input, o));
    hide Weight, Code, SignTerms, Ternary.Terms, DenseRow, Sum;
    forall o | 0 <= o < outDim ensures output[o] == Sum(inDim, SignTerms(signs, input, o)) {
      forall i | 0 <= i < inDim ensures p.Terms(input, o)(i) == SignTerms(signs, input, o)(i) {
        RowByte(p, o, i);
        assert Weight(Code(bytes[(o * inDim + i) / 4], (o * inDim + i) % 4)) == signs[o * inDim + i];
        SignTerm(p, signs, input, o, i);
      }
      SumExt(inDim, p.Terms(input, o), SignTerms(signs, input, o));
    }
  }

  // ---- the terms, straight from the bytes ----

  /** The two bits of element k in a byte, as a number. */
  function TwoBits(byte: int, k: nat): int
    requires k < 4
  {
    match k
    case 0 => byte % 4
    case 1 => byte / 4 % 4
    case 2 => byte / 16 % 4
    case _ => byte / 64
  }

  lemma CodesWidened(b: bv8)
    ensures (b as bv32) & 3 == (b % 4) as bv32 && ((b as bv32) >> 2) & 3 == (b / 4 % 4) as bv32
    ensures ((b as bv32) >> 4) & 3 == (b / 16 % 4) as bv32 && ((b as bv32) >> 6) & 3 == (b / 64) as bv32
  {
  }

  lemma RemainderAsNumber(b: bv8)
    ensures (b % 4) as int == b as int % 4
  {
  }

  lemma QuotientsAsNumbers(b: bv8)
    ensures (b / 4) as int == b as int / 4 && (b / 16) as int == b as int / 16 && (b / 64) as int == b as int / 64
  {
  }

  lemma CodesAsNumbers(b: bv8)
    ensures (b % 4) as int == b as int % 4 && (b / 4 % 4) as int == b as int / 4 % 4
    ensures (b / 16 % 4) as int == b as int / 16 % 4 && (b / 64) as int == b as int / 64
  {
    RemainderAsNumber(b);
    RemainderAsNumber(b / 4);
    RemainderAsNumber(b / 16);
    QuotientsAsNumbers(b);
  }

  lemma WeightOfBits(c: bv8)
    requires c < 4
    ensures Weight(c as bv32) == if c as int == 1 then 1 else if c as int == 2 then -1 else 0
  {
  }

  lemma WeightFromByte(b: bv8, k: nat)
    requires k < 4
    ensures Weight(Code(b, k)) == if TwoBits(b as int, k) == 1 then 1 else if TwoBits(b as int, k) == 2 then -1 else 0
  {
    CodesWidened(b);
    CodesAsNumbers(b);
    var c := if k == 0 then b % 4 else if k == 1 then b / 4 % 4 else if k == 2 then b / 16 % 4 else b / 64;
    assert Code(b, k) == c as bv32 && TwoBits(b as int, k) == c as int && c < 4;
    hide Code, Weight, TwoBits;
    WeightOfBits(c);
  }

  /** Element i of output row o is added where its two bits of byte i / 4 of the row, lowest first, are 1, subtracted
      where they are 2, and left out where they are 0 or 3. */
  lemma TermFromBytes(p: Ternary, input: seq<real>, o: nat, i: nat)
    requires p.Valid() && o < p.outDim && i < p.inDim == |input| && p.inDim % 4 == 0
    ensures 0 <= o * (p.inDim / 4) + i / 4 < |p.weights|
    ensures var bits := TwoBits(p.weights[o * (p.inDim / 4) + i / 4] as int, i % 4);
      p.Terms(input, o)(i) == if bits == 1 then input[i] else if bits == 2 then -input[i] else 0.0
  {
    RowInside(o, p.outDim, p.inDim / 4);
    var b := p.weights[o * (p.inDim / 4) + i / 4];
    assert p.Row(o)[i / 4] == b;
    WeightFromByte(b, i % 4);
    SignedProduct(input[i], Weight(Code(b, i % 4)));
    hide Code, Weight, TwoBits, Times, Ternary.Row;
  }

  lemma SignedProduct(x: real, w: int)
    ensures Times(x, 1 as real) == x && Times(x, (-1) as real) == -x && Times(x, 0 as real) == 0.0
  {
  }
}
