/** The WAV reader and the 16-bit mono writer, as functions on byte sequences and as the loops that compute them. */
module Wav {
  import opened Indexing
  import opened Reals
  import opened Sums

  type byte = x: int | 0 <= x < 256

  const RIFF: seq<byte> := [82, 73, 70, 70]
  const WAVE: seq<byte> := [87, 65, 86, 69]
  const FMT: seq<byte> := [102, 109, 116, 32]
  const DATA: seq<byte> := [100, 97, 116, 97]

  // ---- little-endian numbers ----

  function U16(b0: byte, b1: byte): int {
    (b0 as int) + 256 * (b1 as int)
  }

  function U32(b: seq<byte>): (v: int)
    requires |b| == 4
    ensures 0 <= v < 0x1_0000_0000
  {
    (b[0] as int) + 256 * (b[1] as int) + 65536 * (b[2] as int) + 16777216 * (b[3] as int)
  }

  function I16(b0: byte, b1: byte): int {
    if U16(b0, b1) < 32768 then U16(b0, b1) else U16(b0, b1) - 65536
  }

  /** Three bytes placed at the top of an i32, then shifted down arithmetically. */
  function I24(b0: byte, b1: byte, b2: byte): int {
    var word := U32([0, b0, b1, b2]);
    (if word < 0x8000_0000 then word else word - 0x1_0000_0000) / 256
  }

  function Le16(v: int): (b: seq<byte>)
    ensures |b| == 2
  {
    [v % 256, v / 256 % 256]
  }

  function Le32(v: int): (b: seq<byte>)
    requires 0 <= v < 0x1_0000_0000
    ensures |b| == 4
  {
    [v % 256, v / 256 % 256, v / 256 / 256 % 256, v / 256 / 256 / 256]
  }

  lemma Le32RoundTrip(v: int)
    requires 0 <= v < 0x1_0000_0000
    ensures U32(Le32(v)) == v
  {
    var q1 := v / 256;
    var q2 := q1 / 256;
    assert v == 256 * q1 + v % 256 && q1 == 256 * q2 + q1 % 256 && q2 == 256 * (q2 / 256) + q2 % 256;
  }

  lemma I16RoundTrip(k: int)
    requires -32768 <= k < 32768
    ensures I16(Le16(k)[0], Le16(k)[1]) == k
  {
  }

  // ---- reading ----

  datatype Outcome =
    | Loaded(samples: seq<real>, rate: int)
    | NotRiff
    | NotWave
    | EndOfFile
    | UnsupportedBits(bits: int)
    | Panicked                    // a fmt chunk shorter than 16 bytes is indexed out of bounds

  /** What the fmt chunks seen so far say. */
  datatype Format = Format(rate: int, bits: int, channels: nat)

  datatype Parse = Done(format: Format, data: seq<byte>) | Failed(outcome: Outcome)

  function ReadFormat(body: seq<byte>): Format
    requires |body| >= 16
  {
    Format(U32(body[4..8]), U16(body[14], body[15]), U16(body[2], body[3]))
  }

  /** The chunk loop over the bytes not yet read. Seeking past the end leaves nothing to read. */
  function Chunks(rest: seq<byte>, format: Format): Parse
    decreases |rest|
  {
    if |rest| < 4 then Done(format, [])
    else if |rest| < 8 then Failed(EndOfFile)
    else
      var id, size, body := rest[..4], U32(rest[4..8]), rest[8..];
      if id == FMT then
        if size > |body| then Failed(EndOfFile)
        else if size < 16 then Failed(Panicked)
        else Chunks(body[size..], ReadFormat(body))
      else if id == DATA then
        if size > |body| then Failed(EndOfFile) else Done(format, body[..size])
      else Chunks(Skip(body, size), format)
  }

  function Skip(body: seq<byte>, size: nat): (r: seq<byte>)
    ensures |r| <= |body|
  {
    if size <= |body| then body[size..] else []
  }

  function Decode16(data: seq<byte>): (s: seq<real>)
    ensures |s| == |data| / 2
  {
    seq(|data| / 2, i requires 0 <= i < |data| / 2 => I16(data[2 * i], data[2 * i + 1]) as real / 32768.0)
  }

  function Decode24(data: seq<byte>): (s: seq<real>)
    ensures |s| == |data| / 3
  {
    seq(|data| / 3, i requires 0 <= i < |data| / 3 =>
      I24(data[3 * i], data[3 * i + 1], data[3 * i + 2]) as real / 8388608.0)
  }

  /** Float samples, through the machine's reading of 32 bits as a number. */
  function Decode32(data: seq<byte>, f32: int -> real): (s: seq<real>)
    ensures |s| == |data| / 4
  {
    seq(|data| / 4, i requires 0 <= i < |data| / 4 => f32(U32(data[4 * i..4 * i + 4])))
  }

  /** Average of each whole frame of samples. */
  ghost function Mono(s: seq<real>, channels: nat): (m: seq<real>)
    requires channels > 0
    ensures |m| == |s| / channels
  {
    seq(|s| / channels, i requires 0 <= i < |s| / channels => Blocks(channels, At(s))(i) / channels as real)
  }

  ghost function Convert(format: Format, data: seq<byte>, f32: int -> real): Outcome {
    var c := format.channels;
    if format.bits == 16 then Loaded(if c > 1 then Mono(Decode16(data), c) else Decode16(data), format.rate)
    else if format.bits == 24 then Loaded(if c > 1 then Mono(Decode24(data), c) else Decode24(data), format.rate)
    else if format.bits == 32 then
      Loaded(if c > 1 then Mono(Decode32(data, f32), c) else Decode32(data, f32), format.rate)
    else UnsupportedBits(format.bits)
  }

  ghost function Load(file: seq<byte>, f32: int -> real): Outcome {
    if |file| < 4 then EndOfFile
    else if file[..4] != RIFF then NotRiff
    else if |file| < 12 then EndOfFile
    else if file[8..12] != WAVE then NotWave
    else Finish(Chunks(file[12..], Format(0, 16, 1)), f32)
  }

  ghost function Finish(parse: Parse, f32: int -> real): Outcome {
    match parse
    case Failed(outcome) => outcome
    case Done(format, data) => Convert(format, data, f32)
  }

  /** read_exact: n bytes at pos, or nothing. */
  method ReadExact(file: seq<byte>, pos: nat, n: nat) returns (ok: bool, data: seq<byte>, next: nat)
    ensures ok <==> n == 0 || pos + n <= |file|
    ensures ok ==> |data| == n && next == pos + n && (n > 0 ==> data == file[pos..pos + n])
  {
    if n == 0 {
      return true, [], pos;
    }
    if pos + n > |file| {
      return false, [], pos;
    }
    return true, file[pos..pos + n], pos + n;
  }

  /** What is left to read at pos. */
  function Rest(file: seq<byte>, pos: nat): (r: seq<byte>)
    ensures |r| == if pos <= |file| then |file| - pos else 0
  {
    if pos <= |file| then file[pos..] else []
  }

  /** One chunk: the loop stops with a result, or goes on behind the chunk. */
  method ReadChunk(file: seq<byte>, pos0: nat, format0: Format)
    returns (stopped: bool, parse: Parse, pos: nat, format: Format)
    ensures stopped ==> parse == Chunks(Rest(file, pos0), format0)
    ensures !stopped ==> pos0 < |file| && pos > pos0
    ensures !stopped ==> Chunks(Rest(file, pos), format) == Chunks(Rest(file, pos0), format0)
  {
    parse, format := Done(format0, []), format0;
    ghost var rest := Rest(file, pos0);
    var ok, id, sizeBytes;
    ok, id, pos := ReadExact(file, pos0, 4);
    if !ok {
      return true, Done(format, []), pos, format;
    }
    ok, sizeBytes, pos := ReadExact(file, pos, 4);
    if !ok {
      return true, Failed(EndOfFile), pos, format;
    }
    var size := U32(sizeBytes);
    assert id == rest[..4] && sizeBytes == rest[4..8] && Rest(file, pos) == rest[8..];
    if id == FMT {
      stopped, parse, pos, format := ReadFormatChunk(file, pos, size, format);
    } else if id == DATA {
      stopped, parse, pos := ReadDataChunk(file, pos, size, format);
    } else {
      pos := pos + size;
      assert Rest(file, pos) == Skip(rest[8..], size);
      stopped := false;
    }
  }

  method ReadFormatChunk(file: seq<byte>, pos0: nat, size: nat, format0: Format)
    returns (stopped: bool, parse: Parse, pos: nat, format: Format)
    requires pos0 <= |file|
    ensures var body := Rest(file, pos0);
      if size > |body| then stopped && parse == Failed(EndOfFile)
      else if size < 16 then stopped && parse == Failed(Panicked)
      else !stopped && pos == pos0 + size && format == ReadFormat(body) && Rest(file, pos) == body[size..]
  {
    ghost var body := Rest(file, pos0);
    var ok, data;
    ok, data, pos := ReadExact(file, pos0, size);
    if !ok {
      return true, Failed(EndOfFile), pos, format0;
    }
    if size < 16 {
      return true, Failed(Panicked), pos, format0;
    }
    assert data == body[..size] && Rest(file, pos) == body[size..];
    SameFormat(body, data);
    return false, Failed(EndOfFile), pos, ReadFormat(data);
  }

  method ReadDataChunk(file: seq<byte>, pos0: nat, size: nat, format: Format)
    returns (stopped: bool, parse: Parse, pos: nat)
    requires pos0 <= |file|
    ensures var body := Rest(file, pos0);
      stopped && parse == if size > |body| then Failed(EndOfFile) else Done(format, body[..size])
  {
    ghost var body := Rest(file, pos0);
    var ok, data;
    ok, data, pos := ReadExact(file, pos0, size);
    if !ok {
      return true, Failed(EndOfFile), pos;
    }
    assert data == body[..size];
    return true, Done(format, data), pos;
  }

  /** The chunk loop. */
  method ReadChunks(file: seq<byte>, pos0: nat) returns (parse: Parse)
    ensures parse == Chunks(Rest(file, pos0), Format(0, 16, 1))
  {
    hide *;
    var stopped, pos, format := false, pos0, Format(0, 16, 1);
    parse := Failed(EndOfFile);
    while !stopped
      invariant !stopped ==> Chunks(Rest(file, pos), format) == Chunks(Rest(file, pos0), Format(0, 16, 1))
      invariant stopped ==> parse == Chunks(Rest(file, pos0), Format(0, 16, 1))
      decreases if stopped then -1 else if pos <= |file| then |file| - pos else 0
    {
      stopped, parse, pos, format := ReadChunk(file, pos, format);
    }
  }

  lemma SameFormat(body: seq<byte>, data: seq<byte>)
    requires |data| >= 16 && data <= body
    ensures ReadFormat(body) == ReadFormat(data)
  {
    assert body[4..8] == data[4..8];
  }

  /** 16-bit samples, two bytes at a time. */
  method Samples16(data: seq<byte>) returns (samples: seq<real>)
    ensures samples == Decode16(data)
  {
    samples := [];
    for i := 0 to |data| / 2
      invariant samples == Decode16(data)[..i]
    {
      samples := samples + [I16(data[2 * i], data[2 * i + 1]) as real / 32768.0];
    }
  }

  method Samples24(data: seq<byte>) returns (samples: seq<real>)
    ensures samples == Decode24(data)
  {
    hide I24;
    samples := [];
    for i := 0 to |data| / 3
      invariant samples == Decode24(data)[..i]
    {
      samples := samples + [I24(data[3 * i], data[3 * i + 1], data[3 * i + 2]) as real / 8388608.0];
    }
  }

  method Samples32(data: seq<byte>, f32: int -> real) returns (samples: seq<real>)
    ensures samples == Decode32(data, f32)
  {
    hide U32;
    samples := [];
    for i := 0 to |data| / 4
      invariant samples == Decode32(data, f32)[..i]
    {
      samples := samples + [f32(U32(data[4 * i..4 * i + 4]))];
    }
  }

  method FrameSum(s: seq<real>, channels: nat, i: nat) returns (sum: real)
    requires channels > 0 && i < |s| / channels
    ensures sum == Blocks(channels, At(s))(i)
  {
    FrameInside(|s|, channels, i);
    sum := 0.0;
    BlockStart(channels, At(s), i);
    for j := 0 to channels
      invariant sum == BlockPart(channels, At(s), i, j)
    {
      BlockStep(channels, At(s), i, j);
      hide BlockPart;
      sum := sum + s[i * channels + j];
    }
  }

  lemma FrameInside(n: nat, channels: nat, i: nat)
    requires channels > 0 && i < n / channels
    ensures 0 <= i * channels <= i * channels + channels <= n
  {
    MulMono(0, i, channels);
    MulMono(i + 1, n / channels, channels);
    NextMultiple(i, channels);
    assert n == n / channels * channels + n % channels;
  }

  method MixToMono(s: seq<real>, channels: nat) returns (m: seq<real>)
    requires channels > 0
    ensures m == Mono(s, channels)
  {
    hide Blocks, At;
    m := [];
    for i := 0 to |s| / channels
      invariant m == Mono(s, channels)[..i]
    {
      var sum := FrameSum(s, channels, i);
      m := m + [sum / channels as real];
    }
  }

  method LoadWav(file: seq<byte>, f32: int -> real) returns (outcome: Outcome)
    ensures outcome == Load(file, f32)
  {
    var ok, header, pos := ReadExact(file, 0, 4);
    if !ok {
      return EndOfFile;
    }
    assert header == file[..4];
    if header != RIFF {
      return NotRiff;
    }
    pos := pos + 4;
    ok, header, pos := ReadExact(file, pos, 4);
    if !ok {
      return EndOfFile;
    }
    if header != WAVE {
      return NotWave;
    }
    hide Chunks, Decode16, Decode24, Decode32, Mono, ReadFormat;
    var parse := ReadChunks(file, pos);
    match parse {
      case Failed(o) => {
        return o;
      }
      case Done(format, data) => {
        outcome := ConvertSamples(format, data, f32);
      }
    }
  }

  method ConvertSamples(format: Format, data: seq<byte>, f32: int -> real) returns (outcome: Outcome)
    ensures outcome == Convert(format, data, f32)
  {
    hide Decode16, Decode24, Decode32, Mono;
    var samples;
    if format.bits == 16 {
      samples := Samples16(data);
    } else if format.bits == 24 {
      samples := Samples24(data);
    } else if format.bits == 32 {
      samples := Samples32(data, f32);
    } else {
      return UnsupportedBits(format.bits);
    }
    if format.channels > 1 {
      samples := MixToMono(samples, format.channels);
    }
    return Loaded(samples, format.rate);
  }

  // ---- writing ----

  function Trunc(x: real): int {
    if x >= 0.0 then x.Floor else -((-x).Floor)
  }

  /** The 16-bit code of a sample. */
  function Pcm(sample: real): (k: int)
    ensures -32767 <= k <= 32767
  {
    Trunc(Clamp(sample, -1.0, 1.0) * 32767.0)
  }

  /** The samples' bytes. */
  function PcmBytes(samples: seq<real>): (b: seq<byte>)
    ensures |b| == 2 * |samples|
  {
    if samples == [] then [] else PcmBytes(samples[..|samples| - 1]) + Le16(Pcm(samples[|samples| - 1]))
  }

  /** The parts before the samples; 32-bit sizes wrap. */
  function RiffBytes(n: nat): (b: seq<byte>)
    ensures |b| == 12 && b[..4] == RIFF && b[8..12] == WAVE
  {
    RIFF + Le32((36 + DataSize(n)) % 0x1_0000_0000) + WAVE
  }

  function FormatBody(rate: int): (b: seq<byte>)
    requires 0 <= rate < 0x1_0000_0000
    ensures |b| == 16 && b[2] == 1 && b[3] == 0 && b[4..8] == Le32(rate) && b[14] == 16 && b[15] == 0
  {
    Le16(1) + Le16(1) + Le32(rate) + Le32(rate * 2 % 0x1_0000_0000) + Le16(2) + Le16(16)
  }

  function HeaderBytes(n: nat, rate: int): (b: seq<byte>)
    requires 0 <= rate < 0x1_0000_0000
    ensures |b| == 44
  {
    RiffBytes(n) + (FMT + Le32(16) + FormatBody(rate)) + (DATA + Le32(DataSize(n)))
  }

  /** num_samples * 2 in 32 bits. */
  function DataSize(n: nat): (size: nat)
    ensures size == 2 * (n % 0x8000_0000) < 0x1_0000_0000
  {
    WrappedDouble(n);
    n % 0x1_0000_0000 * 2 % 0x1_0000_0000
  }

  lemma WrappedDouble(n: nat)
    ensures n % 0x1_0000_0000 * 2 % 0x1_0000_0000 == 2 * (n % 0x8000_0000)
  {
    var q, r := n / 0x8000_0000, n % 0x8000_0000;
    var m := 0x8000_0000 * (q % 2) + r;
    ModIs(n, q / 2, m, 0x1_0000_0000);
    ModIs(m * 2, q % 2, 2 * r, 0x1_0000_0000);
  }

  function Save(samples: seq<real>, rate: int): seq<byte>
    requires 0 <= rate < 0x1_0000_0000
  {
    HeaderBytes(|samples|, rate) + PcmBytes(samples)
  }

  method SaveWav(samples: seq<real>, rate: int) returns (file: seq<byte>)
    requires 0 <= rate < 0x1_0000_0000
    ensures file == Save(samples, rate)
  {
    var numSamples := |samples| % 0x1_0000_0000;
    var byteRate := rate * 1 * 2 % 0x1_0000_0000;
    var dataSize := numSamples * 2 % 0x1_0000_0000;
    var fileSize := (36 + dataSize) % 0x1_0000_0000;
    file := RIFF + Le32(fileSize) + WAVE;
    file := file + FMT + Le32(16) + Le16(1) + Le16(1) + Le32(rate) + Le32(byteRate) + Le16(2) + Le16(16);
    file := file + DATA + Le32(dataSize);
    SameHeader(file, |samples|, rate);
    hide Le16, Le32, HeaderBytes, DataSize;
    for i := 0 to |samples|
      invariant file == HeaderBytes(|samples|, rate) + PcmBytes(samples[..i])
    {
      var clamped := Clamp(samples[i], -1.0, 1.0);
      var pcm := Trunc(clamped * 32767.0);
      assert pcm == Pcm(samples[i]);
      AppendSample(samples, i);
      hide PcmBytes, Pcm;
      file := file + Le16(pcm);
    }
    assert samples[..|samples|] == samples;
  }

  lemma SameHeader(file: seq<byte>, n: nat, rate: int)
    requires 0 <= rate < 0x1_0000_0000
    requires file == RIFF + Le32((36 + DataSize(n)) % 0x1_0000_0000) + WAVE
      + FMT + Le32(16) + Le16(1) + Le16(1) + Le32(rate) + Le32(rate * 2 % 0x1_0000_0000) + Le16(2) + Le16(16)
      + DATA + Le32(DataSize(n))
    ensures file == HeaderBytes(n, rate)
  {
    hide Le16, Le32, DataSize;
    assert file == RiffBytes(n) + (FMT + Le32(16) + FormatBody(rate)) + (DATA + Le32(DataSize(n)));
  }

  lemma AppendSample(samples: seq<real>, i: nat)
    requires i < |samples|
    ensures PcmBytes(samples[..i + 1]) == PcmBytes(samples[..i]) + Le16(Pcm(samples[i]))
  {
    assert samples[..i + 1][..i] == samples[..i];
  }

  // ---- loading what was saved ----

  lemma {:induction false} PcmBytesAt(samples: seq<real>, i: nat)
    requires i < |samples|
    ensures PcmBytes(samples)[2 * i] == Le16(Pcm(samples[i]))[0]
      && PcmBytes(samples)[2 * i + 1] == Le16(Pcm(samples[i]))[1]
  {
    hide Pcm, Le16;
    var n := |samples| - 1;
    if i < n {
      PcmBytesAt(samples[..n], i);
    }
  }

  lemma Decode16At(data: seq<byte>, i: nat)
    requires 2 * i + 2 <= |data|
    ensures i < |data| / 2 && Decode16(data)[i] == I16(data[2 * i], data[2 * i + 1]) as real / 32768.0
  {
    hide I16;
  }

  lemma DecodedSample(samples: seq<real>, n: nat, i: nat)
    requires i < n <= |samples|
    ensures i < |Decode16(PcmBytes(samples)[..2 * n])|
    ensures Decode16(PcmBytes(samples)[..2 * n])[i] == Pcm(samples[i]) as real / 32768.0
  {
    hide *;
    PcmBytesAt(samples, i);
    Decode16At(PcmBytes(samples)[..2 * n], i);
    I16RoundTrip(Pcm(samples[i]));
  }

  /** A saved sample comes back as its 16-bit code. */
  lemma DecodedPcm(samples: seq<real>, n: nat)
    requires n <= |samples|
    ensures |Decode16(PcmBytes(samples)[..2 * n])| == n
    ensures forall i :: 0 <= i < n ==> Decode16(PcmBytes(samples)[..2 * n])[i] == Pcm(samples[i]) as real / 32768.0
  {
    hide *;
    forall i | 0 <= i < n ensures Decode16(PcmBytes(samples)[..2 * n])[i] == Pcm(samples[i]) as real / 32768.0 {
      DecodedSample(samples, n, i);
    }
  }

  lemma BodyReads(rate: int, rest: seq<byte>)
    requires 0 <= rate < 0x1_0000_0000
    ensures ReadFormat(FormatBody(rate) + rest) == Format(rate, 16, 1)
  {
    hide FormatBody, Le32, U32;
    var b := FormatBody(rate);
    assert (b + rest)[4..8] == b[4..8];
    Le32RoundTrip(rate);
  }

  /** The chunk loop over a saved file's chunks. */
  lemma SavedChunks(n: nat, rate: int, pcm: seq<byte>)
    requires 0 <= rate < 0x1_0000_0000 && DataSize(n) <= |pcm|
    ensures Chunks((HeaderBytes(n, rate) + pcm)[12..], Format(0, 16, 1)) ==
      Done(Format(rate, 16, 1), pcm[..DataSize(n)])
  {
    var fmt, data := FormatBody(rate), DATA + Le32(DataSize(n)) + pcm;
    assert (HeaderBytes(n, rate) + pcm)[12..] == FMT + Le32(16) + fmt + data;
    hide *;
    BodyReads(rate, data);
    FormatFirst(fmt, data, Format(0, 16, 1));
    DataFirst(DataSize(n), pcm, Format(rate, 16, 1));
  }

  lemma FormatFirst(fmt: seq<byte>, rest: seq<byte>, format: Format)
    requires |fmt| == 16
    ensures Chunks(FMT + Le32(16) + fmt + rest, format) == Chunks(rest, ReadFormat(fmt + rest))
  {
    var all := FMT + Le32(16) + fmt + rest;
    Le32RoundTrip(16);
    assert all[..4] == FMT && all[4..8] == Le32(16) && all[8..] == fmt + rest && (fmt + rest)[16..] == rest;
    hide ReadFormat, Le32, U32;
  }

  lemma DataFirst(size: nat, pcm: seq<byte>, format: Format)
    requires size <= |pcm| && size < 0x1_0000_0000
    ensures Chunks(DATA + Le32(size) + pcm, format) == Done(format, pcm[..size])
  {
    var all := DATA + Le32(size) + pcm;
    Le32RoundTrip(size);
    assert all[..4] == DATA && all[4..8] == Le32(size) && all[8..] == pcm;
    hide ReadFormat, Le32, U32;
  }

  lemma SavedHeader(samples: seq<real>, rate: int)
    requires 0 <= rate < 0x1_0000_0000
    ensures var file := Save(samples, rate);
      |file| >= 44 && file[..4] == RIFF && file[8..12] == WAVE
      && file == HeaderBytes(|samples|, rate) + PcmBytes(samples)
  {
    var header, riff := HeaderBytes(|samples|, rate), RiffBytes(|samples|);
    assert header[..12] == riff;
    hide RiffBytes, HeaderBytes, PcmBytes;
    assert (header + PcmBytes(samples))[..4] == riff[..4] && (header + PcmBytes(samples))[8..12] == riff[8..12];
  }

  lemma LoadParts(file: seq<byte>, f32: int -> real)
    requires |file| >= 12 && file[..4] == RIFF && file[8..12] == WAVE
    ensures Load(file, f32) == Finish(Chunks(file[12..], Format(0, 16, 1)), f32)
  {
    hide Chunks, Finish;
  }

  lemma SixteenBits(rate: int, data: seq<byte>, f32: int -> real)
    ensures Finish(Done(Format(rate, 16, 1), data), f32) == Loaded(Decode16(data), rate)
  {
    hide Decode16, Decode24, Decode32, Mono;
  }

  /** The size in the header is what the file holds, or less. */
  lemma SizeFits(samples: seq<real>)
    ensures DataSize(|samples|) == 2 * (|samples| % 0x8000_0000) <= |PcmBytes(samples)|
  {
    hide PcmBytes;
  }

  lemma LoadedIs(samples: seq<real>, rate: int, f32: int -> real)
    requires 0 <= rate < 0x1_0000_0000
    ensures 2 * (|samples| % 0x8000_0000) <= |PcmBytes(samples)|
    ensures Load(Save(samples, rate), f32) == Loaded(Decode16(PcmBytes(samples)[..2 * (|samples| % 0x8000_0000)]), rate)
  {
    SizeFits(samples);
    hide *;
    var n, pcm, file := |samples|, PcmBytes(samples), Save(samples, rate);
    SavedHeader(samples, rate);
    SavedChunks(n, rate, pcm);
    assert Chunks(file[12..], Format(0, 16, 1)) == Done(Format(rate, 16, 1), pcm[..DataSize(n)]);
    LoadParts(file, f32);
    SixteenBits(rate, pcm[..DataSize(n)], f32);
  }

  /** What loading a saved file gives: the rate, and the code of each sample; sizes wrap at 2^31 samples. */
  ghost predicate LoadedBack(o: Outcome, samples: seq<real>, rate: int) {
    && o.Loaded? && o.rate == rate && |o.samples| == |samples| % 0x8000_0000
    && forall i :: 0 <= i < |o.samples| ==> o.samples[i] == Pcm(samples[i]) as real / 32768.0
  }

  lemma LoadOfSave(samples: seq<real>, rate: int, f32: int -> real)
    requires 0 <= rate < 0x1_0000_0000
    ensures LoadedBack(Load(Save(samples, rate), f32), samples, rate)
  {
    hide Save, Load, PcmBytes, Decode16, Pcm;
    LoadedIs(samples, rate, f32);
    DecodedPcm(samples, |samples| % 0x8000_0000);
  }

  /** The length comes back exactly when it fits in 31 bits. */
  lemma LengthKept(samples: seq<real>, rate: int, f32: int -> real)
    requires 0 <= rate < 0x1_0000_0000
    ensures var o := Load(Save(samples, rate), f32);
      o.Loaded? && (|o.samples| == |samples| <==> |samples| < 0x8000_0000)
  {
    hide Load, Save, Pcm;
    LoadOfSave(samples, rate, f32);
  }

  /** The code of a sample in range is less than two steps away from it. */
  lemma PcmError(s: real)
    requires -1.0 <= s <= 1.0
    ensures Abs(s - Pcm(s) as real / 32768.0) < 2.0 / 32768.0
  {
    var k := Pcm(s);
    assert Clamp(s, -1.0, 1.0) == s;
    assert Abs(s * 32767.0 - k as real) < 1.0;
  }

  lemma SavedWithin(samples: seq<real>, rate: int, f32: int -> real, i: nat)
    requires 0 <= rate < 0x1_0000_0000 && i < |samples| < 0x8000_0000 && -1.0 <= samples[i] <= 1.0
    ensures var o := Load(Save(samples, rate), f32);
      o.Loaded? && |o.samples| == |samples| && Abs(samples[i] - o.samples[i]) < 2.0 / 32768.0
  {
    hide Load, Save, Pcm, Abs;
    LoadOfSave(samples, rate, f32);
    PcmError(samples[i]);
  }

  // ---- loading and saving again ----

  /** One step toward zero. */
  function Fade(k: int): int {
    if k > 0 then k - 1 else if k < 0 then k + 1 else 0
  }

  /** Saving a loaded code moves it one step toward zero: the two scales differ by one. */
  lemma ResaveFades(k: int)
    requires -32768 <= k <= 32767
    ensures Pcm(k as real / 32768.0) == Fade(k)
  {
    var x := k as real / 32768.0;
    assert -1.0 <= x <= 1.0;
    assert x * 32767.0 == k as real - x;
    if k > 0 {
      assert 0.0 < x < 1.0;
      assert (k as real - x).Floor == k - 1;
    } else if k < 0 {
      assert (-(k as real - x)).Floor == -k - 1 by {
        assert -(k as real - x) == (-k - 1) as real + (1.0 + x);
      }
    }
  }

  /** The samples after n passes of save and load. */
  ghost function Passes(samples: seq<real>, rate: int, f32: int -> real, n: nat): seq<real>
    requires 0 <= rate < 0x1_0000_0000
  {
    if n == 0 then samples
    else
      var o := Load(Save(Passes(samples, rate, f32, n - 1), rate), f32);
      if o.Loaded? then o.samples else []
  }

  function FadeBy(k: int, n: nat): int {
    if k > n then k - n else if k + n < 0 then k + n else 0
  }

  ghost predicate Holds(samples: seq<real>, codes: seq<int>) {
    && |samples| == |codes|
    && forall i :: 0 <= i < |codes| ==> -32768 <= codes[i] <= 32767 && samples[i] == codes[i] as real / 32768.0
  }

  function Faded(codes: seq<int>, n: nat): (r: seq<int>)
    ensures |r| == |codes|
  {
    seq(|codes|, i requires 0 <= i < |codes| => FadeBy(codes[i], n))
  }

  lemma OnePass(samples: seq<real>, codes: seq<int>, rate: int, f32: int -> real)
    requires 0 <= rate < 0x1_0000_0000 && |samples| < 0x8000_0000 && Holds(samples, codes)
    ensures var o := Load(Save(samples, rate), f32);
      o.Loaded? && Holds(o.samples, Faded(codes, 1))
  {
    hide Load, Save, Pcm;
    LoadOfSave(samples, rate, f32);
    var o := Load(Save(samples, rate), f32);
    forall i | 0 <= i < |codes|
      ensures -32768 <= Faded(codes, 1)[i] <= 32767 && o.samples[i] == Faded(codes, 1)[i] as real / 32768.0
    {
      ResaveFades(codes[i]);
    }
  }

  /** n passes move every code n steps toward zero, and no further. */
  lemma {:induction false} PassesFade(samples: seq<real>, codes: seq<int>, rate: int, f32: int -> real, n: nat)
    requires 0 <= rate < 0x1_0000_0000 && |samples| < 0x8000_0000 && Holds(samples, codes)
    ensures Holds(Passes(samples, rate, f32, n), Faded(codes, n))
  {
    hide Load, Save;
    if n > 0 {
      PassesFade(samples, codes, rate, f32, n - 1);
      OnePass(Passes(samples, rate, f32, n - 1), Faded(codes, n - 1), rate, f32);
      assert Faded(Faded(codes, n - 1), 1) == Faded(codes, n);
    } else {
      assert Faded(codes, 0) == codes;
    }
  }

  // ---- unknown chunks ----

  datatype Chunk = Chunk(id: seq<byte>, payload: seq<byte>) {
    predicate Valid() {
      |id| == 4 && |payload| < 0x1_0000_0000
    }

    predicate Unknown() {
      id != FMT && id != DATA
    }

    function Bytes(): seq<byte>
      requires Valid()
    {
      id + Le32(|payload|) + payload
    }
  }

  function Serialize(chunks: seq<Chunk>): seq<byte>
    requires forall c :: c in chunks ==> c.Valid()
  {
    if chunks == [] then [] else chunks[0].Bytes() + Serialize(chunks[1..])
  }

  lemma ChunkFirst(c: Chunk, rest: seq<byte>, format: Format)
    requires c.Valid()
    ensures Chunks(c.Bytes() + rest, format) ==
      if c.id == FMT then if |c.payload| < 16 then Failed(Panicked) else Chunks(rest, ReadFormat(c.payload))
      else if c.id == DATA then Done(format, c.payload)
      else Chunks(rest, format)
  {
    var all, size := c.Bytes() + rest, |c.payload|;
    Le32RoundTrip(size);
    var body := c.payload + rest;
    assert all[..4] == c.id && all[4..8] == Le32(size) && all[8..] == body && body[size..] == rest
      && body[..size] == c.payload;
    if size >= 16 {
      SameFormat(body, c.payload);
    }
    hide ReadFormat, Le32, U32;
  }

  /** A chunk that is neither fmt nor data changes nothing, wherever it stands between chunks and
      whatever follows it, well formed or not. */
  lemma {:induction false} UnknownChunkIgnored(before: seq<Chunk>, c: Chunk, tail: seq<byte>, format: Format)
    requires (forall b :: b in before ==> b.Valid()) && c.Valid() && c.Unknown()
    ensures Chunks(Serialize(before) + (c.Bytes() + tail), format) == Chunks(Serialize(before) + tail, format)
  {
    hide Chunks, Chunk.Bytes, ReadFormat;
    if before == [] {
      ChunkFirst(c, tail, format);
      assert Serialize(before) + (c.Bytes() + tail) == c.Bytes() + tail && Serialize(before) + tail == tail;
    } else {
      var first, others := before[0], before[1..];
      var long, short := Serialize(others) + (c.Bytes() + tail), Serialize(others) + tail;
      assert Serialize(before) + (c.Bytes() + tail) == first.Bytes() + long
        && Serialize(before) + tail == first.Bytes() + short;
      ChunkFirst(first, long, format);
      ChunkFirst(first, short, format);
      if first.id == FMT && |first.payload| >= 16 {
        UnknownChunkIgnored(others, c, tail, ReadFormat(first.payload));
      } else if first.Unknown() {
        UnknownChunkIgnored(others, c, tail, format);
      }
    }
  }

  /** The same for whole files: the loaded result does not change. */
  lemma UnknownChunkInFile(fileSize: seq<byte>, before: seq<Chunk>, c: Chunk, tail: seq<byte>, f32: int -> real)
    requires |fileSize| == 4 && (forall b :: b in before ==> b.Valid()) && c.Valid() && c.Unknown()
    ensures Load(RIFF + fileSize + WAVE + (Serialize(before) + (c.Bytes() + tail)), f32)
         == Load(RIFF + fileSize + WAVE + (Serialize(before) + tail), f32)
  {
    hide Chunks, Chunk.Bytes, Convert;
    var header := RIFF + fileSize + WAVE;
    var long, short := Serialize(before) + (c.Bytes() + tail), Serialize(before) + tail;
    assert header[..4] == RIFF && header[8..12] == WAVE;
    assert (header + long)[12..] == long && (header + short)[12..] == short;
    assert (header + long)[..4] == RIFF && (header + short)[..4] == RIFF;
    assert (header + long)[8..12] == WAVE && (header + short)[8..12] == WAVE;
    UnknownChunkIgnored(before, c, tail, Format(0, 16, 1));
  }

  /** Mixing identical channels gives the channel back. */
  lemma MonoOfCopies(s: seq<real>, channels: nat)
    requires channels > 0 && forall k :: 0 <= k < |s| ==> s[k] == s[k / channels * channels]
    ensures forall i :: 0 <= i < |s| / channels ==> 0 <= i * channels < |s| && Mono(s, channels)[i] == s[i * channels]
  {
    forall i | 0 <= i < |s| / channels ensures 0 <= i * channels < |s| && Mono(s, channels)[i] == s[i * channels] {
      MonoOfFrame(s, channels, i);
    }
  }

  lemma MonoOfFrame(s: seq<real>, channels: nat, i: nat)
    requires channels > 0 && i < |s| / channels
    requires forall k :: 0 <= k < |s| ==> s[k] == s[k / channels * channels]
    ensures 0 <= i * channels < |s| && Mono(s, channels)[i] == s[i * channels]
  {
    FrameInside(|s|, channels, i);
    CopiesSum(s, channels, i, channels);
    BlockStart(channels, At(s), i);
    var c, v := channels as real, s[i * channels];
    assert Mono(s, channels)[i] == Blocks(channels, At(s))(i) / c;
    hide *;
    QuotientOfCopies(c, v);
  }

  lemma QuotientOfCopies(c: real, v: real)
    requires c > 0.0
    ensures Copies(c, v) / c == v
  {
    assert v * c / c == v;
  }

  function Copies(n: real, v: real): real {
    v * n
  }

  lemma OneMoreCopy(n: real, v: real)
    ensures Copies(0.0, v) == 0.0 && Copies(n + 1.0, v) == Copies(n, v) + v
  {
  }

  lemma {:induction false} CopiesSum(s: seq<real>, channels: nat, i: nat, n: nat)
    requires channels > 0 && i < |s| / channels && n <= channels && 0 <= i * channels < |s|
    requires forall k :: 0 <= k < |s| ==> s[k] == s[k / channels * channels]
    ensures BlockPart(channels, At(s), i, n) == Copies(n as real, s[i * channels])
  {
    OneMoreCopy((n - 1) as real, s[i * channels]);
    if n == 0 {
      BlockStart(channels, At(s), i);
    } else {
      CopiesSum(s, channels, i, n - 1);
      BlockStep(channels, At(s), i, n - 1);
      FrameInside(|s|, channels, i);
      ModIs(i * channels + (n - 1), i, n - 1, channels);
      assert At(s)(i * channels + (n - 1)) == s[i * channels];
      hide *;
      assert (n - 1) as real + 1.0 == n as real;
    }
  }

  // ---- the other formats ----

  lemma ThreeBytes(k: int)
    requires -0x80_0000 <= k < 0x80_0000
    ensures k % 256 + 256 * (k / 256 % 256) + 65536 * (k / 65536 % 256) == if k < 0 then k + 0x100_0000 else k
  {
    var q := k / 65536;
    assert -128 <= q < 128 && q == k / 256 / 256;
    assert q % 256 == if q < 0 then q + 256 else q;
  }

  lemma TopBytes(b0: byte, b1: byte, b2: byte)
    ensures var u := b0 + 256 * b1 + 65536 * b2;
      I24(b0, b1, b2) == if u < 0x80_0000 then u else u - 0x100_0000
  {
    assert U32([0, b0, b1, b2]) == 256 * (b0 + 256 * b1 + 65536 * b2);
  }

  /** A 24-bit number in two's complement, low byte first, is read as itself. */
  lemma I24RoundTrip(k: int)
    requires -0x80_0000 <= k < 0x80_0000
    ensures I24(k % 256, k / 256 % 256, k / 65536 % 256) == k
  {
    hide I24;
    ThreeBytes(k);
    TopBytes(k % 256, k / 256 % 256, k / 65536 % 256);
  }

  /** A file with one format and one data chunk. */
  function FileOf(size: nat, rate: int, bits: int, channels: int, data: seq<byte>): seq<byte>
    requires size < 0x1_0000_0000 && |data| < 0x1_0000_0000
    requires 0 <= rate < 0x1_0000_0000 && 0 <= bits < 65536 && 0 <= channels < 65536
  {
    RIFF + Le32(size) + WAVE
    + (FMT + Le32(16) + (Le16(1) + Le16(channels) + Le32(rate) + [0, 0, 0, 0, 0, 0] + Le16(bits)))
    + (DATA + Le32(|data|) + data)
  }

  lemma FieldsRead(rate: int, bits: int, channels: int, rest: seq<byte>)
    requires 0 <= rate < 0x1_0000_0000 && 0 <= bits < 65536 && 0 <= channels < 65536
    ensures var body := Le16(1) + Le16(channels) + Le32(rate) + [0, 0, 0, 0, 0, 0] + Le16(bits);
      |body| == 16 && ReadFormat(body + rest) == Format(rate, bits, channels)
  {
    hide Le16, Le32, U16, U32;
    var channelBytes, bitBytes := Le16(channels), Le16(bits);
    var body := Le16(1) + channelBytes + Le32(rate) + [0, 0, 0, 0, 0, 0] + bitBytes;
    var all := body + rest;
    assert all[4..8] == Le32(rate);
    assert all[2] == channelBytes[0] && all[3] == channelBytes[1];
    assert all[14] == bitBytes[0] && all[15] == bitBytes[1];
    U16RoundTrip(channels);
    U16RoundTrip(bits);
    Le32RoundTrip(rate);
  }

  lemma U16RoundTrip(v: int)
    requires 0 <= v < 65536
    ensures U16(Le16(v)[0], Le16(v)[1]) == v
  {
  }

  /** Rate, width and channel count of any file of that form reach the conversion of its data. */
  lemma LoadOfFile(size: nat, rate: int, bits: int, channels: int, data: seq<byte>, f32: int -> real)
    requires size < 0x1_0000_0000 && |data| < 0x1_0000_0000
    requires 0 <= rate < 0x1_0000_0000 && 0 <= bits < 65536 && 0 <= channels < 65536
    ensures Load(FileOf(size, rate, bits, channels, data), f32) == Convert(Format(rate, bits, channels), data, f32)
  {
    var body := Le16(1) + Le16(channels) + Le32(rate) + [0, 0, 0, 0, 0, 0] + Le16(bits);
    var file, rest := FileOf(size, rate, bits, channels, data), DATA + Le32(|data|) + data;
    FieldsRead(rate, bits, channels, rest);
    hide Le16, Le32, U32, ReadFormat, Load, Chunks, Convert;
    assert file[..4] == RIFF && file[8..12] == WAVE && file[12..] == FMT + Le32(16) + body + rest;
    LoadParts(file, f32);
    FormatFirst(body, rest, Format(0, 16, 1));
    DataFirst(|data|, data, Format(rate, bits, channels));
    assert data[..|data|] == data;
  }

  /** Three bytes per number, low byte first. */
  function Bytes24(codes: seq<int>): (b: seq<byte>)
    ensures |b| == 3 * |codes|
  {
    if codes == [] then []
    else
      var k := codes[|codes| - 1];
      Bytes24(codes[..|codes| - 1]) + [k % 256, k / 256 % 256, k / 65536 % 256]
  }

  lemma {:induction false} Bytes24At(codes: seq<int>, i: nat)
    requires i < |codes|
    ensures var b, k := Bytes24(codes), codes[i];
      b[3 * i] == k % 256 && b[3 * i + 1] == k / 256 % 256 && b[3 * i + 2] == k / 65536 % 256
  {
    var n := |codes| - 1;
    if i < n {
      Bytes24At(codes[..n], i);
    }
  }

  lemma Decode24At(data: seq<byte>, i: nat)
    requires 3 * i + 3 <= |data|
    ensures i < |data| / 3
    ensures Decode24(data)[i] == I24(data[3 * i], data[3 * i + 1], data[3 * i + 2]) as real / 8388608.0
  {
    hide I24;
  }

  lemma TwentyFourBits(rate: int, data: seq<byte>, f32: int -> real)
    ensures Convert(Format(rate, 24, 1), data, f32) == Loaded(Decode24(data), rate)
  {
    hide Decode16, Decode24, Decode32, Mono;
  }

  /** Every 24-bit code of a mono file is loaded as that part of 2^23, at the file's rate. */
  lemma LoadOf24Bits(size: nat, rate: int, codes: seq<int>, f32: int -> real, i: nat)
    requires size < 0x1_0000_0000 && 3 * |codes| < 0x1_0000_0000 && 0 <= rate < 0x1_0000_0000
    requires i < |codes| && -0x80_0000 <= codes[i] < 0x80_0000
    ensures var o := Load(FileOf(size, rate, 24, 1, Bytes24(codes)), f32);
      o.Loaded? && o.rate == rate && |o.samples| == |codes| && o.samples[i] == codes[i] as real / 8388608.0
  {
    hide *;
    var data := Bytes24(codes);
    LoadOfFile(size, rate, 24, 1, data, f32);
    TwentyFourBits(rate, data, f32);
    Bytes24At(codes, i);
    Decode24At(data, i);
    I24RoundTrip(codes[i]);
  }

  // ---- mixing different channels ----

  /** The samples of frame i. */
  ghost function FrameOf(s: seq<real>, channels: nat, i: nat): int -> real {
    j => At(s)(i * channels + j)
  }

  /** A mixed sample times the number of channels is the sum of its frame. */
  lemma MonoIsAverage(s: seq<real>, channels: nat, i: nat)
    requires channels > 0 && i < |s| / channels
    ensures Mono(s, channels)[i] * channels as real == Sum(channels, FrameOf(s, channels, i))
  {
    var frame := Blocks(channels, At(s))(i);
    assert Mono(s, channels)[i] == frame / channels as real;
    hide Mono;
    QuotientTimes(frame, channels as real);
    SumExt(channels, j => At(s)(i * channels + j), FrameOf(s, channels, i));
  }

  lemma QuotientTimes(a: real, c: real)
    requires c > 0.0
    ensures a / c * c == a
  {
  }

  /** Two channels are averaged. */
  lemma StereoIsAverage(s: seq<real>, i: nat)
    requires 2 * i + 1 < |s|
    ensures i < |s| / 2 && Mono(s, 2)[i] == (s[2 * i] + s[2 * i + 1]) / 2.0
  {
    MonoIsAverage(s, 2, i);
    TwoTerms(FrameOf(s, 2, i));
    hide Mono, Sum;
    FrameAt(s, 2, i, 0);
    FrameAt(s, 2, i, 1);
  }

  lemma FrameAt(s: seq<real>, channels: nat, i: nat, j: nat)
    requires 0 <= i * channels + j < |s|
    ensures FrameOf(s, channels, i)(j) == s[i * channels + j]
  {
    var x := i * channels + j;
    assert At(s)(x) == s[x];
  }

  lemma TwoTerms(f: int -> real)
    ensures Sum(2, f) == f(0) + f(1)
  {
    assert Sum(1, f) == f(0);
  }

  /** Number k of the data, by its bytes. */
  function Sample(bits: int, data: seq<byte>, k: nat, f32: int -> real): real {
    if bits == 16 && 2 * k + 2 <= |data| then I16(data[2 * k], data[2 * k + 1]) as real / 32768.0
    else if bits == 24 && 3 * k + 3 <= |data| then
      I24(data[3 * k], data[3 * k + 1], data[3 * k + 2]) as real / 8388608.0
    else if bits == 32 && 4 * k + 4 <= |data| then f32(U32(data[4 * k..4 * k + 4]))
    else 0.0
  }

  ghost function FrameSamples(format: Format, data: seq<byte>, f32: int -> real, i: nat): int -> real {
    j => if j >= 0 then Sample(format.bits, data, i * format.channels + j, f32) else 0.0
  }

  /** The decoded numbers before mixing. */
  ghost predicate DecodesTo(bits: int, data: seq<byte>, f32: int -> real, s: seq<real>) {
    && (bits == 16 ==> |s| == |data| / 2) && (bits == 24 ==> |s| == |data| / 3) && (bits == 32 ==> |s| == |data| / 4)
    && forall k: nat :: k < |s| ==> s[k] == Sample(bits, data, k, f32)
  }

  lemma DecodedNumbers(data: seq<byte>, f32: int -> real)
    ensures DecodesTo(16, data, f32, Decode16(data))
    ensures DecodesTo(24, data, f32, Decode24(data))
    ensures DecodesTo(32, data, f32, Decode32(data, f32))
  {
    hide I16, I24, U32;
  }

  lemma OneChannel(f: int -> real, x: real)
    requires f(0) == x
    ensures Sum(1, f) == x && x * 1 as real == x
  {
    assert Sum(0, f) == 0.0;
  }

  ghost function Mixed(s: seq<real>, channels: nat): seq<real>
    requires channels > 0
  {
    if channels > 1 then Mono(s, channels) else s
  }

  lemma FrameTerm(format: Format, data: seq<byte>, f32: int -> real, s: seq<real>, i: nat, j: nat)
    requires DecodesTo(format.bits, data, f32, s) && 0 <= i * format.channels + j < |s|
    ensures FrameOf(s, format.channels, i)(j) == FrameSamples(format, data, f32, i)(j)
  {
    FrameAt(s, format.channels, i, j);
    hide Sample, FrameOf;
    var k: nat := i * format.channels + j;
    assert s[k] == Sample(format.bits, data, k, f32);
  }

  lemma FrameTotal(format: Format, data: seq<byte>, f32: int -> real, s: seq<real>, i: nat)
    requires format.channels > 0 && DecodesTo(format.bits, data, f32, s) && i < |s| / format.channels
    ensures Sum(format.channels, FrameOf(s, format.channels, i))
         == Sum(format.channels, FrameSamples(format, data, f32, i))
  {
    var c := format.channels;
    hide *;
    FrameInside(|s|, c, i);
    forall j | 0 <= j < c ensures FrameOf(s, c, i)(j) == FrameSamples(format, data, f32, i)(j) {
      FrameTerm(format, data, f32, s, i, j);
    }
    SumExt(c, FrameOf(s, c, i), FrameSamples(format, data, f32, i));
  }

  lemma SingleFrame(s: seq<real>, i: nat)
    requires i < |s|
    ensures s[i] * 1 as real == Sum(1, FrameOf(s, 1, i))
  {
    FrameAt(s, 1, i, 0);
    OneChannel(FrameOf(s, 1, i), s[i]);
  }

  lemma MixedFrame(s: seq<real>, channels: nat, i: nat)
    requires channels > 0 && i < |s| / channels
    ensures i < |Mixed(s, channels)|
    ensures Mixed(s, channels)[i] * channels as real == Sum(channels, FrameOf(s, channels, i))
  {
    MixedLength(s, channels);
    if channels > 1 {
      assert Mixed(s, channels) == Mono(s, channels);
      hide *;
      MonoIsAverage(s, channels, i);
    } else {
      assert channels == 1 && Mixed(s, 1) == s;
      hide *;
      SingleFrame(s, i);
    }
  }

  /** Frames of the decoded numbers, mixed if there is more than one channel. */
  lemma FramesOf(format: Format, data: seq<byte>, f32: int -> real, s: seq<real>, i: nat)
    requires format.channels > 0 && DecodesTo(format.bits, data, f32, s) && i < |s| / format.channels
    ensures i < |Mixed(s, format.channels)|
    ensures Mixed(s, format.channels)[i] * format.channels as real
         == Sum(format.channels, FrameSamples(format, data, f32, i))
  {
    hide *;
    FrameTotal(format, data, f32, s, i);
    MixedFrame(s, format.channels, i);
  }

  lemma WholeFrames(n: nat, channels: nat)
    requires channels == 1
    ensures n / channels == n
  {
  }

  /** The numbers of a width that is supported. */
  ghost function Numbers(bits: int, data: seq<byte>, f32: int -> real): seq<real> {
    if bits == 16 then Decode16(data) else if bits == 24 then Decode24(data) else Decode32(data, f32)
  }

  lemma NumbersDecode(bits: int, data: seq<byte>, f32: int -> real)
    requires bits == 16 || bits == 24 || bits == 32
    ensures DecodesTo(bits, data, f32, Numbers(bits, data, f32))
    ensures |Numbers(bits, data, f32)| == |data| / (bits / 8)
  {
    DecodedNumbers(data, f32);
    hide DecodesTo, Decode16, Decode24, Decode32;
  }

  lemma ConvertMixes(format: Format, data: seq<byte>, f32: int -> real)
    requires format.channels > 0
    ensures Convert(format, data, f32)
         == if format.bits == 16 || format.bits == 24 || format.bits == 32 then
              Loaded(Mixed(Numbers(format.bits, data, f32), format.channels), format.rate)
            else UnsupportedBits(format.bits)
  {
    hide Decode16, Decode24, Decode32, Mono;
  }

  lemma MixedLength(s: seq<real>, channels: nat)
    requires channels > 0
    ensures |Mixed(s, channels)| == |s| / channels
  {
    hide Mono;
    if channels == 1 {
      WholeFrames(|s|, channels);
    }
  }

  /** Any width of 16, 24 or 32 bits and any number of channels: as many samples as whole frames, each, times the
      channel count, the sum of its frame's numbers. Any other width is refused. */
  lemma ConvertIsFrames(format: Format, data: seq<byte>, f32: int -> real, i: nat)
    requires format.channels > 0
    ensures var o := Convert(format, data, f32);
      if format.bits != 16 && format.bits != 24 && format.bits != 32 then o == UnsupportedBits(format.bits)
      else
        && o.Loaded? && o.rate == format.rate && |o.samples| == |data| / (format.bits / 8) / format.channels
        && (i < |o.samples| ==>
              o.samples[i] * format.channels as real == Sum(format.channels, FrameSamples(format, data, f32, i)))
  {
    hide *;
    ConvertMixes(format, data, f32);
    if format.bits == 16 || format.bits == 24 || format.bits == 32 {
      var s := Numbers(format.bits, data, f32);
      NumbersDecode(format.bits, data, f32);
      MixedLength(s, format.channels);
      if i < |Mixed(s, format.channels)| {
        FramesOf(format, data, f32, s, i);
      }
    }
  }

  // ---- what is written ----

  /** The header's fields by position: sizes, format 1, one channel, rate, bytes per second and per frame, width. */
  lemma HeaderFields(n: nat, rate: int)
    requires 0 <= rate < 0x1_0000_0000
    ensures var h := HeaderBytes(n, rate);
      && h[..4] == RIFF && h[8..16] == WAVE + FMT && h[36..40] == DATA
      && U32(h[4..8]) == (36 + 2 * (n % 0x8000_0000)) % 0x1_0000_0000 && U32(h[40..44]) == 2 * (n % 0x8000_0000)
      && U32(h[16..20]) == 16 && U16(h[20], h[21]) == 1 && U16(h[22], h[23]) == 1
      && U32(h[24..28]) == rate && U32(h[28..32]) == rate * 2 % 0x1_0000_0000
      && U16(h[32], h[33]) == 2 && U16(h[34], h[35]) == 16
  {
    var h := HeaderBytes(n, rate);
    Le32RoundTrip(16);
    Le32RoundTrip(rate);
    Le32RoundTrip(rate * 2 % 0x1_0000_0000);
    Le32RoundTrip(DataSize(n));
    Le32RoundTrip((36 + DataSize(n)) % 0x1_0000_0000);
    hide Le32, U32, DataSize;
    assert h[4..8] == Le32((36 + DataSize(n)) % 0x1_0000_0000) && h[40..44] == Le32(DataSize(n));
    assert h[16..20] == Le32(16) && h[24..28] == Le32(rate) && h[28..32] == Le32(rate * 2 % 0x1_0000_0000);
    assert h[20..24] == Le16(1) + Le16(1) && h[32..36] == Le16(2) + Le16(16);
  }

  /** Samples out of range are written as the end of the range they are beyond. */
  lemma PcmClips(sample: real)
    ensures sample >= 1.0 ==> Pcm(sample) == 32767
    ensures sample <= -1.0 ==> Pcm(sample) == -32767
  {
  }
}
