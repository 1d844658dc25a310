/** f32 to bf16 by adding to the bit pattern: round to nearest, ties to even (section 4.3.1 of IEEE 754-2019). */
module Bf16 {
  import opened Indexing
  import opened Reals

  /** The pattern of +infinity, as a 31-bit magnitude. */
  const INFINITY: nat := 0x7F80_0000

  /** The packer: half a step plus the kept part's low bit, then drop 16 bits. */
  function FromF32(x: nat): (h: nat)
    requires x < 0x1_0000_0000
    ensures h < 0x1_0000
  {
    var round := x / 65536 % 2 + 0x7FFF;
    (x + round) % 0x1_0000_0000 / 65536
  }

  function ToF32(h: nat): nat {
    h * 65536
  }

  /** Widening and rounding again changes nothing, for every pattern that is not a NaN. */
  lemma RoundTrip(h: nat)
    requires h <= 0x7F80 || 0x8000 <= h <= 0xFF80
    ensures FromF32(ToF32(h)) == h
  {
  }

  lemma FromParts(q: nat, low: nat)
    requires low < 65536 && 65536 * q + low < 0xFFFF_0000
    ensures FromF32(65536 * q + low) == q + if low + q % 2 + 0x7FFF >= 65536 then 1 else 0
  {
    var x, round := 65536 * q + low, q % 2 + 0x7FFF;
    ModIs(x, q, low, 65536);
    if low + round >= 65536 {
      ModIs(x + round, q + 1, low + round - 65536, 65536);
    } else {
      ModIs(x + round, q, low + round, 65536);
    }
  }

  /** On patterns: the nearest multiple of 2^16, the even one of two, with no wrap past infinity and the sign kept. */
  lemma NearestPattern(sign: nat, x: nat)
    requires sign <= 1 && x <= INFINITY
    ensures var r := FromF32(sign * 0x8000_0000 + x) - sign * 0x8000;
      && 0 <= r <= 0x7F80 && -32768 <= x - 65536 * r <= 32768
      && (x - 65536 * r == 32768 || x - 65536 * r == -32768 ==> r % 2 == 0)
  {
    var q, low := x / 65536, x % 65536;
    assert x == 65536 * q + low && q <= 0x7F80 && (q == 0x7F80 ==> low == 0);
    FromParts(sign * 0x8000 + q, low);
    assert (sign * 0x8000 + q) % 2 == q % 2;
    hide FromF32;
    assert sign * 0x8000_0000 + x == 65536 * (sign * 0x8000 + q) + low;
  }

  // ---- values ----

  /** Spacing of the values with exponent field e, in units of the smallest. */
  function Ulp(e: nat): (u: real)
    ensures u > 0.0
  {
    if e <= 1 then 1.0 else 2.0 * Ulp(e - 1)
  }

  /** The value of mantissa field m in binade e. */
  function Binade(e: nat, m: nat): real {
    Times((if e == 0 then m else 0x80_0000 + m) as real, Ulp(e))
  }

  /** The magnitude a pattern stands for; infinity counts as the next value after the largest. */
  function F32(x: nat): real {
    Binade(x / 0x80_0000, x % 0x80_0000)
  }

  lemma InBinade(e: nat, m: nat)
    requires m < 0x80_0000
    ensures F32(e * 0x80_0000 + m) == Binade(e, m)
  {
    hide Binade;
    ModIs(e * 0x80_0000 + m, e, m, 0x80_0000);
  }

  /** Patterns between two neighbouring bf16 values are evenly spaced. */
  lemma EvenlySpaced(h: nat, j: nat)
    requires j <= 65536
    ensures F32(65536 * h + j) == F32(65536 * h) + Times(j as real, Ulp(h / 128))
  {
    hide F32, Ulp, Times, Binade;
    var e, m := h / 128, h % 128 * 65536;
    assert 65536 * h == e * 0x80_0000 + m;
    InBinade(e, m);
    BinadeStep(e, m, j);
    if m + j < 0x80_0000 {
      InBinade(e, m + j);
    } else {
      InBinade(e + 1, 0);
      NextBinade(e);
      assert m + j == 0x80_0000;
      assert 65536 * h + j == (e + 1) * 0x80_0000;
    }
  }

  lemma TimesAdds(a: real, b: real, u: real)
    ensures Times(a + b, u) == Times(a, u) + Times(b, u)
  {
  }

  lemma BinadeStep(e: nat, m: nat, j: nat)
    ensures Binade(e, m + j) == Binade(e, m) + Times(j as real, Ulp(e))
  {
    hide Ulp, Times;
    TimesAdds((if e == 0 then m else 0x80_0000 + m) as real, j as real, Ulp(e));
    assert (m + j) as real == m as real + j as real;
  }

  /** A binade ends where the next begins. */
  lemma NextBinade(e: nat)
    ensures Binade(e + 1, 0) == Binade(e, 0x80_0000)
  {
  }

  lemma TimesOrder(a: real, b: real, u: real)
    requires a <= b && u > 0.0
    ensures Times(a, u) <= Times(b, u)
  {
    ProductNonNegative(b - a, u);
    assert (b - a) * u == b * u - a * u;
  }

  /** Values grow with bf16 patterns. */
  lemma {:induction false} Grows(g: nat, h: nat)
    requires g <= h
    ensures F32(65536 * g) <= F32(65536 * h)
  {
    hide F32, Ulp;
    if g < h {
      Grows(g, h - 1);
      EvenlySpaced(h - 1, 65536);
      TimesOrder(0.0, 65536.0, Ulp((h - 1) / 128));
      assert Times(0.0, Ulp((h - 1) / 128)) == 0.0;
    }
  }

  /** Rounding down by at most half a step. */
  lemma BelowHalf(r: nat, j: nat, h: nat)
    requires j <= 32768
    ensures var v := F32(65536 * r + j);
      Abs(v - F32(65536 * r)) <= Abs(v - F32(65536 * h))
  {
    var u := Ulp(r / 128);
    EvenlySpaced(r, j);
    EvenlySpaced(r, 65536);
    TimesOrder(0.0, j as real, u);
    TimesOrder(j as real, (65536 - j) as real, u);
    TimesAdds(j as real, (65536 - j) as real, u);
    assert Times(0.0, u) == 0.0;
    hide F32, Ulp, Times;
    if h <= r {
      Grows(h, r);
    } else {
      Grows(r + 1, h);
    }
  }

  /** Rounding up by at most half a step. */
  lemma AboveHalf(r: nat, j: nat, h: nat)
    requires r > 0 && j <= 32768
    ensures var v := F32(65536 * r - j);
      Abs(v - F32(65536 * r)) <= Abs(v - F32(65536 * h))
  {
    var u := Ulp((r - 1) / 128);
    EvenlySpaced(r - 1, 65536 - j);
    EvenlySpaced(r - 1, 65536);
    TimesOrder(0.0, j as real, u);
    TimesOrder(j as real, (65536 - j) as real, u);
    TimesAdds(j as real, (65536 - j) as real, u);
    assert Times(0.0, u) == 0.0;
    assert 65536 * (r - 1) + (65536 - j) == 65536 * r - j && 65536 * (r - 1) + 65536 == 65536 * r;
    hide F32, Ulp, Times;
    if h >= r {
      Grows(r, h);
    } else {
      Grows(h, r - 1);
    }
  }

  /** No bf16 value is nearer to a finite number than the rounded one, and a tie goes to the even pattern. */
  lemma NearestValue(sign: nat, x: nat, h: nat)
    requires sign <= 1 && x <= INFINITY
    ensures var r := FromF32(sign * 0x8000_0000 + x) - sign * 0x8000;
      && 0 <= r && Abs(F32(x) - F32(65536 * r)) <= Abs(F32(x) - F32(65536 * h))
      && (x - 65536 * r == 32768 || x - 65536 * r == -32768 ==> r % 2 == 0)
  {
    NearestPattern(sign, x);
    var r := FromF32(sign * 0x8000_0000 + x) - sign * 0x8000;
    hide FromF32, F32;
    if x >= 65536 * r {
      BelowHalf(r, x - 65536 * r, h);
    } else {
      AboveHalf(r, 65536 * r - x, h);
    }
  }
}
