/** Nearest-code quantisation with a 16-entry codebook, over exact reals. */
module Codebook {
  import opened Reals

  /** Standard NF4: quantiles normalised to [-1, 1]. */
  const NF4: seq<real> := [
    -1.0, -0.6961928, -0.5250731, -0.3949175, -0.2844414, -0.1847734, -0.09105, 0.0, 0.0795803,
    0.1609302, 0.2461123, 0.3379152, 0.4407099, 0.562617, 0.7229568, 1.0]

  /** The other repository codebook, with a tail above 1. */
  const REPO: seq<real> := [
    -1.0, -0.8480, -0.5698, -0.3940, -0.2419, -0.1057, 0.0, 0.1057, 0.2419, 0.3940, 0.5698, 0.8480,
    1.0, 1.2588, 1.5862, 2.0]

  const TINY: real := 1e-12

  /** The first entry with the least distance among the first n. */
  ghost predicate IsNearest(cb: seq<real>, v: real, n: nat, b: nat) {
    && b < n <= |cb|
    && (forall j :: 0 <= j < n ==> Abs(v - cb[b]) <= Abs(v - cb[j]))
    && (forall j :: 0 <= j < b ==> Abs(v - cb[b]) < Abs(v - cb[j]))
  }

  /** The scan keeps the first minimum. */
  method Nearest(cb: seq<real>, v: real) returns (b: nat)
    requires |cb| == 16
    ensures IsNearest(cb, v, 16, b)
  {
    b := 0;
    var bd := Abs(v - cb[0]);
    for i := 1 to 16
      invariant IsNearest(cb, v, i, b) && bd == Abs(v - cb[b])
    {
      var d := Abs(v - cb[i]);
      if d < bd {
        bd, b := d, i;
      }
    }
  }

  /** Half of the widest gap of the NF4 codebook, and of the repository codebook up to code 12 and in all. */
  const HALF_GAP: real := 0.1519036
  const REPO_HALF_GAP: real := 0.1391
  const REPO_HALF_GAP_TAIL: real := 0.2069

  /** The first k gaps are at most 2 * half wide. */
  ghost predicate Gaps(cb: seq<real>, k: nat, half: real) {
    k < |cb| && forall i {:trigger cb[i]} :: 0 <= i < k ==> 0.0 <= cb[i + 1] - cb[i] <= 2.0 * half
  }

  lemma NF4Gaps()
    ensures Gaps(NF4, 15, HALF_GAP)
  {
  }

  lemma RepoGaps()
    ensures Gaps(REPO, 12, REPO_HALF_GAP)
  {
  }

  lemma RepoTailGaps()
    ensures Gaps(REPO, 15, REPO_HALF_GAP_TAIL)
  {
  }

  /** Two neighbours of v, one of them within half a gap. */
  lemma CloseNeighbour(cb: seq<real>, k: nat, half: real, v: real) returns (j: nat)
    requires k > 0 && Gaps(cb, k, half) && cb[0] <= v <= cb[k]
    ensures j <= k && Abs(v - cb[j]) <= half
  {
    var i := 0;
    while i < k - 1 && v > cb[i + 1]
      invariant 0 <= i <= k - 1 && cb[i] <= v
    {
      i := i + 1;
    }
    assert cb[i] <= v <= cb[i + 1];
    j := if v - cb[i] <= cb[i + 1] - v then i else i + 1;
  }

  /** The nearest code is within half a gap of every value the gaps span. */
  lemma NearestError(cb: seq<real>, k: nat, half: real, v: real, b: nat)
    requires 0 < k < 16 && Gaps(cb, k, half) && cb[0] <= v <= cb[k] && IsNearest(cb, v, 16, b)
    ensures Abs(v - cb[b]) <= half
  {
    var j := CloseNeighbour(cb, k, half, v);
    assert Abs(v - cb[b]) <= Abs(v - cb[j]);
  }

  lemma NF4Ends(v: real)
    requires -1.0 <= v <= 1.0
    ensures NF4[0] <= v <= NF4[15]
  {
  }

  lemma RepoEnds(v: real)
    requires -1.0 <= v <= 2.0
    ensures REPO[0] <= v <= REPO[15] && (v <= 1.0 ==> v <= REPO[12])
  {
  }

  /** Every normalised weight is coded within 0.1519036. */
  lemma NF4Error(v: real, b: nat)
    requires -1.0 <= v <= 1.0 && IsNearest(NF4, v, 16, b)
    ensures Abs(v - NF4[b]) <= HALF_GAP
  {
    assert b < 16;
    NF4Ends(v);
    hide *;
    NF4Gaps();
    NearestError(NF4, 15, HALF_GAP, v, b);
  }

  lemma NF4Zero(b: nat)
    requires IsNearest(NF4, 0.0, 16, b)
    ensures b == 7 && NF4[b] == 0.0
  {
    assert Abs(0.0 - NF4[7]) == 0.0;
    assert Abs(0.0 - NF4[b]) == 0.0;
    assert b <= 7;
  }

  /** On [-1, 1] the codes 13, 14 and 15 of the repository codebook are never the nearest. */
  lemma RepoTailUnreachable(v: real, b: nat)
    requires -1.0 <= v <= 1.0 && IsNearest(REPO, v, 16, b)
    ensures b <= 12
  {
    assert Abs(v - REPO[b]) <= Abs(v - REPO[12]);
  }

  lemma RepoError(v: real, b: nat)
    requires -1.0 <= v <= 1.0 && IsNearest(REPO, v, 16, b)
    ensures b <= 12 && Abs(v - REPO[b]) <= REPO_HALF_GAP
  {
    assert b < 16;
    RepoEnds(v);
    hide *;
    RepoTailUnreachable(v, b);
    RepoGaps();
    NearestError(REPO, 12, REPO_HALF_GAP, v, b);
  }

  lemma RepoFirst(b: nat)
    requires IsNearest(REPO, -1.0, 16, b)
    ensures b == 0
  {
    assert Abs(-1.0 - REPO[b]) <= Abs(-1.0 - REPO[0]);
  }

  /** Code 15 is chosen exactly above the midpoint of the last gap. */
  lemma RepoLast(v: real, b: nat)
    requires -1.0 <= v <= 2.0 && IsNearest(REPO, v, 16, b)
    ensures b == 15 <==> v > 1.7931
  {
    assert Abs(v - REPO[b]) <= Abs(v - REPO[15]);
    assert Abs(v - REPO[b]) <= Abs(v - REPO[14]);
    if v > 1.7931 {
      assert b == 15 by {
        assert forall j :: 0 <= j < 15 ==> REPO[j] <= 1.5862;
      }
    }
  }

  // ---- quantize_group ----

  function Largest(vals: seq<real>): real {
    if vals == [] then 0.0
    else var m := Largest(vals[..|vals| - 1]); var a := Abs(vals[|vals| - 1]); if a > m then a else m
  }

  lemma {:induction false} LargestBounds(vals: seq<real>)
    ensures Largest(vals) >= 0.0
    ensures forall i :: 0 <= i < |vals| ==> Abs(vals[i]) <= Largest(vals)
    ensures vals != [] ==> exists i :: 0 <= i < |vals| && Abs(vals[i]) == Largest(vals)
  {
    if vals != [] {
      var front, last := vals[..|vals| - 1], vals[|vals| - 1];
      LargestBounds(front);
      assert forall i :: 0 <= i < |front| ==> front[i] == vals[i];
      assert vals[|vals| - 1] == last;
    }
  }

  /** The scale of a group: 1 when every magnitude is at most 1e-12, otherwise the one that bounds them all and
      occurs among them. */
  ghost predicate IsAbsmaxScale(vals: seq<real>, scale: real) {
    if forall i :: 0 <= i < |vals| ==> Abs(vals[i]) <= 1e-12 then scale == 1.0
    else
      && (forall i :: 0 <= i < |vals| ==> Abs(vals[i]) <= scale)
      && exists i :: 0 <= i < |vals| && Abs(vals[i]) == scale
  }

  lemma LargestGivesScale(vals: seq<real>)
    ensures IsAbsmaxScale(vals, Scale(Largest(vals)))
  {
    LargestBounds(vals);
    if vals != [] {
      hide Largest;
      var k :| 0 <= k < |vals| && Abs(vals[k]) == Largest(vals);
    }
  }

  function Scale(absmax: real): real {
    if absmax > TINY then absmax else 1.0
  }

  /** Scaling by the group's absolute maximum leaves nothing for the clamp to do. */
  lemma NormalisedInRange(vals: seq<real>, i: nat)
    requires i < |vals|
    ensures Scale(Largest(vals)) > 0.0
    ensures -1.0 <= vals[i] / Scale(Largest(vals)) <= 1.0
  {
    LargestBounds(vals);
    RatioInRange(vals[i], Scale(Largest(vals)));
  }

  lemma RatioInRange(v: real, s: real)
    requires s > 0.0 && Abs(v) <= s
    ensures -1.0 <= v / s <= 1.0
  {
    var q := v / s;
    assert v == q * s;
    assert (q - 1.0) * s == v - s && (-1.0 - q) * s == -s - v;
    if q > 1.0 {
      ProductPositive(q - 1.0, s);
    } else if q < -1.0 {
      ProductPositive(-1.0 - q, s);
    }
  }

  /** An error of a normalised value, in units of the weight. */
  lemma ScaledError(v: real, s: real, c: real, h: real)
    requires s > 0.0 && Abs(v / s - c) <= h
    ensures Abs(v - Times(c, s)) <= Times(h, s)
  {
    var q := v / s;
    assert v == q * s;
    ProductNonNegative(h - (q - c), s);
    ProductNonNegative(h + (q - c), s);
    assert (h - (q - c)) * s == h * s - (v - c * s);
    assert (h + (q - c)) * s == h * s + (v - c * s);
  }

  lemma NF4Coded(v: real, scale: real, b: nat)
    requires scale > 0.0 && -1.0 <= v / scale <= 1.0 && IsNearest(NF4, v / scale, 16, b)
    ensures Abs(v - Times(NF4[b], scale)) <= Times(HALF_GAP, scale)
  {
    assert b < 16;
    hide *;
    NF4Error(v / scale, b);
    ScaledError(v, scale, NF4[b], HALF_GAP);
  }

  /** Below its tail the repository codebook is finer: no code above 12, and a smaller error. */
  lemma RepoCoded(v: real, scale: real, b: nat)
    requires scale > 0.0 && -1.0 <= v / scale <= 1.0 && IsNearest(REPO, v / scale, 16, b)
    ensures b <= 12 && Abs(v - Times(REPO[b], scale)) <= Times(REPO_HALF_GAP, scale)
  {
    assert b < 16;
    hide *;
    RepoError(v / scale, b);
    ScaledError(v, scale, REPO[b], REPO_HALF_GAP);
  }

  /** What absmax quantisation promises about one weight and its code: the nearest code, how far its value is off,
      and for the repository codebook that the tail is never used. */
  ghost predicate Coded(cb: seq<real>, v: real, scale: real, b: nat)
    requires |cb| == 16 && scale > 0.0
  {
    && IsNearest(cb, v / scale, 16, b)
    && (cb == NF4 ==> Abs(v - Times(NF4[b], scale)) <= Times(HALF_GAP, scale))
    && (cb == REPO ==> b <= 12 && Abs(v - Times(REPO[b], scale)) <= Times(REPO_HALF_GAP, scale))
  }

  method CodeWeight(v: real, scale: real, cb: seq<real>) returns (b: nat)
    requires |cb| == 16 && scale > 0.0 && -1.0 <= v / scale <= 1.0
    ensures Coded(cb, v, scale, b)
  {
    var u := Clamp(v / scale, -1.0, 1.0);
    assert u == v / scale;
    hide IsNearest, Abs, Times;
    b := Nearest(cb, u);
    CodesWell(cb, v, scale, b);
  }

  lemma CodesWell(cb: seq<real>, v: real, scale: real, b: nat)
    requires |cb| == 16 && scale > 0.0 && -1.0 <= v / scale <= 1.0 && IsNearest(cb, v / scale, 16, b)
    ensures Coded(cb, v, scale, b)
  {
    hide Abs, Times;
    if cb == NF4 {
      NF4Coded(v, scale, b);
    }
    if cb == REPO {
      RepoCoded(v, scale, b);
    }
  }

  /** Absmax quantisation of a group. */
  method QuantizeAbsmax(vals: seq<real>, cb: seq<real>) returns (idxs: seq<nat>, scale: real)
    requires |cb| == 16
    ensures |idxs| == |vals| && scale == Scale(Largest(vals)) > 0.0 && IsAbsmaxScale(vals, scale)
    ensures forall i :: 0 <= i < |vals| ==> Coded(cb, vals[i], scale, idxs[i])
  {
    var absmax := 0.0;
    for i := 0 to |vals|
      invariant absmax == Largest(vals[..i])
    {
      assert vals[..i + 1][..i] == vals[..i];
      var a := Abs(vals[i]);
      absmax := if a > absmax then a else absmax;
    }
    assert vals[..|vals|] == vals;
    scale := Scale(absmax);
    idxs := [];
    hide Coded, Scale, IsAbsmaxScale;
    LargestGivesScale(vals);
    ScalePositive(absmax);
    for i := 0 to |vals|
      invariant |idxs| == i && forall j :: 0 <= j < i ==> Coded(cb, vals[j], scale, idxs[j])
    {
      NormalisedInRange(vals, i);
      var b := CodeWeight(vals[i], scale, cb);
      idxs := idxs + [b];
    }
  }

  lemma ScalePositive(absmax: real)
    ensures Scale(absmax) > 0.0
  {
  }

  // ---- the affine form, with the repository codebook ----

  ghost predicate IsRange(vals: seq<real>, lo: real, hi: real) {
    && lo in vals && hi in vals
    && forall i :: 0 <= i < |vals| ==> lo <= vals[i] <= hi
  }

  function AffineScale(lo: real, hi: real): real {
    if (hi - lo) / 3.0 < TINY then TINY else (hi - lo) / 3.0
  }

  lemma AffineScaleWide(lo: real, hi: real)
    ensures AffineScale(lo, hi) > 0.0 && 3.0 * AffineScale(lo, hi) >= hi - lo
  {
  }

  /** Every weight is normalised into the codebook's range, the smallest to its least entry. */
  lemma AffineInRange(v: real, lo: real, hi: real)
    requires lo <= v <= hi
    ensures var scale := AffineScale(lo, hi);
      scale > 0.0 && -1.0 <= (v - (lo - -1.0 * scale)) / scale <= 2.0
    ensures var scale := AffineScale(lo, hi);
      v == lo ==> (v - (lo - -1.0 * scale)) / scale == -1.0
  {
    AffineScaleWide(lo, hi);
    var s := AffineScale(lo, hi);
    hide AffineScale;
    var d := v - (lo - -1.0 * s);
    QuotientBetween(d, s);
    if v == lo {
      QuotientOf(-1.0, s);
    }
  }

  lemma QuotientBetween(d: real, s: real)
    requires s > 0.0 && -s <= d <= 2.0 * s
    ensures -1.0 <= d / s <= 2.0
  {
    var q := d / s;
    assert q * s == d && (q - 2.0) * s == d - 2.0 * s && (-1.0 - q) * s == -s - d;
    if q > 2.0 {
      ProductPositive(q - 2.0, s);
    } else if q < -1.0 {
      ProductPositive(-1.0 - q, s);
    }
  }

  lemma QuotientOf(q: real, s: real)
    requires s > 0.0
    ensures q * s / s == q
  {
  }

  /** The largest weight reaches the last code's range exactly when the group is wide enough. */
  lemma AffineHigh(lo: real, hi: real)
    requires lo <= hi
    ensures var scale := AffineScale(lo, hi);
      var v := (hi - (lo - -1.0 * scale)) / scale;
      -1.0 <= v <= 2.0 && (v > 1.7931 <==> hi - lo > 2.7931e-12)
  {
    var scale := AffineScale(lo, hi);
    var v := (hi - (lo - -1.0 * scale)) / scale;
    assert v * scale == hi - lo - scale;
  }

  /** What affine quantisation promises about one weight: the nearest code, how far its value is off, code 0 for
      the smallest weight, and exactly when the largest gets code 15. */
  ghost predicate AffineCoded(v: real, lo: real, hi: real, scale: real, bias: real, b: nat)
    requires scale > 0.0
  {
    && IsNearest(REPO, (v - bias) / scale, 16, b)
    && Abs(v - (Times(REPO[b], scale) + bias)) <= Times(REPO_HALF_GAP_TAIL, scale)
    && (v == lo ==> b == 0)
    && (v == hi ==> (b == 15 <==> hi - lo > 2.7931e-12))
  }

  method RangeOf(vals: seq<real>) returns (low: real, high: real)
    requires vals != []
    ensures IsRange(vals, low, high)
  {
    low, high := vals[0], vals[0];
    for i := 1 to |vals|
      invariant IsRange(vals[..i], low, high)
    {
      assert vals[..i + 1] == vals[..i] + [vals[i]];
      low := if vals[i] < low then vals[i] else low;
      high := if vals[i] > high then vals[i] else high;
    }
    assert vals[..|vals|] == vals;
  }

  /** Affine quantisation of a group. */
  method QuantizeAffine(vals: seq<real>)
    returns (idxs: seq<nat>, scale: real, bias: real, ghost lo: real, ghost hi: real)
    requires vals != []
    ensures |idxs| == |vals| && IsRange(vals, lo, hi)
    ensures scale == AffineScale(lo, hi) > 0.0 && bias == lo + scale
    ensures forall i :: 0 <= i < |vals| ==> AffineCoded(vals[i], lo, hi, scale, bias, idxs[i])
  {
    var low, high := RangeOf(vals);
    assert forall i :: 0 <= i < |vals| ==> low <= vals[i] <= high;
    assert low <= high;
    hide IsRange, AffineCoded;
    lo, hi := low, high;
    var cmin, cmax := REPO[0], REPO[15];
    scale := (high - low) / (cmax - cmin);
    if scale < TINY {
      scale := TINY;
    }
    assert scale == AffineScale(low, high);
    bias := low - cmin * scale;
    idxs := [];
    hide AffineScale;
    for i := 0 to |vals|
      invariant |idxs| == i && forall j :: 0 <= j < i ==> AffineCoded(vals[j], lo, hi, scale, bias, idxs[j])
    {
      var b := AffineCode(vals[i], low, high, scale, bias);
      idxs := idxs + [b];
    }
  }

  method AffineCode(v: real, lo: real, hi: real, scale: real, bias: real) returns (b: nat)
    requires lo <= v <= hi && scale == AffineScale(lo, hi) > 0.0 && bias == lo - -1.0 * scale
    ensures AffineCoded(v, lo, hi, scale, bias, b)
  {
    AffineInRange(v, lo, hi);
    var u := (v - bias) / scale;
    assert Clamp(u, -1.0, 2.0) == u;
    hide IsNearest, Abs, Times, AffineScale, AffineCoded;
    b := Nearest(REPO, Clamp(u, REPO[0], REPO[15]));
    AffineCodesWell(v, lo, hi, scale, bias, b);
  }

  lemma AffineCodesWell(v: real, lo: real, hi: real, scale: real, bias: real, b: nat)
    requires lo <= v <= hi && scale == AffineScale(lo, hi) > 0.0 && bias == lo - -1.0 * scale
    requires IsNearest(REPO, (v - bias) / scale, 16, b)
    ensures AffineCoded(v, lo, hi, scale, bias, b)
  {
    AffineInRange(v, lo, hi);
    AffineHigh(lo, hi);
    var u := (v - bias) / scale;
    assert b < 16;
    hide IsNearest, AffineScale;
    AffineError(v, scale, bias, b);
    hide Abs, Times;
    if v == hi {
      RepoLast(u, b);
    }
    if v == lo {
      RepoFirst(b);
    }
  }

  lemma AffineError(v: real, scale: real, bias: real, b: nat)
    requires scale > 0.0 && -1.0 <= (v - bias) / scale <= 2.0 && IsNearest(REPO, (v - bias) / scale, 16, b)
    ensures b < 16 && Abs(v - (Times(REPO[b], scale) + bias)) <= Times(REPO_HALF_GAP_TAIL, scale)
  {
    assert b < 16;
    hide *;
    RepoTailError((v - bias) / scale, b);
    ShiftedError(v, scale, bias, REPO[b], REPO_HALF_GAP_TAIL);
  }

  lemma RepoTailError(v: real, b: nat)
    requires -1.0 <= v <= 2.0 && IsNearest(REPO, v, 16, b)
    ensures b < 16 && Abs(v - REPO[b]) <= REPO_HALF_GAP_TAIL
  {
    assert b < 16;
    RepoEnds(v);
    hide *;
    RepoTailGaps();
    NearestError(REPO, 15, REPO_HALF_GAP_TAIL, v, b);
  }

  lemma ShiftedError(v: real, s: real, bias: real, c: real, h: real)
    requires s > 0.0 && Abs((v - bias) / s - c) <= h
    ensures Abs(v - (Times(c, s) + bias)) <= Times(h, s)
  {
    ScaledError(v - bias, s, c, h);
    hide Times;
    assert v - (Times(c, s) + bias) == v - bias - Times(c, s);
  }
}
