/** What the ternary quantiser's elementary choices mean for the weights: which trit is chosen, what the scales are,
    how many outliers are taken, where a page's element comes from. */
module QuantMeaning {
  import opened Indexing
  import opened QuantLane
  import opened QuantPage
  import opened Reals
  import opened Sums

  // ---- one weight ----

  /** Rounded is the nearest integer, and of two equally near ones the one further from zero. */
  lemma RoundedNearest(x: real)
    ensures Abs(x - Rounded(x) as real) <= 0.5
    ensures Abs(x - Rounded(x) as real) == 0.5 ==> Abs(Rounded(x) as real) > Abs(x)
  {
  }

  lemma QuotientAgainst(we: real, gamma: real, c: real)
    requires gamma > 0.0
    ensures we / gamma >= c <==> we >= c * gamma
    ensures we / gamma <= -c <==> we <= -(c * gamma)
  {
    var q := we / gamma;
    assert q * gamma == we;
    assert (q - c) * gamma == we - c * gamma && (q + c) * gamma == we + c * gamma;
    hide *;
    SignOfProduct(q - c, gamma);
    SignOfProduct(q + c, gamma);
  }

  lemma SignOfProduct(a: real, b: real)
    requires b > 0.0
    ensures a * b >= 0.0 <==> a >= 0.0
    ensures a * b <= 0.0 <==> a <= 0.0
  {
    if a > 0.0 {
      ProductPositive(a, b);
    } else if a < 0.0 {
      ProductPositive(-a, b);
      assert (-a) * b == -(a * b);
    }
  }

  /** The nearest mode keeps a weight exactly from half a scale on, with its sign. */
  lemma NearestTrit(cfg: Config, gamma: real, we: real, s: nat)
    requires gamma > 0.0 && cfg.round.NearestAbsmax?
    ensures TritOf(cfg, gamma, we, s) == 1 <==> we >= 0.5 * gamma
    ensures TritOf(cfg, gamma, we, s) == -1 <==> we <= -(0.5 * gamma)
  {
    QuotientAgainst(we, gamma, 0.5);
    hide Times, Uniform, Step;
    var x := we / gamma;
    assert Nearest(x) == 1 <==> x >= 0.5;
    assert Nearest(x) == -1 <==> x <= -0.5;
  }

  /** No other trit is nearer to the weight, and of two equally near ones the non-zero one is taken; up to the scale
      the error is at most half of it, beyond it is what the weight exceeds it by. */
  lemma NearestTritBest(cfg: Config, gamma: real, we: real, s: nat, t: int)
    requires gamma > 0.0 && cfg.round.NearestAbsmax? && IsTrit(t)
    ensures var n := TritOf(cfg, gamma, we, s);
      && Abs(we - Value(n, gamma)) <= Abs(we - Value(t, gamma))
      && (t != n && Abs(we - Value(n, gamma)) == Abs(we - Value(t, gamma)) ==> t == 0)
      && Abs(we - Value(n, gamma)) <= Max(0.5 * gamma, Abs(we) - gamma)
  {
    NearestTrit(cfg, gamma, we, s);
    TritValues(gamma);
    hide Value, TritOf;
  }

  /** The deadzone mode drops a weight exactly up to the threshold, and keeps the sign of the others. */
  lemma DeadzoneTrit(cfg: Config, gamma: real, we: real, s: nat)
    requires gamma > 0.0 && cfg.round.DeadzoneAbsmean?
    ensures var t := TritOf(cfg, gamma, we, s);
      && (t == 0 <==> -(cfg.tau * gamma) <= we <= cfg.tau * gamma)
      && (cfg.tau >= 0.0 ==> (t == 1 ==> we > 0.0) && (t == -1 ==> we < 0.0))
  {
    ProductSign(cfg.tau, gamma);
    assert Times(cfg.tau, gamma) == cfg.tau * gamma;
    hide Times, Step, Uniform;
  }

  lemma ProductSign(a: real, b: real)
    requires b > 0.0
    ensures a >= 0.0 ==> a * b >= 0.0
  {
  }

  /** The stochastic mode keeps a weight exactly when the draw, scaled, falls below its magnitude: always from one
      scale on, never at zero, with probability |we| / gamma between; the sign is the weight's. */
  lemma ChanceTrit(cfg: Config, gamma: real, we: real, s: nat)
    requires gamma > 0.0 && cfg.round.Stochastic?
    ensures var t, u := TritOf(cfg, gamma, we, s), Uniform(Step(s));
      && 0.0 <= u < 1.0
      && (t != 0 <==> u * gamma < Abs(we))
      && (t == 1 ==> we > 0.0) && (t == -1 ==> we < 0.0)
  {
    UniformRange(s);
    var u := Uniform(Step(s));
    hide Uniform, Step, Times;
    QuotientAgainst(Abs(we), gamma, u);
    QuotientAgainst(Abs(we), gamma, 1.0);
    QuotientAgainst(Abs(we), gamma, 0.0);
    DrawBelow(Abs(we), gamma, u);
  }

  lemma DrawBelow(a: real, gamma: real, u: real)
    requires gamma > 0.0 && 0.0 <= u < 1.0 && a >= 0.0
    ensures u < Clamp(a / gamma, 0.0, 1.0) <==> u * gamma < a
  {
    var q := a / gamma;
    assert q * gamma == a;
    SignOfProduct(q - u, gamma);
    assert (q - u) * gamma == a - u * gamma;
    SignOfProduct(q, gamma);
  }

  // ---- random numbers ----

  /** The inverse of the multiplier modulo 2^64. */
  const INVERSE: nat := 13877824140714322085

  /** The generator's step can be undone, so distinct states never meet. */
  lemma StepUndone(s: nat)
    requires s < 0x1_0000_0000_0000_0000
    ensures (Step(s) - 1442695040888963407) * INVERSE % 0x1_0000_0000_0000_0000 == s
  {
    var k := (s * 6364136223846793005 + 1442695040888963407) / 0x1_0000_0000_0000_0000;
    var d := Step(s) - 1442695040888963407;
    assert d == s * 6364136223846793005 - k * 0x1_0000_0000_0000_0000;
    hide Step;
    var turns := 4787856489426250814 * s - k * 13877824140714322085;
    assert d * INVERSE == turns * 0x1_0000_0000_0000_0000 + s;
    ModIs(d * INVERSE, turns, s, 0x1_0000_0000_0000_0000);
  }

  /** A draw is the state's fraction of 2^64, cut off after 24 bits. */
  lemma UniformTruncates(s: nat)
    ensures Uniform(s) <= s as real / 18446744073709551616.0 < Uniform(s) + 1.0 / 16777216.0
  {
    var q := s / 0x100_0000_0000;
    assert q as real * 1099511627776.0 <= s as real < q as real * 1099511627776.0 + 1099511627776.0;
  }

  // ---- scales and counts ----

  /** The positions among the first n that are not outliers. */
  function Kept(ex: seq<bool>, n: nat): set<int>
    requires n <= |ex|
  {
    set i | 0 <= i < n && !ex[i]
  }

  lemma {:induction false} LiveIsCount(ex: seq<bool>, n: nat)
    requires n <= |ex|
    ensures Live(ex, n) == |Kept(ex, n)|
  {
    if n > 0 {
      LiveIsCount(ex, n - 1);
      if ex[n - 1] {
        assert Kept(ex, n) == Kept(ex, n - 1);
      } else {
        assert Kept(ex, n) == Kept(ex, n - 1) + {n - 1};
      }
    } else {
      assert Kept(ex, 0) == {};
    }
  }

  ghost function KeptMagnitude(w: seq<real>, ex: seq<bool>): int -> real
    requires |w| == |ex|
  {
    i => if 0 <= i < |w| && !ex[i] then Abs(w[i]) else 0.0
  }

  lemma {:induction false} MassIsSum(w: seq<real>, ex: seq<bool>, n: nat)
    requires n <= |w| == |ex|
    ensures Mass(w, ex, n) == Sum(n, KeptMagnitude(w, ex))
  {
    if n > 0 {
      MassIsSum(w, ex, n - 1);
    }
  }

  /** The absmean times the number of kept weights is the sum of their magnitudes, unless the floor is above that. */
  lemma AbsmeanIsMean(w: seq<real>, ex: seq<bool>)
    requires |w| == |ex|
    ensures var g, count, sum := Absmean(w, ex), |Kept(ex, |ex|)| as real, Sum(|w|, KeptMagnitude(w, ex));
      g >= 1e-12 && (g == 1e-12 || (g * count == sum && count > 0.0)) && g * count >= sum
  {
    LiveIsCount(ex, |ex|);
    MassIsSum(w, ex, |w|);
    var c := Live(ex, |ex|);
    if c > 0 {
      FlooredMean(Mass(w, ex, |w|), c as real);
    } else {
      NoMass(w, ex, |w|);
    }
    hide KeptMagnitude, Kept, Live, Mass, Sum;
  }

  lemma FlooredMean(sum: real, count: real)
    requires count > 0.0
    ensures var g := Max(sum / count, 1e-12);
      g >= 1e-12 && (g == 1e-12 || g * count == sum) && g * count >= sum
  {
    var q := sum / count;
    assert q * count == sum;
    if q < 1e-12 {
      ProductNonNegative(1e-12 - q, count);
      assert (1e-12 - q) * count == 1e-12 * count - q * count;
    }
  }

  /** The absmax bounds every kept magnitude and is one of them, or 0 if none is kept. */
  lemma {:induction false} AbsmaxIsLargest(w: seq<real>, ex: seq<bool>, n: nat)
    requires n <= |w| == |ex|
    ensures var m := Absmax(w, ex, n);
      && m >= 0.0
      && (forall i :: 0 <= i < n && !ex[i] ==> Abs(w[i]) <= m)
      && (m > 0.0 ==> exists i :: 0 <= i < n && !ex[i] && Abs(w[i]) == m)
  {
    if n > 0 {
      AbsmaxIsLargest(w, ex, n - 1);
    }
  }

  /** The largest of the stored scales bounds them all and is one of them, or 0 without a positive one. */
  lemma {:induction false} LargestScaleIsLargest(cfg: Config, page: Page, rng: nat, bf16: real -> real, n: nat)
    requires page.Valid() && n <= page.Lanes()
    ensures var m := LargestScale(cfg, page, rng, bf16, n);
      && m >= 0.0
      && (forall l :: 0 <= l < n ==> Stored(cfg, page, rng, bf16, l) <= m)
      && (m > 0.0 ==> exists l :: 0 <= l < n && Stored(cfg, page, rng, bf16, l) == m)
  {
    hide Stored;
    if n > 0 {
      LargestScaleIsLargest(cfg, page, rng, bf16, n - 1);
    }
  }

  /** As many outliers as the fraction asks for, to the nearest whole number, but no more than there are weights. */
  lemma OutlierCountIsNearest(frac: real, n: nat)
    ensures frac <= 0.0 ==> OutlierCount(frac, n) == 0
    ensures 0.0 <= frac <= 1.0 ==> -0.5 <= frac * n as real - OutlierCount(frac, n) as real <= 0.5
    ensures frac >= 1.0 ==> OutlierCount(frac, n) == n
  {
    var x := Times(frac, n as real);
    FractionOf(frac, n as real);
    hide Times;
    RoundedWithin(x);
  }

  lemma FractionOf(frac: real, n: real)
    requires n >= 0.0
    ensures Times(frac, n) == frac * n
    ensures 0.0 <= frac <= 1.0 ==> 0.0 <= frac * n <= n
    ensures frac >= 1.0 ==> frac * n >= n
    ensures frac == 0.0 ==> frac * n == 0.0
  {
    if 0.0 <= frac <= 1.0 {
      ProductNonNegative(frac, n);
      ProductNonNegative(1.0 - frac, n);
      assert (1.0 - frac) * n == n - frac * n;
    }
    if frac >= 1.0 {
      ProductNonNegative(frac - 1.0, n);
      assert (frac - 1.0) * n == frac * n - n;
    }
  }

  // ---- the refit ----

  function NonZero(t: seq<int>, n: nat): set<int>
    requires n <= |t|
  {
    set i | 0 <= i < n && t[i] != 0
  }

  lemma {:induction false} DenIsCount(t: seq<int>, n: nat)
    requires n <= |t|
    ensures Den(t, n) == |NonZero(t, n)| as real
  {
    if n > 0 {
      DenIsCount(t, n - 1);
      if t[n - 1] == 0 {
        assert NonZero(t, n) == NonZero(t, n - 1);
      } else {
        assert NonZero(t, n) == NonZero(t, n - 1) + {n - 1};
      }
    } else {
      assert NonZero(t, 0) == {};
    }
  }

  ghost function Correlation(w: seq<real>, t: seq<int>): int -> real
    requires |w| == |t|
  {
    i => if 0 <= i < |w| then Times(w[i], t[i] as real) else 0.0
  }

  lemma {:induction false} NumIsSum(w: seq<real>, t: seq<int>, n: nat)
    requires n <= |w| == |t|
    ensures Num(w, t, n) == Sum(n, Correlation(w, t))
  {
    if n > 0 {
      NumIsSum(w, t, n - 1);
      NoTrit(w[n - 1]);
      hide Times;
    }
  }

  lemma NoTrit(x: real)
    ensures Times(x, 0 as real) == 0.0
  {
  }

  /** The refit scale times the number of non-zero trits is the magnitude of the sum of weight times trit, unless the
      floor is above that; without a non-zero trit the scale stays. */
  lemma RefitIsQuotient(w: seq<real>, t: seq<int>, gamma: real)
    requires |w| == |t| && gamma > 0.0
    ensures var s, count, sum := Refit(w, t, gamma), |NonZero(t, |t|)| as real, Sum(|t|, Correlation(w, t));
      if count == 0.0 then s == gamma
      else s >= 1e-12 && (s == 1e-12 || s * count == Abs(sum)) && s * count >= Abs(sum)
  {
    DenIsCount(t, |t|);
    NumIsSum(w, t, |t|);
    var num, den := Num(w, t, |t|), Den(t, |t|);
    hide Num, Den, NonZero, Correlation, Sum;
    if den > 0.0 {
      AbsQuotient(num, den);
      FlooredMean(Abs(num), den);
    }
  }

  lemma AbsQuotient(num: real, den: real)
    requires den > 0.0
    ensures Abs(num / den) == Abs(num) / den
  {
    QuotientAgainst(num, den, 0.0);
    assert -(num / den) == -num / den;
  }

  // ---- one element of a page ----

  /** The weights of element i's lane, and which of them are outliers: twenty from a multiple of twenty on, the last
      lane what is left. */
  function LaneSlice<T>(s: seq<T>, i: nat): seq<T>
    requires i < |s|
  {
    s[i - i % 20..if i - i % 20 + 20 <= |s| then i - i % 20 + 20 else |s|]
  }

  lemma SliceIsLane(page: Page, i: nat)
    requires page.Valid() && i < |page.w|
    ensures i / 20 < page.Lanes()
    ensures page.Weights(i / 20) == LaneSlice(page.w, i) && page.Mask(i / 20) == LaneSlice(page.ex, i)
  {
    InLane(page, i);
    assert 20 * (i / 20) == i - i % 20;
  }

  /** The scale element i is rounded with. */
  lemma GammaOf(cfg: Config, page: Page, i: nat)
    requires page.Valid() && i < |page.w|
    ensures i / 20 < page.Lanes()
    ensures LaneOf(cfg, page, i / 20).gamma ==
      if !cfg.scale.GlobalBf16? then Absmean(LaneSlice(page.w, i), LaneSlice(page.ex, i))
      else if cfg.round.NearestAbsmax? then Max(Absmax(page.w, page.ex, |page.w|), 1e-12)
      else Absmean(page.w, page.ex)
  {
    SliceIsLane(page, i);
    hide Absmean, Absmax, LaneSlice;
  }

  lemma {:induction false} TritInWalk(cfg: Config, lane: Lane, rng: nat, i: nat, n: nat)
    requires lane.Valid() && i < n <= |lane.w|
    ensures After(cfg, lane, rng, n).trits[i] == After(cfg, lane, rng, i + 1).trits[i]
  {
    hide TritOf, Value, Drawn, Carried;
    if i + 1 < n {
      TritInWalk(cfg, lane, rng, i, n - 1);
    }
  }

  /** Without error diffusion an element's trit is that of its own weight under its lane's scale, and an outlier's
      is 0 in any case. */
  lemma TritOfWeight(cfg: Config, page: Page, rng: nat, i: nat) returns (s: nat)
    requires page.Valid() && i < |page.w|
    ensures i / 20 < page.Lanes()
    ensures page.ex[i] ==> TritAt(cfg, page, rng, i) == 0
    ensures !page.ex[i] && !cfg.diffuse ==>
      TritAt(cfg, page, rng, i) == TritOf(cfg, LaneOf(cfg, page, i / 20).gamma, page.w[i], s)
  {
    InLane(page, i);
    var l, k := i / 20, i % 20;
    var lane, start := LaneOf(cfg, page, l), StateAt(cfg, page, rng, l);
    hide LaneOf, StateAt;
    assert lane.w[k] == page.w[i] && lane.ex[k] == page.ex[i];
    TritInWalk(cfg, lane, start, k, |lane.w|);
    hide TritOf, Value, Drawn;
    s := After(cfg, lane, start, k).rng;
  }

  /** The scale element i is decoded with, from its own lane's weights and trits: the refit if asked for, then bf16
      storage or the two-level code. */
  lemma ScaleOfElement(cfg: Config, page: Page, rng: nat, bf16: real -> real, i: nat)
    requires page.Valid() && KeepsPositive(bf16) && i < |page.w|
    ensures i / 20 < page.Lanes() && PageMax(cfg, page, rng, bf16) > 0.0
    ensures var g := LaneOf(cfg, page, i / 20).gamma;
      var used := if cfg.optimize then Refit(LaneSlice(page.w, i), LaneSlice(PageTrits(cfg, page, rng), i), g) else g;
      FinalScale(cfg, page, rng, bf16)(i / 20)
        == if cfg.scale.LaneTwoLevelInt8? then Decoded(used, PageMax(cfg, page, rng, bf16)) else bf16(used)
  {
    PageMaxPositive(cfg, page, rng, bf16);
    SliceIsLane(page, i);
    TritSlice(cfg, page, rng, i);
    hide RoundedLane, PageTrits, PageMax, Refit, Decoded, Page.Weights, Page.Mask, Page.Lanes, LaneSlice, GlobalScale,
      Absmean;
  }

  lemma TritSlice(cfg: Config, page: Page, rng: nat, i: nat)
    requires page.Valid() && i < |page.w|
    ensures i / 20 < page.Lanes()
    ensures RoundedLane(cfg, page, rng, i / 20).trits == LaneSlice(PageTrits(cfg, page, rng), i)
  {
    SliceIsLane(page, i);
    LaneTrits(cfg, page, rng, i / 20);
    hide RoundedLane, PageTrits;
    assert 20 * (i / 20) == i - i % 20;
  }

  /** Without error diffusion, refit and two-level code an element is the trit of its own weight times its lane's
      scale as stored; an outlier is its own bf16 value. */
  lemma ReconOfWeight(cfg: Config, page: Page, rng: nat, bf16: real -> real, recon: seq<real>, i: nat)
    returns (s: nat)
    requires page.Valid() && KeepsPositive(bf16) && Reconstructed(cfg, page, rng, bf16, recon) && i < |page.w|
    requires !cfg.diffuse && !cfg.optimize && !cfg.scale.LaneTwoLevelInt8?
    ensures i / 20 < page.Lanes() && |recon| == |page.w|
    ensures var g := LaneOf(cfg, page, i / 20).gamma;
      recon[i] == if page.ex[i] then bf16(page.w[i]) else Value(TritOf(cfg, g, page.w[i], s), bf16(g))
  {
    ElementOf(cfg, page, rng, bf16, recon, i);
    s := TritOfWeight(cfg, page, rng, i);
    ScaleOfElement(cfg, page, rng, bf16, i);
    assert PageTrits(cfg, page, rng)[i] == TritAt(cfg, page, rng, i);
    hide PageTrits, FinalScale, TritAt, LaneOf, Value, TritOf, PageMax, Refit, LaneSlice;
  }

  /** The baseline: absmax scale for the whole page, nearest trits, no error diffusion, no refit. Every kept weight
      comes back within half a scale and what storing the scale costs. */
  lemma BaselineError(cfg: Config, page: Page, rng: nat, bf16: real -> real, recon: seq<real>, i: nat)
    requires page.Valid() && KeepsPositive(bf16) && Reconstructed(cfg, page, rng, bf16, recon) && i < |page.w|
    requires cfg.round.NearestAbsmax? && cfg.scale.GlobalBf16? && !cfg.diffuse && !cfg.optimize
    ensures |recon| == |page.w| && (page.ex[i] ==> recon[i] == bf16(page.w[i]))
    ensures var g := Max(Absmax(page.w, page.ex, |page.w|), 1e-12);
      !page.ex[i] ==> Abs(page.w[i] - recon[i]) <= 0.5 * g + Abs(bf16(g) - g)
  {
    var s := ReconOfWeight(cfg, page, rng, bf16, recon, i);
    GammaOf(cfg, page, i);
    AbsmaxIsLargest(page.w, page.ex, |page.w|);
    var g := LaneOf(cfg, page, i / 20).gamma;
    hide LaneOf, Value, TritOf, Reconstructed;
    if !page.ex[i] {
      NearestTritBest(cfg, g, page.w[i], s, 0);
      OtherScale(TritOf(cfg, g, page.w[i], s), g, bf16(g));
    }
  }

  /** Storing another scale moves a trit's value by no more than the scale moves. */
  lemma OtherScale(t: int, g: real, g': real)
    requires IsTrit(t)
    ensures Abs(Value(t, g') - Value(t, g)) <= Abs(g' - g)
  {
    TritValues(g);
    TritValues(g');
    hide Value;
  }

  /** No kept weight is larger than an outlier, and of two equally large ones the earlier is taken first. */
  lemma OutliersAreLargest(w: seq<real>, k: nat, ex: seq<bool>)
    requires TopK(w, k, ex)
    ensures k <= |w| ==> |Kept(ex, |ex|)| == |w| - k
    ensures forall i, j :: 0 <= i < |w| && 0 <= j < |w| && ex[i] && !ex[j] ==>
      Abs(w[i]) > Abs(w[j]) || (Abs(w[i]) == Abs(w[j]) && i < j)
    ensures forall i :: 0 <= i < |w| && ex[i] ==> Abs(w[i]) >= Absmax(w, ex, |w|)
  {
    LiveIsCount(ex, |ex|);
    AbsmaxIsLargest(w, ex, |w|);
    hide Live, Kept, Abs, Absmax;
    forall i, j | 0 <= i < |w| && 0 <= j < |w| && ex[i] && !ex[j]
      ensures Abs(w[i]) > Abs(w[j]) || (Abs(w[i]) == Abs(w[j]) && i < j)
    {
      assert Beats(w, i, j);
    }
  }
}
