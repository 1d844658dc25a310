/** One 20-weight lane of the ternary quantiser: rounding, error diffusion, the least-squares scale. */
module QuantLane {
  import opened Reals

  datatype ScaleKind = GlobalBf16 | LaneBf16 | LaneTwoLevelInt8
  datatype Rounding = NearestAbsmax | DeadzoneAbsmean | Stochastic

  datatype Config = Config(round: Rounding, scale: ScaleKind, tau: real,
                           diffuse: bool, optimize: bool, outlierFrac: real)

  const FLOOR: real := 1e-12

  // ---- random numbers ----

  /** The 64-bit linear congruential step. */
  function Step(s: nat): nat {
    (s * 6364136223846793005 + 1442695040888963407) % 0x1_0000_0000_0000_0000
  }

  /** The top 24 bits as a fraction. */
  function Uniform(s: nat): real {
    (s / 0x100_0000_0000) as real / 16777216.0
  }

  class Lcg {
    var state: nat

    constructor (seed: nat)
      ensures state == seed
    {
      state := seed;
    }

    method NextF32() returns (u: real)
      modifies this
      ensures state == Step(old(state)) && u == Uniform(state)
    {
      hide Step;
      state := Step(state);
      u := Uniform(state);
    }
  }

  lemma UniformRange(s: nat)
    ensures 0.0 <= Uniform(Step(s)) < 1.0
  {
    var x := Step(s);
    assert 0 <= x < 0x1_0000_0000_0000_0000;
    hide Step;
    assert x / 0x100_0000_0000 < 0x100_0000;
  }

  // ---- rounding one weight ----

  /** Nearest integer, halves away from zero. */
  function Rounded(x: real): int {
    if x >= 0.0 then (x + 0.5).Floor else -((0.5 - x).Floor)
  }

  function Sign(x: real): int {
    if x > 0.0 then 1 else -1
  }

  predicate IsTrit(t: int) {
    -1 <= t <= 1
  }

  function Nearest(x: real): (t: int)
    ensures IsTrit(t)
  {
    var k := Rounded(x);
    if k < -1 then -1 else if k > 1 then 1 else k
  }

  function Deadzone(we: real, threshold: real): (t: int)
    ensures IsTrit(t)
  {
    if Abs(we) > threshold then Sign(we) else 0
  }

  function Chance(we: real, gamma: real, u: real): (t: int)
    requires gamma > 0.0
    ensures IsTrit(t)
  {
    if u < Clamp(Abs(we) / gamma, 0.0, 1.0) then Sign(we) else 0
  }

  /** The trit of a weight; `s` is the state the stochastic mode draws from. */
  function TritOf(cfg: Config, gamma: real, we: real, s: nat): (t: int)
    requires gamma > 0.0
    ensures IsTrit(t)
  {
    match cfg.round
    case NearestAbsmax => Nearest(we / gamma)
    case DeadzoneAbsmean => Deadzone(we, Times(cfg.tau, gamma))
    case Stochastic => Chance(we, gamma, Uniform(Step(s)))
  }

  /** One draw per weight, whatever the weight. */
  function Drawn(cfg: Config, s: nat): nat {
    if cfg.round.Stochastic? then Step(s) else s
  }

  method RoundWeight(cfg: Config, gamma: real, we: real, rng: Lcg) returns (t: int)
    requires gamma > 0.0
    modifies rng
    ensures t == TritOf(cfg, gamma, we, old(rng.state)) && rng.state == Drawn(cfg, old(rng.state))
  {
    hide Step, Times, Uniform, Abs, Clamp;
    match cfg.round {
      case NearestAbsmax => {
        t := Nearest(we / gamma);
      }
      case DeadzoneAbsmean => {
        t := if Abs(we) > Times(cfg.tau, gamma) then if we > 0.0 then 1 else -1 else 0;
      }
      case Stochastic => {
        var p := Clamp(Abs(we) / gamma, 0.0, 1.0);
        var u := rng.NextF32();
        t := if u < p then if we > 0.0 then 1 else -1 else 0;
      }
    }
  }

  // ---- a lane ----

  /** Weights, the outlier mask, and the scale the lane is rounded with. */
  datatype Lane = Lane(w: seq<real>, ex: seq<bool>, gamma: real) {
    predicate Valid() {
      |w| == |ex| <= 20 && gamma > 0.0
    }
  }

  datatype Walk = Walk(trits: seq<int>, carry: real, rng: nat)

  /** trit times scale */
  function Value(t: int, scale: real): real {
    Times(t as real, scale)
  }

  /** The weight with the carried error added. */
  function Carried(cfg: Config, w: real, carry: real): real {
    w + if cfg.diffuse then carry else 0.0
  }

  /** The first n weights of a lane, rounded in order. */
  function After(cfg: Config, lane: Lane, rng: nat, n: nat): (s: Walk)
    requires lane.Valid() && n <= |lane.w|
    ensures |s.trits| == n
  {
    if n == 0 then Walk([], 0.0, rng)
    else
      var s := After(cfg, lane, rng, n - 1);
      if lane.ex[n - 1] then Walk(s.trits + [0], 0.0, s.rng)
      else
        var we := Carried(cfg, lane.w[n - 1], s.carry);
        var t := TritOf(cfg, lane.gamma, we, s.rng);
        Walk(s.trits + [t], if cfg.diffuse then we - Value(t, lane.gamma) else s.carry, Drawn(cfg, s.rng))
  }

  /** The rounding loop of a lane. */
  method RoundLane(cfg: Config, lane: Lane, rng: Lcg) returns (trit: array<int>, carry: real)
    requires lane.Valid()
    modifies rng
    ensures fresh(trit) && Walk(trit[..], carry, rng.state) == After(cfg, lane, old(rng.state), |lane.w|)
  {
    var n := |lane.w|;
    trit := new int[n](_ => 0);
    carry := 0.0;
    ghost var start := rng.state;
    for i := 0 to n
      invariant Walk(trit[..i], carry, rng.state) == After(cfg, lane, start, i)
      invariant forall j :: i <= j < n ==> trit[j] == 0
    {
      hide TritOf, Drawn, Value, Carried;
      ghost var was := trit[..i];
      if lane.ex[i] {
        carry := 0.0;
        assert trit[..i + 1] == was + [0];
        continue;
      }
      var we := Carried(cfg, lane.w[i], carry);
      var t := RoundWeight(cfg, lane.gamma, we, rng);
      trit[i] := t;
      if cfg.diffuse {
        carry := we - Value(t, lane.gamma);
      }
      assert trit[..i + 1] == was + [t];
    }
    assert trit[..n] == trit[..];
  }

  // ---- conservation ----

  function SumFrom(w: seq<real>, a: nat, b: nat): real
    requires a <= b <= |w|
  {
    if a == b then 0.0 else SumFrom(w, a, b - 1) + w[b - 1]
  }

  function TritsFrom(t: seq<int>, a: nat, b: nat): int
    requires a <= b <= |t|
  {
    if a == b then 0 else TritsFrom(t, a, b - 1) + t[b - 1]
  }

  predicate Untouched(ex: seq<bool>, a: nat, b: nat)
    requires a <= b <= |ex|
  {
    forall i :: a <= i < b ==> !ex[i]
  }

  lemma {:induction false} TritsFromPrefix(t: seq<int>, more: seq<int>, a: nat, b: nat)
    requires a <= b <= |t|
    ensures TritsFrom(t + more, a, b) == TritsFrom(t, a, b)
  {
    if a < b {
      TritsFromPrefix(t, more, a, b - 1);
    }
  }

  lemma ValueAdds(k: int, t: int, g: real)
    ensures Value(k + t, g) == Value(k, g) + Value(t, g)
    ensures Value(0, g) == 0.0
  {
  }

  /** Over any stretch without outliers, carry in plus weights equals scale times trits plus carry out. */
  lemma {:induction false} Conservation(cfg: Config, lane: Lane, rng: nat, a: nat, b: nat)
    requires lane.Valid() && cfg.diffuse && a <= b <= |lane.w| && Untouched(lane.ex, a, b)
    ensures var start, end := After(cfg, lane, rng, a), After(cfg, lane, rng, b);
      start.carry + SumFrom(lane.w, a, b) == Value(TritsFrom(end.trits, a, b), lane.gamma) + end.carry
  {
    hide TritOf, Drawn, Value;
    ValueAdds(0, 0, lane.gamma);
    if a < b {
      Conservation(cfg, lane, rng, a, b - 1);
      var s, end := After(cfg, lane, rng, b - 1), After(cfg, lane, rng, b);
      var t := end.trits[b - 1];
      TritsFromPrefix(s.trits, [t], a, b - 1);
      ValueAdds(TritsFrom(s.trits, a, b - 1), t, lane.gamma);
    }
  }

  /** The carry is zero at the lane's start and behind every outlier. */
  predicate CleanStart(ex: seq<bool>, a: nat)
    requires a <= |ex|
  {
    a == 0 || ex[a - 1]
  }

  /** From a clean start nothing is lost: what the trits do not carry is in the carry. */
  lemma MassConserved(cfg: Config, lane: Lane, rng: nat, a: nat, b: nat)
    requires lane.Valid() && cfg.diffuse && a <= b <= |lane.w| && Untouched(lane.ex, a, b) && CleanStart(lane.ex, a)
    ensures var end := After(cfg, lane, rng, b);
      SumFrom(lane.w, a, b) == Value(TritsFrom(end.trits, a, b), lane.gamma) + end.carry
  {
    Conservation(cfg, lane, rng, a, b);
    hide TritOf, Drawn, Value, SumFrom, TritsFrom;
  }

  // ---- the carry's bound ----

  /** What the weights of a stretch exceed the scale by. */
  function Excess(w: seq<real>, gamma: real, a: nat, b: nat): real
    requires a <= b <= |w|
  {
    if a == b then 0.0 else Excess(w, gamma, a, b - 1) + Max(0.0, Abs(w[b - 1]) - gamma)
  }

  /** The larger of tau and 1 - tau, times the scale. */
  function Slack(tau: real, gamma: real): real {
    Times(Max(tau, 1.0 - tau), gamma)
  }

  lemma SlackBounds(tau: real, gamma: real)
    requires gamma > 0.0
    ensures Slack(tau, gamma) >= Times(tau, gamma) && Slack(tau, gamma) >= gamma - Times(tau, gamma)
      && Slack(tau, gamma) >= 0.0
  {
    var m := Max(tau, 1.0 - tau);
    ProductNonNegative(m - tau, gamma);
    ProductNonNegative(m - (1.0 - tau), gamma);
    ProductNonNegative(m, gamma);
    assert (m - tau) * gamma == m * gamma - tau * gamma;
    assert (m - (1.0 - tau)) * gamma == m * gamma - gamma + tau * gamma;
  }

  /** One deadzone step: the new error fits the slack, or is the old error plus the excess of the weight. */
  lemma DeadzoneStep(w: real, carry: real, gamma: real, threshold: real, slack: real)
    requires gamma > 0.0 && slack >= threshold && slack >= gamma - threshold
    ensures var we := w + carry;
      Abs(we - Value(Deadzone(we, threshold), gamma)) <= Max(slack, Abs(carry) + Max(0.0, Abs(w) - gamma))
  {
    var we := w + carry;
    TritValues(gamma);
    hide Value;
    if Abs(we) > threshold {
      assert Abs(we) <= Abs(w) + Abs(carry);
    }
  }

  lemma TritValues(g: real)
    ensures Value(1, g) == g && Value(-1, g) == -g && Value(0, g) == 0.0
  {
  }

  lemma {:induction false} ExcessNonNegative(w: seq<real>, gamma: real, a: nat, b: nat)
    requires a <= b <= |w|
    ensures Excess(w, gamma, a, b) >= 0.0
  {
    if a < b {
      ExcessNonNegative(w, gamma, a, b - 1);
    }
  }

  /** For every threshold: the carry never exceeds the slack by more than the stretch's excess. */
  lemma {:induction false} CarryBound(cfg: Config, lane: Lane, rng: nat, a: nat, b: nat)
    requires lane.Valid() && cfg.diffuse && cfg.round.DeadzoneAbsmean?
    requires a <= b <= |lane.w| && Untouched(lane.ex, a, b) && CleanStart(lane.ex, a)
    ensures Abs(After(cfg, lane, rng, b).carry) <= Slack(cfg.tau, lane.gamma) + Excess(lane.w, lane.gamma, a, b)
  {
    SlackBounds(cfg.tau, lane.gamma);
    if a < b {
      CarryBound(cfg, lane, rng, a, b - 1);
      ExcessNonNegative(lane.w, lane.gamma, a, b - 1);
      hide Slack, Value, Deadzone, Times;
      DeadzoneStep(lane.w[b - 1], After(cfg, lane, rng, b - 1).carry, lane.gamma, Times(cfg.tau, lane.gamma),
                   Slack(cfg.tau, lane.gamma));
      hide Abs;
    }
  }

  /** Sum of the magnitudes that are not outliers, and how many there are. */
  function Mass(w: seq<real>, ex: seq<bool>, n: nat): (m: real)
    requires n <= |w| == |ex|
    ensures m >= 0.0
  {
    if n == 0 then 0.0 else Mass(w, ex, n - 1) + if ex[n - 1] then 0.0 else Abs(w[n - 1])
  }

  function Live(ex: seq<bool>, n: nat): (c: nat)
    requires n <= |ex|
    ensures c <= n
  {
    if n == 0 then 0 else Live(ex, n - 1) + if ex[n - 1] then 0 else 1
  }

  /** The absmean of the weights that are not outliers, at least 1e-12. */
  function Absmean(w: seq<real>, ex: seq<bool>): (g: real)
    requires |w| == |ex|
    ensures g > 0.0
  {
    if Live(ex, |ex|) > 0 then Max(Mass(w, ex, |w|) / Live(ex, |ex|) as real, FLOOR) else FLOOR
  }

  /** A stretch has no excess, or at most the lane's mass less one scale. */
  lemma {:induction false} ExcessOfMass(w: seq<real>, ex: seq<bool>, gamma: real, a: nat, b: nat)
    requires |w| == |ex| && gamma > 0.0 && a <= b <= |w| && Untouched(ex, a, b)
    ensures Excess(w, gamma, a, b) == 0.0 || Excess(w, gamma, a, b) <= Mass(w, ex, b) - gamma
  {
    if a < b {
      ExcessOfMass(w, ex, gamma, a, b - 1);
    }
  }

  lemma {:induction false} MassGrows(w: seq<real>, ex: seq<bool>, b: nat, n: nat)
    requires b <= n <= |w| == |ex|
    ensures Mass(w, ex, b) <= Mass(w, ex, n) && Live(ex, b) <= Live(ex, n)
  {
    if b < n {
      MassGrows(w, ex, b, n - 1);
    }
  }

  /** The mean times the count is the mass. */
  lemma MassOfMean(w: seq<real>, ex: seq<bool>)
    requires |w| == |ex| <= 20
    ensures Mass(w, ex, |w|) <= 20.0 * Absmean(w, ex)
  {
    var c, g := Live(ex, |ex|), Absmean(w, ex);
    if c > 0 {
      QuotientBelow(Mass(w, ex, |w|), c as real, g);
    } else {
      NoMass(w, ex, |w|);
    }
  }

  lemma QuotientBelow(m: real, c: real, g: real)
    requires 0.0 < c <= 20.0 && g > 0.0 && m / c <= g
    ensures m <= 20.0 * g
  {
    assert m == (m / c) * c;
    ProductNonNegative(g - m / c, c);
    assert (g - m / c) * c == g * c - (m / c) * c;
    ProductNonNegative(20.0 - c, g);
    assert (20.0 - c) * g == 20.0 * g - g * c;
  }

  lemma {:induction false} NoMass(w: seq<real>, ex: seq<bool>, n: nat)
    requires n <= |w| == |ex| && Live(ex, |ex|) == 0
    ensures Mass(w, ex, n) == 0.0
  {
    if n > 0 {
      NoMass(w, ex, n - 1);
      MassGrows(w, ex, n, |ex|);
      MassGrows(w, ex, n - 1, n);
    }
  }

  /** Where the current stretch began: behind the last outlier. */
  function StretchStart(ex: seq<bool>, b: nat): (a: nat)
    requires b <= |ex|
    ensures a <= b && CleanStart(ex, a) && Untouched(ex, a, b)
  {
    if b == 0 || ex[b - 1] then b else StretchStart(ex, b - 1)
  }

  /** With the lane's own absmean as its scale, the carry stays below (max(tau, 1 - tau) + 19) scales,
      everywhere in the lane and for every tau. */
  lemma LaneCarryBound(cfg: Config, lane: Lane, rng: nat, b: nat)
    requires lane.Valid() && cfg.diffuse && cfg.round.DeadzoneAbsmean? && b <= |lane.w|
    requires lane.gamma == Absmean(lane.w, lane.ex)
    ensures Abs(After(cfg, lane, rng, b).carry) <= Slack(cfg.tau, lane.gamma) + 19.0 * lane.gamma
  {
    var a := StretchStart(lane.ex, b);
    CarryBound(cfg, lane, rng, a, b);
    ExcessOfMass(lane.w, lane.ex, lane.gamma, a, b);
    MassGrows(lane.w, lane.ex, b, |lane.w|);
    MassOfMean(lane.w, lane.ex);
    hide *;
  }

  // ---- what the random state depends on ----

  /** The state after a lane depends on the mask only: one draw per weight that is not an outlier. */
  lemma {:induction false} StateOfMask(cfg: Config, lane: Lane, lane': Lane, rng: nat, n: nat)
    requires lane.Valid() && lane'.Valid() && lane.ex == lane'.ex && n <= |lane.w|
    ensures After(cfg, lane, rng, n).rng == After(cfg, lane', rng, n).rng
  {
    hide TritOf, Drawn, Value, Carried;
    if n > 0 {
      StateOfMask(cfg, lane, lane', rng, n - 1);
    }
  }

  // ---- the least-squares scale ----

  /** Correlation of weights and non-zero trits, and their number. */
  function Num(w: seq<real>, t: seq<int>, n: nat): real
    requires n <= |w| == |t|
  {
    if n == 0 then 0.0 else Num(w, t, n - 1) + if t[n - 1] != 0 then Times(w[n - 1], t[n - 1] as real) else 0.0
  }

  function Den(t: seq<int>, n: nat): (d: real)
    requires n <= |t|
    ensures d >= 0.0
  {
    if n == 0 then 0.0 else Den(t, n - 1) + if t[n - 1] != 0 then 1.0 else 0.0
  }

  /** Squared reconstruction error over the non-zero trits with scale alpha. */
  ghost function SquaredError(w: seq<real>, t: seq<int>, alpha: real, n: nat): real
    requires n <= |w| == |t|
  {
    if n == 0 then 0.0
    else
      var d := w[n - 1] - Value(t[n - 1], alpha);
      SquaredError(w, t, alpha, n - 1) + if t[n - 1] != 0 then Times(d, d) else 0.0
  }

  predicate Trits(t: seq<int>) {
    forall i :: 0 <= i < |t| ==> IsTrit(t[i])
  }

  /** The refit: |num / den|, at least 1e-12. */
  function Refit(w: seq<real>, t: seq<int>, gamma: real): (s: real)
    requires |w| == |t| && gamma > 0.0
    ensures s > 0.0
  {
    if Den(t, |t|) > 0.0 then Max(Abs(Num(w, t, |t|) / Den(t, |t|)), FLOOR) else gamma
  }

  method RefitScale(w: seq<real>, trit: seq<int>, gamma: real) returns (used: real)
    requires |w| == |trit| && gamma > 0.0
    ensures used == Refit(w, trit, gamma)
  {
    hide Times;
    used := gamma;
    var num, den := 0.0, 0.0;
    for i := 0 to |w|
      invariant num == Num(w, trit, i) && den == Den(trit, i)
    {
      var t := trit[i];
      if t != 0 {
        num := num + Times(w[i], t as real);
        den := den + 1.0;
      }
    }
    if den > 0.0 {
      used := Max(Abs(num / den), FLOOR);
    }
  }

  /** How much the error at c + e exceeds the error at c. */
  ghost function Gain(e: real, c: real, num: real, den: real): real {
    den * (e * e) - 2.0 * (e * (num - c * den))
  }

  lemma GainStep(e: real, c: real, num: real, den: real, x: real)
    ensures Gain(e, c, num + x, den + 1.0) == Gain(e, c, num, den) + ((x - (c + e)) * (x - (c + e)) - (x - c) * (x - c))
    ensures Gain(e, c, 0.0, 0.0) == 0.0
  {
    assert (x - (c + e)) * (x - (c + e)) - (x - c) * (x - c) == e * e - 2.0 * (e * (x - c));
    assert e * (num + x - c * (den + 1.0)) == e * (num - c * den) + e * (x - c) by {
      assert num + x - c * (den + 1.0) == (num - c * den) + (x - c);
    }
  }

  /** One term of the error, at either scale. */
  lemma ErrorStep(w: real, t: int, alpha: real)
    requires t == 1 || t == -1
    ensures var d, x := w - Value(t, alpha), Times(w, t as real);
      Times(d, d) == (x - alpha) * (x - alpha)
  {
    TritValues(alpha);
  }

  /** Error at alpha against error at c, exactly. */
  lemma {:induction false} ErrorAround(w: seq<real>, t: seq<int>, alpha: real, c: real, n: nat)
    requires n <= |w| == |t| && Trits(t)
    ensures SquaredError(w, t, alpha, n) == SquaredError(w, t, c, n) + Gain(alpha - c, c, Num(w, t, n), Den(t, n))
  {
    hide Gain, Times, Value;
    if n == 0 {
      GainStep(alpha - c, c, 0.0, 0.0, 0.0);
    } else {
      ErrorAround(w, t, alpha, c, n - 1);
      if t[n - 1] != 0 {
        GainStep(alpha - c, c, Num(w, t, n - 1), Den(t, n - 1), Times(w[n - 1], t[n - 1] as real));
        ErrorStep(w[n - 1], t[n - 1], alpha);
        ErrorStep(w[n - 1], t[n - 1], c);
        assert c + (alpha - c) == alpha;
        hide *;
      }
    }
  }

  lemma GainAtMean(e: real, num: real, den: real)
    requires den > 0.0
    ensures Gain(e, num / den, num, den) >= 0.0
    ensures e != 0.0 ==> Gain(e, num / den, num, den) > 0.0
  {
    var c := num / den;
    assert c * den == num;
    var square := e * e;
    assert Gain(e, c, num, den) == den * square by {
      assert num - c * den == 0.0;
    }
    if e != 0.0 {
      SquarePositive(e);
      ProductPositive(den, square);
    } else {
      assert square == 0.0;
    }
  }

  lemma SquarePositive(e: real)
    requires e != 0.0
    ensures e * e > 0.0
  {
    if e > 0.0 {
      ProductPositive(e, e);
    } else {
      ProductPositive(-e, -e);
      assert (-e) * (-e) == e * e;
    }
  }

  /** num / den is the one best scale for the locked trits. */
  lemma BestScale(w: seq<real>, t: seq<int>, alpha: real)
    requires |w| == |t| && Trits(t) && Den(t, |t|) > 0.0
    ensures var best := Num(w, t, |t|) / Den(t, |t|);
      && SquaredError(w, t, best, |t|) <= SquaredError(w, t, alpha, |t|)
      && (SquaredError(w, t, best, |t|) == SquaredError(w, t, alpha, |t|) ==> alpha == best)
  {
    var best := Num(w, t, |t|) / Den(t, |t|);
    hide *;
    ErrorAround(w, t, alpha, best, |t|);
    GainAtMean(alpha - best, Num(w, t, |t|), Den(t, |t|));
  }

  ghost predicate Optimal(w: seq<real>, t: seq<int>, scale: real)
    requires |w| == |t|
  {
    forall alpha :: SquaredError(w, t, scale, |t|) <= SquaredError(w, t, alpha, |t|)
  }

  /** The refit scale is optimal exactly when the correlation is not below the floor: the absolute value and
      the floor change the optimum otherwise. */
  lemma RefitOptimal(w: seq<real>, t: seq<int>, gamma: real)
    requires |w| == |t| && Trits(t) && gamma > 0.0 && Den(t, |t|) > 0.0
    ensures Optimal(w, t, Refit(w, t, gamma)) <==> Num(w, t, |t|) / Den(t, |t|) >= FLOOR
  {
    var best, used := Num(w, t, |t|) / Den(t, |t|), Refit(w, t, gamma);
    assert used == Max(Abs(best), FLOOR);
    assert used == best <==> best >= FLOOR;
    hide Num, Den, SquaredError, Trits;
    BestScale(w, t, used);
    if used == best {
      forall alpha ensures SquaredError(w, t, used, |t|) <= SquaredError(w, t, alpha, |t|) {
        BestScale(w, t, alpha);
      }
    } else {
      assert SquaredError(w, t, best, |t|) < SquaredError(w, t, used, |t|);
    }
  }

  /** Every trit has its weight's sign. */
  predicate SameSigns(w: seq<real>, t: seq<int>)
    requires |w| == |t|
  {
    forall i :: 0 <= i < |t| && t[i] != 0 ==> t[i] == Sign(w[i]) && w[i] != 0.0
  }

  /** Without error diffusion the deadzone with a threshold of at least zero keeps signs. */
  lemma {:induction false} DeadzoneKeepsSigns(cfg: Config, lane: Lane, rng: nat, n: nat)
    requires lane.Valid() && !cfg.diffuse && cfg.round.DeadzoneAbsmean? && cfg.tau >= 0.0 && n <= |lane.w|
    ensures var t := After(cfg, lane, rng, n).trits;
      forall i :: 0 <= i < n && t[i] != 0 ==> t[i] == Sign(lane.w[i]) && lane.w[i] != 0.0
  {
    if n > 0 {
      DeadzoneKeepsSigns(cfg, lane, rng, n - 1);
      ProductNonNegative(cfg.tau, lane.gamma);
      assert Times(cfg.tau, lane.gamma) >= 0.0;
      hide Times;
    }
  }

  /** With matching signs the correlation is the mass the trits cover, never negative. */
  lemma {:induction false} SignsCorrelate(w: seq<real>, t: seq<int>, n: nat)
    requires n <= |w| == |t| && SameSigns(w, t)
    ensures Num(w, t, n) >= 0.0
  {
    if n > 0 {
      SignsCorrelate(w, t, n - 1);
      if t[n - 1] != 0 {
        SignedProduct(w[n - 1], t[n - 1]);
      }
      hide Times;
    }
  }

  lemma SignedProduct(w: real, t: int)
    requires t == Sign(w)
    ensures Times(w, t as real) == Abs(w)
  {
  }

  /** Every trit covers a weight of its own sign, of at least the floor's magnitude. */
  predicate CoversFloor(w: seq<real>, t: seq<int>)
    requires |w| == |t|
  {
    forall i :: 0 <= i < |t| && t[i] != 0 ==> t[i] == Sign(w[i]) && Abs(w[i]) >= FLOOR
  }

  /** Without error diffusion a non-zero trit covers a weight beyond the deadzone. */
  lemma {:induction false} DeadzoneCovers(cfg: Config, lane: Lane, rng: nat, n: nat)
    requires lane.Valid() && !cfg.diffuse && cfg.round.DeadzoneAbsmean? && Times(cfg.tau, lane.gamma) >= FLOOR
    requires n <= |lane.w|
    ensures CoversFloor(lane.w[..n], After(cfg, lane, rng, n).trits)
  {
    if n > 0 {
      DeadzoneCovers(cfg, lane, rng, n - 1);
      hide Times, Value;
      var t, t' := After(cfg, lane, rng, n - 1).trits, After(cfg, lane, rng, n).trits;
      assert forall i :: 0 <= i < n - 1 ==> lane.w[..n][i] == lane.w[..n - 1][i] && t'[i] == t[i];
    }
  }

  lemma {:induction false} CorrelationFloor(w: seq<real>, t: seq<int>, n: nat)
    requires n <= |w| == |t| && CoversFloor(w, t)
    ensures Num(w, t, n) >= FLOOR * Den(t, n)
  {
    if n > 0 {
      CorrelationFloor(w, t, n - 1);
      if t[n - 1] != 0 {
        SignedProduct(w[n - 1], t[n - 1]);
      }
      hide Times, Abs;
    }
  }

  lemma QuotientAtLeast(num: real, den: real, f: real)
    requires den > 0.0 && num >= f * den
    ensures num / den >= f
  {
    var q := num / den;
    assert q * den == num;
    assert (f - q) * den == f * den - num;
    if q < f {
      ProductPositive(f - q, den);
    }
  }

  /** Deadzone rounding without error diffusion, with a threshold not below the floor: the refit scale is the best
      one whenever the lane keeps a weight. */
  lemma DeadzoneRefitOptimal(cfg: Config, lane: Lane, rng: nat)
    requires lane.Valid() && !cfg.diffuse && cfg.round.DeadzoneAbsmean? && Times(cfg.tau, lane.gamma) >= FLOOR
    requires Den(After(cfg, lane, rng, |lane.w|).trits, |lane.w|) > 0.0
    ensures var t := After(cfg, lane, rng, |lane.w|).trits;
      Optimal(lane.w, t, Refit(lane.w, t, lane.gamma))
  {
    var t := After(cfg, lane, rng, |lane.w|).trits;
    DeadzoneCovers(cfg, lane, rng, |lane.w|);
    assert lane.w[..|lane.w|] == lane.w;
    hide After, Times, Num, Den, Optimal, Refit;
    assert Trits(t);
    CorrelationFloor(lane.w, t, |t|);
    QuotientAtLeast(Num(lane.w, t, |t|), Den(t, |t|), FLOOR);
    RefitOptimal(lane.w, t, lane.gamma);
  }

  /** One weight of a lane with scale 1, threshold 0.25 and error diffusion. */
  lemma OneWeight(cfg: Config, lane: Lane, rng: nat, n: nat, before: Walk, t: int, carry: real)
    requires lane.Valid() && lane.gamma == 1.0 && cfg.diffuse && cfg.round.DeadzoneAbsmean? && cfg.tau == 0.25
    requires n < |lane.w| && !lane.ex[n] && After(cfg, lane, rng, n) == before
    requires t == Deadzone(lane.w[n] + before.carry, 0.25) && carry == lane.w[n] + before.carry - t as real
    ensures After(cfg, lane, rng, n + 1) == Walk(before.trits + [t], carry, before.rng)
  {
    TritValues(1.0);
    assert Times(0.25, 1.0) == 0.25;
    hide Times, Value;
  }

  /** With error diffusion trits can oppose their weights, and then the refit is not the best scale: a lane
      under a page-wide scale. */
  lemma DiffusionCanOppose(rng: nat)
    ensures var lane := Lane([0.3, 0.1, -0.1, 0.1, -0.1], [false, false, false, false, false], 1.0);
      var t := After(Config(DeadzoneAbsmean, GlobalBf16, 0.25, true, true, 0.0), lane, rng, 5).trits;
      t == [1, -1, 1, -1, 1] && !Optimal(lane.w, t, Refit(lane.w, t, lane.gamma))
  {
    var cfg := Config(DeadzoneAbsmean, GlobalBf16, 0.25, true, true, 0.0);
    var lane := Lane([0.3, 0.1, -0.1, 0.1, -0.1], [false, false, false, false, false], 1.0);
    var w := lane.w;
    assert After(cfg, lane, rng, 0) == Walk([], 0.0, rng);
    hide After;
    OneWeight(cfg, lane, rng, 0, Walk([], 0.0, rng), 1, -0.7);
    OneWeight(cfg, lane, rng, 1, Walk([1], -0.7, rng), -1, 0.4);
    OneWeight(cfg, lane, rng, 2, Walk([1, -1], 0.4, rng), 1, -0.7);
    OneWeight(cfg, lane, rng, 3, Walk([1, -1, 1], -0.7, rng), -1, 0.4);
    OneWeight(cfg, lane, rng, 4, Walk([1, -1, 1, -1], 0.4, rng), 1, -0.7);
    var t := [1, -1, 1, -1, 1];
    assert [1, -1, 1, -1] + [1] == t;
    NegativeCorrelation(w, t);
    RefitOptimal(w, t, 1.0);
  }

  lemma NegativeCorrelation(w: seq<real>, t: seq<int>)
    requires w == [0.3, 0.1, -0.1, 0.1, -0.1] && t == [1, -1, 1, -1, 1]
    ensures Trits(t) && Den(t, 5) == 5.0 && Num(w, t, 5) / Den(t, 5) < FLOOR
  {
    assert Num(w, t, 0) == 0.0 && Den(t, 0) == 0.0;
    assert Num(w, t, 1) == 0.3 && Den(t, 1) == 1.0;
    assert Num(w, t, 2) == 0.2 && Den(t, 2) == 2.0;
    assert Num(w, t, 3) == 0.1 && Den(t, 3) == 3.0;
    assert Num(w, t, 4) == 0.0 && Den(t, 4) == 4.0;
    assert Num(w, t, 5) == -0.1 && Den(t, 5) == 5.0;
  }
}
