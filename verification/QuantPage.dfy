/** A page of the ternary quantiser: outliers, 20-weight lanes in order, the two-level scale code. */
module QuantPage {
  import opened QuantLane
  import opened Reals

  // ---- outliers ----

  /** The extraction order: larger magnitude first, ties by position. */
  predicate Beats(w: seq<real>, i: int, j: int)
    requires 0 <= i < |w| && 0 <= j < |w|
  {
    Abs(w[i]) > Abs(w[j]) || (Abs(w[i]) == Abs(w[j]) && i < j)
  }

  predicate InRange(idx: seq<int>, n: nat) {
    forall a :: 0 <= a < |idx| ==> 0 <= idx[a] < n
  }

  /** A stable descending order of the first n positions. */
  ghost predicate Sorted(w: seq<real>, idx: seq<int>, n: nat) {
    && n == |idx| <= |w| && InRange(idx, n)
    && (forall a, b :: 0 <= a < b < n ==> Beats(w, idx[a], idx[b]))
    && (forall i :: 0 <= i < n ==> i in idx)
  }

  /** Puts position n behind every earlier one of at least its magnitude. */
  method Insert(w: seq<real>, idx: seq<int>, n: nat) returns (next: seq<int>)
    requires Sorted(w, idx, n) && n < |w|
    ensures Sorted(w, next, n + 1)
  {
    var p := 0;
    while p < n && Abs(w[idx[p]]) >= Abs(w[n])
      invariant 0 <= p <= n
      invariant forall a :: 0 <= a < p ==> Beats(w, idx[a], n)
    {
      p := p + 1;
    }
    forall a | p <= a < n ensures Beats(w, n, idx[a]) {
      if p < a {
        assert Beats(w, idx[p], idx[a]);
      }
    }
    next := idx[..p] + [n] + idx[p..];
    Inserted(w, idx, n, p);
  }

  lemma Inserted(w: seq<real>, idx: seq<int>, n: nat, p: nat)
    requires Sorted(w, idx, n) && p <= n < |w|
    requires (forall a :: 0 <= a < p ==> Beats(w, idx[a], n)) && (forall a :: p <= a < n ==> Beats(w, n, idx[a]))
    ensures Sorted(w, idx[..p] + [n] + idx[p..], n + 1)
  {
    hide Beats;
    var next := idx[..p] + [n] + idx[p..];
    assert forall a :: 0 <= a < p ==> next[a] == idx[a];
    assert forall a :: p < a < n + 1 ==> next[a] == idx[a - 1];
    InsertedCovers(idx, n, p);
    assert InRange(next, n + 1);
    forall a, b | 0 <= a < b < n + 1 ensures Beats(w, next[a], next[b]) {
      InsertedPair(w, idx, n, p, next, a, b);
    }
  }

  lemma InsertedCovers(idx: seq<int>, n: nat, p: nat)
    requires p <= |idx| && forall i :: 0 <= i < n ==> i in idx
    ensures forall i :: 0 <= i < n + 1 ==> i in idx[..p] + [n] + idx[p..]
  {
    assert idx == idx[..p] + idx[p..];
    forall i | 0 <= i < n ensures i in idx[..p] + [n] + idx[p..] {
      assert i in idx;
      assert i in idx[..p] || i in idx[p..];
    }
    assert (idx[..p] + [n] + idx[p..])[p] == n;
  }

  lemma InsertedPair(w: seq<real>, idx: seq<int>, n: nat, p: nat, next: seq<int>, a: nat, b: nat)
    requires n < |w| && p <= n == |idx| && InRange(idx, n) && |next| == n + 1 && InRange(next, n + 1) && a < b < n + 1
    requires forall c, d :: 0 <= c < d < n ==> Beats(w, idx[c], idx[d])
    requires (forall c :: 0 <= c < p ==> Beats(w, idx[c], n)) && (forall c :: p <= c < n ==> Beats(w, n, idx[c]))
    requires (forall c :: 0 <= c < p ==> next[c] == idx[c]) && next[p] == n
      && (forall c :: p < c < n + 1 ==> next[c] == idx[c - 1])
    ensures Beats(w, next[a], next[b])
  {
    hide Beats;
    if b < p {
      assert Beats(w, idx[a], idx[b]);
    } else if a < p < b {
      assert Beats(w, idx[a], idx[b - 1]);
    } else if p < a {
      assert Beats(w, idx[a - 1], idx[b - 1]);
    }
  }

  /** The stable sort by descending magnitude. */
  method SortByMagnitude(w: seq<real>) returns (idx: seq<int>)
    ensures Sorted(w, idx, |w|)
  {
    idx := [];
    for n := 0 to |w|
      invariant Sorted(w, idx, n)
    {
      idx := Insert(w, idx, n);
    }
  }

  /** The k positions that beat all others. */
  ghost predicate TopK(w: seq<real>, k: nat, ex: seq<bool>) {
    && |ex| == |w| && Live(ex, |ex|) == |w| - k
    && forall i, j :: 0 <= i < |w| && 0 <= j < |w| && ex[i] && !ex[j] ==> Beats(w, i, j)
  }

  lemma {:induction false} AllLive(ex: seq<bool>, n: nat)
    requires n <= |ex| && forall i :: 0 <= i < |ex| ==> !ex[i]
    ensures Live(ex, n) == n
  {
    if n > 0 {
      AllLive(ex, n - 1);
    }
  }

  lemma {:induction false} OneExtracted(ex: seq<bool>, i: nat, n: nat)
    requires i < |ex| && n <= |ex| && !ex[i]
    ensures Live(ex[i := true], n) == Live(ex, n) - if i < n then 1 else 0
  {
    if n > 0 {
      OneExtracted(ex, i, n - 1);
    }
  }

  /** The positions of a sorted order before k are marked. */
  ghost predicate Marked(w: seq<real>, idx: seq<int>, ex: seq<bool>, k: nat) {
    && Sorted(w, idx, |w|) && k <= |w| == |ex|
    && Live(ex, |ex|) == |w| - k
    && (forall i :: 0 <= i < |w| && ex[i] ==> i in idx[..k])
    && (forall a :: 0 <= a < k ==> ex[idx[a]])
  }

  lemma MarksMore(w: seq<real>, idx: seq<int>, ex: seq<bool>, k: nat)
    requires Marked(w, idx, ex, k) && k < |w|
    ensures Marked(w, idx, ex[idx[k] := true], k + 1)
  {
    var i := idx[k];
    assert forall a :: 0 <= a < k ==> Beats(w, idx[a], i);
    assert !ex[i];
    OneExtracted(ex, i, |ex|);
    hide Live, Beats;
    assert idx[..k + 1] == idx[..k] + [i];
  }

  lemma MarkedIsTopK(w: seq<real>, idx: seq<int>, ex: seq<bool>, k: nat)
    requires Marked(w, idx, ex, k)
    ensures TopK(w, k, ex)
  {
    hide Beats, Live;
    forall i, j | 0 <= i < |w| && 0 <= j < |w| && ex[i] && !ex[j] ensures Beats(w, i, j) {
      var a :| 0 <= a < k && idx[a] == i;
      assert j in idx;
      var b :| 0 <= b < |w| && idx[b] == j;
      assert a < b;
      assert Beats(w, idx[a], idx[b]);
    }
  }

  lemma NotBoth(w: seq<real>, i: nat, j: nat)
    requires i < |w| && j < |w|
    ensures !(Beats(w, i, j) && Beats(w, j, i))
  {
  }

  /** The top k is one mask only. */
  lemma TopKUnique(w: seq<real>, k: nat, ex: seq<bool>, ex': seq<bool>)
    requires TopK(w, k, ex) && TopK(w, k, ex')
    ensures ex == ex'
  {
    hide Live, Beats;
    if exists i :: 0 <= i < |w| && ex[i] && !ex'[i] {
      var i :| 0 <= i < |w| && ex[i] && !ex'[i];
      forall j | 0 <= j < |w| && ex'[j] ensures ex[j] {
        NotBoth(w, i, j);
      }
      FewerLive(ex, ex', i, |w|);
    } else if exists i :: 0 <= i < |w| && ex'[i] && !ex[i] {
      var i :| 0 <= i < |w| && ex'[i] && !ex[i];
      FewerLive(ex', ex, i, |w|);
    }
  }

  /** A mask that covers another and one position more leaves fewer. */
  lemma {:induction false} FewerLive(ex: seq<bool>, ex': seq<bool>, i: nat, n: nat)
    requires |ex| == |ex'| && i < |ex| && n <= |ex|
    requires (forall j :: 0 <= j < |ex| && ex'[j] ==> ex[j]) && ex[i] && !ex'[i]
    ensures Live(ex, n) <= Live(ex', n) - if i < n then 1 else 0
  {
    if n > 0 {
      FewerLive(ex, ex', i, n - 1);
    }
  }

  /** Marks the top k and stores their bf16 values. */
  method ExtractOutliers(w: seq<real>, k: nat, bf16: real -> real, recon: array<real>) returns (ex: array<bool>)
    requires k <= |w| == recon.Length
    modifies recon
    ensures fresh(ex) && ex.Length == |w| && TopK(w, k, ex[..])
    ensures forall i :: 0 <= i < |w| ==> recon[i] == if ex[i] then bf16(w[i]) else old(recon[i])
  {
    ex := new bool[|w|](_ => false);
    AllLive(ex[..], |w|);
    var idx := SortByMagnitude(w);
    for c := 0 to k
      invariant Marked(w, idx, ex[..], c)
      invariant forall i :: 0 <= i < |w| ==> recon[i] == if ex[i] then bf16(w[i]) else old(recon[i])
    {
      MarksMore(w, idx, ex[..], c);
      var i := InOrder(w, idx, c);
      ghost var was := ex[..];
      hide Marked;
      ex[i] := true;
      recon[i] := bf16(w[i]);
      assert ex[..] == was[idx[c] := true];
    }
    MarkedIsTopK(w, idx, ex[..], k);
  }

  method InOrder(w: seq<real>, idx: seq<int>, c: nat) returns (i: nat)
    requires Sorted(w, idx, |w|) && c < |w|
    ensures i == idx[c] < |w|
  {
    i := idx[c];
  }

  // ---- pages and their lanes ----

  datatype Page = Page(w: seq<real>, ex: seq<bool>) {
    predicate Valid() {
      |w| == |ex|
    }

    function Lanes(): nat {
      (|w| + 19) / 20
    }

    function Hi(l: nat): (hi: nat)
      ensures hi <= |w|
    {
      if 20 * l + 20 < |w| then 20 * l + 20 else |w|
    }

    function Weights(l: nat): (s: seq<real>)
      requires Valid() && l < Lanes()
      ensures |s| == Hi(l) - 20 * l <= 20
    {
      w[20 * l..Hi(l)]
    }

    function Mask(l: nat): (s: seq<bool>)
      requires Valid() && l < Lanes()
      ensures |s| == Hi(l) - 20 * l <= 20
    {
      ex[20 * l..Hi(l)]
    }
  }

  /** Largest magnitude that is not an outlier. */
  function Absmax(w: seq<real>, ex: seq<bool>, n: nat): real
    requires n <= |w| == |ex|
  {
    if n == 0 then 0.0 else if ex[n - 1] then Absmax(w, ex, n - 1) else Max(Absmax(w, ex, n - 1), Abs(w[n - 1]))
  }

  function GlobalScale(cfg: Config, page: Page): (g: real)
    requires page.Valid()
    ensures g > 0.0
  {
    if cfg.round.NearestAbsmax? then Max(Absmax(page.w, page.ex, |page.w|), FLOOR) else Absmean(page.w, page.ex)
  }

  /** The lane the rounding loop gets. */
  function LaneOf(cfg: Config, page: Page, l: nat): (lane: Lane)
    requires page.Valid() && l < page.Lanes()
    ensures lane.Valid() && lane.w == page.Weights(l) && lane.ex == page.Mask(l)
  {
    Lane(page.Weights(l), page.Mask(l),
         if cfg.scale.GlobalBf16? then GlobalScale(cfg, page) else Absmean(page.Weights(l), page.Mask(l)))
  }

  /** The random state when lane l begins. */
  function StateAt(cfg: Config, page: Page, rng: nat, l: nat): nat
    requires page.Valid() && l <= page.Lanes()
    decreases l, 0
  {
    if l == 0 then rng else RoundedLane(cfg, page, rng, l - 1).rng
  }

  function RoundedLane(cfg: Config, page: Page, rng: nat, l: nat): (s: Walk)
    requires page.Valid() && l < page.Lanes()
    ensures |s.trits| == |page.Weights(l)|
    decreases l, 1
  {
    After(cfg, LaneOf(cfg, page, l), StateAt(cfg, page, rng, l), |page.Weights(l)|)
  }

  /** The scale before storage. */
  function Used(cfg: Config, page: Page, rng: nat, l: nat): (s: real)
    requires page.Valid() && l < page.Lanes()
    ensures s > 0.0
  {
    var lane := LaneOf(cfg, page, l);
    if cfg.optimize then Refit(lane.w, RoundedLane(cfg, page, rng, l).trits, lane.gamma) else lane.gamma
  }

  /** The lane's scale, as kept per lane. */
  function Stored(cfg: Config, page: Page, rng: nat, bf16: real -> real, l: nat): real
    requires page.Valid() && l < page.Lanes()
  {
    if cfg.scale.LaneTwoLevelInt8? then Used(cfg, page, rng, l) else bf16(Used(cfg, page, rng, l))
  }

  function TritAt(cfg: Config, page: Page, rng: nat, i: nat): int
    requires page.Valid() && i < |page.w|
  {
    InLane(page, i);
    RoundedLane(cfg, page, rng, i / 20).trits[i % 20]
  }

  ghost function PageTrits(cfg: Config, page: Page, rng: nat): (t: seq<int>)
    requires page.Valid()
    ensures |t| == |page.w|
  {
    seq(|page.w|, i requires 0 <= i < |page.w| => TritAt(cfg, page, rng, i))
  }

  lemma InLane(page: Page, i: nat)
    requires page.Valid() && i < |page.w|
    ensures i / 20 < page.Lanes() && i % 20 < |page.Weights(i / 20)| && i == 20 * (i / 20) + i % 20
  {
  }

  // ---- isolation ----

  /** The state at a lane's start depends on the masks before it only. */
  lemma {:induction false} StateOfMasks(cfg: Config, p: Page, p': Page, rng: nat, l: nat)
    requires p.Valid() && p'.Valid() && p.ex == p'.ex && l <= p.Lanes()
    ensures StateAt(cfg, p, rng, l) == StateAt(cfg, p', rng, l)
  {
    if l > 0 {
      StateOfMasks(cfg, p, p', rng, l - 1);
      hide After, LaneOf;
      StateOfMask(cfg, LaneOf(cfg, p, l - 1), LaneOf(cfg, p', l - 1), StateAt(cfg, p, rng, l - 1), |p.Weights(l - 1)|);
    }
  }

  /** With the outlier set and lane l's own weights unchanged, no change to any other lane shows in lane l's
      trits or scale, in any rounding mode; with a page-wide scale, as long as that scale is the same. */
  lemma LaneIsolation(cfg: Config, p: Page, p': Page, rng: nat, bf16: real -> real, l: nat)
    requires p.Valid() && p'.Valid() && p.ex == p'.ex && l < p.Lanes() && p.Weights(l) == p'.Weights(l)
    requires cfg.scale.GlobalBf16? ==> GlobalScale(cfg, p) == GlobalScale(cfg, p')
    ensures RoundedLane(cfg, p, rng, l) == RoundedLane(cfg, p', rng, l)
    ensures Stored(cfg, p, rng, bf16, l) == Stored(cfg, p', rng, bf16, l)
  {
    StateOfMasks(cfg, p, p', rng, l);
    hide StateAt, After, Absmean, GlobalScale;
    assert LaneOf(cfg, p, l) == LaneOf(cfg, p', l);
    hide LaneOf;
  }

  // ---- the reconstruction ----

  /** One element: its bf16 value if extracted, else its trit times a scale. */
  ghost function Element(page: Page, trits: seq<int>, bf16: real -> real, scale: real, i: nat): real
    requires page.Valid() && |trits| == |page.w| && i < |page.w|
  {
    if page.ex[i] then bf16(page.w[i]) else Value(trits[i], scale)
  }

  /** The first n elements carry the scales `done` of their lanes, the others the scales `rest`. */
  ghost predicate Holds(page: Page, trits: seq<int>, bf16: real -> real, done: int -> real, rest: int -> real,
                        recon: seq<real>, n: int)
    requires page.Valid() && |trits| == |page.w|
  {
    && |recon| == |page.w|
    && forall i :: 0 <= i < |recon| ==>
      recon[i] == Element(page, trits, bf16, if i < n then done(i / 20) else rest(i / 20), i)
  }

  lemma HoldsMore(page: Page, trits: seq<int>, bf16: real -> real, done: int -> real, rest: int -> real,
                  recon: seq<real>, n: nat, v: real)
    requires page.Valid() && |trits| == |page.w| && n < |page.w|
    requires Holds(page, trits, bf16, done, rest, recon, n) && v == Element(page, trits, bf16, done(n / 20), n)
    ensures Holds(page, trits, bf16, done, rest, recon[n := v], n + 1)
  {
    hide Element;
  }

  /** Writes the non-zero trits of a lane. */
  method FillLane(page: Page, l: nat, trit: seq<int>, used: real, bf16: real -> real, recon: array<real>,
                  ghost trits: seq<int>, ghost done: int -> real)
    requires page.Valid() && |trits| == |page.w| && l < page.Lanes() && |trit| == |page.Weights(l)|
    requires trit == trits[20 * l..page.Hi(l)] && done(l) == used
    requires Holds(page, trits, bf16, done, _ => 0.0, recon[..], 20 * l)
    modifies recon
    ensures Holds(page, trits, bf16, done, _ => 0.0, recon[..], page.Hi(l))
  {
    ghost var none: int -> real := _ => 0.0;
    for i := 20 * l to page.Hi(l)
      invariant Holds(page, trits, bf16, done, none, recon[..], i)
    {
      assert i / 20 == l && trit[i - 20 * l] == trits[i] && recon[i] == Element(page, trits, bf16, 0.0, i);
      ghost var was := recon[..];
      var t := trit[i - 20 * l];
      NoValue(t);
      NoValueOfZero(used);
      if t != 0 && !page.ex[i] {
        recon[i] := Value(t, used);
      }
      hide Value;
      assert recon[i] == Element(page, trits, bf16, done(l), i);
      assert recon[..] == was[i := recon[i]];
      HoldsMore(page, trits, bf16, done, none, was, i, recon[i]);
    }
  }

  lemma NoValue(t: int)
    ensures Value(t, 0.0) == 0.0
  {
  }

  lemma NoValueOfZero(s: real)
    ensures Value(0, s) == 0.0
  {
  }

  /** Replaces the scale of a lane under its trits' signs. */
  method RecodeLane(page: Page, l: nat, dec: real, bf16: real -> real, recon: array<real>,
                    ghost trits: seq<int>, ghost done: int -> real, ghost rest: int -> real)
    requires page.Valid() && |trits| == |page.w| && l < page.Lanes() && Trits(trits)
    requires done(l) == dec && rest(l) > 0.0
    requires Holds(page, trits, bf16, done, rest, recon[..], 20 * l)
    modifies recon
    ensures Holds(page, trits, bf16, done, rest, recon[..], page.Hi(l))
  {
    for i := 20 * l to page.Hi(l)
      invariant Holds(page, trits, bf16, done, rest, recon[..], i)
    {
      assert i / 20 == l && recon[i] == Element(page, trits, bf16, rest(l), i);
      ghost var was := recon[..];
      if !page.ex[i] {
        SignOfValue(trits[i], rest(l));
        var t := if recon[i] == 0.0 then 0 else Sign(recon[i]);
        assert t == trits[i];
        recon[i] := Value(t, dec);
      }
      hide Value;
      assert recon[i] == Element(page, trits, bf16, done(l), i);
      assert recon[..] == was[i := recon[i]];
      HoldsMore(page, trits, bf16, done, rest, was, i, recon[i]);
    }
  }

  lemma SignOfValue(t: int, s: real)
    requires IsTrit(t) && s > 0.0
    ensures (Value(t, s) == 0.0 <==> t == 0) && (t != 0 ==> Sign(Value(t, s)) == t)
  {
    TritValues(s);
    hide Value;
  }

  // ---- scales ----

  method MeanScale(w: seq<real>, ex: seq<bool>) returns (g: real)
    requires |w| == |ex|
    ensures g == Absmean(w, ex)
  {
    hide Abs;
    var s, c := 0.0, 0;
    for i := 0 to |w|
      invariant s == Mass(w, ex, i) && c == Live(ex, i)
    {
      if !ex[i] {
        s := s + Abs(w[i]);
        c := c + 1;
      }
    }
    g := if c > 0 then Max(s / c as real, FLOOR) else FLOOR;
  }

  method PageScale(cfg: Config, page: Page) returns (g: real)
    requires page.Valid()
    ensures g == GlobalScale(cfg, page)
  {
    hide Abs;
    if cfg.round.NearestAbsmax? {
      var m := 0.0;
      for i := 0 to |page.w|
        invariant m == Absmax(page.w, page.ex, i)
      {
        if !page.ex[i] {
          m := Max(m, Abs(page.w[i]));
        }
      }
      g := Max(m, FLOOR);
    } else {
      g := MeanScale(page.w, page.ex);
    }
  }

  /** Scale, rounding, refit and storage of one lane. */
  method QuantizeLane(cfg: Config, page: Page, l: nat, globalScale: real, bf16: real -> real, rng: Lcg,
                      ghost start: nat)
    returns (trit: seq<int>, used: real)
    requires page.Valid() && l < page.Lanes() && globalScale == GlobalScale(cfg, page)
      && rng.state == StateAt(cfg, page, start, l)
    modifies rng
    ensures trit == RoundedLane(cfg, page, start, l).trits && |trit| == |page.Weights(l)|
    ensures used == Stored(cfg, page, start, bf16, l) && rng.state == StateAt(cfg, page, start, l + 1)
  {
    hide After, Absmean, GlobalScale, Refit, Page.Weights, Page.Mask;
    var gamma := globalScale;
    if !cfg.scale.GlobalBf16? {
      gamma := MeanScale(page.Weights(l), page.Mask(l));
    }
    var lane := Lane(page.Weights(l), page.Mask(l), gamma);
    assert lane == LaneOf(cfg, page, l);
    hide LaneOf;
    var trits, _ := RoundLane(cfg, lane, rng);
    trit := trits[..];
    used := gamma;
    if cfg.optimize {
      used := RefitScale(lane.w, trit, gamma);
    }
    if !cfg.scale.LaneTwoLevelInt8? {
      used := bf16(used);
    }
  }

  // ---- the two-level code ----

  /** Largest of the first n stored scales. */
  function LargestScale(cfg: Config, page: Page, rng: nat, bf16: real -> real, n: nat): real
    requires page.Valid() && n <= page.Lanes()
  {
    if n == 0 then 0.0 else Max(LargestScale(cfg, page, rng, bf16, n - 1), Stored(cfg, page, rng, bf16, n - 1))
  }

  function PageMax(cfg: Config, page: Page, rng: nat, bf16: real -> real): real
    requires page.Valid()
  {
    bf16(Max(LargestScale(cfg, page, rng, bf16, page.Lanes()), FLOOR))
  }

  /** The 7-bit code of a scale relative to the page's largest. */
  function ScaleCode(scale: real, pageMax: real): (q: int)
    requires pageMax > 0.0
    ensures 0 <= q <= 127
  {
    var k := Rounded(scale / pageMax * 127.0);
    if k < 0 then 0 else if k > 127 then 127 else k
  }

  function Decoded(scale: real, pageMax: real): real
    requires pageMax > 0.0
  {
    Times(pageMax, ScaleCode(scale, pageMax) as real / 127.0)
  }

  lemma RoundedWithin(x: real)
    ensures -0.5 <= x - Rounded(x) as real <= 0.5
  {
  }

  lemma ScaledPart(s: real, p: real)
    requires p > 0.0
    ensures Times(p, s / p * 127.0 / 127.0) == s
  {
    assert s / p * p == s;
  }

  lemma TimesBelow(p: real, x: real, y: real, d: real)
    requires p > 0.0 && -d <= x - y <= d
    ensures -(p * d) <= Times(p, x) - Times(p, y) <= p * d
  {
    ProductNonNegative(p, d - (x - y));
    ProductNonNegative(p, d + (x - y));
    assert p * (d - (x - y)) == p * d - (p * x - p * y);
    assert p * (d + (x - y)) == p * d + (p * x - p * y);
  }

  lemma RatioBounds(s: real, p: real)
    requires p > 0.0 && s > 0.0
    ensures s <= p ==> 0.0 < s / p <= 1.0
    ensures s > p ==> s / p > 1.0
  {
    var q := s / p;
    assert q * p == s;
    assert (1.0 - q) * p == p - s && (q - 1.0) * p == s - p && (-q) * p == -s;
    if s > p && q <= 1.0 {
      ProductNonNegative(1.0 - q, p);
    }
    if s <= p && q > 1.0 {
      ProductPositive(q - 1.0, p);
    }
    if q <= 0.0 {
      ProductNonNegative(-q, p);
    }
  }

  /** A scale up to the page's largest is decoded within 1/254 of it; a larger one as the largest itself. */
  lemma TwoLevelError(scale: real, pageMax: real)
    requires scale > 0.0 && pageMax > 0.0
    ensures scale <= pageMax ==> Abs(Decoded(scale, pageMax) - scale) <= pageMax * (0.5 / 127.0)
    ensures scale > pageMax ==> Decoded(scale, pageMax) == pageMax
  {
    var r := scale / pageMax;
    RatioBounds(scale, pageMax);
    RoundedWithin(r * 127.0);
    if scale <= pageMax {
      var q := ScaleCode(scale, pageMax);
      assert q == Rounded(r * 127.0);
      ScaledPart(scale, pageMax);
      TimesBelow(pageMax, q as real / 127.0, r * 127.0 / 127.0, 0.5 / 127.0);
      hide Times, Rounded;
    } else {
      assert ScaleCode(scale, pageMax) == 127;
      assert pageMax * (127.0 / 127.0) == pageMax;
    }
  }

  // ---- the page ----

  function OutlierCount(frac: real, n: nat): (k: nat)
    ensures k <= n
  {
    if frac <= 0.0 then 0
    else
      var k := Rounded(Times(frac, n as real));
      if k < 0 then 0 else if k < n then k else n
  }

  /** bf16 rounding keeps scales positive. */
  ghost predicate KeepsPositive(bf16: real -> real) {
    forall x :: x >= FLOOR ==> bf16(x) > 0.0
  }

  /** The scale lane l is finally decoded with. */
  ghost function FinalScale(cfg: Config, page: Page, rng: nat, bf16: real -> real): int -> real
    requires page.Valid() && KeepsPositive(bf16)
  {
    PageMaxPositive(cfg, page, rng, bf16);
    l => if 0 <= l < page.Lanes() then
           var s := Stored(cfg, page, rng, bf16, l);
           if cfg.scale.LaneTwoLevelInt8? then Decoded(s, PageMax(cfg, page, rng, bf16)) else s
         else 0.0
  }

  ghost function StoredScale(cfg: Config, page: Page, rng: nat, bf16: real -> real): int -> real
    requires page.Valid()
  {
    l => if 0 <= l < page.Lanes() then Stored(cfg, page, rng, bf16, l) else 0.0
  }

  lemma PageMaxPositive(cfg: Config, page: Page, rng: nat, bf16: real -> real)
    requires page.Valid() && KeepsPositive(bf16)
    ensures PageMax(cfg, page, rng, bf16) > 0.0
  {
    hide LargestScale;
  }

  lemma LaneTrits(cfg: Config, page: Page, rng: nat, l: nat)
    requires page.Valid() && l < page.Lanes()
    ensures 20 * l <= page.Hi(l)
      && RoundedLane(cfg, page, rng, l).trits == PageTrits(cfg, page, rng)[20 * l..page.Hi(l)]
  {
    hide RoundedLane, Page.Weights;
    forall i | 20 * l <= i < page.Hi(l)
      ensures RoundedLane(cfg, page, rng, l).trits[i - 20 * l] == PageTrits(cfg, page, rng)[i]
    {
      assert i / 20 == l && i % 20 == i - 20 * l;
    }
  }

  lemma {:induction false} WalkTrits(cfg: Config, lane: Lane, rng: nat, n: nat)
    requires lane.Valid() && n <= |lane.w|
    ensures Trits(After(cfg, lane, rng, n).trits)
  {
    hide TritOf, Value, Drawn, Carried;
    if n > 0 {
      WalkTrits(cfg, lane, rng, n - 1);
    }
  }

  lemma PageTritsAreTrits(cfg: Config, page: Page, rng: nat)
    requires page.Valid()
    ensures Trits(PageTrits(cfg, page, rng))
  {
    forall i | 0 <= i < |page.w| ensures IsTrit(TritAt(cfg, page, rng, i)) {
      InLane(page, i);
      WalkTrits(cfg, LaneOf(cfg, page, i / 20), StateAt(cfg, page, rng, i / 20), |page.Weights(i / 20)|);
      hide After, LaneOf, StateAt;
      assert RoundedLane(cfg, page, rng, i / 20).trits[i % 20] == TritAt(cfg, page, rng, i);
    }
    hide TritAt;
  }

  /** The extraction step. */
  method Extract(w: seq<real>, frac: real, bf16: real -> real) returns (page: Page, recon: array<real>)
    ensures page.Valid() && page.w == w && TopK(w, OutlierCount(frac, |w|), page.ex)
    ensures fresh(recon) && recon.Length == |w|
    ensures forall i :: 0 <= i < |w| ==> recon[i] == if page.ex[i] then bf16(w[i]) else 0.0
  {
    recon := new real[|w|](_ => 0.0);
    var k := OutlierCount(frac, |w|);
    hide OutlierCount;
    if k > 0 {
      var ex := ExtractOutliers(w, k, bf16, recon);
      page := Page(w, ex[..]);
    } else {
      page := Page(w, seq(|w|, _ => false));
      AllLive(page.ex, |w|);
    }
  }

  /** What the page's reconstruction is. */
  ghost predicate Reconstructed(cfg: Config, page: Page, rng: nat, bf16: real -> real, recon: seq<real>)
    requires page.Valid() && KeepsPositive(bf16)
  {
    && |recon| == |page.w|
    && forall i :: 0 <= i < |recon| ==>
      recon[i] == Element(page, PageTrits(cfg, page, rng), bf16, FinalScale(cfg, page, rng, bf16)(i / 20), i)
  }

  /** How far the lanes before l reach. */
  function Reach(page: Page, l: nat): nat {
    if l < page.Lanes() then 20 * l else |page.w|
  }

  /** The stored scales of the first n lanes. */
  ghost predicate Scales(cfg: Config, page: Page, rng: nat, bf16: real -> real, scales: seq<real>, n: nat)
    requires page.Valid()
  {
    |scales| == n <= page.Lanes() && forall l :: 0 <= l < n ==> scales[l] == Stored(cfg, page, rng, bf16, l)
  }

  /** State of the lane loop before lane l. */
  ghost predicate LanesDone(cfg: Config, page: Page, start: nat, bf16: real -> real, state: nat, scales: seq<real>,
                            recon: seq<real>, l: nat)
    requires page.Valid()
  {
    && Scales(cfg, page, start, bf16, scales, l) && state == StateAt(cfg, page, start, l)
    && Holds(page, PageTrits(cfg, page, start), bf16, StoredScale(cfg, page, start, bf16), _ => 0.0,
             recon, Reach(page, l))
  }

  method LaneStep(cfg: Config, page: Page, l: nat, globalScale: real, bf16: real -> real, rng: Lcg, recon: array<real>,
                  scales: seq<real>, ghost start: nat) returns (more: seq<real>)
    requires page.Valid() && l < page.Lanes() && globalScale == GlobalScale(cfg, page)
    requires LanesDone(cfg, page, start, bf16, rng.state, scales, recon[..], l)
    modifies rng, recon
    ensures LanesDone(cfg, page, start, bf16, rng.state, more, recon[..], l + 1)
  {
    ghost var done := StoredScale(cfg, page, start, bf16);
    StoredAt(cfg, page, start, bf16, l);
    assert Reach(page, l) == 20 * l;
    assert Scales(cfg, page, start, bf16, scales, l) && rng.state == StateAt(cfg, page, start, l);
    assert Holds(page, PageTrits(cfg, page, start), bf16, done, _ => 0.0, recon[..], 20 * l);
    hide *;
    var trit, used := QuantizeLane(cfg, page, l, globalScale, bf16, rng, start);
    LaneTrits(cfg, page, start, l);
    FillLane(page, l, trit, used, bf16, recon, PageTrits(cfg, page, start), done);
    more := scales + [used];
    LaneFinished(cfg, page, start, bf16, rng.state, scales, used, recon[..], l);
  }

  lemma StoredAt(cfg: Config, page: Page, start: nat, bf16: real -> real, l: nat)
    requires page.Valid() && l < page.Lanes()
    ensures StoredScale(cfg, page, start, bf16)(l) == Stored(cfg, page, start, bf16, l)
  {
    hide Stored;
  }

  lemma LaneFinished(cfg: Config, page: Page, start: nat, bf16: real -> real, state: nat, scales: seq<real>, used: real,
                     recon: seq<real>, l: nat)
    requires page.Valid() && l < page.Lanes() && Scales(cfg, page, start, bf16, scales, l)
    requires used == Stored(cfg, page, start, bf16, l) && state == StateAt(cfg, page, start, l + 1)
    requires Holds(page, PageTrits(cfg, page, start), bf16, StoredScale(cfg, page, start, bf16), _ => 0.0,
                   recon, page.Hi(l))
    ensures LanesDone(cfg, page, start, bf16, state, scales + [used], recon, l + 1)
  {
    LaneEnd(page, l);
    hide Stored, StateAt, Holds, PageTrits, StoredScale;
  }

  /** The lane loop. */
  method QuantizeLanes(cfg: Config, page: Page, bf16: real -> real, rng: Lcg, recon: array<real>)
    returns (scales: seq<real>)
    requires page.Valid() && LanesDone(cfg, page, rng.state, bf16, rng.state, [], recon[..], 0)
    modifies rng, recon
    ensures LanesDone(cfg, page, old(rng.state), bf16, rng.state, scales, recon[..], page.Lanes())
  {
    ghost var start := rng.state;
    hide LanesDone, GlobalScale;
    var globalScale := PageScale(cfg, page);
    scales := [];
    for l := 0 to page.Lanes()
      invariant LanesDone(cfg, page, start, bf16, rng.state, scales, recon[..], l)
    {
      scales := LaneStep(cfg, page, l, globalScale, bf16, rng, recon, scales, start);
    }
  }

  /** Largest stored scale, rounded for storage. */
  method PageMaximum(cfg: Config, page: Page, bf16: real -> real, scales: seq<real>, ghost start: nat) returns (m: real)
    requires page.Valid() && Scales(cfg, page, start, bf16, scales, page.Lanes())
    ensures m == PageMax(cfg, page, start, bf16)
  {
    hide Stored;
    var largest := 0.0;
    for l := 0 to page.Lanes()
      invariant largest == LargestScale(cfg, page, start, bf16, l)
    {
      largest := Max(largest, scales[l]);
    }
    m := bf16(Max(largest, FLOOR));
  }

  lemma StoredPositive(cfg: Config, page: Page, rng: nat, bf16: real -> real, l: nat)
    requires page.Valid() && l < page.Lanes() && cfg.scale.LaneTwoLevelInt8?
    ensures Stored(cfg, page, rng, bf16, l) > 0.0
  {
  }

  /** The re-encoding pass of the two-level form. */
  method RecodeLanes(cfg: Config, page: Page, bf16: real -> real, scales: seq<real>, recon: array<real>,
                     ghost start: nat)
    requires page.Valid() && KeepsPositive(bf16) && cfg.scale.LaneTwoLevelInt8?
    requires Scales(cfg, page, start, bf16, scales, page.Lanes())
    requires Holds(page, PageTrits(cfg, page, start), bf16, FinalScale(cfg, page, start, bf16),
                   StoredScale(cfg, page, start, bf16), recon[..], 0)
    modifies recon
    ensures Holds(page, PageTrits(cfg, page, start), bf16, FinalScale(cfg, page, start, bf16),
                  StoredScale(cfg, page, start, bf16),
                  recon[..], Reach(page, page.Lanes()))
  {
    ghost var trits, done, rest :=
      PageTrits(cfg, page, start), FinalScale(cfg, page, start, bf16), StoredScale(cfg, page, start, bf16);
    PageTritsAreTrits(cfg, page, start);
    var pageMax := PageMaximum(cfg, page, bf16, scales, start);
    PageMaxPositive(cfg, page, start, bf16);
    EmptyPage(page);
    hide Holds, PageTrits, PageMax, Page.Lanes, Reach;
    for l := 0 to page.Lanes()
      invariant Holds(page, trits, bf16, done, rest, recon[..], Reach(page, l))
    {
      RecodeStep(cfg, page, l, bf16, scales[l], pageMax, recon, start);
    }
  }

  lemma EmptyPage(page: Page)
    ensures Reach(page, 0) == 0
    ensures forall l {:trigger Reach(page, l)} :: 0 <= l < page.Lanes() ==> Reach(page, l) == 20 * l
  {
  }

  method RecodeStep(cfg: Config, page: Page, l: nat, bf16: real -> real, scale: real, pageMax: real,
                    recon: array<real>, ghost start: nat)
    requires page.Valid() && KeepsPositive(bf16) && cfg.scale.LaneTwoLevelInt8? && l < page.Lanes()
    requires scale == Stored(cfg, page, start, bf16, l) && pageMax == PageMax(cfg, page, start, bf16)
    requires Holds(page, PageTrits(cfg, page, start), bf16, FinalScale(cfg, page, start, bf16),
                   StoredScale(cfg, page, start, bf16),
                   recon[..], Reach(page, l))
    modifies recon
    ensures Holds(page, PageTrits(cfg, page, start), bf16, FinalScale(cfg, page, start, bf16),
                  StoredScale(cfg, page, start, bf16),
                  recon[..], Reach(page, l + 1))
  {
    ghost var done, rest := FinalScale(cfg, page, start, bf16), StoredScale(cfg, page, start, bf16);
    PageMaxPositive(cfg, page, start, bf16);
    StoredPositive(cfg, page, start, bf16, l);
    PageTritsAreTrits(cfg, page, start);
    hide Decoded, PageMax, Stored;
    assert done(l) == Decoded(scale, pageMax) && rest(l) == scale;
    LaneEnd(page, l);
    hide Holds, PageTrits, FinalScale, StoredScale;
    RecodeLane(page, l, Decoded(scale, pageMax), bf16, recon, PageTrits(cfg, page, start), done, rest);
  }

  lemma NothingDone(cfg: Config, page: Page, rng: nat, bf16: real -> real, recon: seq<real>)
    requires page.Valid() && |recon| == |page.w|
    requires forall i :: 0 <= i < |recon| ==> recon[i] == if page.ex[i] then bf16(page.w[i]) else 0.0
    ensures LanesDone(cfg, page, rng, bf16, rng, [], recon, 0)
  {
    hide Stored, StoredScale, PageTrits, Value;
    forall i | 0 <= i < |recon| ensures recon[i] == Element(page, PageTrits(cfg, page, rng), bf16, 0.0, i) {
      NoValue(PageTrits(cfg, page, rng)[i]);
    }
  }

  /** One pass done is the next pass not begun. */
  lemma NextPass(page: Page, trits: seq<int>, bf16: real -> real, first: int -> real, second: int -> real,
                 recon: seq<real>)
    requires page.Valid() && |trits| == |page.w|
      && Holds(page, trits, bf16, first, _ => 0.0, recon, Reach(page, page.Lanes()))
    ensures Holds(page, trits, bf16, second, first, recon, 0)
  {
    hide Element;
  }

  lemma PassDone(cfg: Config, page: Page, rng: nat, bf16: real -> real, rest: int -> real, recon: seq<real>)
    requires page.Valid() && KeepsPositive(bf16)
    requires Holds(page, PageTrits(cfg, page, rng), bf16, FinalScale(cfg, page, rng, bf16), rest,
                   recon, Reach(page, page.Lanes()))
    ensures Reconstructed(cfg, page, rng, bf16, recon)
  {
    hide Element, PageTrits, FinalScale;
  }

  lemma SameScales(cfg: Config, page: Page, rng: nat, bf16: real -> real, recon: seq<real>)
    requires page.Valid() && KeepsPositive(bf16) && !cfg.scale.LaneTwoLevelInt8?
    requires Holds(page, PageTrits(cfg, page, rng), bf16, StoredScale(cfg, page, rng, bf16), _ => 0.0,
                   recon, Reach(page, page.Lanes()))
    ensures Reconstructed(cfg, page, rng, bf16, recon)
  {
    hide Element, PageTrits, Stored;
    assert forall l :: StoredScale(cfg, page, rng, bf16)(l) == FinalScale(cfg, page, rng, bf16)(l);
    hide FinalScale, StoredScale;
  }

  /** Quantises one page: outliers, lanes in order, and the two-level code if asked for. */
  method QuantizePage(w: seq<real>, cfg: Config, bf16: real -> real, rng: Lcg) returns (recon: array<real>, page: Page)
    requires KeepsPositive(bf16)
    modifies rng
    ensures page.Valid() && page.w == w && TopK(w, OutlierCount(cfg.outlierFrac, |w|), page.ex)
    ensures Reconstructed(cfg, page, old(rng.state), bf16, recon[..])
    ensures rng.state == StateAt(cfg, page, old(rng.state), page.Lanes())
  {
    ghost var start := rng.state;
    hide OutlierCount, TopK, Stored, Holds, Reconstructed, FinalScale, StoredScale, PageTrits, StateAt;
    page, recon := Extract(w, cfg.outlierFrac, bf16);
    NothingDone(cfg, page, start, bf16, recon[..]);
    var scales := QuantizeLanes(cfg, page, bf16, rng, recon);
    if cfg.scale.LaneTwoLevelInt8? {
      NextPass(page, PageTrits(cfg, page, start), bf16, StoredScale(cfg, page, start, bf16),
               FinalScale(cfg, page, start, bf16), recon[..]);
      RecodeLanes(cfg, page, bf16, scales, recon, start);
      PassDone(cfg, page, start, bf16, StoredScale(cfg, page, start, bf16), recon[..]);
    } else {
      SameScales(cfg, page, start, bf16, recon[..]);
    }
  }

  /** Inside a page, with per-lane scales: every lane's carry keeps the bound, from any random state. */
  lemma PageCarryBound(cfg: Config, page: Page, rng: nat, l: nat, b: nat)
    requires page.Valid() && l < page.Lanes() && b <= |page.Weights(l)|
    requires cfg.diffuse && cfg.round.DeadzoneAbsmean? && !cfg.scale.GlobalBf16?
    ensures var gamma := Absmean(page.Weights(l), page.Mask(l));
      Abs(After(cfg, LaneOf(cfg, page, l), StateAt(cfg, page, rng, l), b).carry) <= Slack(cfg.tau, gamma) + 19.0 * gamma
  {
    hide After, Absmean, Slack, StateAt;
    LaneCarryBound(cfg, LaneOf(cfg, page, l), StateAt(cfg, page, rng, l), b);
  }

  /** What couples a lane to the rest of its page: nothing with per-lane bf16 scales, the page-wide scale, or the
      page's largest scale under the two-level code. */
  predicate SameCoupling(cfg: Config, p: Page, p': Page, rng: nat, bf16: real -> real)
    requires p.Valid() && p'.Valid()
  {
    match cfg.scale
    case GlobalBf16 => GlobalScale(cfg, p) == GlobalScale(cfg, p')
    case LaneBf16 => true
    case LaneTwoLevelInt8 => PageMax(cfg, p, rng, bf16) == PageMax(cfg, p', rng, bf16)
  }

  /** Two pages with the same outliers and coupling that agree in lane l: the reconstructions agree there too. */
  lemma ReconIsolation(cfg: Config, p: Page, p': Page, rng: nat, bf16: real -> real, recon: seq<real>,
                       recon': seq<real>, i: nat)
    requires p.Valid() && p'.Valid() && p.ex == p'.ex && KeepsPositive(bf16) && SameCoupling(cfg, p, p', rng, bf16)
    requires Reconstructed(cfg, p, rng, bf16, recon) && Reconstructed(cfg, p', rng, bf16, recon')
    requires i < |p.w| && i / 20 < p.Lanes() && p.Weights(i / 20) == p'.Weights(i / 20)
    ensures recon[i] == recon'[i]
  {
    var l := i / 20;
    SameWeight(p, p', i);
    ElementOf(cfg, p, rng, bf16, recon, i);
    ElementOf(cfg, p', rng, bf16, recon', i);
    SameFinalScale(cfg, p, p', rng, bf16, l);
    hide *;
    TritIn(cfg, p, rng, i);
    TritIn(cfg, p', rng, i);
    SameElement(p, p', PageTrits(cfg, p, rng), PageTrits(cfg, p', rng), bf16, FinalScale(cfg, p, rng, bf16)(l), i);
  }

  lemma SameFinalScale(cfg: Config, p: Page, p': Page, rng: nat, bf16: real -> real, l: nat)
    requires p.Valid() && p'.Valid() && p.ex == p'.ex && KeepsPositive(bf16) && SameCoupling(cfg, p, p', rng, bf16)
    requires l < p.Lanes() && p.Weights(l) == p'.Weights(l)
    ensures RoundedLane(cfg, p, rng, l) == RoundedLane(cfg, p', rng, l)
    ensures FinalScale(cfg, p, rng, bf16)(l) == FinalScale(cfg, p', rng, bf16)(l)
  {
    hide RoundedLane, Stored, PageMax, GlobalScale, Decoded;
    LaneIsolation(cfg, p, p', rng, bf16, l);
  }

  lemma SameWeight(p: Page, p': Page, i: nat)
    requires p.Valid() && p'.Valid() && p.ex == p'.ex
    requires i < |p.w| && i / 20 < p.Lanes() && p.Weights(i / 20) == p'.Weights(i / 20)
    ensures i < |p'.w| && i / 20 < p'.Lanes() && p.w[i] == p'.w[i] && p.ex[i] == p'.ex[i]
  {
    InLane(p, i);
    assert p.w[i] == p.Weights(i / 20)[i % 20] && p'.w[i] == p'.Weights(i / 20)[i % 20];
  }

  lemma ElementOf(cfg: Config, p: Page, rng: nat, bf16: real -> real, recon: seq<real>, i: nat)
    requires p.Valid() && KeepsPositive(bf16) && Reconstructed(cfg, p, rng, bf16, recon) && i < |p.w|
    ensures i < |recon|
    ensures recon[i] == Element(p, PageTrits(cfg, p, rng), bf16, FinalScale(cfg, p, rng, bf16)(i / 20), i)
  {
    hide PageTrits, FinalScale, Element;
  }

  lemma TritIn(cfg: Config, p: Page, rng: nat, i: nat)
    requires p.Valid() && i < |p.w|
    ensures i / 20 < p.Lanes() && i % 20 < |RoundedLane(cfg, p, rng, i / 20).trits|
    ensures PageTrits(cfg, p, rng)[i] == RoundedLane(cfg, p, rng, i / 20).trits[i % 20]
  {
    InLane(p, i);
    hide RoundedLane;
  }

  lemma SameElement(p: Page, p': Page, t: seq<int>, t': seq<int>, bf16: real -> real, s: real, i: nat)
    requires p.Valid() && p'.Valid() && i < |p.w| == |t| && i < |p'.w| == |t'|
    requires p.ex[i] == p'.ex[i] && p.w[i] == p'.w[i] && t[i] == t'[i]
    ensures Element(p, t, bf16, s, i) == Element(p', t', bf16, s, i)
  {
  }

  lemma LaneEnd(page: Page, l: nat)
    requires l < page.Lanes()
    ensures page.Hi(l) == if l + 1 < page.Lanes() then 20 * (l + 1) else |page.w|
  {
  }
}
