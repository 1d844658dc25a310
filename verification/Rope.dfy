/** Rotary position embedding, in place, in its two pairing conventions. */
module Rope {

  datatype Convention = Interleaved | HalfSplit

  /** The two positions pair i rotates. */
  function First(conv: Convention, half: nat, i: nat): nat {
    if conv.Interleaved? then 2 * i else i
  }

  function Second(conv: Convention, half: nat, i: nat): nat {
    if conv.Interleaved? then 2 * i + 1 else i + half
  }

  /** The pair position p belongs to. */
  function PairIndex(conv: Convention, half: nat, p: nat): nat {
    if conv.Interleaved? then p / 2 else if p < half then p else p - half
  }

  function RotateFirst(x0: real, x1: real, cos: real, sin: real): real {
    x0 * cos - x1 * sin
  }

  function RotateSecond(x0: real, x1: real, cos: real, sin: real): real {
    x0 * sin + x1 * cos
  }

  lemma PairInside(conv: Convention, half: nat, p: nat)
    requires p < 2 * half
    ensures var i := PairIndex(conv, half, p);
      i < half && First(conv, half, i) < 2 * half && Second(conv, half, i) < 2 * half
  {
  }

  /** What position p becomes. */
  function RotatedAt(s: seq<real>, half: nat, cos: int -> real, sin: int -> real, conv: Convention, p: nat): real
    requires 2 * half <= |s| && p < |s|
  {
    if p >= 2 * half then s[p]
    else
      PairInside(conv, half, p);
      var i := PairIndex(conv, half, p);
      var x0, x1 := s[First(conv, half, i)], s[Second(conv, half, i)];
      if p == First(conv, half, i) then RotateFirst(x0, x1, cos(i), sin(i)) else RotateSecond(x0, x1, cos(i), sin(i))
  }

  function Rotated(s: seq<real>, half: nat, cos: int -> real, sin: int -> real, conv: Convention): (r: seq<real>)
    requires 2 * half <= |s|
    ensures |r| == |s|
  {
    seq(|s|, p requires 0 <= p < |s| => RotatedAt(s, half, cos, sin, conv, p))
  }

  /** The first n pairs are rotated. */
  ghost predicate PairsDone(was: seq<real>, s: seq<real>, half: nat, cos: int -> real, sin: int -> real,
                            conv: Convention, n: nat) {
    && |s| == |was| && 2 * half <= |was| && n <= half
    && forall p :: 0 <= p < |s| ==>
      s[p] == if p < 2 * half && PairIndex(conv, half, p) < n then RotatedAt(was, half, cos, sin, conv, p) else was[p]
  }

  lemma PairPositions(conv: Convention, half: nat, n: nat)
    requires n < half
    ensures var ia, ib := First(conv, half, n), Second(conv, half, n);
      && ia < 2 * half && ib < 2 * half && ia != ib && PairIndex(conv, half, ia) == n && PairIndex(conv, half, ib) == n
      && forall p :: 0 <= p < 2 * half && p != ia && p != ib ==> PairIndex(conv, half, p) != n
  {
  }

  lemma PairDone(was: seq<real>, s: seq<real>, half: nat, cos: int -> real, sin: int -> real, conv: Convention, n: nat)
    requires PairsDone(was, s, half, cos, sin, conv, n) && n < half
    ensures var ia, ib := First(conv, half, n), Second(conv, half, n);
      && ia < |s| && ib < |s| && ia != ib
      && PairsDone(was, s[ia := RotateFirst(s[ia], s[ib], cos(n), sin(n))]
                   [ib := RotateSecond(s[ia], s[ib], cos(n), sin(n))],
                   half, cos, sin, conv, n + 1)
  {
    PairPositions(conv, half, n);
    var ia, ib := First(conv, half, n), Second(conv, half, n);
    hide RotateFirst, RotateSecond, First, Second, PairIndex;
    assert RotatedAt(was, half, cos, sin, conv, ia) == RotateFirst(was[ia], was[ib], cos(n), sin(n));
    assert RotatedAt(was, half, cos, sin, conv, ib) == RotateSecond(was[ia], was[ib], cos(n), sin(n));
    hide RotatedAt;
  }

  /** The rotation loop, for an angle's cosine and sine per pair. */
  method RopeApply(head: array<real>, ropeDim: nat, cos: int -> real, sin: int -> real, conv: Convention)
    requires ropeDim <= head.Length && ropeDim % 2 == 0
    modifies head
    ensures head[..] == Rotated(old(head[..]), ropeDim / 2, cos, sin, conv)
  {
    var half := ropeDim / 2;
    ghost var was := head[..];
    hide RotatedAt;
    for i := 0 to half
      invariant PairsDone(was, head[..], half, cos, sin, conv, i)
    {
      ghost var s := head[..];
      PairDone(was, s, half, cos, sin, conv, i);
      hide PairsDone, RotateFirst, RotateSecond;
      var ia, ib := First(conv, half, i), Second(conv, half, i);
      var x0, x1 := head[ia], head[ib];
      head[ia] := RotateFirst(x0, x1, cos(i), sin(i));
      head[ib] := RotateSecond(x0, x1, cos(i), sin(i));
      assert head[..] == s[ia := head[ia]][ib := head[ib]];
    }
  }

  /** Where the half-split convention keeps what the interleaved one has at p. */
  function Place(half: nat, p: nat): nat {
    if p >= 2 * half then p else if p % 2 == 0 then p / 2 else p / 2 + half
  }

  lemma PlaceIsPermutation(half: nat, n: nat, p: nat, q: nat)
    requires 2 * half <= n && p < n && q < n
    ensures Place(half, p) < n && (Place(half, p) == Place(half, q) ==> p == q)
  {
  }

  /** s, rearranged for the half-split convention. */
  ghost predicate Rearranged(s: seq<real>, t: seq<real>, half: nat) {
    && |s| == |t| && 2 * half <= |s|
    && forall p :: 0 <= p < |s| ==> Place(half, p) < |t| && t[Place(half, p)] == s[p]
  }

  lemma PlacePairs(half: nat, p: nat)
    requires p < 2 * half
    ensures var i := PairIndex(Interleaved, half, p);
      && i < half && Place(half, p) < 2 * half && PairIndex(HalfSplit, half, Place(half, p)) == i
      && Place(half, First(Interleaved, half, i)) == First(HalfSplit, half, i)
      && Place(half, Second(Interleaved, half, i)) == Second(HalfSplit, half, i)
      && (p == First(Interleaved, half, i) <==> Place(half, p) == First(HalfSplit, half, i))
  {
  }

  lemma ConjugateAt(s: seq<real>, t: seq<real>, half: nat, cos: int -> real, sin: int -> real, p: nat)
    requires Rearranged(s, t, half) && p < |s|
    ensures Place(half, p) < |t|
    ensures RotatedAt(t, half, cos, sin, HalfSplit, Place(half, p)) == RotatedAt(s, half, cos, sin, Interleaved, p)
  {
    hide RotateFirst, RotateSecond;
    if p < 2 * half {
      PlacePairs(half, p);
      PairInside(Interleaved, half, p);
      hide First, Second, PairIndex, Place;
    }
  }

  /** The two conventions are one rotation, conjugated by the rearrangement. */
  lemma Conjugate(s: seq<real>, t: seq<real>, half: nat, cos: int -> real, sin: int -> real)
    requires Rearranged(s, t, half)
    ensures Rearranged(Rotated(s, half, cos, sin, Interleaved), Rotated(t, half, cos, sin, HalfSplit), half)
  {
    hide RotatedAt, Place;
    forall p | 0 <= p < |s|
      ensures Place(half, p) < |t|
      ensures RotatedAt(t, half, cos, sin, HalfSplit, Place(half, p)) == RotatedAt(s, half, cos, sin, Interleaved, p)
    {
      ConjugateAt(s, t, half, cos, sin, p);
    }
  }

  /** Undoing a rotation: the same loop with the sines negated. */
  lemma PairUndone(x0: real, x1: real, cos: real, sin: real)
    requires cos * cos + sin * sin == 1.0
    ensures var a, b := RotateFirst(x0, x1, cos, sin), RotateSecond(x0, x1, cos, sin);
      RotateFirst(a, b, cos, -sin) == x0 && RotateSecond(a, b, cos, -sin) == x1
  {
    var a, b := RotateFirst(x0, x1, cos, sin), RotateSecond(x0, x1, cos, sin);
    var n := cos * cos + sin * sin;
    assert a * cos - b * -sin == x0 * n;
    assert a * -sin + b * cos == x1 * n;
  }

  /** Rotating back restores every position, in either convention. */
  lemma RotationUndone(s: seq<real>, half: nat, cos: int -> real, sin: int -> real, conv: Convention)
    requires 2 * half <= |s| && forall i :: 0 <= i < half ==> cos(i) * cos(i) + sin(i) * sin(i) == 1.0
    ensures Rotated(Rotated(s, half, cos, sin, conv), half, cos, i => -sin(i), conv) == s
  {
    var r := Rotated(s, half, cos, sin, conv);
    var back := (i: int) => -sin(i);
    hide Rotated;
    forall p | 0 <= p < |s| ensures RotatedAt(r, half, cos, back, conv, p) == s[p] {
      UndoneAt(s, half, cos, sin, conv, p);
    }
    UndoneAll(s, r, half, cos, sin, conv);
  }

  lemma UndoneAll(s: seq<real>, r: seq<real>, half: nat, cos: int -> real, sin: int -> real, conv: Convention)
    requires 2 * half <= |s| == |r|
      && forall p :: 0 <= p < |s| ==> RotatedAt(r, half, cos, i => -sin(i), conv, p) == s[p]
    ensures Rotated(r, half, cos, i => -sin(i), conv) == s
  {
    hide RotatedAt;
  }

  lemma UndoneAt(s: seq<real>, half: nat, cos: int -> real, sin: int -> real, conv: Convention, p: nat)
    requires 2 * half <= |s| && p < |s| && forall i :: 0 <= i < half ==> cos(i) * cos(i) + sin(i) * sin(i) == 1.0
    ensures RotatedAt(Rotated(s, half, cos, sin, conv), half, cos, i => -sin(i), conv, p) == s[p]
  {
    if p < 2 * half {
      PairInside(conv, half, p);
      var i := PairIndex(conv, half, p);
      PairPositions(conv, half, i);
      PairOf(s, half, cos, sin, conv, i);
      PairUndone(s[First(conv, half, i)], s[Second(conv, half, i)], cos(i), sin(i));
      hide RotateFirst, RotateSecond, First, Second, PairIndex, Rotated;
    }
  }

  lemma PairOf(s: seq<real>, half: nat, cos: int -> real, sin: int -> real, conv: Convention, i: nat)
    requires 2 * half <= |s| && i < half
    ensures var r, ia, ib := Rotated(s, half, cos, sin, conv), First(conv, half, i), Second(conv, half, i);
      && ia < 2 * half && ib < 2 * half
      && r[ia] == RotateFirst(s[ia], s[ib], cos(i), sin(i)) && r[ib] == RotateSecond(s[ia], s[ib], cos(i), sin(i))
  {
    PairPositions(conv, half, i);
    hide RotateFirst, RotateSecond, First, Second, PairIndex;
  }

  // ---- which way it turns ----

  /** Pair i, at positions 2 * i and 2 * i + 1 or at i and i + half, is turned from its first position toward its
      second: (1, 0) becomes (cos, sin), (0, 1) becomes (-sin, cos), and every other pair is the sum of its parts. */
  lemma PairTurned(s: seq<real>, half: nat, cos: int -> real, sin: int -> real, conv: Convention, i: nat)
    requires 2 * half <= |s| && i < half
    ensures var r := Rotated(s, half, cos, sin, conv);
      var a, b := if conv.Interleaved? then 2 * i else i, if conv.Interleaved? then 2 * i + 1 else i + half;
      && (s[a] == 1.0 && s[b] == 0.0 ==> r[a] == cos(i) && r[b] == sin(i))
      && (s[a] == 0.0 && s[b] == 1.0 ==> r[a] == -sin(i) && r[b] == cos(i))
      && r[a] == s[a] * cos(i) - s[b] * sin(i) && r[b] == s[a] * sin(i) + s[b] * cos(i)
  {
    PairOf(s, half, cos, sin, conv, i);
    hide Rotated;
  }

  /** Two turns of a pair are one turn by the sum of the angles. */
  lemma TurnsAdd(x0: real, x1: real, c: real, s: real, c': real, s': real)
    ensures var a, b := RotateFirst(x0, x1, c, s), RotateSecond(x0, x1, c, s);
      && RotateFirst(a, b, c', s') == RotateFirst(x0, x1, c * c' - s * s', s * c' + c * s')
      && RotateSecond(a, b, c', s') == RotateSecond(x0, x1, c * c' - s * s', s * c' + c * s')
  {
    assert (x0 * c - x1 * s) * c' == x0 * (c * c') - x1 * (s * c');
    assert (x0 * s + x1 * c) * s' == x0 * (s * s') + x1 * (c * s');
    assert (x0 * c - x1 * s) * s' == x0 * (c * s') - x1 * (s * s');
    assert (x0 * s + x1 * c) * c' == x0 * (s * c') + x1 * (c * c');
    assert x0 * (c * c' - s * s') == x0 * (c * c') - x0 * (s * s');
    assert x1 * (s * c' + c * s') == x1 * (s * c') + x1 * (c * s');
    assert x0 * (s * c' + c * s') == x0 * (s * c') + x0 * (c * s');
    assert x1 * (c * c' - s * s') == x1 * (c * c') - x1 * (s * s');
  }

  lemma TurnedAt(s: seq<real>, half: nat, cos: int -> real, sin: int -> real, cos': int -> real, sin': int -> real,
                 conv: Convention, p: nat)
    requires 2 * half <= |s| && p < |s|
    ensures RotatedAt(Rotated(s, half, cos, sin, conv), half, cos', sin', conv, p)
         == RotatedAt(s, half, i => cos(i) * cos'(i) - sin(i) * sin'(i), i => sin(i) * cos'(i) + cos(i) * sin'(i),
                      conv, p)
  {
    if p < 2 * half {
      PairInside(conv, half, p);
      var i := PairIndex(conv, half, p);
      PairPositions(conv, half, i);
      PairOf(s, half, cos, sin, conv, i);
      TurnsAdd(s[First(conv, half, i)], s[Second(conv, half, i)], cos(i), sin(i), cos'(i), sin'(i));
      hide RotateFirst, RotateSecond, First, Second, PairIndex, Rotated;
    }
  }

  /** Rotating twice is rotating once by the sum of the angles, in either convention. */
  lemma RotationsAdd(s: seq<real>, half: nat, cos: int -> real, sin: int -> real, cos': int -> real, sin': int -> real,
                     conv: Convention)
    requires 2 * half <= |s|
    ensures Rotated(Rotated(s, half, cos, sin, conv), half, cos', sin', conv)
         == Rotated(s, half, i => cos(i) * cos'(i) - sin(i) * sin'(i), i => sin(i) * cos'(i) + cos(i) * sin'(i), conv)
  {
    hide RotatedAt;
    var c, d := (i: int) => cos(i) * cos'(i) - sin(i) * sin'(i), (i: int) => sin(i) * cos'(i) + cos(i) * sin'(i);
    var r := Rotated(s, half, cos, sin, conv);
    forall p | 0 <= p < |s| ensures RotatedAt(r, half, cos', sin', conv, p) == RotatedAt(s, half, c, d, conv, p) {
      TurnedAt(s, half, cos, sin, cos', sin', conv, p);
    }
    assert Rotated(s, half, c, d, conv)
        == Rotated(s, half, i => cos(i) * cos'(i) - sin(i) * sin'(i), i => sin(i) * cos'(i) + cos(i) * sin'(i), conv);
  }
}
