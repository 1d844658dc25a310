/** Softmax-weighted averages over exact reals. The exponential is a parameter known only by its
    laws: it is positive and turns sums into products. */
module Softmax {
  import opened Sums

  ghost predicate ExpPositive(exp: real -> real, a: real) {
    exp(a) > 0.0
  }

  ghost predicate ExpAdds(exp: real -> real, a: real, b: real) {
    exp(a + b) == exp(a) * exp(b)
  }

  ghost predicate IsExp(exp: real -> real) {
    (forall a :: ExpPositive(exp, a)) && (forall a, b :: ExpAdds(exp, a, b))
  }

  lemma NormaliserPositive(exp: real -> real, n: nat, s: int -> real)
    requires IsExp(exp) && n > 0
    ensures Sum(n, j => exp(s(j))) > 0.0
  {
    var f := j => exp(s(j));
    forall i ensures f(i) > 0.0 {
      assert ExpPositive(exp, s(i));
    }
    SumPositive(n, f);
  }

  /** The attention output of one query row in one output dimension: no maximum is subtracted. */
  ghost function Attend(exp: real -> real, n: nat, s: int -> real, v: int -> real): real
    requires IsExp(exp)
  {
    if n == 0 then 0.0
    else
      NormaliserPositive(exp, n, s);
      Sum(n, j => exp(s(j)) * v(j)) / Sum(n, j => exp(s(j)))
  }

  /** Softmax attention over n keys of which only the allowed ones get a weight. */
  ghost function Masked(exp: real -> real, n: nat, s: int -> real, v: int -> real, allowed: int -> bool): real {
    var total := Sum(n, j => if allowed(j) then exp(s(j)) else 0.0);
    if total == 0.0 then 0.0 else Sum(n, j => if allowed(j) then exp(s(j)) * v(j) else 0.0) / total
  }

  /** A mask that allows a prefix of the keys is attention over that prefix. */
  lemma MaskedPrefix(exp: real -> real, n: nat, keys: nat, s: int -> real, v: int -> real, allowed: int -> bool)
    requires IsExp(exp) && keys <= n && forall j :: 0 <= j < n ==> (allowed(j) <==> j < keys)
    ensures Masked(exp, n, s, v, allowed) == Attend(exp, keys, s, v)
  {
    SumPrefix(n, keys, j => if allowed(j) then exp(s(j)) else 0.0, j => exp(s(j)));
    SumPrefix(n, keys, j => if allowed(j) then exp(s(j)) * v(j) else 0.0, j => exp(s(j)) * v(j));
    if keys > 0 {
      NormaliserPositive(exp, keys, s);
    }
  }

  lemma {:induction false} SumPrefix(n: nat, k: nat, f: int -> real, g: int -> real)
    requires k <= n
    requires forall i :: 0 <= i < n ==> f(i) == if i < k then g(i) else 0.0
    ensures Sum(n, f) == Sum(k, g)
  {
    if k < n {
      SumPrefix(n - 1, k, f, g);
    } else {
      SumExt(n, f, g);
    }
  }

  ghost function Weight(exp: real -> real, n: nat, s: int -> real, m: real): real {
    Sum(n, j => exp(s(j) - m))
  }

  ghost function Blend(exp: real -> real, n: nat, s: int -> real, v: int -> real, m: real): real {
    Sum(n, j => exp(s(j) - m) * v(j))
  }

  lemma MoveShift(exp: real -> real, x: real, a: real, b: real)
    requires IsExp(exp)
    ensures exp(x - b) == exp(x - a) * exp(a - b)
  {
    assert ExpAdds(exp, x - a, a - b);
    assert (x - a) + (a - b) == x - b;
  }

  lemma ScaledTerm(e: real, f: real, v: real, c: real)
    requires e == f * c
    ensures e * v == f * v * c
  {
  }

  /** Changing the subtracted maximum rescales both running sums by the same factor. */
  lemma {:induction false} Rescale(exp: real -> real, n: nat, s: int -> real, v: int -> real, a: real, b: real)
    requires IsExp(exp)
    ensures Weight(exp, n, s, b) == Weight(exp, n, s, a) * exp(a - b)
    ensures Blend(exp, n, s, v, b) == Blend(exp, n, s, v, a) * exp(a - b)
  {
    if n > 0 {
      Rescale(exp, n - 1, s, v, a, b);
      MoveShift(exp, s(n - 1), a, b);
      ScaledTerm(exp(s(n - 1) - b), exp(s(n - 1) - a), v(n - 1), exp(a - b));
    }
  }

  /** One key of the online loop: the invariant l = Weight, acc = Blend survives any new maximum. */
  lemma OnlineStep(exp: real -> real, n: nat, s: int -> real, v: int -> real, m: real, newM: real)
    requires IsExp(exp)
    ensures Weight(exp, n + 1, s, newM) == Weight(exp, n, s, m) * exp(m - newM) + exp(s(n) - newM)
    ensures Blend(exp, n + 1, s, v, newM) == Blend(exp, n, s, v, m) * exp(m - newM) + exp(s(n) - newM) * v(n)
  {
    Rescale(exp, n, s, v, m, newM);
  }

  /** Whatever value is subtracted from the scores, the quotient is the plain softmax average. */
  lemma ShiftInvariant(exp: real -> real, n: nat, s: int -> real, v: int -> real, m: real)
    requires IsExp(exp) && n > 0
    ensures Weight(exp, n, s, m) > 0.0
    ensures Blend(exp, n, s, v, m) / Weight(exp, n, s, m) == Attend(exp, n, s, v)
  {
    Rescale(exp, n, s, v, m, 0.0);
    ZeroShift(exp, n, s, v);
    WeightPositive(exp, n, s, m);
    assert ExpPositive(exp, m - 0.0);
    hide IsExp, Weight, Blend;
    CancelFactor(Blend(exp, n, s, v, m), Weight(exp, n, s, m), exp(m - 0.0));
  }

  /** Subtracting nothing leaves the plain sums. */
  lemma ZeroShift(exp: real -> real, n: nat, s: int -> real, v: int -> real)
    ensures Weight(exp, n, s, 0.0) == Sum(n, j => exp(s(j)))
    ensures Blend(exp, n, s, v, 0.0) == Sum(n, j => exp(s(j)) * v(j))
  {
    SumExt(n, j => exp(s(j) - 0.0), j => exp(s(j)));
    SumExt(n, j => exp(s(j) - 0.0) * v(j), j => exp(s(j)) * v(j));
  }

  lemma WeightPositive(exp: real -> real, n: nat, s: int -> real, m: real)
    requires IsExp(exp) && n > 0
    ensures Weight(exp, n, s, m) > 0.0
  {
    NormaliserPositive(exp, n, j => s(j) - m);
    SumExt(n, j => exp(s(j) - m), j => exp((j => s(j) - m)(j)));
  }

  lemma CancelFactor(x: real, y: real, c: real)
    requires y > 0.0 && c > 0.0
    ensures y * c > 0.0 && (x * c) / (y * c) == x / y
  {
    var q := x / y;
    assert x == q * y;
    assert x * c == q * (y * c);
  }

  /** The two-pass form divides every weight first and accumulates afterwards. */
  lemma {:induction false} NormaliseFirst(exp: real -> real, n: nat, s: int -> real, v: int -> real, m: real,
                                          denom: real)
    requires denom > 0.0
    ensures Sum(n, j => exp(s(j) - m) / denom * v(j)) == Blend(exp, n, s, v, m) / denom
  {
    if n > 0 {
      NormaliseFirst(exp, n - 1, s, v, m, denom);
      AddQuotients(Blend(exp, n - 1, s, v, m), exp(s(n - 1) - m), v(n - 1), denom);
    }
  }

  lemma AddQuotients(a: real, e: real, x: real, d: real)
    requires d > 0.0
    ensures a / d + e / d * x == (a + e * x) / d
  {
    var p, q := a / d, e / d;
    assert a == p * d && e == q * d;
    assert e * x == q * x * d;
    assert a + e * x == (p + q * x) * d;
  }

  /** Equal scores and equal values give equal outputs. */
  lemma AttendExt(exp: real -> real, n: nat, s: int -> real, v: int -> real, s': int -> real, v': int -> real)
    requires IsExp(exp)
    requires forall j :: 0 <= j < n ==> s(j) == s'(j) && v(j) == v'(j)
    ensures Attend(exp, n, s, v) == Attend(exp, n, s', v')
  {
    SumExt(n, j => exp(s(j)), j => exp(s'(j)));
    SumExt(n, j => exp(s(j)) * v(j), j => exp(s'(j)) * v'(j));
  }
}
