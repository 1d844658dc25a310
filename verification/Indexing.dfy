/** Index arithmetic: rows of a row-major buffer, quotients and remainders. */
module Indexing {

  function Min(a: nat, b: nat): nat {
    if a < b then a else b
  }

  lemma AtLeastOnce(k: int, m: int)
    requires 1 <= k && 0 <= m
    ensures k * m >= m
  {
    assert (k - 1) * m >= 0;
    assert (k - 1) * m == k * m - m;
  }

  lemma MulMono(a: int, b: int, m: int)
    requires a <= b && 0 <= m
    ensures a * m <= b * m
  {
    assert (b - a) * m >= 0;
    assert (b - a) * m == b * m - a * m;
  }

  lemma NextMultiple(r: int, m: int)
    ensures (r + 1) * m == r * m + m
  {
  }

  lemma DivisionUnique(q: int, r: int, p: int, t: int, m: int)
    requires 0 <= r < m && 0 <= t < m && q * m + r == p * m + t
    ensures q == p && r == t
  {
    if q < p {
      assert (p - q) * m == p * m - q * m;
      AtLeastOnce(p - q, m);
    } else if p < q {
      assert (q - p) * m == q * m - p * m;
      AtLeastOnce(q - p, m);
    }
  }

  lemma ModIs(x: int, q: int, r: int, m: int)
    requires 0 <= r < m && x == q * m + r
    ensures x % m == r && x / m == q
  {
    var d, t := x / m, x % m;
    assert x == m * d + t;
    DivisionUnique(q, r, d, t, m);
  }

  lemma DividesDown(x: nat, a: nat, b: nat)
    requires b > 0 && x < a * b
    ensures x / b < a && (x / b) * b + x % b == x
  {
    var q := x / b;
    assert q * b + x % b == x;
    if q >= a {
      MulMono(a, q, b);
    }
  }

  lemma InRow(r: nat, rows: nat, c: nat, width: nat)
    requires r < rows && c < width
    ensures 0 <= r * width + c < rows * width && r * width + width <= rows * width
    ensures (r * width + c) / width == r && (r * width + c) % width == c
  {
    MulMono(0, r, width);
    MulMono(r + 1, rows, width);
    NextMultiple(r, width);
    ModIs(r * width + c, r, c, width);
  }

  lemma RowInside(o: nat, rows: nat, width: nat)
    requires o < rows
    ensures 0 <= o * width <= o * width + width == (o + 1) * width <= rows * width
  {
    MulMono(0, o, width);
    MulMono(o + 1, rows, width);
    NextMultiple(o, width);
  }
}
