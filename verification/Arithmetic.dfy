/** Products and quotients of integers. */
module Arithmetic {

  lemma MulLe(a: int, b: int, c: int)
    requires a <= b && 0 <= c
    ensures a * c <= b * c
  {
  }

  lemma CancelLe(a: int, b: int, c: int)
    requires 0 < c && a * c <= b * c
    ensures a <= b
  {
    if b + 1 <= a {
      MulLe(b + 1, a, c);
    }
  }

  lemma DivBounds(a: int, d: int)
    requires d > 0
    ensures (a / d) * d <= a < (a / d) * d + d
  {
  }

  lemma FloorAtMost(a: int, d: int, k: int)
    requires d > 0 && a <= k * d
    ensures a / d <= k
  {
    DivBounds(a, d);
    CancelLe(a / d, k, d);
  }

  lemma FloorAtLeast(a: int, d: int, k: int)
    requires d > 0 && k * d <= a
    ensures k <= a / d
  {
    DivBounds(a, d);
    if a / d + 1 <= k {
      MulLe(a / d + 1, k, d);
    }
  }

  lemma MulAdd(a: int, b: int, c: int)
    ensures a * (b + c) == a * b + a * c
  {
  }

  lemma MulLt(a: int, b: int, c: int)
    requires a < b && 0 < c
    ensures a * c < b * c
  {
  }

  /** A quotient and a remainder are determined by their product form. */
  lemma DivUnique(a: int, d: int, q: int, r: int)
    requires d > 0 && a == q * d + r && 0 <= r < d
    ensures a / d == q && a % d == r
  {
    DivBounds(a, d);
    var k := a / d;
    if k < q {
      MulLe(k + 1, q, d);
    } else if q < k {
      MulLe(q + 1, k, d);
    }
    assert k == q;
  }

  lemma MulAssoc(a: int, b: int, c: int)
    ensures a * (b * c) == (a * b) * c
  {
  }

  /** Adding a multiple of the divisor. */
  lemma DivModAddMultiple(x: int, d: int, m: int)
    requires d > 0
    ensures (x + d * m) / d == x / d + m && (x + d * m) % d == x % d
  {
    DivBounds(x, d);
    var q := x / d;
    assert (q + m) * d == q * d + d * m;
    DivUnique(x + d * m, d, q + m, x - q * d);
    DivUnique(x, d, q, x - q * d);
  }

  /** Dividing twice. */
  lemma DivDiv(x: int, d: int, e: int)
    requires d > 0 && e > 0
    ensures d * e > 0 && (x / d) / e == x / (d * e)
  {
    MulLe(1, d, e);
    DivBounds(x, d);
    DivBounds(x / d, e);
    var q := (x / d) / e;
    MulAssoc(q, e, d);
    var r, s := x / d - q * e, x - (x / d) * d;
    assert (x / d) * d == (q * e) * d + r * d;
    MulLe(r, e - 1, d);
    assert (e - 1) * d == d * e - d;
    MulLe(0, r, d);
    assert q * (e * d) == q * (d * e);
    DivUnique(x, d * e, q, r * d + s);
  }
}
