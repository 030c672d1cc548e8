/** Divisibility, congruences, and greatest common divisors. */
module Divisors {
  import opened Arithmetic

  /** `d` divides `x`. */
  ghost predicate Divides(d: int, x: int)
    requires d > 0
  {
    x % d == 0
  }

  lemma DividesProduct(d: int, k: int)
    requires d > 0
    ensures Divides(d, d * k) && Divides(d, k * d)
  {
    DivUnique(d * k, d, k, 0);
  }

  lemma DividesLinear(d: int, x: int, y: int, s: int, t: int)
    requires d > 0 && Divides(d, x) && Divides(d, y)
    ensures Divides(d, s * x + t * y)
  {
    DivBounds(x, d);
    DivBounds(y, d);
    var i, j := x / d, y / d;
    assert x == i * d && y == j * d;
    assert s * x == (s * i) * d && t * y == (t * j) * d;
    assert s * x + t * y == (s * i + t * j) * d;
    DividesProduct(d, s * i + t * j);
  }

  /** An odd divisor of twice a number divides the number. */
  lemma OddDivides(d: int, k: int)
    requires d > 0 && d % 2 == 1 && Divides(d, 2 * k)
    ensures Divides(d, k)
  {
    DivBounds(2 * k, d);
    var q, h := (2 * k) / d, d / 2;
    assert 2 * k == q * d && d == 2 * h + 1;
    assert q * d == 2 * (q * h) + q;
    var r := k - q * h;
    assert q == 2 * r;
    assert r * d == q * h + r;
    DividesProduct(d, r);
  }

  /** `x` and `y` leave the same remainder. */
  ghost predicate Congruent(x: int, y: int, m: int)
    requires m > 0
  {
    Divides(m, x - y)
  }

  lemma CongruentMod(x: int, y: int, m: int)
    requires m > 0
    ensures Congruent(x, y, m) <==> x % m == y % m
  {
    DivBounds(x, m);
    DivBounds(y, m);
    var r, s := x % m, y % m;
    if r == s {
      assert x - y == (x / m - y / m) * m;
      DividesProduct(m, x / m - y / m);
    } else if Divides(m, x - y) {
      DivBounds(x - y, m);
      var q := (x - y) / m;
      assert x == (y / m + q) * m + s;
      DivUnique(x, m, y / m + q, s);
    }
  }

  // ---------- greatest common divisors ----------

  ghost predicate CommonDivisor(d: int, a: int, b: int) {
    d > 0 && Divides(d, a) && Divides(d, b)
  }

  ghost predicate IsGcd(g: int, a: int, b: int) {
    CommonDivisor(g, a, b) && forall d: int :: CommonDivisor(d, a, b) ==> d <= g
  }

  ghost predicate SameDivisors(a: int, b: int, c: int, d: int) {
    forall k: int :: CommonDivisor(k, a, b) <==> CommonDivisor(k, c, d)
  }

  lemma SelfGcd(a: int)
    requires a > 0
    ensures IsGcd(a, a, a)
  {
    DivUnique(a, a, 1, 0);
    forall d: int | CommonDivisor(d, a, a) ensures d <= a {
      if d > a {
        DivUnique(a, d, 0, a);
      }
    }
  }

  lemma OddMultipleHasOddDivisors(d: int, b: int)
    requires d > 0 && Divides(d, b) && b % 2 == 1
    ensures d % 2 == 1
  {
    DivBounds(b, d);
    ParityOfProduct(b / d, d);
  }

  lemma ParityOfProduct(x: int, y: int)
    ensures (x * y) % 2 == (x % 2) * (y % 2)
  {
    var i, j := x / 2, y / 2;
    var r, s := x % 2, y % 2;
    assert x * y == 2 * (i * y) + r * y;
    assert r * y == 2 * (r * j) + r * s;
    assert r * s == 0 || r * s == 1;
  }

  /** Taking a factor of two out of one number, the other being odd. */
  lemma HalvingKeepsDivisors(a: int, b: int)
    requires b % 2 == 1
    ensures SameDivisors(2 * a, b, a, b)
  {
    forall k: int ensures CommonDivisor(k, 2 * a, b) <==> CommonDivisor(k, a, b) {
      if CommonDivisor(k, 2 * a, b) {
        OddMultipleHasOddDivisors(k, b);
        OddDivides(k, a);
      }
      if CommonDivisor(k, a, b) {
        DividesLinear(k, a, b, 2, 0);
      }
    }
  }

  lemma SubtractingKeepsDivisors(a: int, b: int)
    ensures SameDivisors(a, b, a - b, b)
  {
    forall k: int ensures CommonDivisor(k, a, b) <==> CommonDivisor(k, a - b, b) {
      if CommonDivisor(k, a, b) {
        DividesLinear(k, a, b, 1, -1);
      }
      if CommonDivisor(k, a - b, b) {
        DividesLinear(k, a - b, b, 1, 1);
      }
    }
  }
}
