/** Primes: Euclid's lemma, powers modulo a prime, and Fermat's little theorem. */
module Fermat {
  import opened Arithmetic
  import opened Divisors

  ghost predicate IsPrime(p: nat) {
    p > 1 && forall d: int :: 1 < d < p ==> !Divides(d, p)
  }

  // ---------- Euclid's lemma ----------

  /** If `p` divides `d * b` for some `0 < d < p`, it divides `b`: go from `d` to `p mod d`. */
  lemma {:induction false} EuclidBelow(p: nat, d: nat, b: int)
    requires IsPrime(p) && 0 < d < p && Divides(p, d * b)
    ensures Divides(p, b)
    decreases d
  {
    if d > 1 {
      DivBounds(p, d);
      var q, r := p / d, p % d;
      assert !Divides(d, p);
      DividesProduct(p, b);
      DividesLinear(p, p * b, d * b, 1, -q);
      assert r * b == (p - q * d) * b;
      assert (p - q * d) * b == p * b - (q * d) * b;
      MulAssoc(q, d, b);
      EuclidBelow(p, r, b);
    } else {
      assert d * b == b;
    }
  }

  /** A prime that divides a product divides a factor. */
  lemma Euclid(p: nat, a: int, b: int)
    requires IsPrime(p) && Divides(p, a * b)
    ensures Divides(p, a) || Divides(p, b)
  {
    var d := a % p;
    if d != 0 {
      DivBounds(a, p);
      var q := a / p;
      DividesProduct(p, q * b);
      DividesLinear(p, a * b, p * (q * b), 1, -1);
      assert d * b == (a - q * p) * b;
      assert (a - q * p) * b == a * b - (q * p) * b;
      assert (q * p) * b == p * (q * b);
      EuclidBelow(p, d, b);
    }
  }

  // ---------- powers ----------

  function Pow(a: int, n: nat): int {
    if n == 0 then 1 else a * Pow(a, n - 1)
  }

  lemma {:induction false} PowAdd(a: int, m: nat, n: nat)
    ensures Pow(a, m + n) == Pow(a, m) * Pow(a, n)
  {
    if m > 0 {
      PowAdd(a, m - 1, n);
      MulAssoc(a, Pow(a, m - 1), Pow(a, n));
    }
  }

  lemma {:induction false} PowMul(a: int, m: nat, n: nat)
    ensures m * n >= 0 && Pow(Pow(a, m), n) == Pow(a, m * n)
  {
    MulLe(0, m, n);
    if n > 0 {
      PowMul(a, m, n - 1);
      MulAdd(m, n - 1, 1);
      MulLe(0, m, n - 1);
      PowAdd(a, m, m * (n - 1));
    } else {
      assert m * n == 0;
    }
  }

  lemma CongruentMul(a: int, b: int, c: int, d: int, m: int)
    requires m > 0 && Congruent(a, b, m) && Congruent(c, d, m)
    ensures Congruent(a * c, b * d, m)
  {
    DividesLinear(m, a - b, c - d, c, b);
    assert c * (a - b) + b * (c - d) == a * c - b * d;
  }

  lemma CongruentTransitive(a: int, b: int, c: int, m: int)
    requires m > 0 && Congruent(a, b, m) && Congruent(b, c, m)
    ensures Congruent(a, c, m)
  {
    DividesLinear(m, a - b, b - c, 1, 1);
  }

  lemma CongruentSelf(a: int, m: int)
    requires m > 0
    ensures Congruent(a, a, m) && Congruent(a % m, a, m) && Congruent(a, a % m, m)
  {
    DivBounds(a, m);
    DividesProduct(m, 0);
    DividesProduct(m, a / m);
    DividesProduct(m, -(a / m));
  }

  lemma {:induction false} CongruentPow(a: int, b: int, n: nat, m: int)
    requires m > 0 && Congruent(a, b, m)
    ensures Congruent(Pow(a, n), Pow(b, n), m)
  {
    if n == 0 {
      CongruentSelf(1, m);
    } else {
      CongruentPow(a, b, n - 1, m);
      CongruentMul(a, b, Pow(a, n - 1), Pow(b, n - 1), m);
    }
  }

  // ---------- Fermat's little theorem ----------

  ghost function Product(s: set<nat>): nat {
    if s == {} then 1
    else
      var x :| x in s;
      x * Product(s - {x})
  }

  lemma {:induction false} ProductRemove(s: set<nat>, y: nat)
    requires y in s
    ensures Product(s) == y * Product(s - {y})
  {
    var x :| x in s && Product(s) == x * Product(s - {x});
    if x != y {
      ProductRemove(s - {x}, y);
      ProductRemove(s - {y}, x);
      assert s - {x} - {y} == s - {y} - {x};
      MulAssoc(x, y, Product(s - {x} - {y}));
      MulAssoc(y, x, Product(s - {x} - {y}));
    }
  }

  ghost predicate Residues(s: set<nat>, p: nat) {
    forall x :: x in s ==> 0 < x < p
  }

  /** The multiples of `a`, reduced modulo `p`. */
  ghost function Multiples(s: set<nat>, a: nat, p: nat): set<nat>
    requires p > 0
  {
    set x | x in s :: (a * x) % p
  }

  lemma MultiplesDistinct(p: nat, a: nat, x: nat, y: nat)
    requires IsPrime(p) && !Divides(p, a) && 0 < x < p && 0 < y < p
    ensures 0 < (a * x) % p < p
    ensures (a * x) % p == (a * y) % p ==> x == y
  {
    if (a * x) % p == 0 {
      Euclid(p, a, x);
      DivUnique(x, p, 0, x);
    }
    if (a * x) % p == (a * y) % p {
      CongruentMod(a * x, a * y, p);
      assert a * x - a * y == a * (x - y);
      Euclid(p, a, x - y);
      CongruentMod(x, y, p);
      DivUnique(x, p, 0, x);
      DivUnique(y, p, 0, y);
    }
  }

  /** One more multiple is a new one. */
  lemma MultiplesStep(s: set<nat>, a: nat, p: nat, x: nat)
    requires IsPrime(p) && !Divides(p, a) && Residues(s, p) && x in s
    ensures var y := (a * x) % p;
            && 0 < y < p && y in Multiples(s, a, p) && y !in Multiples(s - {x}, a, p)
            && Multiples(s, a, p) - {y} == Multiples(s - {x}, a, p)
  {
    var rest, y := s - {x}, (a * x) % p;
    forall z | z in rest ensures (a * z) % p != y {
      MultiplesDistinct(p, a, z, x);
    }
    MultiplesDistinct(p, a, x, x);
    assert s == rest + {x};
    assert Multiples(s, a, p) == Multiples(rest, a, p) + {y};
  }

  ghost predicate MultiplesCongruent(s: set<nat>, a: nat, p: nat)
    requires p > 0
  {
    Congruent(Product(Multiples(s, a, p)), Pow(a, |s|) * Product(s), p)
  }

  lemma MultiplesCongruentStep(s: set<nat>, a: nat, p: nat, x: nat)
    requires IsPrime(p) && !Divides(p, a) && Residues(s, p) && x in s && MultiplesCongruent(s - {x}, a, p)
    ensures MultiplesCongruent(s, a, p)
  {
    hide IsPrime, Divides, Congruent;
    var rest, y := s - {x}, (a * x) % p;
    MultiplesStep(s, a, p, x);
    ProductRemove(Multiples(s, a, p), y);
    ProductRemove(s, x);
    var n: nat := |rest|;
    assert |s| == n + 1;
    assert Pow(a, n + 1) == a * Pow(a, n);
    hide Product, Multiples, Pow;
    OneMoreFactor(a, x, p, Pow(a, n), Product(rest), Product(Multiples(rest, a, p)),
                  Pow(a, |s|), Product(s), Product(Multiples(s, a, p)));
  }

  /** Reduced multiples are distinct, and their product is the product times a power of `a`. */
  lemma {:induction false} MultiplesProduct(s: set<nat>, a: nat, p: nat)
    requires IsPrime(p) && !Divides(p, a) && Residues(s, p)
    ensures Residues(Multiples(s, a, p), p) && |Multiples(s, a, p)| == |s|
    ensures MultiplesCongruent(s, a, p)
    decreases |s|
  {
    if s == {} {
      assert Multiples(s, a, p) == {};
      CongruentSelf(1, p);
    } else {
      hide IsPrime, Divides, MultiplesCongruent;
      var x :| x in s;
      MultiplesProduct(s - {x}, a, p);
      MultiplesStep(s, a, p, x);
      MultiplesCongruentStep(s, a, p, x);
      assert Multiples(s, a, p) == Multiples(s - {x}, a, p) + {(a * x) % p};
    }
  }

  lemma OneMoreFactor(a: int, x: int, p: nat, power: int, product: int, tail: int, power': int, product': int, tail': int)
    requires p > 0 && Congruent(tail, power * product, p)
    requires power' == a * power && product' == x * product && tail' == ((a * x) % p) * tail
    ensures Congruent(tail', power' * product', p)
  {
    CongruentSelf(a * x, p);
    CongruentMul((a * x) % p, a * x, tail, power * product, p);
    assert (a * x) * (power * product) == (a * power) * (x * product);
  }

  /** The residues other than 0. */
  ghost function Below(p: nat): set<nat> {
    if p <= 1 then {} else Below(p - 1) + {p - 1}
  }

  lemma {:induction false} BelowFacts(p: nat)
    requires p > 0
    ensures |Below(p)| == p - 1
    ensures forall x :: x in Below(p) <==> 0 < x < p
  {
    if p > 1 {
      BelowFacts(p - 1);
    }
  }

  lemma {:induction false} SubsetOfSameSize(s: set<nat>, t: set<nat>)
    requires s <= t && |s| == |t|
    ensures s == t
  {
    if s != t {
      var x :| x in t && x !in s;
      assert s <= t - {x};
      SubsetSize(s, t - {x});
    }
  }

  lemma {:induction false} SubsetSize(s: set<nat>, t: set<nat>)
    requires s <= t
    ensures |s| <= |t|
    decreases |s|
  {
    if s != {} {
      var x :| x in s;
      SubsetSize(s - {x}, t - {x});
    }
  }

  lemma {:induction false} ProductNotDivided(s: set<nat>, p: nat)
    requires IsPrime(p) && Residues(s, p)
    ensures !Divides(p, Product(s))
    decreases |s|
  {
    if s == {} {
      DivUnique(1, p, 0, 1);
    } else {
      var x :| x in s;
      ProductRemove(s, x);
      ProductNotDivided(s - {x}, p);
      DivUnique(x, p, 0, x);
      if Divides(p, x * Product(s - {x})) {
        Euclid(p, x, Product(s - {x}));
      }
    }
  }

  /** A power of a number that `p` does not divide: a^(p-1) is 1 modulo p. */
  lemma FermatLittle(a: nat, p: nat)
    requires IsPrime(p) && !Divides(p, a)
    ensures Congruent(Pow(a, p - 1), 1, p)
  {
    var s := Below(p);
    BelowFacts(p);
    MultiplesProduct(s, a, p);
    SubsetOfSameSize(Multiples(s, a, p), s);
    ProductNotDivided(s, p);
    hide IsPrime, Divides, Product, Multiples, Below;
    CancelFactor(Pow(a, p - 1), Product(s), p);
  }

  lemma CancelFactor(power: int, product: int, p: nat)
    requires IsPrime(p) && !Divides(p, product) && Congruent(product, power * product, p)
    ensures Congruent(power, 1, p)
  {
    DividesLinear(p, product - power * product, 0, -1, 0);
    assert -1 * (product - power * product) == (power - 1) * product;
    Euclid(p, power - 1, product);
  }

  /** Numbers with equal squares modulo a prime are equal or opposite. */
  lemma SquareRoots(r: int, y: int, p: nat)
    requires IsPrime(p) && Congruent(r * r, y * y, p)
    ensures Congruent(r, y, p) || Congruent(r, -y, p)
  {
    assert (r - y) * (r + y) == r * r - y * y;
    Euclid(p, r - y, r + y);
  }

  /** With p = 3 mod 4, the power (p+1)/4 of a square is one of its roots. */
  lemma PowerIsRoot(y: int, p: nat)
    requires y >= 0 && IsPrime(p) && p % 4 == 3
    ensures var r := Pow(y * y, (p + 1) / 4);
            Congruent(r, y, p) || Congruent(r, -y, p)
  {
    var k := (p + 1) / 4;
    var r := Pow(y * y, k);
    assert Pow(y, 2) == y * Pow(y, 1) == y * y;
    PowMul(y, 2, k);
    PowAdd(y, 2 * k, 2 * k);
    assert r * r == Pow(y, 4 * k);
    PowAdd(y, 2, p - 1);
    assert 4 * k == 2 + (p - 1);
    if Divides(p, y) {
      ZeroRoot(y, k, p);
    } else {
      FermatLittle(y, p);
      CongruentSelf(y * y, p);
      CongruentMul(y * y, y * y, Pow(y, p - 1), 1, p);
      SquareRoots(r, y, p);
    }
  }

  lemma ZeroRoot(y: nat, k: nat, p: nat)
    requires p > 1 && Divides(p, y) && k > 0
    ensures Congruent(Pow(y * y, k), y, p)
  {
    var rest := Pow(y * y, k - 1);
    assert Pow(y * y, k) == (y * y) * rest;
    DividesLinear(p, y, 0, (y as int) * rest - 1, 0);
    assert ((y as int) * rest - 1) * y == (y * y) * rest - y;
  }
}
