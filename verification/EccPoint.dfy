/** Compressed points: square roots, the curve equation, and the round trip through compression. */
module EccPoint {
  import opened Arithmetic
  import opened Divisors
  import opened Fermat
  import opened Words
  import opened VliBasics
  import opened VliBits
  import opened VliMod
  import opened VliReduce
  import opened VliInverse
  import opened Bytes
  import opened Secp256k1

  /**
   * The field and the constant of a curve y^2 = x^3 + b. A build reduces
   * products either exactly or by the fast reduction of secp256k1.
   */
  datatype Curve = Curve(p: Ptr, b: Ptr, numWords: nat, numBytes: nat, fast: bool)

  ghost predicate ValidCurve(c: Curve)
    reads c.p.words, c.b.words
  {
    && 0 < c.numWords < 128 && c.numBytes == 4 * c.numWords
    && c.p.Fits(c.numWords) && c.b.Fits(c.numWords)
    && c.p.words[c.p.at + c.numWords - 1] != 0
    && 2 < c.p.Value(c.numWords) && c.p.Value(c.numWords) + 1 < Radix(c.numWords)
    && c.b.Value(c.numWords) < c.p.Value(c.numWords)
    && (c.fast ==> c.numWords == 8 && c.p.Value(8) == Prime())
  }

  // ---------- the numbers ----------

  /** The fast reduction is made for one prime. */
  predicate Field(p: nat, fast: bool) {
    p > 2 && (fast ==> p == Prime())
  }

  /** The modular product of a build; the fast one may leave the prime in place of 0. */
  ghost function Times(x: nat, y: nat, p: nat, fast: bool): (r: nat)
    requires Field(p, fast)
    ensures !fast || (x < Full() && y < Full()) ==> r <= p
  {
    if fast then
      if x < Full() && y < Full() then FastProductExact(x, y); FastProduct(x, y) else FastProduct(x, y)
    else (x * y) % p
  }

  /** The right-hand side of the curve equation. */
  ghost function CurveSide(x: nat, b: nat, p: nat, fast: bool): (r: nat)
    requires Field(p, fast)
    ensures r < p
  {
    (Times(Times(x, x, p, fast), x, p, fast) + b) % p
  }

  /** The power reached by squaring and multiplying along the bits of the exponent. */
  ghost function Climb(a: nat, e: nat, p: nat, fast: bool): (r: nat)
    requires Field(p, fast)
    ensures !fast || a < Full() ==> r <= p
  {
    if e == 0 then 1
    else
      var half := Climb(a, e / 2, p, fast);
      var square := Times(half, half, p, fast);
      if e % 2 == 1 then Times(square, a, p, fast) else square
  }

  ghost function RootOf(a: nat, p: nat, fast: bool): (r: nat)
    requires Field(p, fast)
    ensures !fast || a < Full() ==> r <= p
  {
    Climb(a, (p + 1) / 4, p, fast)
  }

  /** The root with the wanted parity. */
  function WithParity(r: nat, parity: nat, p: nat): nat
    requires r <= p
  {
    if r % 2 == parity % 2 then r else p - r
  }

  function Compressed(point: seq<Byte>): seq<Byte>
    requires |point| > 0
  {
    [2 + point[|point| - 1] % 2] + point[..|point| / 2]
  }

  ghost function Decompressed(c: seq<Byte>, b: nat, p: nat, fast: bool): seq<Byte>
    requires |c| > 0 && Field(p, fast)
  {
    var x := BeVal(c[1..]);
    var y := WithParity(RootOf(CurveSide(x, b, p, fast), p, fast), c[0], p);
    BeBytes(x, |c| - 1) + BeBytes(y, |c| - 1)
  }

  ghost predicate OnCurve(x: nat, y: nat, b: nat, p: nat)
    requires p > 0
  {
    x < p && y < p && Congruent(y * y, x * x * x + b, p)
  }

  // ---------- where the fast reduction is right ----------

  /** No power of `c` met on the way to the exponent has a residue in the gap. */
  ghost predicate ClearPowers(c: nat, e: nat) {
    e == 0 || (ClearPowers(c, e / 2) && !InGap(Pow(c, e / 2) * Pow(c, e / 2)) && !InGap(Pow(c, e)))
  }

  /** No product met in decompressing the point (x, y) has a residue in the gap. */
  ghost predicate ClearPoint(x: nat, y: nat) {
    !InGap(x * x) && !InGap(x * x * x) && ClearPowers(y * y, (Prime() + 1) / 4)
  }

  /** A product of numbers known up to multiples of the prime. */
  lemma TimesCongruent(x: nat, y: nat, u: int, v: int, p: nat, fast: bool)
    requires Field(p, fast) && Congruent(x, u, p) && Congruent(y, v, p)
    requires fast ==> x < Full() && y < Full() && !InGap(u * v)
    ensures Congruent(Times(x, y, p, fast), u * v, p)
  {
    CongruentMul(x, u, y, v, p);
    CongruentMod(x * y, u * v, p);
    CongruentSelf(x * y, p);
    hide Congruent, FastProduct, FoldedProduct, CarryDropped;
    if fast {
      FastProductExact(x, y);
    }
    CongruentTransitive(Times(x, y, p, fast), x * y, u * v, p);
  }

  lemma CurveSideCongruent(x: nat, b: nat, p: nat, fast: bool)
    requires Field(p, fast) && x < p && (fast ==> !InGap(x * x) && !InGap(x * x * x))
    ensures Congruent(CurveSide(x, b, p, fast), x * x * x + b, p)
  {
    hide Times, Congruent, InGap;
    PrimeFacts();
    CongruentSelf(x, p);
    TimesCongruent(x, x, x, x, p, fast);
    var square := Times(x, x, p, fast);
    TimesCongruent(square, x, x * x, x, p, fast);
    var cube := Times(square, x, p, fast);
    AddCongruent(cube, x * x * x, b, p);
    CongruentSelf(cube + b, p);
    CongruentTransitive((cube + b) % p, cube + b, x * x * x + b, p);
  }

  lemma AddCongruent(x: int, y: int, b: int, p: nat)
    requires p > 0 && Congruent(x, y, p)
    ensures Congruent(x + b, y + b, p)
  {
    assert x + b - (y + b) == x - y;
  }

  lemma {:induction false} ClimbCongruent(a: nat, c: nat, e: nat, p: nat, fast: bool)
    requires Field(p, fast) && Congruent(a, c, p) && (fast ==> a < Full() && ClearPowers(c, e))
    ensures Congruent(Climb(a, e, p, fast), Pow(c, e), p)
  {
    hide Times, Congruent, InGap;
    PrimeFacts();
    if e == 0 {
      CongruentSelf(1, p);
    } else {
      var h := e / 2;
      ClimbCongruent(a, c, h, p, fast);
      var half, power := Climb(a, h, p, fast), Pow(c, h);
      TimesCongruent(half, half, power, power, p, fast);
      PowAdd(c, h, h);
      assert e % 2 == 0 ==> h + h == e;
      if e % 2 == 1 {
        assert Pow(c, e) == c * Pow(c, h + h);
        TimesCongruent(Times(half, half, p, fast), a, power * power, c, p, fast);
      }
    }
  }

  /** With the exact reduction the root is the power (p + 1) / 4 modulo the prime. */
  lemma ExactRoot(a: nat, p: nat)
    requires p > 2
    ensures RootOf(a, p, false) == Pow(a, (p + 1) / 4) % p
  {
    var e := (p + 1) / 4;
    CongruentSelf(a, p);
    ClimbCongruent(a, a, e, p, false);
    CongruentMod(Climb(a, e, p, false), Pow(a, e), p);
    ExactClimbReduced(a, e, p);
    DivUnique(Climb(a, e, p, false), p, 0, Climb(a, e, p, false));
  }

  lemma ExactClimbReduced(a: nat, e: nat, p: nat)
    requires p > 2
    ensures Climb(a, e, p, false) < p
  {
  }

  // ---------- the round trip ----------

  /** The root of the curve side of a point is its y or p - y. */
  lemma RootOfPoint(x: nat, y: nat, b: nat, p: nat, fast: bool)
    requires IsPrime(p) && p % 4 == 3 && Field(p, fast) && OnCurve(x, y, b, p) && (fast ==> ClearPoint(x, y))
    ensures var r := RootOf(CurveSide(x, b, p, fast), p, fast);
            r == y || r == p - y
  {
    hide IsPrime, Climb, CurveSide, Times, InGap, Congruent, ClearPowers, Pow;
    var a, k := CurveSide(x, b, p, fast), (p + 1) / 4;
    var r := Climb(a, k, p, fast);
    PrimeFacts();
    CurveSideCongruent(x, b, p, fast);
    CongruentFlip(y * y, x * x * x + b, p);
    CongruentTransitive(a, x * x * x + b, y * y, p);
    ClimbCongruent(a, y * y, k, p, fast);
    PowerIsRoot(y, p);
    var root := Pow(y * y, k);
    var z: int := if Congruent(root, y, p) then y else -(y as int);
    CongruentTransitive(r, root, z, p);
    SameOrOpposite(r, z, y, p);
  }

  lemma CongruentFlip(a: int, b: int, m: int)
    requires m > 0 && Congruent(a, b, m)
    ensures Congruent(b, a, m)
  {
    DividesLinear(m, a - b, 0, -1, 0);
  }

  /** A number up to the prime that is y or -y up to multiples of the prime. */
  lemma SameOrOpposite(r: nat, z: int, y: nat, p: nat)
    requires p > 0 && r <= p && y < p && Congruent(r, z, p) && (z == y || z == -(y as int))
    ensures r == y || r == p - y
  {
    DivBounds(r - z, p);
    var q := (r - z) / p;
    assert r - z == q * p && 0 < r - z + p <= 3 * p;
    if q >= 2 {
      MulLe(2, q, p);
    } else if q <= -1 {
      MulLe(q, -1, p);
    }
    assert q == 0 || q == 1 || q == 2;
  }

  /** Of the two roots exactly one has the parity of y, as p is odd. */
  lemma PickParity(r: nat, y: nat, p: nat)
    requires p % 4 == 3 && r <= p && y < p && (r == y || r == p - y)
    ensures WithParity(r, 2 + y % 2, p) == y
  {
    SumIsOdd(p);
    SameParity(y);
    if r != y {
      OppositeParity(y, p);
    }
  }

  lemma SumIsOdd(p: nat)
    requires p % 4 == 3
    ensures p % 2 == 1
  {
    DivBounds(p, 4);
    DivUnique(p, 2, 2 * (p / 4) + 1, 1);
  }

  lemma SameParity(y: nat)
    ensures (2 + y % 2) % 2 == y % 2
  {
  }

  lemma OppositeParity(y: nat, p: nat)
    requires y <= p && p % 2 == 1
    ensures (p - y) % 2 != y % 2
  {
    var q := p / 2 - y / 2;
    if y % 2 == 0 {
      DivUnique(p - y, 2, q, 1);
    } else {
      DivUnique(p - y, 2, q, 0);
    }
  }

  /** The low bit of a big-endian number is that of its last byte. */
  lemma LastByteParity(s: seq<Byte>)
    requires |s| > 0
    ensures s[|s| - 1] % 2 == BeVal(s) % 2
  {
  }

  /** A compressed point is 2 for an even y or 3 for an odd one, and the bytes of x. */
  lemma CompressedForm(point: seq<Byte>, n: nat)
    requires n > 0 && |point| == 2 * n
    ensures var c := Compressed(point);
            |c| == n + 1 && c[0] == (if BeVal(point[n..]) % 2 == 0 then 2 else 3) && c[1..] == point[..n]
  {
    LastByteParity(point[n..]);
    hide BeVal;
  }

  /** Whatever it is given, decompression keeps x and takes the root that it computes or its opposite, by the low bit of the prefix. */
  lemma DecompressedForm(c: seq<Byte>, b: nat, p: nat, fast: bool)
    requires |c| > 0 && Field(p, fast) && p % 2 == 1 && p < Pow2(8 * (|c| - 1))
    ensures var n := |c| - 1;
            var root := RootOf(CurveSide(BeVal(c[1..]), b, p, fast), p, fast);
            var point := Decompressed(c, b, p, fast);
            && |point| == 2 * n && point[..n] == c[1..]
            && var y := BeVal(point[n..]); (y == root || y == p - root) && y % 2 == c[0] % 2
  {
    hide BeVal, BeBytes, CurveSide, RootOf;
    var n := |c| - 1;
    var x := BeVal(c[1..]);
    var root := RootOf(CurveSide(x, b, p, fast), p, fast);
    BytesOfValue(c[1..]);
    PrimeFacts();
    OppositeParity(root, p);
    var y := WithParity(root, c[0], p);
    ValueOfBytes(y, n);
    var point := Decompressed(c, b, p, fast);
    assert point[..n] == BeBytes(x, n) && point[n..] == BeBytes(y, n);
  }

  /**
   * Decompressing a compressed point gives the point back, for every point of
   * the curve y^2 = x^3 + b over a prime field with p = 3 mod 4; with the fast
   * reduction, for the points none of whose products falls in the gap.
   */
  lemma RoundTrip(point: seq<Byte>, n: nat, b: nat, p: nat, fast: bool)
    requires n > 0 && |point| == 2 * n && IsPrime(p) && p % 4 == 3 && Field(p, fast)
    requires OnCurve(BeVal(point[..n]), BeVal(point[n..]), b, p)
    requires fast ==> ClearPoint(BeVal(point[..n]), BeVal(point[n..]))
    ensures Decompressed(Compressed(point), b, p, fast) == point
  {
    hide BeVal, BeBytes, OnCurve, IsPrime, CurveSide, RootOf, WithParity, ClearPoint;
    var c := Compressed(point);
    var x, y := BeVal(point[..n]), BeVal(point[n..]);
    assert c[1..] == point[..n];
    LastByteParity(point[n..]);
    assert c[0] == 2 + y % 2;
    RootOfPoint(x, y, b, p, fast);
    ReducedPoint(x, y, b, p);
    PrimeFacts();
    PickParity(RootOf(CurveSide(x, b, p, fast), p, fast), y, p);
    BytesOfValue(point[..n]);
    BytesOfValue(point[n..]);
    assert point == point[..n] + point[n..];
  }

  lemma ReducedPoint(x: nat, y: nat, b: nat, p: nat)
    requires p > 0 && OnCurve(x, y, b, p)
    ensures x < p && y < p
  {
  }

  // ---------- the methods ----------

  /** result := left * right modulo the prime, by the reduction of the build. */
  method ModMultiply(result: Ptr, left: Ptr, right: Ptr, curve: Curve)
    requires ValidCurve(curve)
    requires result.Fits(curve.numWords) && left.Fits(curve.numWords) && right.Fits(curve.numWords)
    requires result.words != curve.p.words
    modifies result.words
    ensures OnlyChanged(result, curve.numWords)
    ensures result.Value(curve.numWords)
         == Times(old(left.Value(curve.numWords)), old(right.Value(curve.numWords)), curve.p.Value(curve.numWords), curve.fast)
  {
    hide Val, FastProduct, Radix;
    if curve.fast {
      ModMultFast(result, left, right, curve.p);
    } else {
      ModMult(result, left, right, curve.p, curve.numWords);
    }
  }

  /** result := x^3 + b modulo the prime. */
  method XSide(result: Ptr, x: Ptr, curve: Curve)
    requires ValidCurve(curve) && result.Fits(curve.numWords) && x.Fits(curve.numWords)
    requires Apart(result, curve.numWords, x, curve.numWords)
    requires result.words != curve.p.words && result.words != curve.b.words
    modifies result.words
    ensures OnlyChanged(result, curve.numWords)
    ensures result.Value(curve.numWords)
         == CurveSide(old(x.Value(curve.numWords)), curve.b.Value(curve.numWords), curve.p.Value(curve.numWords), curve.fast)
  {
    hide Val, Radix, Times;
    var n := curve.numWords;
    ModMultiply(result, x, x, curve);
    assert x.Seq(n) == old(x.Seq(n));
    ValueBelowFull(x, n);
    ValueBelowFull(result, n);
    ModMultiply(result, result, x, curve);
    ModAdd(result, result, curve.b, curve.p, n);
  }

  lemma ValueBelowFull(x: Ptr, n: nat)
    requires x.Fits(n)
    ensures n == 8 ==> x.Value(n) < Full()
  {
    ValBound(x.Seq(n));
    PrimeFacts();
  }

  /** The exponent bits used so far, one more. */
  lemma NextBit(v: nat, i: nat)
    ensures Above(v, i) == 2 * Above(v, i + 1) + (if Bit(v, i) then 1 else 0)
  {
    DivDiv(v, Pow2(i), 2);
  }

  /** One bit more of the exponent; nothing but the power 1 lies above the first bit. */
  lemma ClimbStep(a: nat, e: nat, bit: nat, p: nat, fast: bool)
    requires Field(p, fast) && bit <= 1
    ensures var half := Climb(a, e, p, fast);
            var square := Times(half, half, p, fast);
            Climb(a, 2 * e + bit, p, fast) == if bit == 1 then Times(square, a, p, fast) else square
  {
    assert (2 * e + bit) / 2 == e && (2 * e + bit) % 2 == bit;
    if e == 0 && bit == 0 {
      OneSquared(p, fast);
    }
  }

  lemma OneSquared(p: nat, fast: bool)
    requires Field(p, fast)
    ensures Times(1, 1, p, fast) == 1
  {
    hide FastProduct;
    if fast {
      FastProductOfOnes();
    } else {
      DivUnique(1, p, 0, 1);
    }
  }

  ghost predicate PowerSoFar(r: nat, a: nat, e: nat, p: nat, fast: bool)
    requires Field(p, fast)
  {
    r == Climb(a, e, p, fast)
  }

  /** a := a^((p + 1) / 4) modulo the prime, by squaring and multiplying along the bits of p + 1 above the lowest two. */
  method ModSqrt(a: Ptr, curve: Curve)
    requires ValidCurve(curve) && a.Fits(curve.numWords)
    requires a.words != curve.p.words && a.words != curve.b.words
    modifies a.words
    ensures OnlyChanged(a, curve.numWords)
    ensures a.Value(curve.numWords) == RootOf(old(a.Value(curve.numWords)), curve.p.Value(curve.numWords), curve.fast)
  {
    hide Val, Radix, Up, Climb, Bit, HasLength, Above;
    var n := curve.numWords;
    ghost var x, p := a.Value(n), curve.p.Value(n);
    var p1Words, rootWords := new Word[n], new Word[n];
    var p1, root := Ptr(p1Words, 0), Ptr(rootWords, 0);
    SetOne(p1, n);
    SetOne(root, n);
    var carry := Add(p1, curve.p, p1, n);
    NoCarry(n, p1.Seq(n), carry, p + 1);
    var bits := NumBits(p1, n);
    ghost var v := p1.Value(n);
    PowerStart(v, bits, x, p, curve.fast);
    var i := bits - 1;
    while i > 1
      invariant 1 <= i < 32 * n && p1.Value(n) == v && unchanged(a.words)
      invariant PowerSoFar(root.Value(n), x, Above(v, i + 1), p, curve.fast)
    {
      SquareAndMultiply(root, p1, i, a, curve);
      i := i - 1;
    }
    QuarterOf(v);
    Set(a, root, n);
  }

  /** Squares the power, and multiplies it once more if the bit of the exponent is set. */
  method SquareAndMultiply(root: Ptr, exponent: Ptr, i: nat, a: Ptr, curve: Curve)
    requires ValidCurve(curve) && i < 32 * curve.numWords
    requires root.Fits(curve.numWords) && exponent.Fits(curve.numWords) && a.Fits(curve.numWords)
    requires root.words != exponent.words && root.words != a.words && root.words != curve.p.words && root.words != curve.b.words
    requires PowerSoFar(root.Value(curve.numWords), a.Value(curve.numWords),
                        Above(exponent.Value(curve.numWords), i + 1), curve.p.Value(curve.numWords), curve.fast)
    modifies root.words
    ensures PowerSoFar(root.Value(curve.numWords), a.Value(curve.numWords),
                       Above(exponent.Value(curve.numWords), i), curve.p.Value(curve.numWords), curve.fast)
  {
    hide Val, Pow2, Radix, Climb, Times, Bit, Above;
    var n := curve.numWords;
    ghost var v := exponent.Value(n);
    ModMultiply(root, root, root, curve);
    NextBit(v, i);
    var isSet := TestBit(exponent, i, n);
    ClimbStep(a.Value(n), Above(v, i + 1), if isSet then 1 else 0, curve.p.Value(n), curve.fast);
    if isSet {
      ModMultiply(root, root, a, curve);
    }
  }

  lemma NoCarry(n: nat, s: seq<Word>, carry: Word, total: nat)
    requires |s| == n && carry <= 1 && Val(s) + Up(n, carry) == total < Radix(n)
    ensures Val(s) == total
  {
    NothingAbove(n, Val(s), carry);
  }

  lemma FourIsPow2()
    ensures Pow2(2) == 4
  {
    assert Pow2(2) == 2 * Pow2(1);
  }

  lemma QuarterOf(v: nat)
    ensures Above(v, 2) == v / 4
  {
    FourIsPow2();
  }

  /** No bit is used yet, and there are at least three. */
  lemma PowerStart(v: nat, bits: nat, a: nat, p: nat, fast: bool)
    requires HasLength(v, bits) && v == p + 1 && Field(p, fast)
    ensures bits > 2 && PowerSoFar(1, a, Above(v, bits), p, fast)
  {
    DivUnique(v, Pow2(bits), 0, v);
    DivUnique(1, p, 0, 1);
    FourIsPow2();
    if bits <= 2 {
      Pow2Monotone(bits, 2);
    }
  }

  // ---------- points as bytes ----------

  method Compress(publicKey: array<Byte>, compressed: array<Byte>, curve: Curve)
    requires curve.numBytes > 0 && publicKey.Length == 2 * curve.numBytes && compressed.Length == curve.numBytes + 1
    requires publicKey != compressed
    modifies compressed
    ensures compressed[..] == Compressed(publicKey[..])
  {
    var i := 0;
    while i < curve.numBytes
      invariant i <= curve.numBytes
      invariant compressed[1..i + 1] == publicKey[..i]
    {
      compressed[i + 1] := publicKey[i];
      i := i + 1;
    }
    compressed[0] := 2 + publicKey[curve.numBytes * 2 - 1] % 2;
    assert compressed[..] == [compressed[0]] + compressed[1..curve.numBytes + 1];
    assert publicKey[..][..curve.numBytes] == publicKey[..curve.numBytes];
  }

  /** A point whose two halves are the number of the bytes and the root with the parity of the prefix. */
  lemma TwoHalves(point: seq<Byte>, c: seq<Byte>, b: nat, p: nat, fast: bool)
    requires |c| > 0 && Field(p, fast) && |point| == 2 * (|c| - 1)
    requires var x := BeVal(c[1..]);
             && point[..|c| - 1] == BeBytes(x, |c| - 1)
             && point[|c| - 1..] == BeBytes(WithParity(RootOf(CurveSide(x, b, p, fast), p, fast), c[0], p), |c| - 1)
    ensures point == Decompressed(c, b, p, fast)
  {
    hide BeVal, BeBytes, CurveSide, RootOf, WithParity;
  }

  /** Puts the root with the wanted parity above the x coordinate. */
  method RecoverY(point: Ptr, parity: Byte, curve: Curve)
    requires ValidCurve(curve) && point.Fits(2 * curve.numWords)
    requires point.words != curve.p.words && point.words != curve.b.words
    modifies point.words
    ensures point.Value(curve.numWords) == old(point.Value(curve.numWords))
    ensures var x, p, fast := old(point.Value(curve.numWords)), curve.p.Value(curve.numWords), curve.fast;
            (point.Plus(curve.numWords).Value(curve.numWords)
            == WithParity(RootOf(CurveSide(x, curve.b.Value(curve.numWords), p, fast), p, fast), parity, p))
  {
    hide Val, CurveSide, RootOf, WithParity, Radix, Times;
    var n := curve.numWords;
    var y := point.Plus(n);
    ghost var x := point.Seq(n);
    XSide(y, point, curve);
    assert point.Seq(n) == x;
    ModSqrt(y, curve);
    assert point.Seq(n) == x;
    TakeParity(y, parity, curve);
    assert point.Seq(n) == x;
  }

  /** Replaces a root by the opposite one if its low bit is not the wanted one. */
  method TakeParity(y: Ptr, parity: Byte, curve: Curve)
    requires ValidCurve(curve) && y.Fits(curve.numWords) && y.words != curve.p.words && y.words != curve.b.words
    requires y.Value(curve.numWords) <= curve.p.Value(curve.numWords)
    modifies y.words
    ensures OnlyChanged(y, curve.numWords)
    ensures y.Value(curve.numWords) == WithParity(old(y.Value(curve.numWords)), parity, curve.p.Value(curve.numWords))
  {
    hide Val;
    LowBit(y.Seq(curve.numWords));
    UpZero(curve.numWords);
    if y.words[y.at] % 2 != parity % 2 {
      var borrow := Sub(y, curve.p, y, curve.numWords);
    }
  }

  method Decompress(compressed: array<Byte>, publicKey: array<Byte>, curve: Curve)
    requires ValidCurve(curve) && publicKey.Length == 2 * curve.numBytes && compressed.Length == curve.numBytes + 1
    requires publicKey != compressed
    modifies publicKey
    ensures publicKey[..] == Decompressed(compressed[..], curve.b.Value(curve.numWords), curve.p.Value(curve.numWords), curve.fast)
  {
    hide Val, BeVal, BeBytes, CurveSide, RootOf, WithParity, Radix, Times, Decompressed;
    var n, numBytes := curve.numWords, curve.numBytes;
    ghost var p, b := curve.p.Value(n), curve.b.Value(n);
    var pointWords := new Word[2 * n];
    var point := Ptr(pointWords, 0);
    BytesToNative(point, compressed, 1, numBytes, n);
    RecoverY(point, compressed[0], curve);
    NativeToBytes(publicKey, 0, numBytes, point, n);
    ghost var first := publicKey[..numBytes];
    NativeToBytes(publicKey, numBytes, numBytes, point.Plus(n), n);
    assert publicKey[..numBytes] == first;
    assert compressed[..][1..] == compressed[1..1 + numBytes];
    TwoHalves(publicKey[..], compressed[..], b, p, curve.fast);
  }
}
