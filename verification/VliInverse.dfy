/** The binary modular inverse. */
module VliInverse {
  import opened Arithmetic
  import opened Divisors
  import opened Words
  import opened VliBasics
  import opened VliBits
  import opened VliMod

  // ---------- the numbers ----------

  /** Half of `u` modulo an odd `m`. */
  ghost function HalfMod(u: nat, m: nat): nat {
    if u % 2 == 0 then u / 2 else (u + m) / 2
  }

  /**
   * What the loop keeps: `u` and `v` take the input `x` to `a` and `b` modulo
   * `m`, and `a` and `b` have the divisors that `x` and `m` have.
   */
  ghost predicate Inverting(a: nat, b: nat, u: nat, v: nat, x: nat, m: nat) {
    && m > 1 && m % 2 == 1 && a > 0 && b > 0 && u < m && v < m
    && Congruent(u * x, a, m) && Congruent(v * x, b, m)
    && SameDivisors(a, b, x, m)
  }

  lemma InvertingStart(x: nat, m: nat)
    requires x > 0 && m > 1 && m % 2 == 1
    ensures Inverting(x, m, 1, 0, x, m)
  {
    DivUnique(0, m, 0, 0);
    DividesProduct(m, -1);
  }

  lemma InvertingSwap(a: nat, b: nat, u: nat, v: nat, x: nat, m: nat)
    requires Inverting(a, b, u, v, x, m)
    ensures Inverting(b, a, v, u, x, m)
  {
    forall k: int ensures CommonDivisor(k, b, a) <==> CommonDivisor(k, x, m) {
      assert CommonDivisor(k, a, b) <==> CommonDivisor(k, x, m);
    }
  }

  /** The two numbers are never both even. */
  lemma NotBothEven(a: nat, b: nat, u: nat, v: nat, x: nat, m: nat)
    requires Inverting(a, b, u, v, x, m)
    ensures a % 2 == 1 || b % 2 == 1
  {
    assert CommonDivisor(2, a, b) <==> CommonDivisor(2, x, m);
  }

  /** Halving one number and its coefficient. */
  lemma HalfCongruent(u: nat, a: nat, x: nat, m: nat)
    requires m > 1 && m % 2 == 1 && u < m && Congruent(u * x, 2 * a, m)
    ensures HalfMod(u, m) < m && Congruent(HalfMod(u, m) * x, a, m)
  {
    var h := HalfMod(u, m);
    var c := if u % 2 == 0 then 0 else 1;
    assert 2 * h == u + c * m;
    assert 2 * (h * x) == (2 * h) * x;
    assert (u + c * m) * x == u * x + c * (m * x);
    DividesProduct(m, x);
    DividesLinear(m, u * x - 2 * a, m * x, 1, c);
    assert 2 * (h * x - a) == (u * x - 2 * a) + c * (m * x);
    OddDivides(m, h * x - a);
  }

  lemma HalveStep(a: nat, b: nat, u: nat, v: nat, x: nat, m: nat)
    requires Inverting(a, b, u, v, x, m) && a % 2 == 0
    ensures Inverting(a / 2, b, HalfMod(u, m), v, x, m) && a / 2 < a
  {
    NotBothEven(a, b, u, v, x, m);
    var h := a / 2;
    assert a == 2 * h;
    HalfCongruent(u, h, x, m);
    HalvingKeepsDivisors(h, b);
    SameDivisorsTransitive(h, b, 2 * h, b, x, m);
  }

  lemma SameDivisorsTransitive(a: int, b: int, c: int, d: int, e: int, f: int)
    requires SameDivisors(c, d, a, b) && SameDivisors(c, d, e, f)
    ensures SameDivisors(a, b, e, f)
  {
    forall k: int ensures CommonDivisor(k, a, b) <==> CommonDivisor(k, e, f) {
      assert CommonDivisor(k, c, d) <==> CommonDivisor(k, a, b);
      assert CommonDivisor(k, c, d) <==> CommonDivisor(k, e, f);
    }
  }

  lemma SubtractCongruent(u: int, v: int, c: int, a: int, b: int, x: int, m: int)
    requires m > 0 && Congruent(u * x, a, m) && Congruent(v * x, b, m)
    ensures Congruent((u - v + c * m) * x, a - b, m)
  {
    var e, f := u * x - a, v * x - b;
    DividesProduct(m, x);
    DividesLinear(m, e, f, 1, -1);
    DividesLinear(m, e - f, m * x, 1, c);
    MulAssoc(c, m, x);
    assert (u - v) * x == u * x - v * x;
    assert ((u - v) + c * m) * x == (u - v) * x + (c * m) * x;
  }

  /** Subtracting the smaller of two odd numbers from the larger. */
  lemma SubtractStep(a: nat, b: nat, u: nat, v: nat, x: nat, m: nat, w: nat)
    requires Inverting(a, b, u, v, x, m) && a % 2 == 1 && b % 2 == 1 && a > b
    requires w == (if u < v then u + m - v else u - v)
    ensures (a - b) % 2 == 0 && Inverting(a - b, b, w, v, x, m)
  {
    hide Congruent, Divides, CommonDivisor;
    SubtractCongruent(u, v, if u < v then 1 else 0, a, b, x, m);
    SubtractingKeepsDivisors(a, b);
    SameDivisorsTransitive(a - b, b, a, b, x, m);
    hide SameDivisors;
    assert w == u - v + (if u < v then 1 else 0) * m;
  }

  /** When the two numbers meet, they are the greatest common divisor. */
  lemma Met(a: nat, u: nat, v: nat, x: nat, m: nat)
    requires Inverting(a, a, u, v, x, m)
    ensures IsGcd(a, x, m) && Congruent(u * x, a, m)
  {
    SelfGcd(a);
    assert CommonDivisor(a, a, a) <==> CommonDivisor(a, x, m);
    forall d: int | CommonDivisor(d, x, m) ensures d <= a {
      assert CommonDivisor(d, a, a) <==> CommonDivisor(d, x, m);
    }
  }

  // ---------- the method ----------

  lemma LowBit(s: seq<Word>)
    requires |s| > 0
    ensures Val(s) % 2 == s[0] % 2
  {
  }

  method IsEven(vli: Ptr, n: nat) returns (even: bool)
    requires n > 0 && vli.Fits(n)
    ensures even <==> vli.Value(n) % 2 == 0
  {
    LowBit(vli.Seq(n));
    even := vli.words[vli.at] % 2 == 0;
  }

  lemma CarryMeets(n: nat, half: seq<Word>, sum: nat, carry: nat, x: Word)
    requires n > 0 && |half| == n && Val(half) == sum / 2 && carry <= 1 && x == half[n - 1]
    requires carry == 1 ==> x < 0x8000_0000
    ensures Val(if carry == 1 then half[n - 1 := x + 0x8000_0000] else half) == (sum + Up(n, carry)) / 2
  {
    UpZero(n);
    if carry == 1 {
      ReplaceTop(half, x + 0x8000_0000);
      UpSum(n - 1, x, 0x8000_0000);
    }
  }

  /** Halves a coefficient modulo an odd number; the carry of the addition becomes the top bit. */
  method ModInvUpdate(uv: Ptr, mod: Ptr, n: nat)
    requires n > 0 && uv.Fits(n) && mod.Fits(n) && Apart(uv, n, mod, n)
    modifies uv.words
    ensures uv.Value(n) == HalfMod(old(uv.Value(n)), old(mod.Value(n))) && OnlyChanged(uv, n)
  {
    hide Val, Up, Radix, Or;
    var carry: Word := 0;
    UpZero(n);
    var even := IsEven(uv, n);
    if !even {
      carry := Add(uv, uv, mod, n);
    }
    ghost var sum, whole := uv.Value(n), uv.Seq(n);
    Rshift1(uv, n);
    ghost var half := uv.Seq(n);
    HalfFits(half, whole);
    var top := uv.words[uv.at + n - 1];
    CarryMeets(n, half, sum, carry, top);
    if carry > 0 {
      BitJoins(top, 0x8000_0000);
      uv.words[uv.at + n - 1] := Or(top, 0x8000_0000);
      assert uv.Seq(n) == half[n - 1 := top + 0x8000_0000];
    }
  }

  /** Subtracts coefficients modulo `mod`: the addition may wrap, and the subtraction wraps back. */
  method SubtractCoefficient(u: Ptr, v: Ptr, mod: Ptr, n: nat)
    requires n > 0 && u.Fits(n) && v.Fits(n) && mod.Fits(n) && Apart(u, n, v, n) && Apart(u, n, mod, n)
    requires u.Value(n) < mod.Value(n) && v.Value(n) < mod.Value(n)
    modifies u.words
    ensures OnlyChanged(u, n)
    ensures var (x, y) := (old(u.Value(n)), old(v.Value(n)));
            u.Value(n) == if x < y then x + old(mod.Value(n)) - y else x - y
  {
    hide Val, Up, Radix;
    ghost var x, y, m := u.Value(n), v.Value(n), mod.Value(n);
    UpZero(n);
    ValBound(mod.Seq(n));
    var sign := CmpUnsafe(u, v, n);
    if sign < 0 {
      var carry := Add(u, u, mod, n);
      assert v.Seq(n) == old(v.Seq(n));
    }
    ghost var before := u.Value(n);
    var borrow := Sub(u, u, v, n);
    ValBound(u.Seq(n));
  }

  /** Half the difference of two odd numbers, into the larger. */
  method HalfDifference(a: Ptr, b: Ptr, n: nat)
    requires n > 0 && a.Fits(n) && b.Fits(n) && Apart(a, n, b, n) && a.Value(n) >= b.Value(n)
    modifies a.words
    ensures a.Value(n) == (old(a.Value(n)) - old(b.Value(n))) / 2 && OnlyChanged(a, n)
  {
    hide Val, Up, Radix;
    UpZero(n);
    var borrow := Sub(a, a, b, n);
    Rshift1(a, n);
  }

  /** Four numbers in memory of their own, apart from the modulus. */
  ghost predicate Registers(a: Ptr, b: Ptr, u: Ptr, v: Ptr, mod: Ptr, n: nat) {
    && n > 0 && a.Fits(n) && b.Fits(n) && u.Fits(n) && v.Fits(n) && mod.Fits(n)
    && a.words != b.words && a.words != u.words && a.words != v.words && a.words != mod.words
    && b.words != u.words && b.words != v.words && b.words != mod.words
    && u.words != v.words && u.words != mod.words && v.words != mod.words
  }

  ghost predicate Holds(a: Ptr, b: Ptr, u: Ptr, v: Ptr, mod: Ptr, n: nat, x: nat)
    reads a.words, b.words, u.words, v.words, mod.words
  {
    Registers(a, b, u, v, mod, n) && Inverting(a.Value(n), b.Value(n), u.Value(n), v.Value(n), x, mod.Value(n))
  }

  /** The first number is even: halve it. */
  method HalveRegister(a: Ptr, b: Ptr, u: Ptr, v: Ptr, mod: Ptr, n: nat, ghost x: nat)
    requires Holds(a, b, u, v, mod, n, x) && a.Value(n) % 2 == 0
    modifies a.words, u.words
    ensures Holds(a, b, u, v, mod, n, x) && a.Value(n) < old(a.Value(n)) && b.Value(n) == old(b.Value(n))
  {
    hide Val, Inverting, HalfMod;
    ghost var x0, y0, u0, v0, m := a.Value(n), b.Value(n), u.Value(n), v.Value(n), mod.Value(n);
    HalveStep(x0, y0, u0, v0, x, m);
    Rshift1(a, n);
    ModInvUpdate(u, mod, n);
    assert b.Seq(n) == old(b.Seq(n)) && v.Seq(n) == old(v.Seq(n)) && mod.Seq(n) == old(mod.Seq(n));
  }

  /** Both numbers are odd and the first is larger: take half the difference. */
  method SubtractRegister(a: Ptr, b: Ptr, u: Ptr, v: Ptr, mod: Ptr, n: nat, ghost x: nat)
    requires Holds(a, b, u, v, mod, n, x)
    requires a.Value(n) % 2 == 1 && b.Value(n) % 2 == 1 && a.Value(n) > b.Value(n)
    modifies a.words, u.words
    ensures Holds(a, b, u, v, mod, n, x) && a.Value(n) < old(a.Value(n)) && b.Value(n) == old(b.Value(n))
  {
    hide Val, HalfMod, Congruent, SameDivisors;
    ghost var x0, y0, u0, v0, m := a.Value(n), b.Value(n), u.Value(n), v.Value(n), mod.Value(n);
    ghost var w := if u0 < v0 then u0 + m - v0 else u0 - v0;
    SubtractStep(x0, y0, u0, v0, x, m, w);
    HalveStep(x0 - y0, y0, w, v0, x, m);
    HalfDifference(a, b, n);
    SubtractCoefficient(u, v, mod, n);
    assert mod.Seq(n) == old(mod.Seq(n));
    ModInvUpdate(u, mod, n);
    assert b.Seq(n) == old(b.Seq(n)) && v.Seq(n) == old(v.Seq(n)) && mod.Seq(n) == old(mod.Seq(n));
  }

  /** Halves and subtracts until the two numbers meet. */
  method Converge(a: Ptr, b: Ptr, u: Ptr, v: Ptr, mod: Ptr, n: nat, ghost x: nat)
    requires Holds(a, b, u, v, mod, n, x)
    modifies a.words, b.words, u.words, v.words
    ensures Holds(a, b, u, v, mod, n, x) && a.Value(n) == b.Value(n)
  {
    hide Val, Inverting;
    var sign := CmpUnsafe(a, b, n);
    while sign != 0
      invariant Holds(a, b, u, v, mod, n, x)
      invariant sign == (if a.Value(n) > b.Value(n) then 1 else if a.Value(n) < b.Value(n) then -1 else 0)
      decreases a.Value(n) + b.Value(n)
    {
      var aEven := IsEven(a, n);
      var bEven := IsEven(b, n);
      if aEven {
        HalveRegister(a, b, u, v, mod, n, x);
      } else {
        HoldsSwapped(a, b, u, v, mod, n, x);
        if bEven {
          HalveRegister(b, a, v, u, mod, n, x);
        } else if sign > 0 {
          SubtractRegister(a, b, u, v, mod, n, x);
        } else {
          SubtractRegister(b, a, v, u, mod, n, x);
        }
        if bEven || sign <= 0 {
          HoldsSwapped(b, a, v, u, mod, n, x);
        }
      }
      sign := CmpUnsafe(a, b, n);
    }
  }

  lemma HoldsSwapped(a: Ptr, b: Ptr, u: Ptr, v: Ptr, mod: Ptr, n: nat, x: nat)
    requires Holds(a, b, u, v, mod, n, x)
    ensures Holds(b, a, v, u, mod, n, x)
  {
    InvertingSwap(a.Value(n), b.Value(n), u.Value(n), v.Value(n), x, mod.Value(n));
    hide Inverting;
  }

  /**
   * result := 1 / input modulo an odd number: times the input it is congruent to
   * the greatest common divisor, so it is the inverse when that is 1.
   */
  method ModInv(result: Ptr, input: Ptr, mod: Ptr, n: nat) returns (ghost g: nat)
    requires n > 0 && result.Fits(n) && input.Fits(n) && mod.Fits(n)
    requires mod.Value(n) > 1 && mod.Value(n) % 2 == 1
    modifies result.words
    ensures OnlyChanged(result, n) && result.Value(n) < old(mod.Value(n))
    ensures old(input.Value(n)) == 0 ==> result.Value(n) == 0
    ensures old(input.Value(n)) > 0 ==> IsGcd(g, old(input.Value(n)), old(mod.Value(n)))
    ensures old(input.Value(n)) > 0 ==> Congruent(result.Value(n) * old(input.Value(n)), g, old(mod.Value(n)))
  {
    hide Val, IsGcd, Congruent;
    g := 0;
    var zero := IsZero(input, n);
    if zero {
      Clear(result, n);
      return;
    }
    ghost var x, m := input.Value(n), mod.Value(n);
    var aWords, bWords, uWords, vWords := new Word[n], new Word[n], new Word[n], new Word[n];
    var a, b, u, v := Ptr(aWords, 0), Ptr(bWords, 0), Ptr(uWords, 0), Ptr(vWords, 0);
    Set(a, input, n);
    Set(b, mod, n);
    SetOne(u, n);
    Clear(v, n);
    InvertingStart(x, m);
    Converge(a, b, u, v, mod, n, x);
    g := a.Value(n);
    Met(g, u.Value(n), v.Value(n), x, m);
    Set(result, u, n);
  }

  method SetOne(u: Ptr, n: nat)
    requires n > 0 && u.Fits(n)
    modifies u.words
    ensures u.Value(n) == 1 && OnlyChanged(u, n)
  {
    Clear(u, n);
    ghost var zeros := u.Seq(n);
    u.words[u.at] := 1;
    assert u.Seq(n) == [1] + zeros[1..];
    ValZero(zeros);
    ValZero(zeros[1..]);
  }
}
