/** Reduction of a double-width product by shifting and subtracting, and multiplication modulo a number. */
module VliReduce {
  import opened Arithmetic
  import opened Words
  import opened VliBasics
  import opened VliBits
  import opened VliMult
  import opened VliMod

  /** A modulus with a non-zero top word is at least the radix below its top word. */
  lemma TopWordLength(mod: Ptr, n: nat, bits: nat)
    requires n > 0 && mod.Fits(n) && mod.words[mod.at + n - 1] != 0
    requires HasLength(mod.Value(n), bits) && bits <= 32 * n
    ensures bits > 32 * (n - 1)
  {
    hide Val, Radix, Pow2, Up;
    var s := mod.Seq(n);
    ValTop(s, n - 1);
    assert s[..n] == s;
    UpAtLeast(n - 1, s[n - 1]);
    RadixIsPow2(n - 1);
    if bits <= 32 * (n - 1) {
      Pow2Monotone(bits, 32 * (n - 1));
    }
  }

  lemma UpAtLeast(n: nat, x: int)
    requires x >= 1
    ensures Up(n, x) >= Radix(n)
  {
    MulLe(1, x, Radix(n));
  }

  /** A number of `bits` bits moved up by `shift` reaches the top of `total` bits, and no further. */
  lemma ShiftedToTop(m: nat, bits: nat, shift: nat, total: nat)
    requires HasLength(m, bits) && bits > 0 && bits + shift == total
    ensures UpBits(shift, m) < Pow2(total) && Pow2(total) <= UpBits(shift + 1, m)
  {
    Pow2Add(shift, bits);
    Pow2Add(shift + 1, bits - 1);
    hide Pow2;
    ScaledBounds(m, Pow2(bits - 1), Pow2(bits), Pow2(shift), Pow2(shift + 1));
  }

  lemma ScaledBounds(m: int, low: int, high: int, p: int, q: int)
    requires low <= m < high && p > 0 && q > 0
    ensures p * m < p * high && q * low <= q * m
  {
    MulLt(m, high, p);
    MulLe(low, m, q);
  }

  /** Writes the modulus, moved up as far as it goes, into a double-width number. */
  method AlignModulus(multiple: Ptr, mod: Ptr, n: nat) returns (shift: nat)
    requires n > 0 && multiple.Fits(2 * n) && mod.Fits(n) && mod.words[mod.at + n - 1] != 0
    requires multiple.words != mod.words
    modifies multiple.words
    ensures multiple.Value(2 * n) == UpBits(shift, mod.Value(n))
    ensures Radix(2 * n) <= UpBits(shift + 1, mod.Value(n))
  {
    hide Val, Pow2, Radix, Up, HasLength, UpBits;
    var bits := NumBits(mod, n);
    TopWordLength(mod, n, bits);
    ghost var m := mod.Value(n);
    shift := n * 2 * 32 - bits;
    ShiftedToTop(m, bits, shift, 64 * n);
    RadixIsPow2(2 * n);
    RadixIsPow2(n);
    var wordShift, bitShift := shift / 32, shift % 32;
    assert wordShift == n && bitShift == 32 * n - bits;
    ShiftedToTop(m, bits, bitShift, 32 * n);
    assert 32 * (2 * n) == 64 * n;
    Clear(multiple, wordShift);
    ghost var zeros := multiple.Seq(n);
    if bitShift > 0 {
      ShiftUp(multiple.Plus(wordShift), mod, n, bitShift);
    } else {
      Set(multiple.Plus(wordShift), mod, n);
    }
    assert multiple.Seq(n) == zeros;
    SplitInTwo(multiple, n);
    AlignedValue(n, bitShift, m);
    UpBitsFacts(0, m);
    assert 32 * n + bitShift == shift;
  }

  lemma AlignedValue(n: nat, bits: nat, m: nat)
    ensures Up(n, UpBits(bits, m)) == UpBits(32 * n + bits, m)
  {
    RadixIsPow2(n);
    Pow2Add(32 * n, bits);
    MulAssoc(Radix(n), Pow2(bits), m);
  }

  /** `x` is what is left of `p` after taking off multiples of `m`, and is below 2^k * m. */
  ghost predicate Reducing(x: nat, p: nat, m: nat, k: nat) {
    m > 0 && x % m == p % m && x < UpBits(k, m)
  }

  /** One step: the difference is taken unless it borrows. */
  lemma ReduceStep(x: nat, p: nat, m: nat, shift: nat, diff: nat, borrow: nat)
    requires Reducing(x, p, m, shift + 1)
    requires borrow <= 1 && (borrow == 1 <==> x < UpBits(shift, m))
    requires borrow == 0 ==> diff == x - UpBits(shift, m)
    ensures Reducing(if borrow == 0 then diff else x, p, m, shift)
    ensures shift > 0 ==> UpBits(shift, m) / 2 == UpBits(shift - 1, m)
  {
    UpBitsFacts(shift, m);
    if borrow == 0 {
      DivModAddMultiple(diff, m, Pow2(shift));
      assert x == diff + m * Pow2(shift);
    }
    if shift > 0 {
      UpBitsFacts(shift - 1, m);
    }
  }

  lemma Reduced(x: nat, p: nat, m: nat)
    requires Reducing(x, p, m, 0)
    ensures x == p % m < m
  {
    UpBitsFacts(0, m);
    DivUnique(x, m, 0, x);
  }

  /** Below the radix, the upper half of a double-width number is zero. */
  lemma FitsLowHalf(v: Ptr, n: nat)
    requires v.Fits(2 * n) && v.Value(2 * n) < Radix(n)
    ensures v.Value(n) == v.Value(2 * n)
  {
    SplitInTwo(v, n);
    NothingAbove(n, v.Value(n), v.Plus(n).Value(n));
  }

  /** Three buffers in memory of their own. */
  ghost predicate Buffers(v: seq<Ptr>, multiple: Ptr, n: nat) {
    && |v| == 2 && v[0].Fits(2 * n) && v[1].Fits(2 * n) && multiple.Fits(2 * n)
    && v[0].words != v[1].words && multiple.words != v[0].words && multiple.words != v[1].words
  }

  /**
   * Subtracts the shifted modulus where it fits, for every shift down to 0. The
   * two buffers take turns: the difference goes to the other one, which becomes
   * current if there was no borrow.
   */
  method ShiftSubtract(v: seq<Ptr>, multiple: Ptr, n: nat, top: nat, ghost m: nat) returns (index: nat)
    requires n > 0 && Buffers(v, multiple, n)
    requires multiple.Value(2 * n) == UpBits(top, m) && m > 0 && v[1].Value(2 * n) < UpBits(top + 1, m)
    modifies v[0].words, v[1].words, multiple.words
    ensures index <= 1 && v[index].Value(2 * n) == old(v[1].Value(2 * n)) % m
  {
    hide Val, Radix, Up, UpBits;
    ghost var p := v[1].Value(2 * n);
    var shift: int := top;
    index := 1;
    while shift >= 0
      invariant -1 <= shift && index <= 1
      invariant shift >= 0 ==> multiple.Value(2 * n) == UpBits(shift, m)
      invariant Reducing(v[index].Value(2 * n), p, m, shift + 1)
      decreases shift
    {
      hide Reducing;
      ghost var x := v[index].Value(2 * n);
      var borrow := Sub(v[1 - index], v[index], multiple, 2 * n);
      UpZero(2 * n);
      ReduceStep(x, p, m, shift, v[1 - index].Value(2 * n), borrow);
      if borrow == 0 {
        index := 1 - index;
      }
      HalveDouble(multiple, n);
      shift := shift - 1;
    }
    Reduced(v[index].Value(2 * n), p, m);
  }

  /** result := product mod `mod`, through a modulus aligned with the top of the product. */
  method Mmod(result: Ptr, product: Ptr, mod: Ptr, n: nat)
    requires 0 < n && result.Fits(n) && product.Fits(2 * n) && mod.Fits(n)
    requires mod.Value(n) > 0 && mod.words[mod.at + n - 1] != 0
    requires result.words != product.words && product.words != mod.words
    modifies result.words, product.words
    ensures result.Value(n) == old(product.Value(2 * n)) % old(mod.Value(n)) && OnlyChanged(result, n)
  {
    hide Val, Pow2, Radix, Up, UpBits;
    var multipleWords, tmpWords := new Word[2 * n], new Word[2 * n];
    var multiple, tmp := Ptr(multipleWords, 0), Ptr(tmpWords, 0);
    var v := [tmp, product];
    ghost var p, m := product.Value(2 * n), mod.Value(n);
    var shift := AlignModulus(multiple, mod, n);
    ValBound(product.Seq(2 * n));
    ValBound(mod.Seq(n));
    var index := ShiftSubtract(v, multiple, n, shift, m);
    ModBound(p, m);
    FitsLowHalf(v[index], n);
    Set(result, v[index], n);
  }

  lemma ModBound(p: nat, m: nat)
    requires m > 0
    ensures p % m < m
  {
  }

  /** result := (left * right) mod `mod`; the result may be an operand. */
  method ModMult(result: Ptr, left: Ptr, right: Ptr, mod: Ptr, n: nat)
    requires 0 < n < 128 && result.Fits(n) && left.Fits(n) && right.Fits(n) && mod.Fits(n)
    requires mod.Value(n) > 0 && mod.words[mod.at + n - 1] != 0
    modifies result.words
    ensures result.Value(n) == (old(left.Value(n)) * old(right.Value(n))) % old(mod.Value(n)) && OnlyChanged(result, n)
  {
    hide Val;
    var productWords := new Word[2 * n];
    var product := Ptr(productWords, 0);
    Mult(product, left, right, n);
    Mmod(result, product, mod, n);
  }
}
