/** The fast reduction modulo the prime of curve secp256k1, and exactly when it is right. */
module Secp256k1 {
  import opened Arithmetic
  import opened Divisors
  import opened Words
  import opened VliBasics
  import opened VliMult
  import opened VliMod

  /** 2^256. */
  function Full(): nat {
    0x1_0000000000000000_0000000000000000_0000000000000000_0000000000000000
  }

  /** 2^32 + 977, which is 2^256 modulo the prime. */
  function Omega(): nat {
    0x1_0000_03D1
  }

  function Prime(): nat {
    0xFFFFFFFFFFFFFFFF_FFFFFFFFFFFFFFFF_FFFFFFFFFFFFFFFF_FFFFFFFEFFFFFC2F
  }

  lemma PrimeFacts()
    ensures Full() == Prime() + Omega() && Omega() * Omega() < Prime() && Radix(8) == Full()
  {
    assert Radix(2) == 0x1_0000000000000000;
    assert Radix(4) == 0x1_0000000000000000_0000000000000000;
    assert Radix(6) == 0x1_0000000000000000_0000000000000000_0000000000000000;
  }

  // ---------- multiplication by 2^32 + 977 ----------

  /** One word of a multiplication by 977. */
  function OmegaWord(x: Word, carry: Word): (r: (Word, Word))
    requires carry < 0x3D1
    ensures r.0 + 0x1_0000_0000 * r.1 == 0x3D1 * x + carry && r.1 < 0x3D1
  {
    var p := 0x3D1 * (x as int) + carry;
    (p % 0x1_0000_0000, p / 0x1_0000_0000)
  }

  ghost function OmegaWords(s: seq<Word>, n: nat): (out: (seq<Word>, Word))
    requires n <= |s|
    ensures |out.0| == n && out.1 < 0x3D1
  {
    if n == 0 then ([], 0)
    else
      var (low, carry) := OmegaWords(s, n - 1);
      var (w, next) := OmegaWord(s[n - 1], carry);
      (low + [w], next)
  }

  lemma {:induction false} OmegaWordsVal(s: seq<Word>, n: nat)
    requires n <= |s|
    ensures var (out, carry) := OmegaWords(s, n);
            Val(out) + Up(n, carry) == 0x3D1 * Val(s[..n])
  {
    UpZero(0);
    if n > 0 {
      OmegaWordsVal(s, n - 1);
      var (low, carry) := OmegaWords(s, n - 1);
      var (w, next) := OmegaWord(s[n - 1], carry);
      hide Val, OmegaWords, OmegaWord;
      ValTop(s, n - 1);
      ValPush(low, w);
      OmegaColumn(n - 1, w, next, s[n - 1], carry);
    }
  }

  lemma OmegaColumn(i: nat, w: int, next: int, x: int, carry: int)
    requires w + 0x1_0000_0000 * next == 0x3D1 * x + carry
    ensures Up(i, w) + Up(i + 1, next) == 0x3D1 * Up(i, x) + Up(i, carry)
  {
    var r := Radix(i);
    assert r * (w + 0x1_0000_0000 * next) == r * w + (0x1_0000_0000 * r) * next;
    assert r * (0x3D1 * x + carry) == 0x3D1 * (r * x) + r * carry;
  }

  /** Multiplies by 977, then adds the number again one word up. */
  method OmegaMult(result: Ptr, right: Ptr)
    requires result.Fits(10) && right.Fits(8) && Apart(result, 10, right, 8)
    modifies result.words
    ensures result.Value(10) == Omega() * old(right.Value(8)) && OnlyChanged(result, 10)
  {
    hide Val, OmegaWord, Radix, Up;
    ghost var s, out := right.Seq(8), [];
    var carry: Word := 0;
    var k := 0;
    while k < 8
      invariant k <= 8 && OnlyChanged(result, k) && carry < 0x3D1
      invariant (out, carry) == OmegaWords(s, k)
      invariant forall j :: 0 <= j < k ==> result.words[result.at + j] == out[j]
    {
      var x := right.words[right.at + k];
      assert x == s[k];
      var (w, next) := OmegaWord(x, carry);
      result.words[result.at + k] := w;
      carry := next;
      out := out + [w];
      k := k + 1;
    }
    result.words[result.at + 8] := carry;
    OmegaWordsVal(s, 8);
    assert s[..8] == s && result.Seq(9) == out + [carry] && right.Seq(8) == s;
    ValPush(out, carry);
    AddOneUp(result, right);
  }

  /** Adds a number to the words from the second on; the carry becomes the tenth word. */
  method AddOneUp(result: Ptr, right: Ptr)
    requires result.Fits(10) && right.Fits(8) && Apart(result, 10, right, 8)
    modifies result.words
    ensures result.Value(10) == old(result.Value(9)) + 0x1_0000_0000 * old(right.Value(8)) && OnlyChanged(result, 10)
  {
    hide Val, Radix, Up;
    ghost var was := result.Seq(9);
    ghost var low := result.words[result.at];
    FirstWord(was);
    assert was[1..] == result.Plus(1).Seq(8);
    var carry := Add(result.Plus(1), result.Plus(1), right, 8);
    ghost var sum := result.Plus(1).Seq(8);
    result.words[result.at + 9] := carry;
    ghost var now := result.Seq(10);
    FirstWord(now);
    assert now[1..] == sum + [carry];
    ValPush(sum, carry);
    assert now[0] == low;
  }

  lemma FirstWord(s: seq<Word>)
    requires |s| > 0
    ensures Val(s) == s[0] + 0x1_0000_0000 * Val(s[1..])
  {
  }

  // ---------- the two folds ----------

  /** The product with its upper half multiplied by 2^32 + 977 and added in, twice. */
  ghost function Folded(low: nat, high: nat): nat {
    var q := Omega() * high;
    low + q % Full() + Omega() * (q / Full())
  }

  /** Folding keeps the residue, and leaves a carry of at most 2. */
  lemma FoldedFacts(low: nat, high: nat)
    requires low < Full() && high < Full()
    ensures (Omega() * high) / Full() < Omega()
    ensures Folded(low, high) < 2 * Full() + Omega() * Omega()
    ensures Congruent(Folded(low, high), low + Full() * high, Prime())
  {
    PrimeFacts();
    var q := Omega() * high;
    DivBounds(q, Full());
    var r := q / Full();
    assert r < Omega();
    var k := high + r;
    assert low + Full() * high - Folded(low, high) == Prime() * k;
    DividesProduct(Prime(), -k);
    assert Folded(low, high) - (low + Full() * high) == Prime() * (-k);
  }

  /** Subtracting the prime on 256 bits, whatever the borrow. */
  ghost function MinusPrime(r: nat): nat {
    if r < Prime() then r + Omega() else r - Prime()
  }

  /** The correction loop: one subtraction for each carry. */
  ghost function Unwound(r: nat, carry: nat): nat
    decreases carry
  {
    if carry == 0 then r else Unwound(MinusPrime(r), carry - 1)
  }

  /** What the corrections make of a folded product. */
  ghost function Corrected(t: nat): nat {
    var r := Unwound(t % Full(), t / Full());
    if r > Prime() then r - Prime() else r
  }

  /** The loop drops the carry although the low half alone already holds the prime. */
  ghost predicate CarryDropped(t: nat) {
    Full() + Prime() <= t < 2 * Full()
  }

  /**
   * The corrections return the residue, or the prime itself in place of 0,
   * except exactly when they drop a carry.
   */
  lemma CorrectedExactly(t: nat)
    requires t < 2 * Full() + Omega() * Omega()
    ensures Corrected(t) <= Prime()
    ensures Congruent(Corrected(t), t, Prime()) <==> !CarryDropped(t)
  {
    PrimeFacts();
    var p, carry := Prime(), t / Full();
    DivBounds(t, Full());
    var r := t % Full();
    assert carry <= 2 && t == r + Full() * carry;
    if CarryDropped(t) {
      assert carry == 1 && Unwound(r, 1) == Unwound(r - p, 0);
      NotDivided(Corrected(t) - t);
    } else {
      WholeCarries(r, carry);
    }
  }

  /** When no carry is dropped, what remains differs from `t` by a few primes. */
  lemma WholeCarries(r: nat, carry: nat)
    requires r < Full() && carry <= 2
    requires carry == 1 ==> r < Prime()
    requires carry == 2 ==> r < Omega() * Omega()
    ensures Corrected(r + Full() * carry) <= Prime()
    ensures Congruent(Corrected(r + Full() * carry), r + Full() * carry, Prime())
  {
    PrimeFacts();
    var t := r + Full() * carry;
    DivUnique(t, Full(), carry, r);
    var u := r + carry * Omega();
    assert Unwound(r, carry) == u by {
      if carry == 1 {
        assert Unwound(r, 1) == Unwound(MinusPrime(r), 0);
      } else if carry == 2 {
        assert Unwound(r, 2) == Unwound(MinusPrime(r), 1) == Unwound(MinusPrime(MinusPrime(r)), 0);
      }
    }
    var k := if u > Prime() then carry + 1 else carry;
    assert Corrected(t) - t == Prime() * (-k);
    DividesProduct(Prime(), -k);
  }

  lemma NotDivided(d: int)
    requires -2 * Prime() - Omega() == d
    ensures !Divides(Prime(), d)
  {
    PrimeFacts();
    DivUnique(d, Prime(), -3, Prime() - Omega());
  }

  // ---------- products of two numbers ----------

  /** The residues of the products for which a carry can get lost. */
  ghost predicate InGap(z: int) {
    Omega() <= z % Prime() < 2 * Omega()
  }

  /** A dropped carry leaves the residue too small by exactly 2^32 + 977. */
  lemma DroppedCarry(t: nat)
    requires CarryDropped(t)
    ensures InGap(t) && Corrected(t) == t % Prime() - Omega()
  {
    PrimeFacts();
    var p, rest := Prime(), t - 2 * Prime();
    DivUnique(t, p, 2, rest);
    DivUnique(t, Full(), 1, t - Full());
    assert Unwound(t - Full(), 1) == Unwound(t - Full() - p, 0);
  }

  /** The double-width product, folded. */
  ghost function FoldedProduct(x: nat, y: nat): nat {
    Folded((x * y) % Full(), (x * y) / Full())
  }

  /** The fast modular product. */
  ghost function FastProduct(x: nat, y: nat): nat {
    Corrected(FoldedProduct(x, y))
  }

  /** Halves of a product of two 256-bit numbers, small enough to fold. */
  lemma ProductHalves(x: nat, y: nat)
    requires x < Full() && y < Full()
    ensures var z := x * y; z / Full() < Full() && z == z % Full() + Full() * (z / Full())
  {
    var z := x * y;
    MulLe(x, Full() - 1, y);
    MulLe(y, Full() - 1, Full());
    FloorAtMost(z, Full(), Full() - 1);
    DivBounds(z, Full());
  }

  /**
   * The fast product of any two 256-bit numbers is the product modulo the
   * prime, or the prime itself in place of 0, unless a carry is dropped; then
   * it is too small by 2^32 + 977. No carry is dropped when the residue of the
   * product is outside the gap.
   */
  lemma FastProductExact(x: nat, y: nat)
    requires x < Full() && y < Full()
    ensures FastProduct(x, y) <= Prime()
    ensures Congruent(FastProduct(x, y), x * y, Prime()) <==> !CarryDropped(FoldedProduct(x, y))
    ensures CarryDropped(FoldedProduct(x, y)) ==> InGap(x * y) && FastProduct(x, y) == (x * y) % Prime() - Omega()
  {
    hide Folded, Corrected, Unwound, Congruent;
    var z, p := x * y, Prime();
    var t := FoldedProduct(x, y);
    ProductHalves(x, y);
    FoldedFacts(z % Full(), z / Full());
    CorrectedExactly(t);
    ResidueOfFolded(Corrected(t), t, z);
    CongruentMod(t, z, p);
    if CarryDropped(t) {
      DroppedCarry(t);
    }
  }

  /** Two numbers below the prime whose fast product is wrong. */
  lemma CarryCanBeDropped()
    ensures var x, y := 0x579d_57584d077c9ac359_e69b498dd95913a0_cfa5196b5072d1f7_b6cd1470,
                        0x2ec0_0bdd7bc0d6d3d9f8_eea240ac83afd37c_7905f94af3e65801_4cc088ab9;
            x < Prime() && y < Prime() && CarryDropped(FoldedProduct(x, y)) && FastProduct(x, y) != (x * y) % Prime()
  {
    hide Corrected, FastProduct, Congruent, Folded;
    var x, y := 0x579d_57584d077c9ac359_e69b498dd95913a0_cfa5196b5072d1f7_b6cd1470,
                0x2ec0_0bdd7bc0d6d3d9f8_eea240ac83afd37c_7905f94af3e65801_4cc088ab9;
    var high, low := 0xfffffc2f_000e90a0c86a0a63_234e5ba641f43a7e_4aecc4040e67ec85,
                     0xffffffffffffffff_ffffffffffffffff_ffffffffffffffff_ffffffff8ab824f0;
    DivUnique(x * y, Full(), high, low);
    FoldedSmall(low, high);
    FastProductExact(x, y);
  }

  /** Nothing overflows when the upper half is small. */
  lemma FoldedSmall(low: nat, high: nat)
    requires Omega() * high < Full()
    ensures Folded(low, high) == low + Omega() * high
  {
    DivUnique(Omega() * high, Full(), 0, Omega() * high);
  }

  lemma FastProductOfOnes()
    ensures FastProduct(1, 1) == 1
  {
    DivUnique(1, Full(), 0, 1);
    DivUnique(0, Full(), 0, 0);
    assert FoldedProduct(1, 1) == Folded(1, 0) == 1;
    assert Unwound(1, 0) == 1;
  }

  // ---------- the method ----------

  /** The halves of what was multiplied by 2^32 + 977. */
  lemma OmegaHalves(tmp: Ptr, h: nat)
    requires tmp.Fits(16) && tmp.Value(10) == Omega() * h && h < Full()
    requires forall k :: tmp.at + 10 <= k < tmp.at + 16 ==> tmp.words[k] == 0
    ensures tmp.Value(8) == (Omega() * h) % Full() && tmp.Plus(8).Value(8) == (Omega() * h) / Full()
  {
    PrimeFacts();
    SplitInTwo(tmp, 8);
    var s := tmp.Seq(16);
    ValSplit(s, 10);
    assert s[..10] == tmp.Seq(10);
    ValZero(s[10..]);
    UpZero(10);
    ValBound(tmp.Seq(8));
    var low, high := tmp.Value(8), tmp.Plus(8).Value(8);
    assert Up(8, high) == Full() * high;
    hide Val, Radix, Up;
    DivUnique(Omega() * h, Full(), high, low);
  }

  /** The product of a small number fits the low eight words. */
  lemma OmegaFits(product: Ptr, h: nat)
    requires product.Fits(10) && product.Value(10) == Omega() * h && h < Omega()
    ensures product.Value(8) == Omega() * h
  {
    PrimeFacts();
    ValSplit(product.Seq(10), 8);
    assert product.Seq(10)[..8] == product.Seq(8);
    hide Val, Radix, Up;
    NothingAbove(8, product.Value(8), Val(product.Seq(10)[8..]));
  }

  /** tmp := the upper half of the product, multiplied by 2^32 + 977. */
  method FoldUpper(tmp: Ptr, product: Ptr)
    requires tmp.Fits(16) && product.Fits(16) && tmp.words != product.words
    modifies tmp.words
    ensures var q := Omega() * old(product.Plus(8).Value(8));
            tmp.Value(8) == q % Full() && tmp.Plus(8).Value(8) == q / Full()
  {
    hide Val, Radix, Up;
    ghost var high := product.Plus(8).Value(8);
    PrimeFacts();
    ValBound(product.Plus(8).Seq(8));
    Clear(tmp, 8);
    Clear(tmp.Plus(8), 8);
    SeqZero(tmp.Plus(8), 8);
    assert product.Plus(8).Seq(8) == old(product.Plus(8).Seq(8));
    OmegaMult(tmp, product.Plus(8));
    OmegaHalves(tmp, high);
  }

  /** product := the overflow of that, multiplied by 2^32 + 977 again. */
  method FoldOverflow(product: Ptr, overflow: Ptr)
    requires product.Fits(16) && overflow.Fits(8) && product.words != overflow.words && overflow.Value(8) < Omega()
    modifies product.words
    ensures product.Value(8) == Omega() * old(overflow.Value(8))
  {
    hide Val, Radix, Up;
    ghost var r := overflow.Value(8);
    Clear(product, 8);
    assert overflow.Seq(8) == old(overflow.Seq(8));
    OmegaMult(product, overflow);
    OmegaFits(product, r);
  }

  /** Folds the product twice; what does not fit the result is the carry. */
  method Fold(result: Ptr, product: Ptr) returns (carry: nat)
    requires result.Fits(8) && product.Fits(16) && result.words != product.words
    modifies result.words, product.words
    ensures result.Value(8) + Full() * carry == Folded(old(product.Value(8)), old(product.Plus(8).Value(8)))
    ensures OnlyChanged(result, 8)
  {
    hide Val, Radix, Up, Congruent, Folded;
    ghost var low, high := product.Value(8), product.Plus(8).Value(8);
    PrimeFacts();
    ValBound(product.Plus(8).Seq(8));
    ValBound(product.Seq(8));
    FoldedFacts(low, high);
    var tmpWords := new Word[16];
    var tmp := Ptr(tmpWords, 0);
    FoldUpper(tmp, product);
    var c := Add(result, product, tmp, 8);
    ghost var q, sum := Omega() * high, result.Value(8);
    assert tmp.Plus(8).Value(8) == q / Full();
    FoldOverflow(product, tmp.Plus(8));
    var c' := Add(result, result, product, 8);
    carry := c + c';
    FoldAdds(low, high, sum, c, result.Value(8), c');
  }

  lemma FoldAdds(low: nat, high: nat, sum: nat, c: nat, r: nat, c': nat)
    requires sum + Up(8, c) == low + (Omega() * high) % Full()
    requires r + Up(8, c') == sum + Omega() * ((Omega() * high) / Full())
    ensures r + Full() * (c + c') == Folded(low, high)
  {
    PrimeFacts();
  }

  method MmodFast(result: Ptr, product: Ptr, prime: Ptr)
    requires result.Fits(8) && product.Fits(16) && prime.Fits(8) && prime.Value(8) == Prime()
    requires result.words != product.words && result.words != prime.words && product.words != prime.words
    modifies result.words, product.words
    ensures result.Value(8) == Corrected(Folded(old(product.Value(8)), old(product.Plus(8).Value(8))))
    ensures result.Value(8) <= Prime() && OnlyChanged(result, 8)
    ensures var t := Folded(old(product.Value(8)), old(product.Plus(8).Value(8)));
            Congruent(result.Value(8), old(product.Value(16)), Prime()) <==> !CarryDropped(t)
  {
    hide Val, Radix, Up, Congruent, Folded;
    ghost var low, high, whole := product.Value(8), product.Plus(8).Value(8), product.Value(16);
    PrimeFacts();
    ValBound(product.Seq(8));
    ValBound(product.Plus(8).Seq(8));
    SplitInTwo(product, 8);
    UpIsFull(high);
    FoldedFacts(low, high);
    var carry := Fold(result, product);
    ghost var t := Folded(low, high);
    ValBound(result.Seq(8));
    DivUnique(t, Full(), carry, result.Value(8));
    while carry > 0
      invariant prime.Value(8) == Prime() && OnlyChanged(result, 8) && result.Value(8) < Full()
      invariant Unwound(result.Value(8), carry) == Unwound(t % Full(), t / Full())
    {
      carry := carry - 1;
      ghost var r := result.Value(8);
      var borrow := Sub(result, result, prime, 8);
      BorrowIsMinusPrime(r, result.Seq(8), borrow);
    }
    var sign := CmpUnsafe(result, prime, 8);
    if sign > 0 {
      var borrow := Sub(result, result, prime, 8);
      UpZero(8);
    }
    CorrectedExactly(t);
    ResidueOfFolded(result.Value(8), t, whole);
  }

  /** result := left * right modulo the prime, by the fast reduction. */
  method ModMultFast(result: Ptr, left: Ptr, right: Ptr, prime: Ptr)
    requires result.Fits(8) && left.Fits(8) && right.Fits(8) && prime.Fits(8) && prime.Value(8) == Prime()
    requires result.words != prime.words
    modifies result.words
    ensures result.Value(8) == FastProduct(old(left.Value(8)), old(right.Value(8))) && OnlyChanged(result, 8)
  {
    hide Val, Radix, Up, Congruent, Folded, Corrected, CarryDropped;
    ghost var x, y := left.Value(8), right.Value(8);
    var productWords := new Word[16];
    var product := Ptr(productWords, 0);
    Mult(product, left, right, 8);
    PrimeFacts();
    SplitInTwo(product, 8);
    UpIsFull(product.Plus(8).Value(8));
    ValBound(product.Seq(8));
    DivUnique(x * y, Full(), product.Plus(8).Value(8), product.Value(8));
    MmodFast(result, product, prime);
  }

  lemma UpIsFull(x: int)
    ensures Up(8, x) == Full() * x
  {
    PrimeFacts();
  }

  lemma BorrowIsMinusPrime(r: nat, out: seq<Word>, borrow: Word)
    requires |out| == 8 && r < Full() && borrow <= 1 && Val(out) - Up(8, borrow) == r - Prime()
    ensures Val(out) == MinusPrime(r) && Val(out) < Full()
  {
    PrimeFacts();
    ValBound(out);
    UpZero(8);
  }

  lemma ResidueOfFolded(x: int, t: int, whole: int)
    requires Congruent(t, whole, Prime())
    ensures Congruent(x, whole, Prime()) <==> Congruent(x, t, Prime())
  {
    CongruentMod(x, t, Prime());
    CongruentMod(t, whole, Prime());
    CongruentMod(x, whole, Prime());
  }
}
