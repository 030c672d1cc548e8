/** Arithmetic modulo a multi-word number: addition, subtraction, reduction, multiplication. */
module VliMod {
  import opened Arithmetic
  import opened Words
  import opened VliBasics
  import opened VliBits
  import opened VliMult

  // ---------- addition and subtraction ----------

  lemma SumReduced(l: int, r: int, m: int, radix: int, sum: int, carry: int, reduced: int, borrow: int)
    requires 0 <= l <= m && 0 <= r < m < radix && 0 <= sum < radix && 0 <= carry <= 1 && 0 <= borrow <= 1
    requires sum + radix * carry == l + r
    requires carry == 1 || m <= sum
    requires 0 <= reduced < radix && reduced - radix * borrow == sum - m
    ensures reduced == (l + r) % m
  {
    assert carry == 0 || carry == 1;
    assert borrow == 0 || borrow == 1;
    DivUnique(l + r, m, 1, l + r - m);
  }

  /** result := (left + right) mod `mod`, for operands below the modulus; the left one may equal it. */
  method ModAdd(result: Ptr, left: Ptr, right: Ptr, mod: Ptr, n: nat)
    requires result.Fits(n) && left.Fits(n) && right.Fits(n) && mod.Fits(n)
    requires SameOrApart(result, left, n) && SameOrApart(result, right, n) && Apart(result, n, mod, n)
    requires left.Value(n) <= mod.Value(n) && right.Value(n) < mod.Value(n)
    modifies result.words
    ensures result.Value(n) == (old(left.Value(n)) + old(right.Value(n))) % old(mod.Value(n))
    ensures OnlyChanged(result, n)
  {
    hide Val, Up;
    ghost var l, r, m := left.Value(n), right.Value(n), mod.Value(n);
    ValBound(mod.Seq(n));
    var carry := Add(result, left, right, n);
    assert mod.Seq(n) == old(mod.Seq(n));
    UpZero(n);
    var sign := CmpUnsafe(mod, result, n);
    ValBound(result.Seq(n));
    if carry > 0 || sign != 1 {
      ghost var sum := result.Value(n);
      var borrow := Sub(result, result, mod, n);
      ValBound(result.Seq(n));
      SumReduced(l, r, m, Radix(n), sum, carry, result.Value(n), borrow);
    } else {
      DivUnique(l + r, m, 0, l + r);
    }
  }

  lemma DifferenceReduced(l: int, r: int, m: int, radix: int, diff: int, reduced: int, carry: int)
    requires 0 <= l < m && 0 <= r < m < radix && 0 <= diff < radix && 0 <= carry <= 1
    requires diff - radix == l - r && 0 <= reduced < radix && reduced + radix * carry == diff + m
    ensures reduced == (l - r) % m
  {
    assert carry == 0 || carry == 1;
    DivUnique(l - r, m, -1, l - r + m);
  }

  /** result := (left - right) mod `mod`, for operands below the modulus. */
  method ModSub(result: Ptr, left: Ptr, right: Ptr, mod: Ptr, n: nat)
    requires result.Fits(n) && left.Fits(n) && right.Fits(n) && mod.Fits(n)
    requires SameOrApart(result, left, n) && SameOrApart(result, right, n) && Apart(result, n, mod, n)
    requires left.Value(n) < mod.Value(n) && right.Value(n) < mod.Value(n)
    modifies result.words
    ensures result.Value(n) == (old(left.Value(n)) - old(right.Value(n))) % old(mod.Value(n))
    ensures OnlyChanged(result, n)
  {
    hide Val, Up;
    ghost var l, r, m := left.Value(n), right.Value(n), mod.Value(n);
    ValBound(mod.Seq(n));
    UpZero(n);
    var borrow := Sub(result, left, right, n);
    assert mod.Seq(n) == old(mod.Seq(n));
    ValBound(result.Seq(n));
    if borrow > 0 {
      ghost var diff := result.Value(n);
      var carry := Add(result, result, mod, n);
      ValBound(result.Seq(n));
      DifferenceReduced(l, r, m, Radix(n), diff, result.Value(n), carry);
    } else {
      DivUnique(l - r, m, 0, l - r);
    }
  }

  // ---------- reduction of a double-width product ----------

  /** One word moved up by `bits`, with the bits pushed into it from below, and those it pushes out. */
  function ShiftWord(x: Word, carry: nat, bits: nat): (r: (Word, nat))
    requires 0 < bits < 32 && carry < Pow2(bits)
    ensures r.0 + 0x1_0000_0000 * r.1 == x * Pow2(bits) + carry && r.1 < Pow2(bits)
  {
    hide Pow2, Or;
    ShiftWordParts(x, carry, bits);
    (Or(Shl(x, Pow2(bits)), carry), x / Pow2(32 - bits))
  }

  /** A word multiplied by a power of two, its high bits dropped. */
  function Shl(x: Word, p: nat): Word {
    (x * p) % 0x1_0000_0000
  }

  lemma ShiftWordParts(x: Word, carry: nat, bits: nat)
    requires 0 < bits < 32 && carry < Pow2(bits)
    ensures var p := Pow2(bits);
            var q := Pow2(32 - bits);
            && Or(Shl(x, p), carry) == Shl(x, p) + carry < 0x1_0000_0000
            && Shl(x, p) + 0x1_0000_0000 * (x / q) == x * p
            && x / q < p
  {
    var p, q := Pow2(bits), Pow2(32 - bits);
    Pow2Add(bits, 32 - bits);
    PowersOfTwo();
    hide Pow2;
    ShiftArithmetic(x, p, q);
    var r := x - (x / q) * q;
    MultipleHasNoRemainder(p, r);
    assert r * p == p * r;
    OrOfShifted(r * p, carry, bits);
  }

  lemma OrOfShifted(shifted: nat, carry: nat, bits: nat)
    requires carry < Pow2(bits) && shifted % Pow2(bits) == 0
    ensures Or(shifted, carry) == shifted + carry
  {
    OrJoins(carry, shifted, bits);
    OrCommutes(carry, shifted);
  }

  lemma ShiftArithmetic(x: int, p: int, q: int)
    requires 0 <= x < 0x1_0000_0000 && p > 0 && q > 0 && p * q == 0x1_0000_0000
    ensures var r := x - (x / q) * q;
            && 0 <= r && 0 <= r * p <= 0x1_0000_0000 - p && x * p == (x / q) * 0x1_0000_0000 + r * p
            && Shl(x, p) == r * p && x / q < p
  {
    DivBounds(x, q);
    var r := x - (x / q) * q;
    assert x * p == ((x / q) * q) * p + r * p;
    MulAssoc(x / q, q, p);
    assert q * p == p * q;
    MulLe(r, q - 1, p);
    assert (q - 1) * p == p * q - p;
    MulLe(0, r, p);
    DivUnique(x * p, 0x1_0000_0000, x / q, r * p);
    MulLt(x, 0x1_0000_0000, p);
    CancelLt(x / q, p, 0x1_0000_0000, x * p);
  }

  lemma CancelLt(a: int, b: int, c: int, d: int)
    requires c > 0 && c * a <= d < c * b
    ensures a < b
  {
    if b <= a {
      MulLe(b, a, c);
    }
  }

  lemma {:induction false} OrCommutes(a: nat, b: nat)
    ensures Or(a, b) == Or(b, a)
    decreases a + b
  {
    if a != 0 || b != 0 {
      OrCommutes(a / 2, b / 2);
    }
  }

  /** The lowest `n` words of a number moved up by `bits`, and what is pushed out of them. */
  ghost function ShiftWords(s: seq<Word>, n: nat, bits: nat): (out: (seq<Word>, nat))
    requires n <= |s| && 0 < bits < 32
    ensures |out.0| == n && out.1 < Pow2(bits)
  {
    if n == 0 then ([], 0)
    else
      var (low, carry) := ShiftWords(s, n - 1, bits);
      var (w, next) := ShiftWord(s[n - 1], carry, bits);
      (low + [w], next)
  }

  lemma {:induction false} ShiftWordsVal(s: seq<Word>, n: nat, bits: nat)
    requires n <= |s| && 0 < bits < 32
    ensures var (out, carry) := ShiftWords(s, n, bits);
            Val(out) + Up(n, carry) == UpBits(bits, Val(s[..n]))
  {
    UpZero(0);
    if n > 0 {
      ShiftWordsVal(s, n - 1, bits);
      var (low, carry) := ShiftWords(s, n - 1, bits);
      var (w, next) := ShiftWord(s[n - 1], carry, bits);
      hide Val, ShiftWords, ShiftWord;
      ValTop(s, n - 1);
      ValPush(low, w);
      ShiftColumn(n - 1, w, next, s[n - 1], carry, Pow2(bits), Val(s[..n - 1]));
    }
  }

  lemma ShiftColumn(i: nat, w: int, next: int, x: int, carry: int, p: int, low: int)
    requires w + 0x1_0000_0000 * next == x * p + carry
    ensures Up(i, w) + Up(i + 1, next) - Up(i, carry) == p * (low + Up(i, x)) - p * low
  {
    var r := Radix(i);
    assert r * (w + 0x1_0000_0000 * next) == r * w + (0x1_0000_0000 * r) * next;
    assert r * (x * p + carry) == r * (x * p) + r * carry;
    assert r * (x * p) == p * (r * x);
    assert p * (low + r * x) == p * low + p * (r * x);
  }

  /** Moves a number up by less than a word, into words elsewhere. */
  method ShiftUp(dest: Ptr, src: Ptr, n: nat, bits: nat)
    requires dest.Fits(n) && src.Fits(n) && Apart(dest, n, src, n) && 0 < bits < 32
    requires UpBits(bits, src.Value(n)) < Radix(n)
    modifies dest.words
    ensures dest.Value(n) == UpBits(bits, old(src.Value(n))) && OnlyChanged(dest, n)
  {
    hide Val, ShiftWord, Or, Pow2, Up, Radix;
    ghost var s, out := src.Seq(n), [];
    var carry: nat := 0;
    var i := 0;
    while i < n
      invariant i <= n && OnlyChanged(dest, i) && carry < Pow2(bits)
      invariant (out, carry) == ShiftWords(s, i, bits)
      invariant forall k :: 0 <= k < i ==> dest.words[dest.at + k] == out[k]
    {
      var x := src.words[src.at + i];
      assert x == s[i];
      var (w, next) := ShiftWord(x, carry, bits);
      dest.words[dest.at + i] := w;
      carry := next;
      out := out + [w];
      i := i + 1;
    }
    assert s[..n] == s && dest.Seq(n) == out;
    ShiftWordsVal(s, n, bits);
    NothingAbove(n, Val(out), carry);
  }

  /** A number below the radix has nothing above its words. */
  lemma NothingAbove(n: nat, low: nat, above: nat)
    requires low + Up(n, above) < Radix(n)
    ensures above == 0 && Up(n, above) == 0
  {
    if above > 0 {
      MulLe(1, above, Radix(n));
    }
    UpZero(n);
  }

  /** Halves a double-width number, one half of its words after the other. */
  method HalveDouble(vli: Ptr, n: nat)
    requires n > 0 && vli.Fits(2 * n)
    modifies vli.words
    ensures vli.Value(2 * n) == old(vli.Value(2 * n)) / 2 && OnlyChanged(vli, 2 * n)
  {
    hide Val, Up, Radix, Or, TopBit;
    ghost var low, high := vli.Seq(n), vli.Plus(n).Seq(n);
    SplitInTwo(vli, n);
    Rshift1(vli, n);
    assert vli.Plus(n).Seq(n) == high;
    ghost var half := vli.Seq(n);
    HalfFits(half, low);
    var x, y := vli.words[vli.at + n - 1], vli.words[vli.at + n];
    BitJoins(x, TopBit(y));
    vli.words[vli.at + n - 1] := Or(x, TopBit(y));
    assert vli.Seq(n) == half[n - 1 := x + TopBit(y)];
    assert vli.Plus(n).Seq(n) == high;
    Rshift1(vli.Plus(n), n);
    assert vli.Seq(n) == half[n - 1 := x + TopBit(y)];
    SplitInTwo(vli, n);
    HalvesMeet(n, low, high, half, vli.Plus(n).Seq(n), x + TopBit(y), old(vli.Value(2 * n)));
  }

  lemma SplitInTwo(vli: Ptr, n: nat)
    requires vli.Fits(2 * n)
    ensures vli.Value(2 * n) == vli.Value(n) + Up(n, vli.Plus(n).Value(n))
  {
    ValSplit(vli.Seq(2 * n), n);
    assert vli.Seq(2 * n)[..n] == vli.Seq(n) && vli.Seq(2 * n)[n..] == vli.Plus(n).Seq(n);
  }

  lemma BitJoins(x: Word, y: Word)
    requires x < 0x8000_0000 && (y == 0 || y == 0x8000_0000)
    ensures Or(x, y) == x + y
  {
    PowersOfTwo();
    assert y % 0x8000_0000 == 0;
    OrJoins(x, y, 31);
  }

  /** A halved number has room for one bit at the top. */
  lemma HalfFits(half: seq<Word>, whole: seq<Word>)
    requires |half| == |whole| > 0 && Val(half) == Val(whole) / 2
    ensures half[|half| - 1] < 0x8000_0000
  {
    var n := |half| - 1;
    ValBound(whole);
    ValTop(half, n);
    assert half[..n + 1] == half;
    ValBound(half[..n]);
    var r, x := Radix(n), half[n];
    assert Radix(n + 1) == 0x1_0000_0000 * r;
    if x >= 0x8000_0000 {
      MulLe(0x8000_0000, x, r);
    }
  }

  lemma HalvesMeet(n: nat, low: seq<Word>, high: seq<Word>, half: seq<Word>, newHigh: seq<Word>, w: Word, total: int)
    requires |low| == |high| == |half| == |newHigh| == n > 0
    requires Val(half) == Val(low) / 2 && Val(newHigh) == Val(high) / 2
    requires w == half[n - 1] + TopBit(high[0]) && total == Val(low) + Up(n, Val(high))
    ensures Val(half[n - 1 := w]) + Up(n, Val(newHigh)) == total / 2
  {
    hide Val, Radix, Up, TopBit;
    ReplaceTop(half, w);
    TopBitOfHigh(high);
    HalvesArithmetic(n, Val(low), Val(half), Val(high), Val(newHigh), half[n - 1], w, total, Val(half[n - 1 := w]));
  }

  lemma ReplaceTop(s: seq<Word>, w: Word)
    requires |s| > 0
    ensures var n := |s| - 1;
            Val(s[n := w]) == Val(s) + Up(n, w) - Up(n, s[n])
  {
    hide Val, Radix, Up;
    var n := |s| - 1;
    ValPush(s[..n], s[n]);
    ValPush(s[..n], w);
    assert s[..n] + [s[n]] == s;
    assert s[..n] + [w] == s[n := w];
  }

  lemma TopBitOfHigh(s: seq<Word>)
    requires |s| > 0
    ensures TopBit(s[0]) == 0x8000_0000 * (Val(s) - 2 * (Val(s) / 2))
  {
  }

  lemma HalvesArithmetic(n: nat, low: int, half: int, high: int, newHigh: int, x: int, w: int, total: int, newLow: int)
    requires n > 0 && half == low / 2 && newHigh == high / 2 && w - x == 0x8000_0000 * (high - 2 * newHigh)
    requires total == low + Up(n, high) && newLow == half + Up(n - 1, w) - Up(n - 1, x)
    ensures newLow + Up(n, newHigh) == total / 2
  {
    var bit := high - 2 * newHigh;
    var s := 0x8000_0000 * Radix(n - 1);
    assert Radix(n - 1) * (w - x) == s * bit;
    assert Radix(n - 1) * (w - x) == Up(n - 1, w) - Up(n - 1, x);
    assert Up(n, high) == 2 * (s * high);
    assert Up(n, newHigh) == 2 * (s * newHigh);
    assert s * high == 2 * (s * newHigh) + s * bit;
    hide Up, Radix;
    assert total == low + 2 * (newLow - half + Up(n, newHigh));
  }
}
