/** Counting and testing the bits of a multi-word number. */
module VliBits {
  import opened Arithmetic
  import opened Words
  import opened VliBasics

  lemma {:induction false} Pow2Add(m: nat, n: nat)
    ensures Pow2(m + n) == Pow2(m) * Pow2(n)
  {
    if m > 0 {
      assert Pow2(m + n) == 2 * Pow2(m - 1 + n);
      Pow2Add(m - 1, n);
      hide Pow2;
      MulAssoc(2, Pow2(m - 1), Pow2(n));
    }
  }

  lemma {:induction false} RadixIsPow2(n: nat)
    ensures Radix(n) == Pow2(32 * n)
  {
    if n > 0 {
      RadixIsPow2(n - 1);
      Pow2Add(32, 32 * (n - 1));
      PowersOfTwo();
      assert 32 + 32 * (n - 1) == 32 * n;
    }
  }

  lemma {:induction false} Pow2Monotone(m: nat, n: nat)
    requires m <= n
    ensures Pow2(m) <= Pow2(n)
  {
    if m < n {
      Pow2Monotone(m, n - 1);
    }
  }

  /** A number moved up by `k` bits. */
  function UpBits(k: nat, x: nat): nat {
    Pow2(k) * x
  }

  lemma UpBitsFacts(k: nat, x: nat)
    ensures UpBits(0, x) == x && UpBits(k + 1, x) == 2 * UpBits(k, x)
  {
    MulAssoc(2, Pow2(k), x);
  }

  /** Cutting the low words and then some bits off. */
  lemma ShiftDown(low: int, r: int, y: int, d: int)
    requires 0 <= low < r && d > 0 && y >= 0
    ensures (low + r * y) / (r * d) == y / d
  {
    DivUnique(low + r * y, r, y, low);
    DivDiv(low + r * y, r, d);
  }

  /** Bits `c` to `c + k - 1` of word `w`, read off the whole number. */
  lemma DigitAt(s: seq<Word>, w: nat, c: nat, k: nat)
    requires w < |s| && c + k <= 32
    ensures (Val(s) / Pow2(32 * w + c)) % Pow2(k) == (s[w] / Pow2(c)) % Pow2(k)
  {
    var high := Val(s[w + 1..]);
    ValSplit(s, w);
    ValBound(s[..w]);
    assert s[w..][1..] == s[w + 1..];
    var y := s[w] + 0x1_0000_0000 * high;
    assert Val(s[w..]) == y;
    RadixIsPow2(w);
    Pow2Add(32 * w, c);
    ShiftDown(Val(s[..w]), Radix(w), y, Pow2(c));
    WordBits(s[w], high, c, k);
  }

  /** Words above do not reach the low bits. */
  lemma WordBits(x: Word, high: nat, c: nat, k: nat)
    requires c + k <= 32
    ensures ((x + 0x1_0000_0000 * high) / Pow2(c)) % Pow2(k) == (x / Pow2(c)) % Pow2(k)
  {
    var p, d, rest := Pow2(c), Pow2(k), Pow2(32 - c - k);
    Pow2Add(c, k);
    Pow2Add(c + k, 32 - c - k);
    PowersOfTwo();
    hide Pow2;
    LowBitsOfSum(x, high, p, d, rest);
  }

  lemma LowBitsOfSum(x: int, high: int, p: int, d: int, rest: int)
    requires p > 0 && d > 0 && (p * d) * rest == 0x1_0000_0000
    ensures ((x + 0x1_0000_0000 * high) / p) % d == (x / p) % d
  {
    var m := d * (rest * high);
    MulAssoc(p * d, rest, high);
    MulAssoc(p, d, rest * high);
    assert 0x1_0000_0000 * high == p * m;
    DivModAddMultiple(x, p, m);
    DivModAddMultiple(x / p, d, rest * high);
  }

  /** A number without its lowest `bit` bits. */
  function Above(v: nat, bit: nat): nat {
    QuotientNonNegative(v, Pow2(bit));
    v / Pow2(bit)
  }

  lemma QuotientNonNegative(v: nat, d: nat)
    requires d > 0
    ensures v / d >= 0
  {
    FloorAtLeast(v, d, 0);
  }

  /** Bit `bit` of the number. */
  function Bit(v: nat, bit: nat): bool {
    Above(v, bit) % 2 == 1
  }

  method TestBit(vli: Ptr, bit: nat, ghost n: nat) returns (isSet: bool)
    requires vli.Fits(n) && bit < 32 * n
    ensures isSet == Bit(vli.Value(n), bit)
  {
    var w, c := bit / 32, bit % 32;
    DigitAt(vli.Seq(n), w, c, 1);
    isSet := (vli.words[vli.at + w] / Pow2(c)) % 2 == 1;
  }

  /** Counts the words up to the highest one that is not zero. */
  method NumDigits(vli: Ptr, max: nat) returns (n: nat)
    requires vli.Fits(max)
    ensures n <= max && (n > 0 ==> vli.words[vli.at + n - 1] != 0)
    ensures vli.Value(max) == Val(vli.Seq(max)[..n])
  {
    ghost var s := vli.Seq(max);
    n := max;
    assert s[..n] == s;
    while n > 0 && vli.words[vli.at + n - 1] == 0
      invariant n <= max && Val(s) == Val(s[..n])
    {
      ValTop(s, n - 1);
      UpZero(n - 1);
      n := n - 1;
    }
  }

  /** The length of a number in bits. */
  ghost predicate HasLength(v: nat, bits: nat) {
    v < Pow2(bits) && (bits > 0 ==> Pow2(bits - 1) <= v)
  }

  lemma DigitLength(s: seq<Word>, n: nat, bits: nat)
    requires 0 < n <= |s| && HasLength(s[n - 1], bits) && bits > 0
    ensures HasLength(Val(s[..n]), 32 * (n - 1) + bits)
  {
    ValTop(s, n - 1);
    ValBound(s[..n - 1]);
    RadixIsPow2(n - 1);
    Pow2Add(32 * (n - 1), bits);
    Pow2Add(32 * (n - 1), bits - 1);
    var low := Val(s[..n - 1]);
    assert Val(s[..n]) == low + Radix(n - 1) * s[n - 1];
    hide Pow2, Radix, Val;
    TopDigit(Radix(n - 1), s[n - 1], Pow2(bits - 1), Pow2(bits), low);
  }

  lemma TopDigit(r: int, d: int, p: int, q: int, low: int)
    requires p <= d < q && 0 <= low < r
    ensures r * p <= low + r * d < r * q
  {
    MulLe(p, d, r);
    MulLe(d + 1, q, r);
    assert (d + 1) * r == d * r + r;
  }

  lemma ZeroLength()
    ensures HasLength(0, 0) && Pow2(0) == 1 && Val([]) == 0
  {
  }

  lemma LengthPositive(v: nat, bits: nat)
    requires HasLength(v, bits) && bits > 0
    ensures v > 0
  {
  }

  method NumBits(vli: Ptr, max: nat) returns (bits: nat)
    requires vli.Fits(max)
    ensures HasLength(vli.Value(max), bits) && bits <= 32 * max
    ensures bits == 0 <==> vli.Value(max) == 0
  {
    ZeroLength();
    hide Pow2, Val;
    var n := NumDigits(vli, max);
    if n == 0 {
      assert vli.Seq(max)[..0] == [];
      return 0;
    }
    var digit := vli.words[vli.at + n - 1];
    ghost var whole := digit;
    var i := 0;
    while digit > 0
      invariant digit == whole / Pow2(i) && (i > 0 ==> Pow2(i - 1) <= whole) && i <= 32
    {
      HalveAgain(whole, i);
      digit := digit / 2;
      i := i + 1;
    }
    DivBounds(whole, Pow2(i));
    DigitLength(vli.Seq(max), n, i);
    LengthPositive(vli.Value(max), 32 * (n - 1) + i);
    return 32 * (n - 1) + i;
  }

  lemma HalveAgain(x: Word, i: nat)
    requires x / Pow2(i) > 0 && i <= 32
    ensures (x / Pow2(i)) / 2 == x / Pow2(i + 1) && Pow2(i) <= x && i < 32
  {
    var p := Pow2(i);
    DivBounds(x, p);
    MulLe(1, x / p, p);
    PowersOfTwo();
    DivDiv(x, p, 2);
    assert p * 2 == Pow2(i + 1);
  }
}
