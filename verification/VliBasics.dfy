/** Clearing, copying, comparing, shifting, adding and subtracting multi-word numbers. */
module VliBasics {
  import opened Arithmetic
  import opened Words

  method Clear(vli: Ptr, n: nat)
    requires vli.Fits(n)
    modifies vli.words
    ensures vli.Value(n) == 0 && OnlyChanged(vli, n)
  {
    var i := 0;
    while i < n
      invariant i <= n
      invariant forall k :: vli.at <= k < vli.at + i ==> vli.words[k] == 0
      invariant OnlyChanged(vli, n)
    {
      vli.words[vli.at + i] := 0;
      i := i + 1;
    }
    ValZero(vli.Seq(n));
  }

  method Set(dest: Ptr, src: Ptr, n: nat)
    requires dest.Fits(n) && src.Fits(n) && SameOrApart(dest, src, n)
    modifies dest.words
    ensures dest.Seq(n) == old(src.Seq(n)) && OnlyChanged(dest, n)
  {
    ghost var was := src.Seq(n);
    var i := 0;
    while i < n
      invariant i <= n
      invariant forall k :: 0 <= k < i ==> dest.words[dest.at + k] == was[k]
      invariant forall k :: i <= k < n ==> src.words[src.at + k] == was[k]
      invariant OnlyChanged(dest, n)
    {
      dest.words[dest.at + i] := src.words[src.at + i];
      i := i + 1;
    }
  }

  method IsZero(vli: Ptr, n: nat) returns (zero: bool)
    requires vli.Fits(n)
    ensures zero <==> vli.Value(n) == 0
  {
    var bits: nat := 0;
    var i := 0;
    while i < n
      invariant i <= n
      invariant bits == 0 <==> forall k :: vli.at <= k < vli.at + i ==> vli.words[k] == 0
    {
      OrIsZero(bits, vli.words[vli.at + i]);
      bits := Or(bits, vli.words[vli.at + i]);
      i := i + 1;
    }
    SeqZero(vli, n);
    return bits == 0;
  }

  lemma SeqZero(vli: Ptr, n: nat)
    requires vli.Fits(n)
    ensures vli.Value(n) == 0 <==> forall k :: vli.at <= k < vli.at + n ==> vli.words[k] == 0
  {
    var s := vli.Seq(n);
    ValZero(s);
    if forall k :: 0 <= k < n ==> s[k] == 0 {
      forall k | vli.at <= k < vli.at + n ensures vli.words[k] == 0 {
        assert s[k - vli.at] == 0;
      }
    }
  }

  /** The numbers above word `n` are equal, so the words at `n` decide. */
  lemma CompareFromTop(s: seq<Word>, t: seq<Word>, n: nat)
    requires |s| == |t| && n < |s| && s[n + 1..] == t[n + 1..] && s[n] < t[n]
    ensures Val(s) < Val(t)
  {
    ValSplit(s, n + 1);
    ValSplit(t, n + 1);
    ValTop(s, n);
    ValTop(t, n);
    ValBound(s[..n]);
    ValBound(t[..n]);
    TopDecides(Radix(n), s[n], t[n], Val(s[..n]), Val(t[..n]));
  }

  lemma TopDecides(r: int, x: int, y: int, lowX: int, lowY: int)
    requires x < y && 0 <= lowX < r && 0 <= lowY
    ensures r * x + lowX < r * y + lowY
  {
    MulLe(x + 1, y, r);
    assert (x + 1) * r == x * r + r;
  }

  /** The sign of left - right. */
  method CmpUnsafe(left: Ptr, right: Ptr, n: nat) returns (sign: int)
    requires left.Fits(n) && right.Fits(n)
    ensures sign == (if left.Value(n) > right.Value(n) then 1 else if left.Value(n) < right.Value(n) then -1 else 0)
  {
    ghost var l, r := left.Seq(n), right.Seq(n);
    var i: nat := n;
    while i > 0
      invariant i <= n && l[i..] == r[i..]
    {
      i := i - 1;
      if left.words[left.at + i] > right.words[right.at + i] {
        CompareFromTop(r, l, i);
        return 1;
      } else if left.words[left.at + i] < right.words[right.at + i] {
        CompareFromTop(l, r, i);
        return -1;
      }
      assert l[i..] == [l[i]] + l[i + 1..] && r[i..] == [r[i]] + r[i + 1..];
    }
    assert l[0..] == l && r[0..] == r;
    return 0;
  }

  // ---------- addition and subtraction ----------

  /** The low word of a sum, and its carry as the code finds it: the sum wrapped below an operand. */
  function AddWord(x: Word, y: Word, carry: Word): (r: (Word, Word))
    requires carry <= 1
    ensures r.1 <= 1 && r.0 + 0x1_0000_0000 * r.1 == x + y + carry
  {
    var sum := if x + y + carry < 0x1_0000_0000 then x + y + carry else x + y + carry - 0x1_0000_0000;
    (sum, if sum != x then (if sum < x then 1 else 0) else carry)
  }

  function SubWord(x: Word, y: Word, borrow: Word): (r: (Word, Word))
    requires borrow <= 1
    ensures r.1 <= 1 && r.0 - 0x1_0000_0000 * r.1 == x - y - borrow
  {
    var diff := if x - y - borrow >= 0 then x - y - borrow else x - y - borrow + 0x1_0000_0000;
    (diff, if diff != x then (if diff > x then 1 else 0) else borrow)
  }

  /** One column, at its place value. */
  lemma Column(i: nat, w: int, c': int, l: int, r: int, c: int)
    requires w + 0x1_0000_0000 * c' == l + r + c
    ensures Up(i, w) + Up(i + 1, c') == Up(i, l) + Up(i, r) + Up(i, c)
  {
    var p := Radix(i);
    assert p * (w + 0x1_0000_0000 * c') == p * w + (0x1_0000_0000 * p) * c';
    assert p * (l + r + c) == p * l + p * r + p * c;
  }

  lemma UpZero(i: nat)
    ensures Up(i, 0) == 0 && Up(i, 1) == Radix(i) && Val([]) == 0
  {
  }

  lemma BorrowMeansLess(n: nat, out: seq<Word>, l: seq<Word>, r: seq<Word>, borrow: Word)
    requires |out| == |l| == |r| == n && borrow <= 1 && Val(out) - Up(n, borrow) == Val(l) - Val(r)
    ensures borrow == 1 <==> Val(l) < Val(r)
  {
    ValBound(out);
    ValBound(l);
    ValBound(r);
    UpZero(n);
    hide Up;
  }

  lemma UpNegated(i: nat, x: int)
    ensures Up(i, -x) == -Up(i, x)
  {
  }

  /** The lowest `n` words of a sum, and the carry out of them. */
  ghost function SumWords(l: seq<Word>, r: seq<Word>, n: nat): (out: (seq<Word>, Word))
    requires n <= |l| && n <= |r|
    ensures |out.0| == n && out.1 <= 1
  {
    if n == 0 then ([], 0)
    else
      var (low, carry) := SumWords(l, r, n - 1);
      var (w, next) := AddWord(l[n - 1], r[n - 1], carry);
      (low + [w], next)
  }

  lemma NoWords(l: seq<Word>, r: seq<Word>)
    ensures SumWords(l, r, 0) == ([], 0) && DiffWords(l, r, 0) == ([], 0) && l[..0] == r[..0] == []
  {
  }

  lemma SumWordsStep(l: seq<Word>, r: seq<Word>, n: nat)
    requires n < |l| && n < |r|
    ensures var (low, carry) := SumWords(l, r, n);
            var (w, next) := AddWord(l[n], r[n], carry);
            SumWords(l, r, n + 1) == (low + [w], next)
  {
  }

  lemma {:induction false} SumWordsVal(l: seq<Word>, r: seq<Word>, n: nat)
    requires n <= |l| && n <= |r|
    ensures var (out, carry) := SumWords(l, r, n);
            Val(out) + Up(n, carry) == Val(l[..n]) + Val(r[..n])
  {
    hide Up, Radix, Val, SumWords, AddWord;
    UpZero(0);
    if n == 0 {
      NoWords(l, r);
    } else {
      SumWordsVal(l, r, n - 1);
      SumWordsStep(l, r, n - 1);
      var (low, carry) := SumWords(l, r, n - 1);
      var (w, next) := AddWord(l[n - 1], r[n - 1], carry);
      Column(n - 1, w, next, l[n - 1], r[n - 1], carry);
      ValTop(l, n - 1);
      ValTop(r, n - 1);
      ValPush(low, w);
    }
  }

  /** result := left + right; the result may be an operand. */
  method Add(result: Ptr, left: Ptr, right: Ptr, n: nat) returns (carry: Word)
    requires result.Fits(n) && left.Fits(n) && right.Fits(n)
    requires SameOrApart(result, left, n) && SameOrApart(result, right, n)
    modifies result.words
    ensures carry <= 1 && OnlyChanged(result, n)
    ensures result.Value(n) + Up(n, carry) == old(left.Value(n)) + old(right.Value(n))
  {
    hide Val, Up, Radix, AddWord, SumWords;
    ghost var l, r, out := left.Seq(n), right.Seq(n), [];
    carry := 0;
    NoWords(l, r);
    var i := 0;
    while i < n
      invariant i <= n && OnlyChanged(result, i)
      invariant (out, carry) == SumWords(l, r, i)
      invariant forall k :: 0 <= k < i ==> result.words[result.at + k] == out[k]
    {
      var x, y := left.words[left.at + i], right.words[right.at + i];
      assert x == l[i] && y == r[i];
      SumWordsStep(l, r, i);
      var (w, next) := AddWord(x, y, carry);
      result.words[result.at + i] := w;
      carry := next;
      out := out + [w];
      i := i + 1;
    }
    assert l[..n] == l && r[..n] == r && result.Seq(n) == out;
    SumWordsVal(l, r, n);
  }

  /** The lowest `n` words of a difference, and the borrow out of them. */
  ghost function DiffWords(l: seq<Word>, r: seq<Word>, n: nat): (out: (seq<Word>, Word))
    requires n <= |l| && n <= |r|
    ensures |out.0| == n && out.1 <= 1
  {
    if n == 0 then ([], 0)
    else
      var (low, borrow) := DiffWords(l, r, n - 1);
      var (w, next) := SubWord(l[n - 1], r[n - 1], borrow);
      (low + [w], next)
  }

  lemma DiffWordsStep(l: seq<Word>, r: seq<Word>, n: nat)
    requires n < |l| && n < |r|
    ensures var (low, borrow) := DiffWords(l, r, n);
            var (w, next) := SubWord(l[n], r[n], borrow);
            DiffWords(l, r, n + 1) == (low + [w], next)
  {
  }

  lemma {:induction false} DiffWordsVal(l: seq<Word>, r: seq<Word>, n: nat)
    requires n <= |l| && n <= |r|
    ensures var (out, borrow) := DiffWords(l, r, n);
            Val(out) - Up(n, borrow) == Val(l[..n]) - Val(r[..n])
  {
    hide Up, Radix, Val, DiffWords, SubWord;
    UpZero(0);
    if n == 0 {
      NoWords(l, r);
    } else {
      DiffWordsVal(l, r, n - 1);
      DiffWordsStep(l, r, n - 1);
      var (low, borrow) := DiffWords(l, r, n - 1);
      var (w, next) := SubWord(l[n - 1], r[n - 1], borrow);
      Column(n - 1, w, -(next as int), l[n - 1], -(r[n - 1] as int), -(borrow as int));
      UpNegated(n - 1, r[n - 1]);
      UpNegated(n - 1, borrow);
      UpNegated(n, next);
      ValTop(l, n - 1);
      ValTop(r, n - 1);
      ValPush(low, w);
    }
  }

  /** result := left - right; the result may be an operand. */
  method Sub(result: Ptr, left: Ptr, right: Ptr, n: nat) returns (borrow: Word)
    requires result.Fits(n) && left.Fits(n) && right.Fits(n)
    requires SameOrApart(result, left, n) && SameOrApart(result, right, n)
    modifies result.words
    ensures borrow <= 1 && OnlyChanged(result, n)
    ensures result.Value(n) - Up(n, borrow) == old(left.Value(n)) - old(right.Value(n))
    ensures borrow == 1 <==> old(left.Value(n)) < old(right.Value(n))
  {
    hide Val, Up, Radix, SubWord, DiffWords;
    ghost var l, r, out := left.Seq(n), right.Seq(n), [];
    borrow := 0;
    NoWords(l, r);
    var i := 0;
    while i < n
      invariant i <= n && OnlyChanged(result, i)
      invariant (out, borrow) == DiffWords(l, r, i)
      invariant forall k :: 0 <= k < i ==> result.words[result.at + k] == out[k]
    {
      var x, y := left.words[left.at + i], right.words[right.at + i];
      assert x == l[i] && y == r[i];
      DiffWordsStep(l, r, i);
      var (w, next) := SubWord(x, y, borrow);
      result.words[result.at + i] := w;
      borrow := next;
      out := out + [w];
      i := i + 1;
    }
    assert l[..n] == l && r[..n] == r && result.Seq(n) == out;
    DiffWordsVal(l, r, n);
    BorrowMeansLess(n, out, l, r, borrow);
  }

  // ---------- bits ----------

  function Pow2(k: nat): (r: nat)
    ensures r > 0
  {
    if k == 0 then 1 else 2 * Pow2(k - 1)
  }

  /** Bitwise or. */
  function Or(a: nat, b: nat): nat {
    if a == 0 && b == 0 then 0
    else (if a % 2 == 1 || b % 2 == 1 then 1 else 0) + 2 * Or(a / 2, b / 2)
  }

  /** Numbers without a bit in common are joined by adding them. */
  lemma {:induction false} OrJoins(a: nat, b: nat, k: nat)
    requires a < Pow2(k) && b % Pow2(k) == 0
    ensures Or(a, b) == a + b
    decreases k
  {
    if k == 0 {
      OrZero(b);
    } else if a != 0 || b != 0 {
      var h := Pow2(k - 1);
      var q := b / (2 * h);
      assert b == 2 * h * q;
      assert b == 2 * (h * q);
      assert b / 2 == h * q;
      assert (h * q) % h == 0 by { MultipleHasNoRemainder(h, q); }
      OrJoins(a / 2, b / 2, k - 1);
    }
  }

  lemma MultipleHasNoRemainder(h: nat, q: nat)
    requires h > 0
    ensures (h * q) % h == 0
  {
    DivUnique(h * q, h, q, 0);
  }

  lemma OrIsZero(a: nat, b: nat)
    ensures Or(a, b) == 0 <==> a == 0 && b == 0
    decreases a + b
  {
    if a != 0 || b != 0 {
      OrIsZero(a / 2, b / 2);
    }
  }

  lemma PowersOfTwo()
    ensures Pow2(31) == 0x8000_0000 && Pow2(32) == 0x1_0000_0000
  {
    assert Pow2(8) == 0x100;
    assert Pow2(16) == 0x1_0000;
    assert Pow2(24) == 0x100_0000;
  }

  lemma {:induction false} OrZero(b: nat)
    ensures Or(0, b) == b
  {
    if b != 0 {
      OrZero(b / 2);
    }
  }

  /** The low bit of a word, moved to the top. */
  function TopBit(x: Word): (r: Word)
    ensures r == 0 || r == 0x8000_0000
  {
    if x % 2 == 0 then 0 else 0x8000_0000
  }

  lemma HalveWord(temp: Word, carry: Word)
    requires carry == 0 || carry == 0x8000_0000
    ensures Or(temp / 2, carry) == temp / 2 + carry < 0x1_0000_0000
  {
    PowersOfTwo();
    assert carry % 0x8000_0000 == 0;
    assert temp / 2 < 0x8000_0000;
    OrJoins(temp / 2, carry, 31);
  }

  lemma HalfOfNothing()
    ensures Val([]) == 0
  {
  }

  /** Halving the words above, then one more. */
  lemma HalveStep(out: seq<Word>, carry: Word, x: Word, above: seq<Word>)
    requires 2 * Val(out) + (if carry == 0 then 0 else 1) == Val(above)
    requires (carry == 0 || carry == 0x8000_0000) && x / 2 + carry < 0x1_0000_0000
    ensures 2 * Val([x / 2 + carry] + out) + (if TopBit(x) == 0 then 0 else 1) == Val([x] + above)
  {
    assert ([x / 2 + carry] + out)[1..] == out && ([x] + above)[1..] == above;
  }

  /** Halving from the top word down, each word taking the low bit of the one above. */
  method Rshift1(vli: Ptr, n: nat)
    requires vli.Fits(n)
    modifies vli.words
    ensures vli.Value(n) == old(vli.Value(n)) / 2 && OnlyChanged(vli, n)
  {
    hide Val, Or, TopBit;
    HalfOfNothing();
    ghost var was, out := vli.Seq(n), [];
    assert was[n..] == [];
    var carry: Word := 0;
    var i: nat := n;
    while i > 0
      invariant i <= n && |out| == n - i && (carry == 0 || carry == 0x8000_0000)
      invariant forall k :: 0 <= k < i ==> vli.words[vli.at + k] == was[k]
      invariant forall k :: 0 <= k < n - i ==> vli.words[vli.at + i + k] == out[k]
      invariant OnlyChanged(vli, n)
      invariant 2 * Val(out) + (if carry == 0 then 0 else 1) == Val(was[i..])
    {
      i := i - 1;
      var temp := vli.words[vli.at + i];
      ghost var carried := carry;
      HalveWord(temp, carry);
      HalveStep(out, carry, was[i], was[i + 1..]);
      var shifted: Word := Or(temp / 2, carry);
      vli.words[vli.at + i] := shifted;
      carry := TopBit(temp);
      out := [shifted] + out;
      assert was[i..] == [was[i]] + was[i + 1..];
    }
    assert vli.Seq(n) == out && was[0..] == was;
  }
}
