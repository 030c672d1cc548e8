/** Big-endian bytes and their conversion to and from little-endian words. */
module Bytes {
  import opened Arithmetic
  import opened Words
  import opened VliBasics
  import opened VliBits
  import opened VliMod

  type Byte = x: int | 0 <= x < 256

  /** The number big-endian bytes stand for. */
  function BeVal(s: seq<Byte>): nat {
    var n := |s|;
    if n == 0 then 0 else 256 * BeVal(s[..n - 1]) + s[n - 1]
  }

  /** The lowest `k` bytes of a number, highest first. */
  function BeBytes(v: nat, k: nat): (s: seq<Byte>)
    ensures |s| == k
  {
    if k == 0 then [] else BeBytes(v / 256, k - 1) + [v % 256]
  }

  lemma {:induction false} BytesOfValue(s: seq<Byte>)
    ensures BeBytes(BeVal(s), |s|) == s && BeVal(s) < Pow2(8 * |s|)
  {
    var n := |s|;
    if n > 0 {
      BytesOfValue(s[..n - 1]);
      Pow2Byte(n - 1);
      assert s == s[..n - 1] + [s[n - 1]];
    }
  }

  lemma Pow2Byte(k: nat)
    ensures Pow2(8 * (k + 1)) == 256 * Pow2(8 * k)
  {
    Pow2Add(8, 8 * k);
    assert Pow2(8) == 256;
    assert 8 + 8 * k == 8 * (k + 1);
  }

  lemma {:induction false} ValueOfBytes(v: nat, k: nat)
    requires v < Pow2(8 * k)
    ensures BeVal(BeBytes(v, k)) == v
  {
    if k > 0 {
      Pow2Byte(k - 1);
      ValueOfBytes(v / 256, k - 1);
      var s := BeBytes(v, k);
      assert s[..k - 1] == BeBytes(v / 256, k - 1);
    }
  }

  lemma {:induction false} ByteAt(v: nat, k: nat, i: nat)
    requires i < k
    ensures BeBytes(v, k)[i] == (v / Pow2(8 * (k - 1 - i))) % 256
  {
    if i == k - 1 {
      assert Pow2(0) == 1;
    } else {
      ByteAt(v / 256, k - 1, i);
      Pow2Byte(k - 2 - i);
      DivDiv(v, 256, Pow2(8 * (k - 2 - i)));
    }
  }

  /** Writes a number's bytes, highest first, each cut out of its word. */
  method NativeToBytes(bytes: array<Byte>, at: nat, numBytes: nat, native: Ptr, ghost n: nat)
    requires at + numBytes <= bytes.Length && native.Fits(n) && numBytes <= 4 * n
    modifies bytes
    ensures bytes[at..at + numBytes] == BeBytes(native.Value(n), numBytes)
    ensures forall k :: 0 <= k < bytes.Length && (k < at || at + numBytes <= k) ==> bytes[k] == old(bytes[k])
  {
    hide Val, Pow2, BeBytes;
    ghost var v := native.Value(n);
    var i := 0;
    while i < numBytes
      invariant i <= numBytes
      invariant forall k :: 0 <= k < i ==> bytes[at + k] == BeBytes(v, numBytes)[k]
      invariant forall k :: 0 <= k < bytes.Length && (k < at || at + i <= k) ==> bytes[k] == old(bytes[k])
    {
      var b := numBytes - 1 - i;
      var word, bit := b / 4, 8 * (b % 4);
      CutByte(native, n, b);
      ByteAt(v, numBytes, i);
      bytes[at + i] := (native.words[native.at + word] / Pow2(bit)) % 256;
      i := i + 1;
    }
  }

  lemma CutByte(native: Ptr, n: nat, b: nat)
    requires native.Fits(n) && b < 4 * n
    ensures (native.words[native.at + b / 4] / Pow2(8 * (b % 4))) % 256 == (native.Value(n) / Pow2(8 * b)) % 256
  {
    DigitAt(native.Seq(n), b / 4, 8 * (b % 4), 8);
    assert 32 * (b / 4) + 8 * (b % 4) == 8 * b;
    assert Pow2(8) == 256;
  }

  lemma {:induction false} ValUpdate(s: seq<Word>, w: nat, x: Word)
    requires w < |s|
    ensures Val(s[w := x]) == Val(s) + Up(w, x) - Up(w, s[w])
  {
    var t := s[w := x];
    if w == 0 {
      assert t[1..] == s[1..];
      UpZero(0);
    } else {
      assert t[1..] == s[1..][w - 1 := x];
      ValUpdate(s[1..], w - 1, x);
      MulAssoc(0x1_0000_0000, Radix(w - 1), x);
      MulAssoc(0x1_0000_0000, Radix(w - 1), s[w]);
    }
  }

  /** A byte moved to its place in a word. */
  function PlacedByte(x: Byte, bit: nat): (y: Word)
    requires bit <= 24
    ensures y == x * Pow2(bit)
  {
    PlaceBound(x, bit);
    x * Pow2(bit)
  }

  lemma PlaceBound(x: Byte, bit: nat)
    requires bit <= 24
    ensures 0 <= x * Pow2(bit) < Pow2(bit + 8) <= 0x1_0000_0000
  {
    Pow2Add(8, bit);
    assert Pow2(8) == 256;
    MulLt(x, 256, Pow2(bit));
    MulLe(0, x, Pow2(bit));
    PowersOfTwo();
    Pow2Monotone(bit + 8, 32);
  }

  /** A word below whose bit `bit + 8` nothing is set takes in a byte. */
  lemma WordTakesByte(word: Word, x: Byte, bit: nat)
    requires bit <= 24 && word % Pow2(bit + 8) == 0
    ensures Or(word, PlacedByte(x, bit)) == word + x * Pow2(bit) < 0x1_0000_0000
  {
    PlaceBound(x, bit);
    OrJoins(x * Pow2(bit), word, bit + 8);
    OrCommutes(word, x * Pow2(bit));
    Pow2Add(bit + 8, 24 - bit);
    PowersOfTwo();
    RoomBelow(word, Pow2(bit + 8), Pow2(24 - bit));
  }

  lemma RoomBelow(word: int, d: int, e: int)
    requires d > 0 && d * e == 0x1_0000_0000 && 0 <= word < 0x1_0000_0000 && word % d == 0
    ensures word <= 0x1_0000_0000 - d
  {
    DivBounds(word, d);
    var q := word / d;
    assert q * d == word && e * d == 0x1_0000_0000;
    if q >= e {
      MulLe(e, q, d);
    } else {
      MulLe(q, e - 1, d);
    }
  }

  /** Bytes taken so far, from the top: their number, moved up past the bytes to come. */
  ghost predicate Taken(s: seq<Word>, top: nat, left: nat) {
    Val(s) == Pow2(8 * left) * top
  }

  lemma TakeByte(s: seq<Word>, top: nat, b: nat, x: Byte)
    requires Taken(s, top, b + 1) && b < 4 * |s|
    ensures var w, bit := b / 4, 8 * (b % 4);
            var word := Or(s[w], PlacedByte(x, bit));
            word < 0x1_0000_0000 && Taken(s[w := word], 256 * top + x, b)
  {
    var w, bit := b / 4, 8 * (b % 4);
    WordIsFree(s, top, b);
    WordTakesByte(s[w], x, bit);
    ValUpdate(s, w, s[w] + x * Pow2(bit));
    UpSum(w, s[w], x * Pow2(bit));
    RadixIsPow2(w);
    Pow2Add(32 * w, bit);
    assert 32 * w + bit == 8 * b;
    Pow2Byte(b);
    hide Pow2, Val, Or;
    PlaceUp(Radix(w), x, Pow2(bit), Pow2(8 * b), top);
  }

  lemma PlaceUp(r: int, x: int, d: int, e: int, top: int)
    requires e == r * d
    ensures r * (x * d) == e * x && (256 * e) * top + e * x == e * (256 * top + x)
  {
    assert r * (x * d) == (r * d) * x;
    assert e * (256 * top + x) == e * (256 * top) + e * x;
  }

  /** No bit of the word is set below the place of the byte taken last. */
  lemma WordIsFree(s: seq<Word>, top: nat, b: nat)
    requires Taken(s, top, b + 1) && b < 4 * |s|
    ensures s[b / 4] % Pow2(8 * (b % 4) + 8) == 0
  {
    var w, bit := b / 4, 8 * (b % 4);
    DigitAt(s, w, 0, bit + 8);
    assert Pow2(0) == 1;
    Pow2Add(32 * w, bit + 8);
    assert 32 * w + (bit + 8) == 8 * (b + 1);
    hide Pow2, Val;
    LowBitsFree(Pow2(32 * w), Pow2(bit + 8), top);
  }

  lemma LowBitsFree(p: nat, q: nat, top: nat)
    requires p > 0 && q > 0
    ensures (((p * q) * top) / p) % q == 0
  {
    assert (p * q) * top == (q * top) * p;
    DivUnique((p * q) * top, p, q * top, 0);
    MultipleHasNoRemainder(q, top);
  }

  /** Reads a number from its bytes, highest first, into cleared words. */
  method BytesToNative(native: Ptr, bytes: array<Byte>, at: nat, numBytes: nat, ghost n: nat)
    requires at + numBytes <= bytes.Length && n == (numBytes + 3) / 4 && native.Fits(n)
    modifies native.words
    ensures native.Value(n) == BeVal(bytes[at..at + numBytes]) && OnlyChanged(native, n)
  {
    hide Val, Pow2, Or, BeVal, PlacedByte;
    Clear(native, (numBytes + 3) / 4);
    ghost var s := native.Seq(n);
    NothingTaken(s, numBytes);
    assert bytes[at..at + 0] == [];
    var i := 0;
    while i < numBytes
      invariant i <= numBytes && OnlyChanged(native, n) && native.Seq(n) == s
      invariant Taken(s, BeVal(bytes[at..at + i]), numBytes - i)
    {
      var b := numBytes - 1 - i;
      var word, bit := b / 4, 8 * (b % 4);
      var x := bytes[at + i];
      TakeByte(s, BeVal(bytes[at..at + i]), b, x);
      OneMoreByte(bytes[at..at + i], x);
      assert bytes[at..at + (i + 1)] == bytes[at..at + i] + [x];
      assert s[word] == native.words[native.at + word];
      native.words[native.at + word] := Or(native.words[native.at + word], PlacedByte(x, bit));
      s := s[word := Or(s[word], PlacedByte(x, bit))];
      i := i + 1;
    }
    AllTaken(s, BeVal(bytes[at..at + numBytes]));
  }

  lemma NothingTaken(s: seq<Word>, left: nat)
    requires Val(s) == 0
    ensures Taken(s, BeVal([]), left)
  {
  }

  lemma AllTaken(s: seq<Word>, top: nat)
    requires Taken(s, top, 0)
    ensures Val(s) == top
  {
  }

  lemma OneMoreByte(s: seq<Byte>, x: Byte)
    ensures BeVal(s + [x]) == 256 * BeVal(s) + x
  {
    assert (s + [x])[..|s|] == s;
  }
}
