/** The base-58 decoder of public keys: a byte-carry loop over a little-endian buffer. */
module Base58 {
  import opened Arithmetic
  import opened VliBits
  import opened VliBasics
  import opened Bytes

  /** The alphabet in runs of consecutive characters; the terminating NUL counts as a 59th digit. */
  function CharRun(k: nat): string {
    match k
    case 0 => "123456789"
    case 1 => "ABCDEFGH"
    case 2 => "JKLMN"
    case 3 => "PQRSTUVWXYZ"
    case 4 => "abcdefghijk"
    case 5 => "mnopqrstuvwxyz"
    case _ => ['\0']
  }

  function Chars(): string {
    CharRun(0) + CharRun(1) + CharRun(2) + CharRun(3) + CharRun(4) + CharRun(5) + CharRun(6)
  }

  /** The last of the first `n` characters equal to `c`, or -1. */
  function LastIndex(chars: string, n: nat, c: char): int
    requires n <= |chars|
  {
    if n == 0 then -1 else if chars[n - 1] == c then n - 1 else LastIndex(chars, n - 1, c)
  }

  function Digit(c: char): int {
    LastIndex(Chars(), |Chars()|, c)
  }

  predicate IsAscii(s: string) {
    forall c :: c in s ==> c < 128 as char
  }

  lemma {:induction false} LastIndexBound(chars: string, n: nat, c: char)
    requires n <= |chars|
    ensures -1 <= LastIndex(chars, n, c) < n
    ensures LastIndex(chars, n, c) >= 0 ==> chars[LastIndex(chars, n, c)] == c
    ensures LastIndex(chars, n, c) < 0 ==> forall i :: 0 <= i < n ==> chars[i] != c
  {
    if n > 0 {
      LastIndexBound(chars, n - 1, c);
    }
  }

  /** Fills the table of digits; every other entry is -1. */
  method GetBase58Map() returns (digits: array<int>)
    ensures fresh(digits) && digits.Length == 256
    ensures forall k :: 0 <= k < 256 ==> digits[k] == Digit(k as char)
  {
    var chars := Chars();
    CharCodes();
    hide LastIndex, Chars;
    digits := new int[256](_ => -1);
    var i := 0;
    NoneYet(chars);
    while i < |chars|
      invariant i <= |chars|
      invariant forall k :: 0 <= k < 256 ==> digits[k] == LastIndex(chars, i, k as char)
    {
      digits[chars[i] as int] := i;
      i := i + 1;
      forall k | 0 <= k < 256 ensures digits[k] == LastIndex(chars, i, k as char) {
        OneMoreChar(chars, i, k as char);
      }
    }
  }

  lemma NoneYet(chars: string)
    ensures forall c: char :: LastIndex(chars, 0, c) == -1
  {
  }

  lemma OneMoreChar(chars: string, n: nat, c: char)
    requires 0 < n <= |chars|
    ensures LastIndex(chars, n, c) == if c == chars[n - 1] then n - 1 else LastIndex(chars, n - 1, c)
  {
  }

  /** Code of the i-th character of the alphabet. */
  function CharCode(i: nat): nat {
    if i < 9 then 49 + i
    else if i < 17 then 56 + i
    else if i < 22 then 57 + i
    else if i < 33 then 58 + i
    else if i < 44 then 64 + i
    else if i < 58 then 65 + i
    else 0
  }

  lemma RunCodes(k: nat, i: nat)
    requires k < 6 && i < |CharRun(k)|
    ensures CharRun(k)[i] as int == i + (match k case 0 => 49 case 1 => 65 case 2 => 74 case 3 => 80 case 4 => 97 case _ => 109)
  {
  }

  lemma RunLengths()
    ensures |CharRun(0)| == 9 && |CharRun(1)| == 8 && |CharRun(2)| == 5 && |CharRun(3)| == 11
    ensures |CharRun(4)| == 11 && |CharRun(5)| == 14 && CharRun(6) == ['\0']
  {
  }

  lemma CharCodes()
    ensures |Chars()| == 59
    ensures forall i :: 0 <= i < 59 ==> Chars()[i] as int == CharCode(i) < 128
  {
    hide CharRun;
    RunLengths();
    forall i: nat | i < 59 ensures Chars()[i] as int == CharCode(i) {
      if i < 9 {
        RunCodes(0, i);
      } else if i < 17 {
        RunCodes(1, i - 9);
      } else if i < 22 {
        RunCodes(2, i - 17);
      } else if i < 33 {
        RunCodes(3, i - 22);
      } else if i < 44 {
        RunCodes(4, i - 33);
      } else if i < 58 {
        RunCodes(5, i - 44);
      }
    }
  }

  /** Every character of the alphabet is the digit of its position, and NUL is digit 58. */
  lemma DigitOfChar(i: nat)
    requires i < 59
    ensures |Chars()| == 59 && Digit(Chars()[i]) == i
  {
    CharCodes();
    hide Chars, LastIndex;
    LastIndexBound(Chars(), 59, Chars()[i]);
    var j := Digit(Chars()[i]);
    assert j >= 0 && Chars()[j] == Chars()[i];
    assert CharCode(j) == CharCode(i);
  }

  // ---------- what a string stands for ----------

  predicate AllDigits(s: string) {
    forall c :: c in s ==> Digit(c) >= 0
  }

  /** The positional value, first digit highest. */
  function Value(s: string): nat {
    if |s| == 0 then 0
    else
      var d := Digit(s[|s| - 1]);
      58 * Value(s[..|s| - 1]) + (if d >= 0 then d else 0)
  }

  /** A string that has a value of at most `size` bytes. */
  predicate Decodable(s: string, size: nat) {
    AllDigits(s) && Value(s) < Pow2(8 * size)
  }

  /** Values only grow with more digits, so a string decodes only if all that it starts with does. */
  lemma {:induction false} PrefixDecodable(s: string, k: nat, size: nat)
    requires k <= |s| && Decodable(s, size)
    ensures Decodable(s[..k], size)
    decreases |s| - k
  {
    if k < |s| {
      PrefixDecodable(s, k + 1, size);
      assert s[..k + 1][..k] == s[..k];
    } else {
      assert s[..k] == s;
    }
  }

  // ---------- the byte-carry loop ----------

  /** Little-endian bytes. */
  function LeVal(s: seq<Byte>): nat {
    if |s| == 0 then 0 else s[0] + 256 * LeVal(s[1..])
  }

  lemma {:induction false} LeValPush(s: seq<Byte>, x: Byte)
    ensures LeVal(s + [x]) == LeVal(s) + Pow2(8 * |s|) * x
  {
    if |s| == 0 {
      assert s + [x] == [x];
    } else {
      assert (s + [x])[1..] == s[1..] + [x];
      LeValPush(s[1..], x);
      Pow2Byte(|s| - 1);
      MulAssoc(256, Pow2(8 * (|s| - 1)), x);
    }
  }

  lemma {:induction false} LeValBound(s: seq<Byte>)
    ensures LeVal(s) < Pow2(8 * |s|)
  {
    if |s| > 0 {
      LeValBound(s[1..]);
      Pow2Byte(|s| - 1);
    }
  }

  /** One byte times 58, with what is carried into it, and what it carries out. */
  function Step(b: Byte, carry: nat): (r: (Byte, nat))
    requires carry <= 58
    ensures r.1 <= 58 && r.0 + 256 * r.1 == b * 58 + carry
  {
    var x := (b as int) * 58 + carry;
    (x % 256, x / 256)
  }

  /** The first `n` bytes times 58 plus a digit, and the carry out of them. */
  ghost function Steps(s: seq<Byte>, n: nat, digit: nat): (r: (seq<Byte>, nat))
    requires n <= |s| && digit <= 58
    ensures |r.0| == n && r.1 <= 58
  {
    if n == 0 then ([], digit)
    else
      var (low, carry) := Steps(s, n - 1, digit);
      var (b, next) := Step(s[n - 1], carry);
      (low + [b], next)
  }

  lemma {:induction false} StepsVal(s: seq<Byte>, n: nat, digit: nat)
    requires n <= |s| && digit <= 58
    ensures var (out, carry) := Steps(s, n, digit);
            LeVal(out) + Pow2(8 * n) * carry == 58 * LeVal(s[..n]) + digit
  {
    if n > 0 {
      StepsVal(s, n - 1, digit);
      var (low, carry) := Steps(s, n - 1, digit);
      var (b, next) := Step(s[n - 1], carry);
      LeValPush(low, b);
      assert s[..n] == s[..n - 1] + [s[n - 1]];
      LeValPush(s[..n - 1], s[n - 1]);
      Pow2Byte(n - 1);
      hide Pow2, LeVal, Steps, Step;
      ByteColumn(Pow2(8 * (n - 1)), b, next, s[n - 1], carry);
    }
  }

  lemma ByteColumn(p: int, b: int, next: int, x: int, carry: int)
    requires b + 256 * next == x * 58 + carry
    ensures p * b + (256 * p) * next == 58 * (p * x) + p * carry
  {
    assert p * (b + 256 * next) == p * b + (256 * p) * next;
    assert p * (x * 58 + carry) == 58 * (p * x) + p * carry;
  }

  /** Multiplies a little-endian number by 58 and adds a digit, in place; returns what does not fit. */
  method TimesBase(result: array<Byte>, digit: nat) returns (carry: nat)
    requires digit <= 58
    modifies result
    ensures LeVal(result[..]) + Pow2(8 * result.Length) * carry == 58 * LeVal(old(result[..])) + digit
  {
    hide Pow2, LeVal, Step;
    ghost var s, out := result[..], [];
    carry := digit;
    var i := 0;
    while i < result.Length
      invariant i <= result.Length && (out, carry) == Steps(s, i, digit)
      invariant result[..i] == out && result[i..] == s[i..]
    {
      var (b, next) := Step(result[i], carry);
      assert result[i] == result[i..][0] == s[i];
      result[i] := b;
      carry := next;
      out := out + [b];
      i := i + 1;
      assert result[..i] == result[..i - 1] + [b];
      assert result[i..] == s[i..];
    }
    assert result[..] == out && s[..result.Length] == s;
    StepsVal(s, result.Length, digit);
  }

  // ---------- the reversal ----------

  ghost predicate Mirrors(t: seq<Byte>, s: seq<Byte>) {
    |t| == |s| && forall k :: 0 <= k < |s| ==> t[k] == s[|s| - 1 - k]
  }

  lemma {:induction false} MirrorValue(t: seq<Byte>, s: seq<Byte>)
    requires Mirrors(t, s)
    ensures BeVal(t) == LeVal(s)
  {
    var n := |s|;
    if n > 0 {
      var front, rest := t[..n - 1], s[1..];
      assert forall k :: 0 <= k < n - 1 ==> front[k] == t[k] == s[n - 1 - k] == rest[n - 2 - k];
      MirrorValue(front, rest);
      assert t[n - 1] == s[0];
    }
  }

  method ReverseInPlace(a: array<Byte>)
    modifies a
    ensures Mirrors(a[..], old(a[..]))
  {
    ghost var s, n := a[..], a.Length;
    var first, last := 0, a.Length;
    while first < last
      invariant 0 <= first <= n && first + last == n
      invariant forall k :: 0 <= k < first ==> a[k] == s[n - 1 - k]
      invariant forall k :: last <= k < n ==> a[k] == s[n - 1 - k]
      invariant forall k :: first <= k < last ==> a[k] == s[k]
      decreases last - first
    {
      last := last - 1;
      if first < last {
        a[first], a[last] := a[last], a[first];
      }
      first := first + 1;
    }
  }

  // ---------- the decoder ----------

  datatype Decoded = Binary(bytes: seq<Byte>) | InvalidDigit | OutOfRange

  lemma {:induction false} ZeroValue(s: seq<Byte>)
    requires forall k :: 0 <= k < |s| ==> s[k] == 0
    ensures LeVal(s) == 0
  {
    if |s| > 0 {
      ZeroValue(s[1..]);
    }
  }

  lemma EmptyDecodable(size: nat)
    ensures Decodable([], size) && Value([]) == 0
  {
  }

  lemma DigitBound(c: char)
    ensures -1 <= Digit(c) <= 58
  {
    CharCodes();
    hide Chars;
    LastIndexBound(Chars(), 59, c);
  }

  lemma NextValue(s: string, n: nat)
    requires n < |s| && AllDigits(s[..n]) && Digit(s[n]) >= 0
    ensures AllDigits(s[..n + 1]) && Value(s[..n + 1]) == 58 * Value(s[..n]) + Digit(s[n])
  {
    assert s[..n + 1][..n] == s[..n];
    assert s[..n + 1] == s[..n] + [s[n]];
  }

  lemma CarryOverflows(s: seq<Byte>, carry: nat, v: nat)
    requires LeVal(s) + Pow2(8 * |s|) * carry == v && carry > 0
    ensures v >= Pow2(8 * |s|)
  {
    hide Pow2, LeVal;
    MulLe(1, carry, Pow2(8 * |s|));
  }

  /** No prefix that decodes is followed by a character that is not a digit. */
  ghost predicate NoBadDigit(s: string, size: nat) {
    forall k :: 0 <= k < |s| && Decodable(s[..k], size) ==> Digit(s[k]) >= 0
  }

  lemma Overflowed(s: string, n: nat, size: nat)
    requires n < |s| && AllDigits(s[..n + 1]) && Value(s[..n + 1]) >= Pow2(8 * size)
    ensures !Decodable(s, size) && NoBadDigit(s, size)
  {
    if Decodable(s, size) {
      PrefixDecodable(s, n + 1, size);
    }
    forall k | 0 <= k < |s| ensures Decodable(s[..k], size) ==> Digit(s[k]) >= 0 {
      if k <= n {
        assert s[..n + 1][k] == s[k];
      } else {
        assert s[..k][..n + 1] == s[..n + 1];
        if Decodable(s[..k], size) {
          PrefixDecodable(s[..k], n + 1, size);
        }
      }
    }
  }

  lemma DecodedHasNoBadDigit(s: string, size: nat)
    requires Decodable(s, size)
    ensures NoBadDigit(s, size)
  {
    forall k | 0 <= k < |s| && Decodable(s[..k], size) ensures Digit(s[k]) >= 0 {
      assert s[k] in s;
    }
  }

  /**
   * Decodes exactly the strings of digits whose value fits: the result is the
   * value, big-endian. Else it tells the first thing that went wrong.
   */
  method Base58ToBinary(s: string, size: nat) returns (r: Decoded)
    requires IsAscii(s)
    ensures r.Binary? <==> Decodable(s, size)
    ensures r.Binary? ==> r.bytes == BeBytes(Value(s), size)
    ensures r.InvalidDigit? <==> !NoBadDigit(s, size)
  {
    hide Pow2, LeVal, BeVal, BeBytes, Digit;
    var digits := GetBase58Map();
    var result := new Byte[size](_ => 0);
    ZeroValue(result[..]);
    EmptyDecodable(size);
    var n := 0;
    while n < |s|
      invariant n <= |s| && Decodable(s[..n], size) && LeVal(result[..]) == Value(s[..n])
      invariant forall k :: 0 <= k < 256 ==> digits[k] == Digit(k as char)
    {
      assert s[n] in s;
      var digit := digits[s[n] as int];
      assert s[..n + 1][..n] == s[..n];
      if digit < 0 {
        return InvalidDigit;
      }
      DigitBound(s[n]);
      var carry := TimesBase(result, digit);
      NextValue(s, n);
      LeValBound(result[..]);
      if carry != 0 {
        CarryOverflows(result[..], carry, Value(s[..n + 1]));
        Overflowed(s, n, size);
        return OutOfRange;
      }
      n := n + 1;
    }
    assert s[..n] == s;
    DecodedHasNoBadDigit(s, size);
    ghost var before := result[..];
    ReverseInPlace(result);
    MirrorValue(result[..], before);
    BytesOfValue(result[..]);
    return Binary(result[..]);
  }
}
