/** The 64-bit index key of a wood string. */
module WoodKeys {
  import opened Arithmetic

  type Key = x: nat | x < 0x1_0000_0000_0000_0000

  /** What a character adds; letters count from 0. */
  function HexDigit(c: char): nat {
    if '0' <= c <= '9' then c as int - '0' as int
    else if 'A' <= c <= 'Z' then c as int - 'A' as int
    else if 'a' <= c <= 'z' then c as int - 'a' as int
    else 0
  }

  /** Digits have their value, letters of either case count from 0, and every other character is 0. */
  lemma DigitValues(k: nat)
    ensures k < 10 ==> HexDigit(('0' as int + k) as char) == k
    ensures k < 26 ==> HexDigit(('A' as int + k) as char) == k && HexDigit(('a' as int + k) as char) == k
    ensures k < 0xD800 && !(48 <= k <= 57) && !(65 <= k <= 90) && !(97 <= k <= 122) ==> HexDigit(k as char) == 0
  {
  }

  /** The positional value in base 16, unbounded. */
  function HexValue(s: string): nat {
    if |s| == 0 then 0 else 16 * HexValue(s[..|s| - 1]) + HexDigit(s[|s| - 1])
  }

  function Low64(x: nat): Key {
    x % 0x1_0000_0000_0000_0000
  }

  function Pow16(n: nat): nat {
    if n == 0 then 1 else 16 * Pow16(n - 1)
  }

  /** One more digit, in 64-bit arithmetic. */
  lemma NextDigit(v: nat, d: nat)
    ensures Low64(16 * Low64(v) + d) == Low64(16 * v + d)
  {
    DivBounds(v, 0x1_0000_0000_0000_0000);
    var q := v / 0x1_0000_0000_0000_0000;
    assert v == Low64(v) + 0x1_0000_0000_0000_0000 * q;
    DivModAddMultiple(16 * Low64(v) + d, 0x1_0000_0000_0000_0000, 16 * q);
  }

  /** The characters before the first NUL, as a C string has them. */
  function CString(s: string): (t: string)
    ensures |t| <= |s| && t == s[..|t|] && '\0' !in t && (|t| < |s| ==> s[|t|] == '\0')
  {
    if |s| == 0 || s[0] == '\0' then [] else [s[0]] + CString(s[1..])
  }

  /** The loop over the characters up to the first NUL, each step wrapping to 64 bits. */
  method HexToInt64(s: string) returns (result: Key)
    ensures result == Low64(HexValue(CString(s)))
  {
    hide HexDigit, Low64, CString;
    ghost var t := CString(s);
    result := 0;
    var i := 0;
    ZeroKey();
    while i < |s| && s[i] != '\0'
      invariant i <= |t| && result == Low64(HexValue(t[..i]))
    {
      assert s[i] == t[i] && t[..i + 1][..i] == t[..i];
      NextDigit(HexValue(t[..i]), HexDigit(t[i]));
      result := Low64(16 * result + HexDigit(s[i]));
      i := i + 1;
    }
    assert forall k :: 0 <= k < |t| ==> t[k] != '\0';
    assert forall k :: 0 <= k < |t| ==> s[k] == t[k];
    assert i == |t|;
    assert t[..i] == t;
  }

  lemma ZeroKey()
    ensures Low64(0) == 0
  {
  }

  lemma {:induction false} HexConcat(s: string, t: string)
    ensures HexValue(s + t) == HexValue(s) * Pow16(|t|) + HexValue(t)
  {
    if |t| == 0 {
      assert s + t == s;
    } else {
      var front := t[..|t| - 1];
      assert (s + t)[..|s + t| - 1] == s + front;
      HexConcat(s, front);
      assert Pow16(|t|) == 16 * Pow16(|front|);
      assert (s + t)[|s + t| - 1] == t[|t| - 1];
      OneMoreDigit(HexValue(s), Pow16(|front|), HexValue(front));
      hide HexValue, HexDigit;
    }
  }

  lemma OneMoreDigit(a: int, p: int, b: int)
    ensures 16 * (a * p + b) == a * (16 * p) + 16 * b
  {
  }

  /** Only the last 16 characters matter, which is why the key is taken from them. */
  lemma LastSixteen(s: string)
    requires |s| > 16
    ensures Low64(HexValue(s)) == Low64(HexValue(s[|s| - 16..]))
  {
    hide HexValue, Pow16;
    var t := s[|s| - 16..];
    var head := s[..|s| - 16];
    assert s == head + t;
    HexConcat(head, t);
    SixteenDigits();
    DivModAddMultiple(HexValue(t), 0x1_0000_0000_0000_0000, HexValue(head));
  }

  lemma SixteenDigits()
    ensures Pow16(16) == 0x1_0000_0000_0000_0000
  {
    assert Pow16(4) == 0x1_0000;
    assert Pow16(8) == 0x1_0000_0000;
    assert Pow16(12) == 0x1_0000_0000_0000;
  }

  /** The last 16 characters, or all of a shorter string. */
  function Tail16(wood: string): string {
    if |wood| > 16 then wood[|wood| - 16..] else wood
  }

  /** The key of a wood, taken from its last 16 characters. */
  function KeyOf(wood: string): Key {
    Low64(HexValue(CString(Tail16(wood))))
  }

  /** A wood without NUL has the value of the whole string, modulo 2^64, for its key. */
  lemma KeyIsValue(wood: string)
    requires '\0' !in wood
    ensures KeyOf(wood) == Low64(HexValue(wood))
  {
    hide HexValue, Low64;
    var t := Tail16(wood);
    assert forall c :: c in t ==> c in wood;
    assert CString(t) == t by {
      hide CString;
      assert forall k :: 0 <= k < |t| ==> t[k] != '\0';
    }
    if |wood| > 16 {
      LastSixteen(wood);
    }
  }

  method WoodKey(wood: string) returns (key: Key)
    ensures key == KeyOf(wood)
  {
    if |wood| > 16 {
      key := HexToInt64(wood[|wood| - 16..]);
    } else {
      key := HexToInt64(wood);
    }
  }
}
