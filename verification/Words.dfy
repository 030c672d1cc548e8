/** Multi-word numbers: little-endian sequences of 32-bit words, and pointers into word arrays. */
module Words {
  import opened Arithmetic

  type Word = x: int | 0 <= x < 0x1_0000_0000

  /** 2 to the power 32 * n. */
  function Radix(n: nat): (r: nat)
    ensures r > 0
  {
    if n == 0 then 1 else 0x1_0000_0000 * Radix(n - 1)
  }

  /** A number moved up by `n` words. */
  function Up(n: nat, x: int): int {
    Radix(n) * x
  }

  lemma UpSum(n: nat, x: int, y: int)
    ensures Up(n, x + y) == Up(n, x) + Up(n, y)
  {
  }

  /** The number a sequence of words stands for, lowest word first. */
  function Val(s: seq<Word>): nat {
    if |s| == 0 then 0 else s[0] + 0x1_0000_0000 * Val(s[1..])
  }

  lemma {:induction false} ValBound(s: seq<Word>)
    ensures 0 <= Val(s) < Radix(|s|)
  {
    if |s| > 0 {
      ValBound(s[1..]);
    }
  }

  lemma {:induction false} ValConcat(s: seq<Word>, t: seq<Word>)
    ensures Val(s + t) == Val(s) + Up(|s|, Val(t))
  {
    if |s| == 0 {
      assert s + t == t;
    } else {
      assert (s + t)[1..] == s[1..] + t;
      ValConcat(s[1..], t);
      MulAssoc(0x1_0000_0000, Radix(|s| - 1), Val(t));
    }
  }

  /** One more word on top. */
  lemma ValTop(s: seq<Word>, n: nat)
    requires n < |s|
    ensures Val(s[..n + 1]) == Val(s[..n]) + Up(n, s[n])
  {
    assert s[..n + 1] == s[..n] + [s[n]];
    ValConcat(s[..n], [s[n]]);
    assert Val([s[n]]) == s[n];
  }

  lemma ValSplit(s: seq<Word>, n: nat)
    requires n <= |s|
    ensures Val(s) == Val(s[..n]) + Up(n, Val(s[n..]))
  {
    assert s == s[..n] + s[n..];
    ValConcat(s[..n], s[n..]);
  }

  lemma {:induction false} RadixAdd(m: nat, n: nat)
    ensures Radix(m + n) == Radix(m) * Radix(n)
  {
    if m > 0 {
      assert Radix(m + n) == 0x1_0000_0000 * Radix(m - 1 + n);
      RadixAdd(m - 1, n);
      hide Radix;
      MulAssoc(0x1_0000_0000, Radix(m - 1), Radix(n));
    }
  }

  lemma {:induction false} RadixMonotone(m: nat, n: nat)
    requires m <= n
    ensures Radix(m) <= Radix(n)
  {
    if m < n {
      RadixMonotone(m, n - 1);
    }
  }

  lemma {:induction false} ValZero(s: seq<Word>)
    ensures Val(s) == 0 <==> forall k :: 0 <= k < |s| ==> s[k] == 0
  {
    if |s| > 0 {
      ValZero(s[1..]);
      if Val(s) == 0 {
        forall k | 0 <= k < |s| ensures s[k] == 0 {
          if k > 0 { assert s[1..][k - 1] == 0; }
        }
      } else if forall k :: 0 <= k < |s| ==> s[k] == 0 {
        forall k | 0 <= k < |s| - 1 ensures s[1..][k] == 0 {
          assert s[1..][k] == s[k + 1];
        }
      }
    }
  }

  /** Equal lengths and equal values mean equal words. */
  lemma {:induction false} ValInjective(s: seq<Word>, t: seq<Word>)
    requires |s| == |t| && Val(s) == Val(t)
    ensures s == t
  {
    if |s| > 0 {
      ValInjective(s[1..], t[1..]);
      assert s == [s[0]] + s[1..] && t == [t[0]] + t[1..];
    }
  }

  // ---------- pointers ----------

  /** A C pointer to words: an array and a position in it. */
  datatype Ptr = Ptr(words: array<Word>, at: nat) {
    ghost predicate Fits(n: nat) {
      at + n <= words.Length
    }

    function Plus(k: nat): Ptr {
      Ptr(words, at + k)
    }

    ghost function Seq(n: nat): (s: seq<Word>)
      reads words
      requires Fits(n)
      ensures |s| == n
    {
      words[at..at + n]
    }

    ghost function Value(n: nat): nat
      reads words
      requires Fits(n)
    {
      Val(Seq(n))
    }
  }

  /** `n` words at `p` and `m` words at `q` share no memory. */
  ghost predicate Apart(p: Ptr, n: nat, q: Ptr, m: nat) {
    p.words != q.words || p.at + n <= q.at || q.at + m <= p.at
  }

  /** The operand `q` is the result `p` itself, or has no word in common with it. */
  ghost predicate SameOrApart(p: Ptr, q: Ptr, n: nat) {
    p == q || Apart(p, n, q, n)
  }

  /** Only the `n` words at `p` may have changed in its array. */
  twostate predicate OnlyChanged(p: Ptr, n: nat)
    reads p.words
  {
    forall k :: 0 <= k < p.words.Length && (k < p.at || p.at + n <= k) ==> p.words[k] == old(p.words[k])
  }

  lemma ValPush(s: seq<Word>, x: Word)
    ensures Val(s + [x]) == Val(s) + Up(|s|, x)
  {
    ValConcat(s, [x]);
    assert Val([x]) == x;
  }
}
