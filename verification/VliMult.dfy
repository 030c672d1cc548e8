/** Column-by-column multiplication with a three-word accumulator. */
module VliMult {
  import opened Arithmetic
  import opened Words
  import opened VliBasics
  import opened DoubleWords

  /** The accumulator's value. */
  function Acc(r0: int, r1: int, r2: int): int {
    r0 + 0x1_0000_0000 * r1 + 0x1_0000_0000_0000_0000 * r2
  }

  function Times(a: int, b: int): int {
    a * b
  }

  lemma WordProductBound(a: Word, b: Word)
    ensures 0 <= Times(a, b) <= 0xffff_fffe_0000_0001
  {
    MulLe(a, 0xffff_ffff, b);
    MulLe(0, a, b);
  }

  /**
   * One product added to the accumulator, through a double word: its carry is
   * seen as the sum wrapping below the product.
   */
  method Muladd(a: Word, b: Word, r0: Word, r1: Word, r2: Word) returns (s0: Word, s1: Word, s2: Word)
    ensures Acc(s0, s1, s2) == Acc(r0, r1, r2) + Times(a, b)
            || (r2 == 0xffff_ffff && Acc(s0, s1, s2) == Acc(r0, r1, r2) + Times(a, b) - 0x1_0000_0000_0000_0000_0000_0000)
  {
    WordProductBound(a, b);
    hide Low, High, Times;
    var p := Times(a, b);
    var r01 := (r1 as int) * 0x1_0000_0000 + r0;
    var sum := Wrapped(r01 + p);
    s2 := if sum < p then (if r2 == 0xffff_ffff then 0 else r2 + 1) else r2;
    s0 := Low(sum);
    s1 := High(sum);
  }

  // ---------- the columns of a product ----------

  function Coef(s: seq<Word>, i: int): Word {
    if 0 <= i < |s| then s[i] else 0
  }

  /** The first `i` products of column `k`. */
  ghost function ColumnUpTo(l: seq<Word>, r: seq<Word>, k: nat, i: nat): int
    requires i <= |l|
  {
    if i == 0 then 0 else ColumnUpTo(l, r, k, i - 1) + Times(l[i - 1], Coef(r, k - (i - 1)))
  }

  lemma {:induction false} ColumnBound(l: seq<Word>, r: seq<Word>, k: nat, i: nat)
    requires i <= |l|
    ensures 0 <= ColumnUpTo(l, r, k, i) <= i * 0xffff_fffe_0000_0001
  {
    if i > 0 {
      ColumnBound(l, r, k, i - 1);
      WordProductBound(l[i - 1], Coef(r, k - (i - 1)));
    }
  }

  /** Products before `from` or after `to` use no word of `r`. */
  lemma {:induction false} ColumnIdle(l: seq<Word>, r: seq<Word>, k: nat, from: nat, to: nat)
    requires from <= to <= |l|
    requires from == to || to + |r| <= k + 1 || k < from
    ensures ColumnUpTo(l, r, k, to) == ColumnUpTo(l, r, k, from)
  {
    if from < to {
      assert Coef(r, k - (to - 1)) == 0;
      ColumnIdle(l, r, k, from, to - 1);
    }
  }

  /** The first `m` columns, at their place values. */
  ghost function ColumnsVal(l: seq<Word>, r: seq<Word>, i: nat, m: nat): int
    requires i <= |l|
  {
    if m == 0 then 0 else ColumnsVal(l, r, i, m - 1) + Up(m - 1, ColumnUpTo(l, r, m - 1, i))
  }

  /** `r` moved up by `s` words, cut off above word `m`. */
  ghost function Shifted(r: seq<Word>, s: nat, m: nat): int {
    if m == 0 then 0 else Shifted(r, s, m - 1) + Up(m - 1, Coef(r, m - 1 - s))
  }

  lemma {:induction false} ShiftedVal(r: seq<Word>, s: nat, m: nat)
    ensures Shifted(r, s, m) == (if m <= s then 0 else if m - s <= |r| then Up(s, Val(r[..m - s])) else Up(s, Val(r)))
  {
    if m > 0 {
      ShiftedVal(r, s, m - 1);
      UpZero(m - 1);
      if s < m && m - s <= |r| {
        ShiftedStep(r, s, m);
      } else if m - s == |r| + 1 {
        assert r[..m - 1 - s] == r;
      }
    } else {
      UpZero(s);
    }
  }

  lemma ShiftedStep(r: seq<Word>, s: nat, m: nat)
    requires s < m && m - s <= |r|
    ensures Up(s, Val(r[..m - s])) == (if m - 1 <= s then 0 else Up(s, Val(r[..m - 1 - s]))) + Up(m - 1, Coef(r, m - 1 - s))
  {
    var j: nat := m - 1 - s;
    ValTop(r, j);
    RadixAdd(s, j);
    UpUp(s, j, r[j]);
    UpSum(s, Val(r[..j]), Up(j, r[j]));
    UpZero(s);
    assert j == 0 ==> r[..j] == [];
  }

  lemma UpUp(m: nat, n: nat, x: int)
    ensures Up(m, Up(n, x)) == Up(m + n, x)
  {
    RadixAdd(m, n);
    assert Radix(m) * (Radix(n) * x) == (Radix(m) * Radix(n)) * x;
  }

  lemma UpTimes(n: nat, x: int, y: int)
    ensures Up(n, Times(x, y)) == x * Up(n, y)
  {
    assert Radix(n) * (x * y) == x * (Radix(n) * y);
  }

  lemma {:induction false} ColumnsSplit(l: seq<Word>, r: seq<Word>, i: nat, m: nat)
    requires i < |l|
    ensures ColumnsVal(l, r, i + 1, m) == ColumnsVal(l, r, i, m) + l[i] * Shifted(r, i, m)
  {
    if m > 0 {
      ColumnsSplit(l, r, i, m - 1);
      hide Up, Times;
      var c := Coef(r, m - 1 - i);
      UpSum(m - 1, ColumnUpTo(l, r, m - 1, i), Times(l[i], c));
      UpTimes(m - 1, l[i], c);
      MulAdd(l[i], Shifted(r, i, m - 1), Up(m - 1, c));
    }
  }

  /** The columns add up to the product. */
  lemma {:induction false} ColumnsProduct(l: seq<Word>, r: seq<Word>, i: nat, m: nat)
    requires i <= |l| && i + |r| <= m + 1
    ensures ColumnsVal(l, r, i, m) == Val(l[..i]) * Val(r)
  {
    if i == 0 {
      NoColumns(l, r, m);
    } else {
      ColumnsProduct(l, r, i - 1, m);
      ColumnsSplit(l, r, i - 1, m);
      ShiftedVal(r, i - 1, m);
      assert m - (i - 1) == |r| ==> r[..m - (i - 1)] == r;
      ValTop(l, i - 1);
      ProductStep(i - 1, l[i - 1], Val(l[..i - 1]), Val(r));
      if m <= i - 1 {
        assert r == [];
      }
    }
  }

  lemma ProductStep(i: nat, x: int, low: int, v: int)
    ensures (low + Up(i, x)) * v == low * v + x * Up(i, v)
    ensures v == 0 ==> Up(i, v) == 0
  {
    var p := Radix(i);
    assert (low + p * x) * v == low * v + (p * x) * v;
    assert (p * x) * v == x * (p * v);
  }

  lemma {:induction false} NoColumns(l: seq<Word>, r: seq<Word>, m: nat)
    ensures ColumnsVal(l, r, 0, m) == 0
  {
    if m > 0 {
      NoColumns(l, r, m - 1);
      UpZero(m - 1);
    }
  }

  // ---------- the method ----------

  /** The accumulator before column `k`, and what the columns below have put out, make up those columns. */
  ghost predicate Accumulated(l: seq<Word>, r: seq<Word>, k: nat, out: seq<Word>, acc: int) {
    |out| == k && Val(out) + Up(k, acc) == ColumnsVal(l, r, |l|, k)
  }

  lemma NothingAccumulated(l: seq<Word>, r: seq<Word>)
    ensures Accumulated(l, r, 0, [], 0)
  {
    UpZero(0);
  }

  /** Moving a finished column out of the accumulator. */
  lemma ColumnDone(l: seq<Word>, r: seq<Word>, k: nat, out: seq<Word>, acc: int, r0: Word, r1: Word, r2: Word)
    requires Accumulated(l, r, k, out, acc)
    requires Acc(r0, r1, r2) == acc + ColumnUpTo(l, r, k, |l|)
    ensures Accumulated(l, r, k + 1, out + [r0], Acc(r1, r2, 0))
  {
    var col := ColumnUpTo(l, r, k, |l|);
    ValPush(out, r0);
    UpSum(k, acc, col);
    var rest := Acc(r1, r2, 0);
    assert acc + col == r0 + 0x1_0000_0000 * rest;
    UpSum(k, r0, 0x1_0000_0000 * rest);
    assert Up(k, 0x1_0000_0000 * rest) == Up(k + 1, rest);
  }

  /** The accumulator never fills up: a column starts below n * 2^32 and adds at most n products. */
  lemma AccumulatorFits(n: nat, start: int, products: nat, column: int, r0: Word, r1: Word, r2: Word)
    requires n < 128 && products <= n && 0 <= start < n * 0x1_0000_0000
    requires 0 <= column <= products * 0xffff_fffe_0000_0001
    requires Acc(r0, r1, r2) == start + column
    ensures r2 < 0xffff_ffff && Acc(r1, r2, 0) < n * 0x1_0000_0000
  {
  }

  lemma AccIsNatural(r0: Word, r1: Word)
    ensures 0 <= Acc(r0, r1, 0)
  {
  }

  /** Adds the products `lo <= i < hi` of column `k` to the accumulator. */
  method AddColumn(left: Ptr, right: Ptr, n: nat, k: nat, lo: nat, hi: nat, a0: Word, a1: Word)
    returns (r0: Word, r1: Word, r2: Word)
    requires 0 < n < 128 && left.Fits(n) && right.Fits(n)
    requires lo <= hi <= n && hi <= k + 1 <= lo + n && (hi == n || hi == k + 1) && (lo == 0 || lo + n == k + 1)
    requires Acc(a0, a1, 0) < n * 0x1_0000_0000
    ensures Acc(r0, r1, r2) == Acc(a0, a1, 0) + ColumnUpTo(left.Seq(n), right.Seq(n), k, n)
    ensures Acc(r1, r2, 0) < n * 0x1_0000_0000
  {
    hide Times, Acc;
    ghost var l, r, start := left.Seq(n), right.Seq(n), Acc(a0, a1, 0);
    AccIsNatural(a0, a1);
    r0, r1, r2 := a0, a1, 0;
    ColumnIdle(l, r, k, 0, lo);
    var i := lo;
    while i < hi
      invariant lo <= i <= hi
      invariant Acc(r0, r1, r2) == start + ColumnUpTo(l, r, k, i)
    {
      ColumnBound(l, r, k, i);
      AccumulatorFits(n, start, i, ColumnUpTo(l, r, k, i), r0, r1, r2);
      r0, r1, r2 := Muladd(left.words[left.at + i], right.words[right.at + (k - i)], r0, r1, r2);
      assert l[i] == left.words[left.at + i] && Coef(r, k - i) == right.words[right.at + (k - i)];
      i := i + 1;
    }
    ColumnIdle(l, r, k, hi, n);
    ColumnBound(l, r, k, n);
    AccumulatorFits(n, start, n, ColumnUpTo(l, r, k, n), r0, r1, r2);
  }

  /** Memory that was `mem`, with `out` written from position `at` on. */
  ghost predicate Laid(words: seq<Word>, at: nat, mem: seq<Word>, out: seq<Word>) {
    at + |out| <= |mem| && words == mem[..at] + out + mem[at + |out|..]
  }

  lemma LaidStart(mem: seq<Word>, at: nat)
    requires at <= |mem|
    ensures Laid(mem, at, mem, [])
  {
  }

  lemma LaidOne(words: seq<Word>, at: nat, mem: seq<Word>, out: seq<Word>, x: Word)
    requires Laid(words, at, mem, out) && at + |out| < |mem|
    ensures |words| == |mem| && Laid(words[at + |out| := x], at, mem, out + [x])
  {
  }

  lemma LaidResult(words: seq<Word>, at: nat, mem: seq<Word>, out: seq<Word>)
    requires Laid(words, at, mem, out)
    ensures |words| == |mem| && words[at..at + |out|] == out
    ensures forall k :: 0 <= k < |mem| && (k < at || at + |out| <= k) ==> words[k] == mem[k]
  {
  }

  /**
   * Columns below `|out|` are done: their words `out` are in the result, the
   * operands and the rest of the result's array (`mem` at the start) are as they were.
   */
  ghost predicate Progress(result: Ptr, left: Ptr, right: Ptr, n: nat, l: seq<Word>, r: seq<Word>, mem: seq<Word>,
                           out: seq<Word>, r0: Word, r1: Word)
    reads result.words, left.words, right.words
  {
    && result.Fits(2 * n) && left.Fits(n) && right.Fits(n) && |out| <= 2 * n
    && left.Seq(n) == l && right.Seq(n) == r
    && |mem| == result.words.Length && Laid(result.words[..], result.at, mem, out)
    && Accumulated(l, r, |out|, out, Acc(r0, r1, 0)) && Acc(r0, r1, 0) < n * 0x1_0000_0000
  }

  /** Computes the next column and writes its word. */
  method PutColumn(result: Ptr, left: Ptr, right: Ptr, n: nat, k: nat, lo: nat, hi: nat, a0: Word, a1: Word,
                   ghost l: seq<Word>, ghost r: seq<Word>, ghost mem: seq<Word>, ghost out: seq<Word>)
    returns (r0: Word, r1: Word, ghost word: Word)
    requires 0 < n < 128 && k == |out| < 2 * n
    requires Progress(result, left, right, n, l, r, mem, out, a0, a1)
    requires Apart(result, 2 * n, left, n) && Apart(result, 2 * n, right, n)
    requires lo <= hi <= n && hi <= k + 1 <= lo + n && (hi == n || hi == k + 1) && (lo == 0 || lo + n == k + 1)
    modifies result.words
    ensures Progress(result, left, right, n, l, r, mem, out + [word], r0, r1)
  {
    hide Accumulated, ColumnUpTo, Acc, Laid;
    var r2;
    r0, r1, r2 := AddColumn(left, right, n, k, lo, hi, a0, a1);
    ColumnDone(l, r, k, out, Acc(a0, a1, 0), r0, r1, r2);
    LaidOne(result.words[..], result.at, mem, out, r0);
    result.words[result.at + k] := r0;
    word := r0;
    r0, r1 := r1, r2;
  }

  /** result := left * right, column by column. */
  method Mult(result: Ptr, left: Ptr, right: Ptr, n: nat)
    requires 0 < n < 128 && result.Fits(2 * n) && left.Fits(n) && right.Fits(n)
    requires Apart(result, 2 * n, left, n) && Apart(result, 2 * n, right, n)
    modifies result.words
    ensures result.Value(2 * n) == old(left.Value(n)) * old(right.Value(n))
    ensures OnlyChanged(result, 2 * n)
  {
    hide Acc, Progress, Val;
    ghost var l, r, mem, out := left.Seq(n), right.Seq(n), result.words[..], [];
    var r0: Word, r1: Word := 0, 0;
    ghost var word;
    ProgressStart(result, left, right, n);
    var k := 0;
    while k < n
      invariant |out| == k <= n && Progress(result, left, right, n, l, r, mem, out, r0, r1)
    {
      r0, r1, word := PutColumn(result, left, right, n, k, 0, k + 1, r0, r1, l, r, mem, out);
      out := out + [word];
      k := k + 1;
    }
    while k < 2 * n - 1
      invariant n <= |out| == k <= 2 * n - 1 && Progress(result, left, right, n, l, r, mem, out, r0, r1)
    {
      r0, r1, word := PutColumn(result, left, right, n, k, k + 1 - n, n, r0, r1, l, r, mem, out);
      out := out + [word];
      k := k + 1;
    }
    PutTopWord(result, left, right, n, r0, r1, l, r, mem, out);
  }

  /** The last word holds all that is left in the accumulator. */
  method PutTopWord(result: Ptr, left: Ptr, right: Ptr, n: nat, r0: Word, ghost r1: Word,
                    ghost l: seq<Word>, ghost r: seq<Word>, ghost mem: seq<Word>, ghost out: seq<Word>)
    requires n > 0 && |out| == 2 * n - 1 && Progress(result, left, right, n, l, r, mem, out, r0, r1)
    modifies result.words
    ensures result.Fits(2 * n) && result.Value(2 * n) == Val(l) * Val(r) && |mem| == result.words.Length
    ensures forall k :: 0 <= k < |mem| && (k < result.at || result.at + 2 * n <= k) ==> result.words[k] == mem[k]
  {
    hide Laid, Val, Acc, Accumulated;
    ProductComplete(l, r, n, out, r0, r1);
    LaidOne(result.words[..], result.at, mem, out, r0);
    result.words[result.at + (2 * n - 1)] := r0;
    LaidResult(result.words[..], result.at, mem, out + [r0]);
  }

  lemma ProgressStart(result: Ptr, left: Ptr, right: Ptr, n: nat)
    requires n > 0 && result.Fits(2 * n) && left.Fits(n) && right.Fits(n)
    ensures Progress(result, left, right, n, left.Seq(n), right.Seq(n), result.words[..], [], 0, 0)
  {
    LaidStart(result.words[..], result.at);
    NothingAccumulated(left.Seq(n), right.Seq(n));
    hide Accumulated, Laid;
  }

  lemma ProductComplete(l: seq<Word>, r: seq<Word>, n: nat, out: seq<Word>, r0: Word, r1: Word)
    requires |l| == n && |r| == n && n > 0 && |out| == 2 * n - 1
    requires Accumulated(l, r, 2 * n - 1, out, Acc(r0, r1, 0))
    ensures Val(out + [r0]) == Val(l) * Val(r)
  {
    hide Val, Radix, Acc, ColumnsVal;
    var m: nat := 2 * n - 1;
    ColumnsProduct(l, r, n, m);
    assert l[..n] == l;
    ValBound(l);
    ValBound(r);
    ValBound(out);
    ValPush(out, r0);
    RadixSquare(n);
    TwoWordAcc(r0, r1);
    TopWordFits(Val(l), Val(r), Radix(n), Radix(m), Val(out), r0, r1);
  }

  lemma TwoWordAcc(r0: int, r1: int)
    ensures Acc(r0, r1, 0) == r0 + 0x1_0000_0000 * r1
  {
  }

  lemma RadixSquare(n: nat)
    requires n > 0
    ensures Radix(n) * Radix(n) == 0x1_0000_0000 * Radix(2 * n - 1)
  {
    RadixAdd(n, n);
  }

  lemma TopWordFits(x: int, y: int, rn: int, rm: int, low: int, r0: Word, r1: Word)
    requires 0 <= x < rn && 0 <= y < rn && rn * rn == 0x1_0000_0000 * rm && 0 <= low && rm > 0
    requires low + rm * (r0 + 0x1_0000_0000 * r1) == x * y
    ensures r1 == 0 && low + rm * r0 == x * y
  {
    MulLe(x, rn, y);
    MulLe(y, rn, rn);
    assert rn * y == y * rn;
    assert x * y <= 0x1_0000_0000 * rm;
    MulLt(y, rn, rn);
    assert x * y < 0x1_0000_0000 * rm;
    var top := r0 + 0x1_0000_0000 * r1;
    assert top * rm == rm * top;
    if 0x1_0000_0000 <= top {
      MulLe(0x1_0000_0000, top, rm);
    }
    assert r1 == 0;
  }
}
