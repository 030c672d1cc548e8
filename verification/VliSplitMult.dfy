/** Multiply-and-add on 64-bit words without a 128-bit type, from four products of 32-bit halves. */
module VliSplitMult {
  import opened Arithmetic
  import opened VliBasics
  import opened DoubleWords

  /** The value of a three-word accumulator. */
  function Acc64(r0: int, r1: int, r2: int): int {
    r0 + 0x1_0000_0000_0000_0000 * r1 + 0x1_0000_0000_0000_0000_0000_0000_0000_0000 * r2
  }

  lemma HalfProductBound(x: int, y: int)
    requires 0 <= x < 0x1_0000_0000 && 0 <= y < 0x1_0000_0000
    ensures 0 <= x * y <= 0xffff_fffe_0000_0001
  {
    MulLe(x, 0xffff_ffff, y);
    MulLe(0, x, y);
  }

  lemma ProductOfHalves(a0: int, a1: int, b0: int, b1: int)
    ensures (a0 + 0x1_0000_0000 * a1) * (b0 + 0x1_0000_0000 * b1)
            == a0 * b0 + 0x1_0000_0000 * (a0 * b1 + a1 * b0) + 0x1_0000_0000_0000_0000 * (a1 * b1)
  {
    MulAdd(a0 + 0x1_0000_0000 * a1, b0, 0x1_0000_0000 * b1);
    assert (a0 + 0x1_0000_0000 * a1) * b0 == a0 * b0 + 0x1_0000_0000 * (a1 * b0);
    assert (a0 + 0x1_0000_0000 * a1) * (0x1_0000_0000 * b1)
        == 0x1_0000_0000 * (a0 * b1) + 0x1_0000_0000_0000_0000 * (a1 * b1);
  }

  lemma ProductFromHalves(a: Word64, b: Word64, i0: int, i1: int, i2: int, i3: int)
    requires i0 == Low(a) * Low(b) && i1 == Low(a) * High(b) && i2 == High(a) * Low(b) && i3 == High(a) * High(b)
    ensures (a as int) * (b as int) == i0 + 0x1_0000_0000 * (i1 + i2) + 0x1_0000_0000_0000_0000 * i3
    ensures 0 <= i0 <= 0xffff_fffe_0000_0001 && 0 <= i1 <= 0xffff_fffe_0000_0001
    ensures 0 <= i2 <= 0xffff_fffe_0000_0001 && 0 <= i3 <= 0xffff_fffe_0000_0001
  {
    HalfProductBound(Low(a), Low(b));
    HalfProductBound(Low(a), High(b));
    HalfProductBound(High(a), Low(b));
    HalfProductBound(High(a), High(b));
    ProductOfHalves(Low(a), High(a), Low(b), High(b));
  }

  lemma WordProductBound(a: Word64, b: Word64)
    ensures (a as int) * (b as int) <= 0xffff_ffff_ffff_fffe_0000_0000_0000_0001
  {
    MulLe(a, 0xffff_ffff_ffff_ffff, b);
  }

  /** The 128-bit product of two words, from the products of their halves. */
  method SplitProduct(a: Word64, b: Word64) returns (p0: Word64, p1: Word64)
    ensures p0 + 0x1_0000_0000_0000_0000 * p1 == (a as int) * (b as int) <= 0xffff_ffff_ffff_fffe_0000_0000_0000_0001
  {
    var i0, i1, i2, i3 := Low(a) * Low(b), Low(a) * High(b), High(a) * Low(b), High(a) * High(b);
    ProductFromHalves(a, b, i0, i1, i2, i3);
    WordProductBound(a, b);
    hide Low, High, Or;
    i2 := i2 + High(i0);
    i2 := Wrapped(i2 + i1);
    if i2 < i1 {
      i3 := i3 + 0x1_0000_0000;
    }
    p1 := i3 + High(i2);
    HalvesJoin(Low(i0), Low(i2));
    p0 := Or(Low(i0), Low(i2) * 0x1_0000_0000);
  }

  lemma HalvesJoin(low: nat, high: nat)
    requires low < 0x1_0000_0000 && high < 0x1_0000_0000
    ensures Or(low, high * 0x1_0000_0000) == low + high * 0x1_0000_0000 < 0x1_0000_0000_0000_0000
  {
    PowersOfTwo();
    OrJoins(low, high * 0x1_0000_0000, 32);
  }

  /** Adds a * b to the accumulator; refines the double-word version, with the same wrap of the top word. */
  method SplitMuladd(a: Word64, b: Word64, r0: Word64, r1: Word64, r2: Word64) returns (s0: Word64, s1: Word64, s2: Word64)
    ensures Acc64(s0, s1, s2) == Acc64(r0, r1, r2) + (a as int) * (b as int)
            || (r2 == 0xffff_ffff_ffff_ffff && Acc64(s0, s1, s2) == Acc64(r0, r1, r2) + (a as int) * (b as int)
                  - 0x1_0000_0000_0000_0000_0000_0000_0000_0000_0000_0000_0000_0000)
  {
    var p0, p1 := SplitProduct(a, b);
    ghost var product := (a as int) * (b as int);
    assert p0 + 0x1_0000_0000_0000_0000 * p1 == product;
    s0 := Wrapped((r0 as int) + p0);
    s1 := Wrapped((r1 as int) + ((p1 as int) + (if s0 < p0 then 1 else 0)));
    s2 := Wrapped((r2 as int) + (if s1 < p1 || (s1 == p1 && s0 < p0) then 1 else 0));
  }
}
