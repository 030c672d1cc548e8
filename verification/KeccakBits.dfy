/** The hash on lanes and bytes is KECCAK of FIPS 202 on bits. */
module KeccakBits {
  import opened Arithmetic
  import opened Keccak
  import opened Sponge
  import opened LaneBits
  import F = Fips202

  /** The state array of the lanes: bit (x, y, z) is bit z of lane (x, y). */
  function StateBits(s: Lanes): F.State {
    seq(1600, i requires 0 <= i < 1600 => LaneBit(s[i / 64], i % 64))
  }

  lemma Place(l: nat, z: nat)
    requires l < 25 && z < 64
    ensures (64 * l + z) / 64 == l && (64 * l + z) % 64 == z && (64 * l + z) / 320 == l / 5
  {
    DivUnique(64 * l + z, 64, l, z);
    DivUnique(64 * l + z, 320, l / 5, 64 * (l % 5) + z);
  }

  /** A bit of the state array, as a bit of a lane. */
  lemma StateBit(s: Lanes, x: int, y: int, z: int)
    ensures F.Bit(StateBits(s), x, y, z) == LaneBit(s[At(x, y)], z % 64)
  {
    hide LaneBit;
    Place(At(x, y), z % 64);
  }

  /** Coordinates of a position. */
  lemma Coordinates(i: nat)
    requires i < 1600
    ensures var l := i / 64;
            && l < 25 && F.X(i) == l % 5 && F.Y(i) == l / 5 && F.Z(i) == i % 64 < 64
            && At(F.X(i), F.Y(i)) == l && i == 64 * l + i % 64
  {
    var l := i / 64;
    Place(l, i % 64);
  }

  /** Two states agree if all their bits do. */
  lemma SameBits(s: Lanes, t: F.State)
    requires forall i :: 0 <= i < 1600 ==> LaneBit(s[i / 64], i % 64) == t[i]
    ensures StateBits(s) == t
  {
    hide LaneBit;
  }

  // ---------- theta ----------

  lemma ColumnBit(s: Lanes, x: int, z: int)
    ensures LaneBit(Column(s, x), z % 64) == F.Parity(StateBits(s), x, z)
  {
    hide Xor, LaneBit, StateBits, At;
    var a, b, c, d, e := s[At(x, 0)], s[At(x, 1)], s[At(x, 2)], s[At(x, 3)], s[At(x, 4)];
    XorBit(a, b, z % 64);
    XorBit(Xor(a, b), c, z % 64);
    XorBit(Xor(Xor(a, b), c), d, z % 64);
    XorBit(Xor(Xor(Xor(a, b), c), d), e, z % 64);
    StateBit(s, x, 0, z);
    StateBit(s, x, 1, z);
    StateBit(s, x, 2, z);
    StateBit(s, x, 3, z);
    StateBit(s, x, 4, z);
  }

  lemma ThetaAddBit(s: Lanes, x: int, z: nat)
    requires z < 64
    ensures LaneBit(ThetaAdd(s, x), z) == F.Xor(F.Parity(StateBits(s), x - 1, z), F.Parity(StateBits(s), x + 1, z - 1))
  {
    hide Xor, LaneBit, StateBits, Rotl, Column, F.Parity;
    XorBit(Rotl(Column(s, x + 1), 1), Column(s, x - 1), z);
    RotlBit(Column(s, x + 1), 1, z);
    ColumnBit(s, x + 1, z - 1);
    ColumnBit(s, x - 1, z);
  }

  lemma ThetaRefines(s: Lanes)
    ensures StateBits(Theta(s)) == F.Theta(StateBits(s))
  {
    hide Xor, LaneBit, StateBits, ThetaAdd, F.Parity, F.Bit, F.X, F.Y, F.Z, At;
    forall i | 0 <= i < 1600 ensures LaneBit(Theta(s)[i / 64], i % 64) == F.Theta(StateBits(s))[i] {
      Coordinates(i);
      XorBit(s[i / 64], ThetaAdd(s, i / 64 % 5), i % 64);
      ThetaAddBit(s, i / 64 % 5, i % 64);
      StateBit(s, F.X(i), F.Y(i), i % 64);
    }
    SameBits(Theta(s), F.Theta(StateBits(s)));
  }

  // ---------- rho ----------

  lemma WalkVisits(i: nat)
    requires 0 < i < 25
    ensures exists t: nat :: t < 24 && F.Walk(t) == (i % 5, i / 5)
  {
    WalkPositions();
  }

  lemma {:induction false} MovedFrom(x: nat, y: nat, t: nat)
    requires x < 5 && y < 5 && t <= 24
    ensures (exists u: nat :: t <= u < 24 && F.Walk(u) == (x, y)) ==> F.Moved(x, y, t) % 64 == Offset(x + 5 * y)
    ensures !(exists u: nat :: t <= u < 24 && F.Walk(u) == (x, y)) ==> F.Moved(x, y, t) == 0
    decreases 24 - t
  {
    hide F.Walk, Offset;
    if t < 24 {
      if F.Walk(t) == (x, y) {
        OffsetsFollowWalk(t);
      } else {
        MovedFrom(x, y, t + 1);
      }
    }
  }

  /** Rho moves the bits of every lane by its table entry. */
  lemma MovedIsOffset(x: nat, y: nat)
    requires x < 5 && y < 5
    ensures F.Moved(x, y, 0) % 64 == Offset(x + 5 * y)
  {
    hide F.Walk, F.Moved;
    MovedFrom(x, y, 0);
    if x + 5 * y > 0 {
      WalkVisits(x + 5 * y);
      DivUnique(x + 5 * y, 5, y, x);
    }
  }

  lemma ModSame(z: int, a: int)
    ensures (z - a) % 64 == (z - a % 64) % 64
  {
    DivModAddMultiple(z - a, 64, a / 64);
    DivBounds(a, 64);
  }

  lemma RotatedBit(a: Lane, n: nat, z: nat)
    requires n < 64 && z < 64
    ensures LaneBit(Rotated(a, n), z) == LaneBit(a, (z - n) % 64)
  {
    hide LaneBit, Rotl;
    if n > 0 {
      RotlBit(a, n, z);
    }
  }

  lemma RhoRefines(s: Lanes)
    ensures StateBits(Rho(s)) == F.Rho(StateBits(s))
  {
    hide LaneBit, StateBits, Rotated, F.Bit, F.X, F.Y, F.Z, At, F.Moved, Offset;
    forall i | 0 <= i < 1600 ensures LaneBit(Rho(s)[i / 64], i % 64) == F.Rho(StateBits(s))[i] {
      Coordinates(i);
      var l, z := i / 64, i % 64;
      OffsetSmall(l);
      RotatedBit(s[l], Offset(l), z);
      MovedIsOffset(l % 5, l / 5);
      ModSame(z, F.Moved(l % 5, l / 5, 0));
      StateBit(s, F.X(i), F.Y(i), z - F.Moved(l % 5, l / 5, 0));
    }
    SameBits(Rho(s), F.Rho(StateBits(s)));
  }

  // ---------- pi and chi ----------

  lemma PiRefines(s: Lanes)
    ensures StateBits(Pi(s)) == F.Pi(StateBits(s))
  {
    hide LaneBit, StateBits, F.Bit, F.X, F.Y, F.Z, At;
    forall i | 0 <= i < 1600 ensures LaneBit(Pi(s)[i / 64], i % 64) == F.Pi(StateBits(s))[i] {
      Coordinates(i);
      var l := i / 64;
      StateBit(s, l % 5 + 3 * (l / 5), l % 5, i % 64);
    }
    SameBits(Pi(s), F.Pi(StateBits(s)));
  }

  lemma ChiLaneBit(s: Lanes, l: nat, z: nat)
    requires l < 25 && z < 64 && At(l % 5, l / 5) == l
    ensures LaneBit(ChiLane(s, l), z) == F.ChiBit(StateBits(s), l % 5, l / 5, z)
  {
    hide Xor, AndNot, LaneBit, StateBits, F.Bit, At;
    var x, y := l % 5, l / 5;
    var b, c := s[At(x + 1, y)], s[At(x + 2, y)];
    XorBit(s[l], AndNot(b, c), z);
    AndNotBit(b, c, z);
    StateBit(s, x, y, z);
    StateBit(s, x + 1, y, z);
    StateBit(s, x + 2, y, z);
  }

  lemma ChiRefines(s: Lanes)
    ensures StateBits(Chi(s)) == F.Chi(StateBits(s))
  {
    hide LaneBit, StateBits, ChiLane, F.ChiBit, F.X, F.Y, F.Z, At;
    forall i | 0 <= i < 1600 ensures LaneBit(Chi(s)[i / 64], i % 64) == F.Chi(StateBits(s))[i] {
      Coordinates(i);
      ChiLaneBit(s, i / 64, i % 64);
    }
    SameBits(Chi(s), F.Chi(StateBits(s)));
  }

  // ---------- iota ----------

  lemma ShiftedBits(r: bv8)
    ensures BitOf(Shifted(r), 0) == BitOf(r, 7) && BitOf(Shifted(r), 1) == BitOf(r, 0)
    ensures BitOf(Shifted(r), 2) == BitOf(r, 1) && BitOf(Shifted(r), 3) == BitOf(r, 2)
    ensures BitOf(Shifted(r), 4) == (BitOf(r, 3) != BitOf(r, 7)) && BitOf(Shifted(r), 5) == (BitOf(r, 4) != BitOf(r, 7))
    ensures BitOf(Shifted(r), 6) == (BitOf(r, 5) != BitOf(r, 7)) && BitOf(Shifted(r), 7) == BitOf(r, 6)
  {
  }

  lemma FirstBits()
    ensures BitOf(1, 0) && !BitOf(1, 1) && !BitOf(1, 2) && !BitOf(1, 3) && !BitOf(1, 4) && !BitOf(1, 5) && !BitOf(1, 6) && !BitOf(1, 7)
  {
  }

  /** The register in a byte is the register of bits. */
  lemma {:induction false} RegisterBits(t: nat)
    ensures var r, bits := Register(t), F.Register(t);
            && BitOf(r, 0) == bits[0] && BitOf(r, 1) == bits[1] && BitOf(r, 2) == bits[2] && BitOf(r, 3) == bits[3]
            && BitOf(r, 4) == bits[4] && BitOf(r, 5) == bits[5] && BitOf(r, 6) == bits[6] && BitOf(r, 7) == bits[7]
  {
    hide BitOf, Shifted;
    if t == 0 {
      FirstBits();
    } else {
      RegisterBits(t - 1);
      ShiftedBits(Register(t - 1));
    }
  }

  lemma RcBit(t: nat)
    requires t < 255
    ensures BitOf(Register(t), 0) == F.Rc(t)
  {
    RegisterBits(t);
    DivUnique(t, 255, 0, t);
  }

  lemma Powers()
    ensures F.Power2(0) - 1 == 0 && F.Power2(1) - 1 == 1 && F.Power2(2) - 1 == 3 && F.Power2(3) - 1 == 7
    ensures F.Power2(4) - 1 == 15 && F.Power2(5) - 1 == 31 && F.Power2(6) - 1 == 63
  {
  }

  /** Bit z of a round constant. */
  lemma ConstantBit(ir: nat, z: nat)
    requires ir < 24 && z < 64
    ensures LaneBit(RoundConstant(ir), z) <==> F.RoundBit(ir, z)
  {
    hide LaneBit, Placed, BitOf, Register, F.Rc, F.Power2, F.RoundBit, Or, RoundConstant;
    var t := 7 * ir;
    var p0, p1, p2, p3 := Placed(Register(t), 0), Placed(Register(t + 1), 1), Placed(Register(t + 2), 3), Placed(Register(t + 3), 7);
    var p4, p5, p6 := Placed(Register(t + 4), 15), Placed(Register(t + 5), 31), Placed(Register(t + 6), 63);
    SevenOrs(p0, p1, p2, p3, p4, p5, p6, z);
    ConstantOrs(ir);
    PlacedRc(t, 0, z);
    PlacedRc(t + 1, 1, z);
    PlacedRc(t + 2, 3, z);
    PlacedRc(t + 3, 7, z);
    PlacedRc(t + 4, 15, z);
    PlacedRc(t + 5, 31, z);
    PlacedRc(t + 6, 63, z);
    RoundBitCases(ir, z);
  }

  lemma PlacedRc(t: nat, bit: nat, z: nat)
    requires bit == 0 || bit == 1 || bit == 3 || bit == 7 || bit == 15 || bit == 31 || bit == 63
    requires t < 255 && z < 64
    ensures LaneBit(Placed(Register(t), bit), z) <==> z == bit && F.Rc(t)
  {
    hide LaneBit, Placed, BitOf, Register, F.Rc;
    PlacedBit(Register(t), bit, z);
    RcBit(t);
  }

  lemma SevenOrs(p0: Lane, p1: Lane, p2: Lane, p3: Lane, p4: Lane, p5: Lane, p6: Lane, z: nat)
    ensures LaneBit(Or(Or(Or(Or(Or(Or(p0, p1), p2), p3), p4), p5), p6), z)
        <==> LaneBit(p0, z) || LaneBit(p1, z) || LaneBit(p2, z) || LaneBit(p3, z) || LaneBit(p4, z) || LaneBit(p5, z) || LaneBit(p6, z)
  {
    hide Or, LaneBit;
    OrBit(p0, p1, z);
    OrBit(Or(p0, p1), p2, z);
    OrBit(Or(Or(p0, p1), p2), p3, z);
    OrBit(Or(Or(Or(p0, p1), p2), p3), p4, z);
    OrBit(Or(Or(Or(Or(p0, p1), p2), p3), p4), p5, z);
    OrBit(Or(Or(Or(Or(Or(p0, p1), p2), p3), p4), p5), p6, z);
  }

  lemma ConstantOrs(ir: nat)
    ensures var t := 7 * ir;
            RoundConstant(ir)
            == Or(Or(Or(Or(Or(Or(Placed(Register(t), 0), Placed(Register(t + 1), 1)), Placed(Register(t + 2), 3)),
                              Placed(Register(t + 3), 7)), Placed(Register(t + 4), 15)), Placed(Register(t + 5), 31)),
                  Placed(Register(t + 6), 63))
  {
    hide Placed, Register;
  }

  lemma RoundBitCases(ir: nat, z: nat)
    ensures F.RoundBit(ir, z) <==>
              || (z == 0 && F.Rc(7 * ir)) || (z == 1 && F.Rc(7 * ir + 1)) || (z == 3 && F.Rc(7 * ir + 2))
              || (z == 7 && F.Rc(7 * ir + 3)) || (z == 15 && F.Rc(7 * ir + 4)) || (z == 31 && F.Rc(7 * ir + 5))
              || (z == 63 && F.Rc(7 * ir + 6))
  {
    Powers();
    hide F.Rc, F.Power2;
    if F.RoundBit(ir, z) {
      var j: nat :| j <= 6 && z == F.Power2(j) - 1 && F.Rc(j + 7 * ir);
      assert j == 0 || j == 1 || j == 2 || j == 3 || j == 4 || j == 5 || j == 6;
    }
    assert z == 0 && F.Rc(0 + 7 * ir) ==> F.RoundBit(ir, z);
    assert z == 1 && F.Rc(1 + 7 * ir) ==> F.RoundBit(ir, z);
    assert z == 3 && F.Rc(2 + 7 * ir) ==> F.RoundBit(ir, z);
    assert z == 7 && F.Rc(3 + 7 * ir) ==> F.RoundBit(ir, z);
    assert z == 15 && F.Rc(4 + 7 * ir) ==> F.RoundBit(ir, z);
    assert z == 31 && F.Rc(5 + 7 * ir) ==> F.RoundBit(ir, z);
    assert z == 63 && F.Rc(6 + 7 * ir) ==> F.RoundBit(ir, z);
  }

  lemma IotaRefines(s: Lanes, ir: nat)
    requires ir < 24
    ensures StateBits(Iota(s, RoundConstant(ir))) == F.Iota(StateBits(s), ir)
  {
    hide Xor, LaneBit, StateBits, RoundConstant, F.RoundBit, F.Bit, F.X, F.Y, F.Z, At;
    var t := Iota(s, RoundConstant(ir));
    forall i | 0 <= i < 1600 ensures LaneBit(t[i / 64], i % 64) == F.Iota(StateBits(s), ir)[i] {
      Coordinates(i);
      StateBit(s, F.X(i), F.Y(i), i % 64);
      if i / 64 == 0 {
        XorBit(s[0], RoundConstant(ir), i % 64);
        ConstantBit(ir, i % 64);
      }
    }
    SameBits(t, F.Iota(StateBits(s), ir));
  }

  // ---------- the permutation ----------

  /** One round on the lanes is one round on the bits. */
  lemma RoundRefines(s: Lanes, ir: nat)
    requires ir < 24
    ensures StateBits(Round(s, ir)) == F.Rnd(StateBits(s), ir)
  {
    hide StateBits, Theta, Rho, Pi, Chi, Iota, F.Theta, F.Rho, F.Pi, F.Chi, F.Iota, RoundConstant;
    ThetaRefines(s);
    RhoRefines(Theta(s));
    PiRefines(Rho(Theta(s)));
    ChiRefines(Pi(Rho(Theta(s))));
    IotaRefines(Chi(Pi(Rho(Theta(s)))), ir);
  }

  ghost predicate RoundsAgree(s: Lanes, n: nat) {
    StateBits(Rounds(s, n)) == F.Rnds(StateBits(s), n)
  }

  lemma {:induction false} RoundsRefine(s: Lanes, n: nat)
    requires n <= 24
    ensures RoundsAgree(s, n)
  {
    hide StateBits, Round, F.Rnd;
    if n > 0 {
      RoundsRefine(s, n - 1);
      RoundRefines(Rounds(s, n - 1), n - 1);
    }
  }

  /** The 24 rounds on lanes are KECCAK-f[1600] on the state array. */
  lemma PermuteRefines(s: Lanes)
    ensures StateBits(Permute(s)) == F.KeccakF(StateBits(s))
  {
    hide StateBits, Rounds, F.Rnds;
    RoundsRefine(s, 24);
  }

  // ---------- the sponge ----------

  lemma BitPlace(i: nat, size: nat)
    requires i < 1600 && size % 8 == 0
    ensures i / 8 == 8 * (i / 64) + i % 64 / 8 && i % 8 == i % 64 % 8
    ensures i < 8 * size <==> 8 * (i / 64) < size
    ensures i < 8 * size ==> 8 * (i / 64) + 8 <= size
  {
    var l, z := i / 64, i % 64;
    assert i == 64 * l + z;
    DivUnique(i, 8, 8 * l + z / 8, z % 8);
    assert size == 8 * (size / 8);
  }

  lemma AddedBit(s: Lanes, block: seq<Octet>, i: nat)
    requires |block| % 8 == 0 && |block| <= 200 && i < 1600
    ensures LaneBit(Added(s, block)[i / 64], i % 64)
         == F.Xor(LaneBit(s[i / 64], i % 64), i < 8 * |block| && BitOf(block[i / 8], i % 8))
  {
    hide Xor, LaneBit, LoadLane, BitOf;
    BitPlace(i, |block|);
    if 8 * (i / 64) < |block| {
      XorBit(s[i / 64], LoadLane(block, i / 64), i % 64);
      LoadedBit(block, i / 64, i % 64);
    }
  }

  lemma AddedRefines(s: Lanes, block: seq<Octet>)
    requires |block| % 8 == 0 && |block| <= 200
    ensures StateBits(Added(s, block)) == F.AddBlock(StateBits(s), Bits(block))
  {
    hide LaneBit, BitOf, Added;
    forall i | 0 <= i < 1600 ensures LaneBit(Added(s, block)[i / 64], i % 64) == F.AddBlock(StateBits(s), Bits(block))[i] {
      AddedBit(s, block, i);
    }
    hide StateBits;
    SameBits(Added(s, block), F.AddBlock(StateBits(s), Bits(block)));
  }

  lemma BitsSplit(s: seq<Octet>, k: nat)
    requires k <= |s|
    ensures Bits(s)[..8 * k] == Bits(s[..k]) && Bits(s)[8 * k..] == Bits(s[k..])
  {
    hide BitOf;
    forall i | 0 <= i < 8 * (|s| - k) ensures Bits(s)[8 * k + i] == Bits(s[k..])[i] {
      DivModAddMultiple(i, 8, k);
    }
  }

  lemma {:induction false} AbsorbRefines(s: Lanes, message: seq<Octet>, rate: nat)
    requires IsRate(rate)
    ensures StateBits(AbsorbAll(s, message, rate)) == F.Absorb(StateBits(s), Bits(message), 8 * rate)
    decreases |message|
  {
    hide StateBits, Bits, Permute, Added, F.KeccakF, F.AddBlock;
    BitsLength(message);
    if |message| >= rate {
      var block := message[..rate];
      BitsSplit(message, rate);
      AddedRefines(s, block);
      PermuteRefines(Added(s, block));
      AbsorbRefines(AbsorbBlock(s, block), message[rate..], rate);
    }
  }

  lemma BitsLength(s: seq<Octet>)
    ensures |Bits(s)| == 8 * |s|
  {
  }

  /** The padding bytes are the padding bits. */
  lemma PaddingRefines(length: nat, rate: nat)
    requires IsRate(rate)
    ensures Bits(Padding(length, rate)) == F.Pad(8 * rate, 8 * length)
  {
    PaddingIsPad101(length, rate);
    hide Padding, BitOf;
    var bits, x, m := Bits(Padding(length, rate)), 8 * rate, 8 * length;
    DivBounds(m + |bits|, x);
    var q := (m + |bits|) / x;
    DivUnique(-m - 2, x, -q, |bits| - 2);
    hide Bits;
    assert |F.Pad(x, m)| == |bits|;
  }

  lemma ZeroRefines()
    ensures StateBits(ZeroLanes()) == seq(1600, _ => false)
  {
    hide LaneBit;
    forall i | 0 <= i < 1600 ensures !LaneBit(ZeroLanes()[i / 64], i % 64) {
      NoBit(i % 64);
    }
  }

  lemma DigestBit(s: Lanes, size: nat, i: nat)
    requires size <= 200 && i < 8 * size
    ensures |Digest(s, size)| == size && BitOf(Digest(s, size)[i / 8], i % 8) == LaneBit(s[i / 64], i % 64)
  {
    hide LaneBit, StoredByte, BitOf;
    var l, k, j := i / 64, i % 64 / 8, i % 8;
    BitPlace(i, 200);
    ByteBit(s[l], k, j);
    DivUnique(i / 8, 8, l, k);
  }

  lemma DigestRefines(s: Lanes, size: nat)
    requires size <= 200
    ensures Bits(Digest(s, size)) == StateBits(s)[..8 * size]
  {
    hide LaneBit, BitOf, StoredByte;
    BitsLength(Digest(s, size));
    hide Digest;
    forall i | 0 <= i < 8 * size ensures Bits(Digest(s, size))[i] == StateBits(s)[i] {
      DigestBit(s, size, i);
    }
  }

  /**
   * The hash of a message, read bit by bit, is KECCAK[c] of the message's bits
   * with a digest of d bits and c = 2 d: SHA-3's sponge without suffix bits.
   */
  lemma HashIsKeccak(message: seq<Octet>, rate: nat)
    requires IsRate(rate)
    ensures var d := 8 * (100 - rate / 2);
            && 8 * rate == 1600 - 2 * d
            && Bits(Hash(message, rate)) == F.Keccak(Bits(message), d, 1600 - 2 * d)
  {
    hide StateBits, Bits, Digest, AbsorbAll, F.Absorb, Padding, F.Pad;
    var padding := Padding(|message|, rate);
    ZeroRefines();
    AbsorbRefines(ZeroLanes(), message + padding, rate);
    BitsLength(message);
    PaddingRefines(|message|, rate);
    BitsConcat(message, padding);
    DigestRefines(Squeezed(message, rate), 100 - rate / 2);
  }

  lemma BitsConcat(a: seq<Octet>, b: seq<Octet>)
    ensures Bits(a + b) == Bits(a) + Bits(b)
  {
    hide Bits;
    BitsLength(a + b);
    BitsSplit(a + b, |a|);
    assert (a + b)[..|a|] == a && (a + b)[|a|..] == b;
    var bits := Bits(a + b);
    assert bits == bits[..8 * |a|] + bits[8 * |a|..];
  }
}
