/** The Keccak permutation as the step mappings of FIPS 202, section 3.2, and the sponge over it. */
module Keccak {
  import F = Fips202

  type Lane = bv64

  /** 25 lanes; lane (x, y) is at x + 5 * y. */
  type Lanes = s: seq<Lane> | |s| == 25 witness seq(25, _ => 0)

  function Rotl(a: Lane, n: nat): Lane
    requires 0 < n < 64
  {
    (a << n) | (a >> (64 - n))
  }

  function Xor(a: Lane, b: Lane): Lane {
    a ^ b
  }

  /** The bits of `b` where `a` has none. */
  function AndNot(a: Lane, b: Lane): Lane {
    !a & b
  }

  function At(x: int, y: int): (i: nat)
    ensures i < 25
  {
    x % 5 + 5 * (y % 5)
  }

  // ---------- the step mappings ----------

  /** The parity of a column. */
  function Column(s: Lanes, x: int): Lane {
    Xor(Xor(Xor(Xor(s[At(x, 0)], s[At(x, 1)]), s[At(x, 2)]), s[At(x, 3)]), s[At(x, 4)])
  }

  /** What theta adds to a column: the one before it, and the one after it rotated. */
  function ThetaAdd(s: Lanes, x: int): Lane {
    Xor(Rotl(Column(s, x + 1), 1), Column(s, x - 1))
  }

  function Theta(s: Lanes): Lanes {
    seq(25, i requires 0 <= i < 25 => Xor(s[i], ThetaAdd(s, i % 5)))
  }

  /** The rotation of the lane visited at step t. */
  function WalkOffset(t: nat): nat {
    ((t + 1) * (t + 2) / 2) % 64
  }

  /** Rotations by lane. */
  function Offset(i: nat): nat
    requires i < 25
  {
    [ 0,  1, 62, 28, 27,
     36, 44,  6, 55, 20,
      3, 10, 43, 25, 39,
     41, 45, 15, 21,  8,
     18,  2, 61, 56, 14][i]
  }

  function Rotated(a: Lane, n: nat): Lane
    requires n < 64
  {
    if n == 0 then a else Rotl(a, n)
  }

  lemma OffsetSmall(i: nat)
    requires i < 25
    ensures Offset(i) < 64 && (i > 0 ==> Offset(i) > 0)
  {
  }

  function Rho(s: Lanes): Lanes {
    seq(25, i requires 0 <= i < 25 => (OffsetSmall(i); Rotated(s[i], Offset(i))))
  }

  /** Lane (x, y) comes from lane (x + 3y, x). */
  function Source(i: nat): (j: nat)
    ensures j < 25
  {
    At(i % 5 + 3 * (i / 5), i % 5)
  }

  function Pi(s: Lanes): Lanes {
    seq(25, i requires 0 <= i < 25 => s[Source(i)])
  }

  function ChiOf(a: Lane, b: Lane, c: Lane): Lane {
    Xor(a, AndNot(b, c))
  }

  /** What chi makes of a lane, from the next two of its plane. */
  function ChiLane(s: Lanes, i: nat): Lane
    requires i < 25
  {
    ChiOf(s[i], s[At(i % 5 + 1, i / 5)], s[At(i % 5 + 2, i / 5)])
  }

  function Chi(s: Lanes): Lanes {
    seq(25, i requires 0 <= i < 25 => ChiLane(s, i))
  }

  /** The feedback register of section 3.2.5, its output in the lowest bit. */
  function Register(t: nat): bv8 {
    if t == 0 then 1 else Shifted(Register(t - 1))
  }

  function Shifted(r: bv8): bv8 {
    (r << 1) ^ (if r & 0x80 != 0 then 0x71 else 0)
  }

  /** Bits 2^j - 1 of the constant of a round, for j = 0 to 6. */
  function RoundConstant(round: nat): Lane {
    var t := 7 * round;
    Placed(Register(t), 0) | Placed(Register(t + 1), 1) | Placed(Register(t + 2), 3) | Placed(Register(t + 3), 7)
    | Placed(Register(t + 4), 15) | Placed(Register(t + 5), 31) | Placed(Register(t + 6), 63)
  }

  function Placed(r: bv8, bit: nat): Lane
    requires bit < 64
  {
    if r & 1 != 0 then (1 as Lane) << bit else 0
  }

  function Iota(s: Lanes, constant: Lane): Lanes {
    s[0 := Xor(s[0], constant)]
  }

  function Round(s: Lanes, round: nat): Lanes {
    Iota(Chi(Pi(Rho(Theta(s)))), RoundConstant(round))
  }

  /** The first `n` rounds. */
  function Rounds(s: Lanes, n: nat): Lanes {
    if n == 0 then s else Round(Rounds(s, n - 1), n - 1)
  }

  const ROUNDS: nat := 24

  function Permute(s: Lanes): Lanes {
    Rounds(s, ROUNDS)
  }

  // ---------- the rotations follow the walk ----------

  /** The table of rotations is the one the walk prescribes, and the walk visits every lane but the first. */
  lemma OffsetsFollowWalk(t: nat)
    requires t < 24
    ensures Offset(F.Walk(t).0 + 5 * F.Walk(t).1) == WalkOffset(t)
  {
    WalkPositions();
    WalkOffsets();
    hide F.Walk, WalkOffset;
  }

  lemma WalkOffsets()
    ensures WalkOffset(0) == 1 && WalkOffset(1) == 3 && WalkOffset(2) == 6 && WalkOffset(3) == 10 && WalkOffset(4) == 15 && WalkOffset(5) == 21
    ensures WalkOffset(6) == 28 && WalkOffset(7) == 36 && WalkOffset(8) == 45 && WalkOffset(9) == 55 && WalkOffset(10) == 2 && WalkOffset(11) == 14
    ensures WalkOffset(12) == 27 && WalkOffset(13) == 41 && WalkOffset(14) == 56 && WalkOffset(15) == 8 && WalkOffset(16) == 25 && WalkOffset(17) == 43
    ensures WalkOffset(18) == 62 && WalkOffset(19) == 18 && WalkOffset(20) == 39 && WalkOffset(21) == 61 && WalkOffset(22) == 20 && WalkOffset(23) == 44
  {
  }

  lemma WalkPositions()
    ensures F.Walk(0) == (1, 0) && F.Walk(1) == (0, 2) && F.Walk(2) == (2, 1) && F.Walk(3) == (1, 2)
    ensures F.Walk(4) == (2, 3) && F.Walk(5) == (3, 3) && F.Walk(6) == (3, 0) && F.Walk(7) == (0, 1)
    ensures F.Walk(8) == (1, 3) && F.Walk(9) == (3, 1) && F.Walk(10) == (1, 4) && F.Walk(11) == (4, 4)
    ensures F.Walk(12) == (4, 0) && F.Walk(13) == (0, 3) && F.Walk(14) == (3, 4) && F.Walk(15) == (4, 3)
    ensures F.Walk(16) == (3, 2) && F.Walk(17) == (2, 2) && F.Walk(18) == (2, 0) && F.Walk(19) == (0, 4)
    ensures F.Walk(20) == (4, 2) && F.Walk(21) == (2, 4) && F.Walk(22) == (4, 1) && F.Walk(23) == (1, 1)
  {
  }

  // ---------- the round constants follow the register ----------

  /** The constants of the 24 rounds. */
  function Constant(round: nat): Lane
    requires round < 24
  {
    [0x0000000000000001, 0x0000000000008082, 0x800000000000808A, 0x8000000080008000,
     0x000000000000808B, 0x0000000080000001, 0x8000000080008081, 0x8000000000008009,
     0x000000000000008A, 0x0000000000000088, 0x0000000080008009, 0x000000008000000A,
     0x000000008000808B, 0x800000000000008B, 0x8000000000008089, 0x8000000000008003,
     0x8000000000008002, 0x8000000000000080, 0x000000000000800A, 0x800000008000000A,
     0x8000000080008081, 0x8000000000008080, 0x0000000080000001, 0x8000000080008008][round]
  }

  /** The register at the start of a round. */
  function RegisterAt(round: nat): bv8
    requires round <= 24
  {
    [0x01, 0x80, 0xD8, 0x1A, 0xDF, 0x09, 0x35, 0x4F, 0xCA, 0x70, 0x41, 0xEC, 0xD5, 0xCD, 0x63, 0xAB, 0xAA, 0x2A, 0xF2, 0xE8, 0x37, 0x3E, 0x0B, 0x44, 0x8E][round]
  }

  /** The constant of a round, from the register at its start. */
  function ConstantFrom(r0: bv8): Lane {
    var r1 := Shifted(r0);
    var r2 := Shifted(r1);
    var r3 := Shifted(r2);
    var r4 := Shifted(r3);
    var r5 := Shifted(r4);
    var r6 := Shifted(r5);
    Placed(r0, 0) | Placed(r1, 1) | Placed(r2, 3) | Placed(r3, 7) | Placed(r4, 15) | Placed(r5, 31) | Placed(r6, 63)
  }

  function AfterSeven(r: bv8): bv8 {
    Shifted(Shifted(Shifted(Shifted(Shifted(Shifted(Shifted(r)))))))
  }

  lemma RegisterRows0To3()
    ensures AfterSeven(0x01) == 0x80 && ConstantFrom(0x01) == 0x0000000000000001
    ensures AfterSeven(0x80) == 0xD8 && ConstantFrom(0x80) == 0x0000000000008082
    ensures AfterSeven(0xD8) == 0x1A && ConstantFrom(0xD8) == 0x800000000000808A
    ensures AfterSeven(0x1A) == 0xDF && ConstantFrom(0x1A) == 0x8000000080008000
  {
  }

  lemma RegisterRows4To7()
    ensures AfterSeven(0xDF) == 0x09 && ConstantFrom(0xDF) == 0x000000000000808B
    ensures AfterSeven(0x09) == 0x35 && ConstantFrom(0x09) == 0x0000000080000001
    ensures AfterSeven(0x35) == 0x4F && ConstantFrom(0x35) == 0x8000000080008081
    ensures AfterSeven(0x4F) == 0xCA && ConstantFrom(0x4F) == 0x8000000000008009
  {
  }

  lemma RegisterRows8To11()
    ensures AfterSeven(0xCA) == 0x70 && ConstantFrom(0xCA) == 0x000000000000008A
    ensures AfterSeven(0x70) == 0x41 && ConstantFrom(0x70) == 0x0000000000000088
    ensures AfterSeven(0x41) == 0xEC && ConstantFrom(0x41) == 0x0000000080008009
    ensures AfterSeven(0xEC) == 0xD5 && ConstantFrom(0xEC) == 0x000000008000000A
  {
  }

  lemma RegisterRows12To15()
    ensures AfterSeven(0xD5) == 0xCD && ConstantFrom(0xD5) == 0x000000008000808B
    ensures AfterSeven(0xCD) == 0x63 && ConstantFrom(0xCD) == 0x800000000000008B
    ensures AfterSeven(0x63) == 0xAB && ConstantFrom(0x63) == 0x8000000000008089
    ensures AfterSeven(0xAB) == 0xAA && ConstantFrom(0xAB) == 0x8000000000008003
  {
  }

  lemma RegisterRows16To19()
    ensures AfterSeven(0xAA) == 0x2A && ConstantFrom(0xAA) == 0x8000000000008002
    ensures AfterSeven(0x2A) == 0xF2 && ConstantFrom(0x2A) == 0x8000000000000080
    ensures AfterSeven(0xF2) == 0xE8 && ConstantFrom(0xF2) == 0x000000000000800A
    ensures AfterSeven(0xE8) == 0x37 && ConstantFrom(0xE8) == 0x800000008000000A
  {
  }

  lemma RegisterRows20To23()
    ensures AfterSeven(0x37) == 0x3E && ConstantFrom(0x37) == 0x8000000080008081
    ensures AfterSeven(0x3E) == 0x0B && ConstantFrom(0x3E) == 0x8000000000008080
    ensures AfterSeven(0x0B) == 0x44 && ConstantFrom(0x0B) == 0x0000000080000001
    ensures AfterSeven(0x44) == 0x8E && ConstantFrom(0x44) == 0x8000000080008008
  {
  }

  lemma RegisterRows(round: nat)
    requires round < 24
    ensures AfterSeven(RegisterAt(round)) == RegisterAt(round + 1)
    ensures ConstantFrom(RegisterAt(round)) == Constant(round)
  {
    hide AfterSeven, ConstantFrom;
    if round < 12 {
      RegisterRows0To3();
      RegisterRows4To7();
      RegisterRows8To11();
    } else {
      RegisterRows12To15();
      RegisterRows16To19();
      RegisterRows20To23();
    }
  }

  lemma RegisterSteps(t: nat)
    ensures Register(t + 1) == Shifted(Register(t)) && Register(t + 2) == Shifted(Register(t + 1))
    ensures Register(t + 3) == Shifted(Register(t + 2)) && Register(t + 4) == Shifted(Register(t + 3))
    ensures Register(t + 5) == Shifted(Register(t + 4)) && Register(t + 6) == Shifted(Register(t + 5))
    ensures Register(t + 7) == Shifted(Register(t + 6))
  {
    hide Shifted;
  }

  lemma {:induction false} RegisterAtRound(round: nat)
    requires round <= 24
    ensures Register(7 * round) == RegisterAt(round)
  {
    hide RegisterAt, ConstantFrom, Shifted;
    if round > 0 {
      RegisterAtRound(round - 1);
      RegisterRows(round - 1);
      RegisterSteps(7 * (round - 1));
      hide Register;
      assert 7 * (round - 1) + 7 == 7 * round;
    } else {
      FirstRegister();
    }
  }

  lemma FirstRegister()
    ensures Register(0) == RegisterAt(0)
  {
  }

  /** The table of round constants is what the feedback register produces. */
  lemma ConstantsFollowRegister(round: nat)
    requires round < 24
    ensures Constant(round) == RoundConstant(round)
  {
    hide RegisterAt, Constant, Shifted, Placed, Register;
    RegisterAtRound(round);
    RegisterRows(round);
    RegisterSteps(7 * round);
  }
}
