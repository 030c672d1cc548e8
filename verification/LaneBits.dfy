/** The bits of a 64-bit lane, and what each operation on lanes does to them. */
module LaneBits {
  import opened Keccak
  import opened Sponge

  // ---------- one bit at a time ----------

  function Odd(a: Lane): bool {
    a & 1 != 0
  }

  /** The lane with its lowest bit moved to the top. */
  function Turn(a: Lane): Lane {
    (a >> 1) | (a << 63)
  }

  /** Bit z of a lane, lowest first; positions repeat after 64. */
  function LaneBit(a: Lane, z: nat): bool
    decreases z
  {
    if z == 0 then Odd(a) else LaneBit(Turn(a), z - 1)
  }

  lemma OddXor(a: Lane, b: Lane)
    ensures Odd(Xor(a, b)) == (Odd(a) != Odd(b))
  {
  }

  lemma TurnXor(a: Lane, b: Lane)
    ensures Turn(Xor(a, b)) == Xor(Turn(a), Turn(b))
  {
  }

  lemma {:induction false} XorBit(a: Lane, b: Lane, z: nat)
    ensures LaneBit(Xor(a, b), z) == (LaneBit(a, z) != LaneBit(b, z))
    decreases z
  {
    hide Xor, Turn, Odd;
    if z == 0 {
      OddXor(a, b);
    } else {
      TurnXor(a, b);
      XorBit(Turn(a), Turn(b), z - 1);
    }
  }

  lemma OddAndNot(a: Lane, b: Lane)
    ensures Odd(AndNot(a, b)) == (!Odd(a) && Odd(b))
  {
  }

  lemma TurnAndNot(a: Lane, b: Lane)
    ensures Turn(AndNot(a, b)) == AndNot(Turn(a), Turn(b))
  {
  }

  lemma {:induction false} AndNotBit(a: Lane, b: Lane, z: nat)
    ensures LaneBit(AndNot(a, b), z) == (!LaneBit(a, z) && LaneBit(b, z))
    decreases z
  {
    hide AndNot, Turn, Odd;
    if z == 0 {
      OddAndNot(a, b);
    } else {
      TurnAndNot(a, b);
      AndNotBit(Turn(a), Turn(b), z - 1);
    }
  }

  function Or(a: Lane, b: Lane): Lane {
    a | b
  }

  lemma OddOr(a: Lane, b: Lane)
    ensures Odd(Or(a, b)) == (Odd(a) || Odd(b))
  {
  }

  lemma TurnOr(a: Lane, b: Lane)
    ensures Turn(Or(a, b)) == Or(Turn(a), Turn(b))
  {
  }

  lemma {:induction false} OrBit(a: Lane, b: Lane, z: nat)
    ensures LaneBit(Or(a, b), z) == (LaneBit(a, z) || LaneBit(b, z))
    decreases z
  {
    hide Or, Turn, Odd;
    if z == 0 {
      OddOr(a, b);
    } else {
      TurnOr(a, b);
      OrBit(Turn(a), Turn(b), z - 1);
    }
  }

  // ---------- the period ----------

  function Turn8(a: Lane): Lane {
    (a >> 8) | (a << 56)
  }

  lemma EightTurns(a: Lane)
    ensures Turn(Turn(Turn(Turn(Turn(Turn(Turn(Turn(a)))))))) == Turn8(a)
  {
  }

  lemma EightOnes(a: Lane)
    ensures Turn8(Turn8(Turn8(Turn8(Turn8(Turn8(Turn8(Turn8(a)))))))) == a
  {
  }

  lemma NextEight(a: Lane, z: nat)
    ensures LaneBit(a, z + 8) == LaneBit(Turn8(a), z)
  {
    EightTurns(a);
    hide Turn, Turn8, Odd;
    var b := Turn(Turn(Turn(Turn(a))));
    assert LaneBit(a, z + 8) == LaneBit(Turn(a), z + 7) == LaneBit(Turn(Turn(a)), z + 6)
        == LaneBit(Turn(Turn(Turn(a))), z + 5) == LaneBit(b, z + 4);
    assert LaneBit(b, z + 4) == LaneBit(Turn(b), z + 3) == LaneBit(Turn(Turn(b)), z + 2)
        == LaneBit(Turn(Turn(Turn(b))), z + 1) == LaneBit(Turn(Turn(Turn(Turn(b)))), z);
  }

  lemma Period(a: Lane, z: nat)
    ensures LaneBit(a, z + 64) == LaneBit(a, z)
  {
    EightOnes(a);
    hide Turn8, LaneBit;
    var b := Turn8(Turn8(Turn8(Turn8(a))));
    NextEight(a, z + 56);
    NextEight(Turn8(a), z + 48);
    NextEight(Turn8(Turn8(a)), z + 40);
    NextEight(Turn8(Turn8(Turn8(a))), z + 32);
    NextEight(b, z + 24);
    NextEight(Turn8(b), z + 16);
    NextEight(Turn8(Turn8(b)), z + 8);
    NextEight(Turn8(Turn8(Turn8(b))), z);
  }

  // ---------- rotations ----------

  /** A rotation is one position more than the one before it. */
  predicate Unturns(a: Lane, n: nat)
    requires 0 < n < 63
  {
    Turn(Rotl(a, n + 1)) == Rotl(a, n)
  }

  lemma Shifts1(a: Lane)
    ensures Rotl(a, 1) == (a << 1) | (a >> 63) && Rotl(a, 2) == (a << 2) | (a >> 62)
    ensures Rotl(a, 3) == (a << 3) | (a >> 61) && Rotl(a, 4) == (a << 4) | (a >> 60)
    ensures Rotl(a, 5) == (a << 5) | (a >> 59) && Rotl(a, 6) == (a << 6) | (a >> 58)
    ensures Rotl(a, 7) == (a << 7) | (a >> 57) && Rotl(a, 8) == (a << 8) | (a >> 56)
  {
  }

  lemma Turned1(a: Lane)
    ensures Turn((a << 2) | (a >> 62)) == (a << 1) | (a >> 63)
    ensures Turn((a << 3) | (a >> 61)) == (a << 2) | (a >> 62)
    ensures Turn((a << 4) | (a >> 60)) == (a << 3) | (a >> 61)
    ensures Turn((a << 5) | (a >> 59)) == (a << 4) | (a >> 60)
    ensures Turn((a << 6) | (a >> 58)) == (a << 5) | (a >> 59)
    ensures Turn((a << 7) | (a >> 57)) == (a << 6) | (a >> 58)
    ensures Turn((a << 8) | (a >> 56)) == (a << 7) | (a >> 57)
  {
  }

  lemma Unturns1(a: Lane, n: nat)
    requires 1 <= n < 8
    ensures Unturns(a, n)
  {
    hide Turn, Rotl;
    Shifts1(a);
    Turned1(a);
    assert n == 1 || n == 2 || n == 3 || n == 4 || n == 5 || n == 6 || n == 7;
  }

  lemma Shifts8(a: Lane)
    ensures Rotl(a, 8) == (a << 8) | (a >> 56) && Rotl(a, 9) == (a << 9) | (a >> 55)
    ensures Rotl(a, 10) == (a << 10) | (a >> 54) && Rotl(a, 11) == (a << 11) | (a >> 53)
    ensures Rotl(a, 12) == (a << 12) | (a >> 52) && Rotl(a, 13) == (a << 13) | (a >> 51)
    ensures Rotl(a, 14) == (a << 14) | (a >> 50) && Rotl(a, 15) == (a << 15) | (a >> 49)
    ensures Rotl(a, 16) == (a << 16) | (a >> 48)
  {
  }

  lemma Turned8(a: Lane)
    ensures Turn((a << 9) | (a >> 55)) == (a << 8) | (a >> 56)
    ensures Turn((a << 10) | (a >> 54)) == (a << 9) | (a >> 55)
    ensures Turn((a << 11) | (a >> 53)) == (a << 10) | (a >> 54)
    ensures Turn((a << 12) | (a >> 52)) == (a << 11) | (a >> 53)
    ensures Turn((a << 13) | (a >> 51)) == (a << 12) | (a >> 52)
    ensures Turn((a << 14) | (a >> 50)) == (a << 13) | (a >> 51)
    ensures Turn((a << 15) | (a >> 49)) == (a << 14) | (a >> 50)
    ensures Turn((a << 16) | (a >> 48)) == (a << 15) | (a >> 49)
  {
  }

  lemma Unturns8(a: Lane, n: nat)
    requires 8 <= n < 16
    ensures Unturns(a, n)
  {
    hide Turn, Rotl;
    Shifts8(a);
    Turned8(a);
    assert n == 8 || n == 9 || n == 10 || n == 11 || n == 12 || n == 13 || n == 14 || n == 15;
  }

  lemma Shifts16(a: Lane)
    ensures Rotl(a, 16) == (a << 16) | (a >> 48) && Rotl(a, 17) == (a << 17) | (a >> 47)
    ensures Rotl(a, 18) == (a << 18) | (a >> 46) && Rotl(a, 19) == (a << 19) | (a >> 45)
    ensures Rotl(a, 20) == (a << 20) | (a >> 44) && Rotl(a, 21) == (a << 21) | (a >> 43)
    ensures Rotl(a, 22) == (a << 22) | (a >> 42) && Rotl(a, 23) == (a << 23) | (a >> 41)
    ensures Rotl(a, 24) == (a << 24) | (a >> 40)
  {
  }

  lemma Turned16(a: Lane)
    ensures Turn((a << 17) | (a >> 47)) == (a << 16) | (a >> 48)
    ensures Turn((a << 18) | (a >> 46)) == (a << 17) | (a >> 47)
    ensures Turn((a << 19) | (a >> 45)) == (a << 18) | (a >> 46)
    ensures Turn((a << 20) | (a >> 44)) == (a << 19) | (a >> 45)
    ensures Turn((a << 21) | (a >> 43)) == (a << 20) | (a >> 44)
    ensures Turn((a << 22) | (a >> 42)) == (a << 21) | (a >> 43)
    ensures Turn((a << 23) | (a >> 41)) == (a << 22) | (a >> 42)
    ensures Turn((a << 24) | (a >> 40)) == (a << 23) | (a >> 41)
  {
  }

  lemma Unturns16(a: Lane, n: nat)
    requires 16 <= n < 24
    ensures Unturns(a, n)
  {
    hide Turn, Rotl;
    Shifts16(a);
    Turned16(a);
    assert n == 16 || n == 17 || n == 18 || n == 19 || n == 20 || n == 21 || n == 22 || n == 23;
  }

  lemma Shifts24(a: Lane)
    ensures Rotl(a, 24) == (a << 24) | (a >> 40) && Rotl(a, 25) == (a << 25) | (a >> 39)
    ensures Rotl(a, 26) == (a << 26) | (a >> 38) && Rotl(a, 27) == (a << 27) | (a >> 37)
    ensures Rotl(a, 28) == (a << 28) | (a >> 36) && Rotl(a, 29) == (a << 29) | (a >> 35)
    ensures Rotl(a, 30) == (a << 30) | (a >> 34) && Rotl(a, 31) == (a << 31) | (a >> 33)
    ensures Rotl(a, 32) == (a << 32) | (a >> 32)
  {
  }

  lemma Turned24(a: Lane)
    ensures Turn((a << 25) | (a >> 39)) == (a << 24) | (a >> 40)
    ensures Turn((a << 26) | (a >> 38)) == (a << 25) | (a >> 39)
    ensures Turn((a << 27) | (a >> 37)) == (a << 26) | (a >> 38)
    ensures Turn((a << 28) | (a >> 36)) == (a << 27) | (a >> 37)
    ensures Turn((a << 29) | (a >> 35)) == (a << 28) | (a >> 36)
    ensures Turn((a << 30) | (a >> 34)) == (a << 29) | (a >> 35)
    ensures Turn((a << 31) | (a >> 33)) == (a << 30) | (a >> 34)
    ensures Turn((a << 32) | (a >> 32)) == (a << 31) | (a >> 33)
  {
  }

  lemma Unturns24(a: Lane, n: nat)
    requires 24 <= n < 32
    ensures Unturns(a, n)
  {
    hide Turn, Rotl;
    Shifts24(a);
    Turned24(a);
    assert n == 24 || n == 25 || n == 26 || n == 27 || n == 28 || n == 29 || n == 30 || n == 31;
  }

  lemma Shifts32(a: Lane)
    ensures Rotl(a, 32) == (a << 32) | (a >> 32) && Rotl(a, 33) == (a << 33) | (a >> 31)
    ensures Rotl(a, 34) == (a << 34) | (a >> 30) && Rotl(a, 35) == (a << 35) | (a >> 29)
    ensures Rotl(a, 36) == (a << 36) | (a >> 28) && Rotl(a, 37) == (a << 37) | (a >> 27)
    ensures Rotl(a, 38) == (a << 38) | (a >> 26) && Rotl(a, 39) == (a << 39) | (a >> 25)
    ensures Rotl(a, 40) == (a << 40) | (a >> 24)
  {
  }

  lemma Turned32(a: Lane)
    ensures Turn((a << 33) | (a >> 31)) == (a << 32) | (a >> 32)
    ensures Turn((a << 34) | (a >> 30)) == (a << 33) | (a >> 31)
    ensures Turn((a << 35) | (a >> 29)) == (a << 34) | (a >> 30)
    ensures Turn((a << 36) | (a >> 28)) == (a << 35) | (a >> 29)
    ensures Turn((a << 37) | (a >> 27)) == (a << 36) | (a >> 28)
    ensures Turn((a << 38) | (a >> 26)) == (a << 37) | (a >> 27)
    ensures Turn((a << 39) | (a >> 25)) == (a << 38) | (a >> 26)
    ensures Turn((a << 40) | (a >> 24)) == (a << 39) | (a >> 25)
  {
  }

  lemma Unturns32(a: Lane, n: nat)
    requires 32 <= n < 40
    ensures Unturns(a, n)
  {
    hide Turn, Rotl;
    Shifts32(a);
    Turned32(a);
    assert n == 32 || n == 33 || n == 34 || n == 35 || n == 36 || n == 37 || n == 38 || n == 39;
  }

  lemma Shifts40(a: Lane)
    ensures Rotl(a, 40) == (a << 40) | (a >> 24) && Rotl(a, 41) == (a << 41) | (a >> 23)
    ensures Rotl(a, 42) == (a << 42) | (a >> 22) && Rotl(a, 43) == (a << 43) | (a >> 21)
    ensures Rotl(a, 44) == (a << 44) | (a >> 20) && Rotl(a, 45) == (a << 45) | (a >> 19)
    ensures Rotl(a, 46) == (a << 46) | (a >> 18) && Rotl(a, 47) == (a << 47) | (a >> 17)
    ensures Rotl(a, 48) == (a << 48) | (a >> 16)
  {
  }

  lemma Turned40(a: Lane)
    ensures Turn((a << 41) | (a >> 23)) == (a << 40) | (a >> 24)
    ensures Turn((a << 42) | (a >> 22)) == (a << 41) | (a >> 23)
    ensures Turn((a << 43) | (a >> 21)) == (a << 42) | (a >> 22)
    ensures Turn((a << 44) | (a >> 20)) == (a << 43) | (a >> 21)
    ensures Turn((a << 45) | (a >> 19)) == (a << 44) | (a >> 20)
    ensures Turn((a << 46) | (a >> 18)) == (a << 45) | (a >> 19)
    ensures Turn((a << 47) | (a >> 17)) == (a << 46) | (a >> 18)
    ensures Turn((a << 48) | (a >> 16)) == (a << 47) | (a >> 17)
  {
  }

  lemma Unturns40(a: Lane, n: nat)
    requires 40 <= n < 48
    ensures Unturns(a, n)
  {
    hide Turn, Rotl;
    Shifts40(a);
    Turned40(a);
    assert n == 40 || n == 41 || n == 42 || n == 43 || n == 44 || n == 45 || n == 46 || n == 47;
  }

  lemma Shifts48(a: Lane)
    ensures Rotl(a, 48) == (a << 48) | (a >> 16) && Rotl(a, 49) == (a << 49) | (a >> 15)
    ensures Rotl(a, 50) == (a << 50) | (a >> 14) && Rotl(a, 51) == (a << 51) | (a >> 13)
    ensures Rotl(a, 52) == (a << 52) | (a >> 12) && Rotl(a, 53) == (a << 53) | (a >> 11)
    ensures Rotl(a, 54) == (a << 54) | (a >> 10) && Rotl(a, 55) == (a << 55) | (a >> 9)
    ensures Rotl(a, 56) == (a << 56) | (a >> 8)
  {
  }

  lemma Turned48(a: Lane)
    ensures Turn((a << 49) | (a >> 15)) == (a << 48) | (a >> 16)
    ensures Turn((a << 50) | (a >> 14)) == (a << 49) | (a >> 15)
    ensures Turn((a << 51) | (a >> 13)) == (a << 50) | (a >> 14)
    ensures Turn((a << 52) | (a >> 12)) == (a << 51) | (a >> 13)
    ensures Turn((a << 53) | (a >> 11)) == (a << 52) | (a >> 12)
    ensures Turn((a << 54) | (a >> 10)) == (a << 53) | (a >> 11)
    ensures Turn((a << 55) | (a >> 9)) == (a << 54) | (a >> 10)
    ensures Turn((a << 56) | (a >> 8)) == (a << 55) | (a >> 9)
  {
  }

  lemma Unturns48(a: Lane, n: nat)
    requires 48 <= n < 56
    ensures Unturns(a, n)
  {
    hide Turn, Rotl;
    Shifts48(a);
    Turned48(a);
    assert n == 48 || n == 49 || n == 50 || n == 51 || n == 52 || n == 53 || n == 54 || n == 55;
  }

  lemma Shifts56(a: Lane)
    ensures Rotl(a, 56) == (a << 56) | (a >> 8) && Rotl(a, 57) == (a << 57) | (a >> 7)
    ensures Rotl(a, 58) == (a << 58) | (a >> 6) && Rotl(a, 59) == (a << 59) | (a >> 5)
    ensures Rotl(a, 60) == (a << 60) | (a >> 4) && Rotl(a, 61) == (a << 61) | (a >> 3)
    ensures Rotl(a, 62) == (a << 62) | (a >> 2) && Rotl(a, 63) == (a << 63) | (a >> 1)
  {
  }

  lemma Turned56(a: Lane)
    ensures Turn((a << 57) | (a >> 7)) == (a << 56) | (a >> 8)
    ensures Turn((a << 58) | (a >> 6)) == (a << 57) | (a >> 7)
    ensures Turn((a << 59) | (a >> 5)) == (a << 58) | (a >> 6)
    ensures Turn((a << 60) | (a >> 4)) == (a << 59) | (a >> 5)
    ensures Turn((a << 61) | (a >> 3)) == (a << 60) | (a >> 4)
    ensures Turn((a << 62) | (a >> 2)) == (a << 61) | (a >> 3)
    ensures Turn((a << 63) | (a >> 1)) == (a << 62) | (a >> 2)
  {
  }

  lemma Unturns56(a: Lane, n: nat)
    requires 56 <= n < 63
    ensures Unturns(a, n)
  {
    hide Turn, Rotl;
    Shifts56(a);
    Turned56(a);
    assert n == 56 || n == 57 || n == 58 || n == 59 || n == 60 || n == 61 || n == 62;
  }

  lemma Unturn(a: Lane, n: nat)
    requires 0 < n < 63
    ensures Turn(Rotl(a, n + 1)) == Rotl(a, n)
  {
    hide Turn, Rotl;
    if n < 8 { Unturns1(a, n); }
    else if n < 16 { Unturns8(a, n); }
    else if n < 24 { Unturns16(a, n); }
    else if n < 32 { Unturns24(a, n); }
    else if n < 40 { Unturns32(a, n); }
    else if n < 48 { Unturns40(a, n); }
    else if n < 56 { Unturns48(a, n); }
    else { Unturns56(a, n); }
  }

  lemma TurnedOnce(a: Lane)
    ensures Turn((a << 1) | (a >> 63)) == a
  {
  }

  lemma TurnRotl1(a: Lane)
    ensures Turn(Rotl(a, 1)) == a
  {
    hide Turn, Rotl;
    Shifts1(a);
    TurnedOnce(a);
  }

  lemma {:induction false} RotlHigh(a: Lane, n: nat, z: nat)
    requires 0 < n < 64
    ensures LaneBit(Rotl(a, n), z + n) == LaneBit(a, z)
    decreases n
  {
    hide Turn, Rotl, Odd;
    if n == 1 {
      TurnRotl1(a);
    } else {
      Unturn(a, n - 1);
      RotlHigh(a, n - 1, z);
    }
  }

  /** A rotation by n takes every bit n positions up, the top ones to the bottom. */
  lemma RotlBit(a: Lane, n: nat, z: nat)
    requires 0 < n < 64 && z < 64
    ensures LaneBit(Rotl(a, n), z) == LaneBit(a, (z - n) % 64)
  {
    hide Rotl, LaneBit;
    if z >= n {
      RotlHigh(a, n, z - n);
    } else {
      RotlHigh(a, n, z + 64 - n);
      Period(Rotl(a, n), z);
    }
  }

  // ---------- bytes ----------

  /** The low byte of the lane shifted down by whole bytes. */
  lemma StoredForms(a: Lane)
    ensures StoredByte(a, 0) == (a & 0xff) as Octet && StoredByte(a, 1) == ((a >> 8) & 0xff) as Octet
    ensures StoredByte(a, 2) == ((a >> 16) & 0xff) as Octet && StoredByte(a, 3) == ((a >> 24) & 0xff) as Octet
    ensures StoredByte(a, 4) == ((a >> 32) & 0xff) as Octet && StoredByte(a, 5) == ((a >> 40) & 0xff) as Octet
    ensures StoredByte(a, 6) == ((a >> 48) & 0xff) as Octet && StoredByte(a, 7) == ((a >> 56) & 0xff) as Octet
  {
    assert a >> 8 >> 8 == a >> 16 && a >> 8 >> 8 >> 8 == a >> 24 && a >> 8 >> 8 >> 8 >> 8 == a >> 32;
    assert a >> 8 >> 8 >> 8 >> 8 >> 8 == a >> 40 && a >> 8 >> 8 >> 8 >> 8 >> 8 >> 8 == a >> 48;
    assert a >> 8 >> 8 >> 8 >> 8 >> 8 >> 8 >> 8 == a >> 56;
  }

  lemma StoredNext(a: Lane)
    ensures StoredByte(a, 1) == StoredByte(Turn8(a), 0) && StoredByte(a, 2) == StoredByte(Turn8(a), 1)
    ensures StoredByte(a, 3) == StoredByte(Turn8(a), 2) && StoredByte(a, 4) == StoredByte(Turn8(a), 3)
    ensures StoredByte(a, 5) == StoredByte(Turn8(a), 4) && StoredByte(a, 6) == StoredByte(Turn8(a), 5)
    ensures StoredByte(a, 7) == StoredByte(Turn8(a), 6)
  {
    hide StoredByte;
    StoredForms(a);
    StoredForms(Turn8(a));
  }

  lemma LowByte(a: Lane)
    ensures Odd(a) == BitOf(StoredByte(a, 0), 0) && Odd(Turn(a)) == BitOf(StoredByte(a, 0), 1)
    ensures Odd(Turn(Turn(a))) == BitOf(StoredByte(a, 0), 2) && Odd(Turn(Turn(Turn(a)))) == BitOf(StoredByte(a, 0), 3)
    ensures Odd(Turn(Turn(Turn(Turn(a))))) == BitOf(StoredByte(a, 0), 4)
    ensures Odd(Turn(Turn(Turn(Turn(Turn(a)))))) == BitOf(StoredByte(a, 0), 5)
    ensures Odd(Turn(Turn(Turn(Turn(Turn(Turn(a))))))) == BitOf(StoredByte(a, 0), 6)
    ensures Odd(Turn(Turn(Turn(Turn(Turn(Turn(Turn(a)))))))) == BitOf(StoredByte(a, 0), 7)
  {
  }

  lemma LowByteBit(a: Lane, j: nat)
    requires j < 8
    ensures LaneBit(a, j) == BitOf(StoredByte(a, 0), j)
  {
    hide Turn, Odd, BitOf, StoredByte;
    LowByte(a);
    assert j == 0 || j == 1 || j == 2 || j == 3 || j == 4 || j == 5 || j == 6 || j == 7;
  }

  /** Bit z of a lane is bit z % 8 of its byte z / 8 (FIPS 202, appendix B.1). */
  lemma {:induction false} ByteBit(a: Lane, k: nat, j: nat)
    requires k < 8 && j < 8
    ensures LaneBit(a, 8 * k + j) == BitOf(StoredByte(a, k), j)
    decreases k
  {
    hide BitOf, StoredByte, Turn8, LaneBit;
    if k == 0 {
      LowByteBit(a, j);
    } else {
      NextEight(a, 8 * (k - 1) + j);
      ByteBit(Turn8(a), k - 1, j);
      StoredNext(a);
    }
  }

  function Joined(b0: Octet, b1: Octet, b2: Octet, b3: Octet, b4: Octet, b5: Octet, b6: Octet, b7: Octet): Lane {
    (b0 as Lane) | ((b1 as Lane) << 8) | ((b2 as Lane) << 16) | ((b3 as Lane) << 24) | ((b4 as Lane) << 32)
    | ((b5 as Lane) << 40) | ((b6 as Lane) << 48) | ((b7 as Lane) << 56)
  }

  lemma JoinedBytes(b0: Octet, b1: Octet, b2: Octet, b3: Octet, b4: Octet, b5: Octet, b6: Octet, b7: Octet)
    ensures var a := Joined(b0, b1, b2, b3, b4, b5, b6, b7);
            && StoredByte(a, 0) == b0 && StoredByte(a, 1) == b1 && StoredByte(a, 2) == b2 && StoredByte(a, 3) == b3
            && StoredByte(a, 4) == b4 && StoredByte(a, 5) == b5 && StoredByte(a, 6) == b6 && StoredByte(a, 7) == b7
  {
    hide StoredByte;
    StoredForms(Joined(b0, b1, b2, b3, b4, b5, b6, b7));
  }

  lemma LoadJoins(block: seq<Octet>, i: nat)
    requires 8 * i + 8 <= |block|
    ensures LoadLane(block, i) == Joined(block[8 * i], block[8 * i + 1], block[8 * i + 2], block[8 * i + 3],
                                         block[8 * i + 4], block[8 * i + 5], block[8 * i + 6], block[8 * i + 7])
  {
  }

  lemma LoadedBytes(block: seq<Octet>, i: nat)
    requires 8 * i + 8 <= |block|
    ensures var a := LoadLane(block, i);
            && StoredByte(a, 0) == block[8 * i] && StoredByte(a, 1) == block[8 * i + 1]
            && StoredByte(a, 2) == block[8 * i + 2] && StoredByte(a, 3) == block[8 * i + 3]
            && StoredByte(a, 4) == block[8 * i + 4] && StoredByte(a, 5) == block[8 * i + 5]
            && StoredByte(a, 6) == block[8 * i + 6] && StoredByte(a, 7) == block[8 * i + 7]
  {
    hide StoredByte, Joined, LoadLane;
    LoadJoins(block, i);
    JoinedBytes(block[8 * i], block[8 * i + 1], block[8 * i + 2], block[8 * i + 3],
                block[8 * i + 4], block[8 * i + 5], block[8 * i + 6], block[8 * i + 7]);
  }

  /** A loaded lane stores as the bytes it was loaded from. */
  lemma LoadThenStore(block: seq<Octet>, i: nat, k: nat)
    requires 8 * i + 8 <= |block| && k < 8
    ensures StoredByte(LoadLane(block, i), k) == block[8 * i + k]
  {
    hide LoadLane, StoredByte;
    LoadedBytes(block, i);
    assert k == 0 || k == 1 || k == 2 || k == 3 || k == 4 || k == 5 || k == 6 || k == 7;
  }

  lemma LoadedBit(block: seq<Octet>, i: nat, z: nat)
    requires 8 * i + 8 <= |block| && z < 64
    ensures LaneBit(LoadLane(block, i), z) == BitOf(block[8 * i + z / 8], z % 8)
  {
    hide LoadLane, StoredByte, BitOf, LaneBit;
    ByteBit(LoadLane(block, i), z / 8, z % 8);
    LoadThenStore(block, i, z / 8);
  }

  // ---------- single bits ----------

  lemma OneStored()
    ensures StoredByte(1, 0) == 1 && StoredByte(1, 1) == 0 && StoredByte(1, 2) == 0 && StoredByte(1, 3) == 0
    ensures StoredByte(1, 4) == 0 && StoredByte(1, 5) == 0 && StoredByte(1, 6) == 0 && StoredByte(1, 7) == 0
  {
  }

  lemma OneBit(z: nat)
    requires z < 64
    ensures LaneBit(1, z) == (z == 0)
  {
    hide StoredByte, BitOf, LaneBit;
    ByteBit(1, z / 8, z % 8);
    OneStored();
    PaddingByteBits(z % 8);
    var k := z / 8;
    assert k == 0 || k == 1 || k == 2 || k == 3 || k == 4 || k == 5 || k == 6 || k == 7;
  }

  lemma {:induction false} NoBit(z: nat)
    ensures !LaneBit(0, z)
    decreases z
  {
    if z > 0 {
      assert Turn(0) == 0;
      hide Turn;
      NoBit(z - 1);
    }
  }

  /** Shifting up a single bit drops nothing. */
  lemma OneShifted()
    ensures var one: Lane := 1;
            && (one << 1) | (one >> 63) == one << 1 && (one << 3) | (one >> 61) == one << 3 && (one << 7) | (one >> 57) == one << 7
            && (one << 15) | (one >> 49) == one << 15 && (one << 31) | (one >> 33) == one << 31
            && (one << 63) | (one >> 1) == one << 63
  {
  }

  lemma PlacedByRotation(bit: nat)
    requires bit == 1 || bit == 3 || bit == 7 || bit == 15 || bit == 31 || bit == 63
    ensures (1 as Lane) << bit == Rotl(1, bit)
  {
    hide Rotl;
    OneShifted();
    Shifts1(1);
    Shifts8(1);
    Shifts24(1);
    Shifts56(1);
  }

  /** A placed bit is at its place only. */
  lemma PlacedBit(r: bv8, bit: nat, z: nat)
    requires bit == 0 || bit == 1 || bit == 3 || bit == 7 || bit == 15 || bit == 31 || bit == 63
    requires z < 64
    ensures LaneBit(Placed(r, bit), z) == (BitOf(r, 0) && z == bit)
  {
    if r & 1 != 0 {
      if bit == 0 {
        assert (1 as Lane) << 0 == 1;
        OneBit(z);
      } else {
        PlacedByRotation(bit);
        hide Rotl, LaneBit;
        RotlBit(1, bit, z);
        OneBit((z - bit) % 64);
      }
    } else {
      NoBit(z);
    }
    assert BitOf(r, 0) == (r & 1 != 0) by { LowestBit(r); }
  }

  lemma LowestBit(r: bv8)
    ensures BitOf(r, 0) == (r & 1 != 0)
  {
  }
}
