/** Keccak as FIPS 202 states it: step mappings on the bits of the state array, the sponge on bit strings. */
module Fips202 {

  // ---------- the state array, section 3.1 ----------

  type State = s: seq<bool> | |s| == 1600 witness seq(1600, _ => false)

  /** The bit at (x, y, z), coordinates taken modulo 5, 5 and 64. */
  function Bit(s: State, x: int, y: int, z: int): bool {
    s[64 * (5 * (y % 5) + x % 5) + z % 64]
  }

  function X(i: nat): nat {
    i / 64 % 5
  }

  function Y(i: nat): nat {
    i / 320
  }

  function Z(i: nat): nat {
    i % 64
  }

  function Xor(a: bool, b: bool): bool {
    a != b
  }

  // ---------- the step mappings, section 3.2 ----------

  function Parity(s: State, x: int, z: int): bool {
    Xor(Xor(Xor(Xor(Bit(s, x, 0, z), Bit(s, x, 1, z)), Bit(s, x, 2, z)), Bit(s, x, 3, z)), Bit(s, x, 4, z))
  }

  function ThetaBit(s: State, x: int, y: int, z: int): bool {
    Xor(Bit(s, x, y, z), Xor(Parity(s, x - 1, z), Parity(s, x + 1, z - 1)))
  }

  function Theta(s: State): State {
    seq(1600, i requires 0 <= i < 1600 => ThetaBit(s, X(i), Y(i), Z(i)))
  }

  /** Where the walk of rho stands at step t: (1, 0), then (y, 2x + 3y) from (x, y). */
  function Walk(t: nat): (r: (nat, nat))
    ensures r.0 < 5 && r.1 < 5
  {
    if t == 0 then (1, 0)
    else
      var (x, y) := Walk(t - 1);
      (y, (2 * x + 3 * y) % 5)
  }

  /** How far rho moves the bits of a lane that the walk visits at step t or later. */
  function Moved(x: int, y: int, t: nat): nat
    requires t <= 24
    decreases 24 - t
  {
    if t == 24 then 0
    else if Walk(t) == (x, y) then (t + 1) * (t + 2) / 2
    else Moved(x, y, t + 1)
  }

  function RhoBit(s: State, x: int, y: int, z: int): bool {
    Bit(s, x, y, z - Moved(x, y, 0))
  }

  function Rho(s: State): State {
    seq(1600, i requires 0 <= i < 1600 => RhoBit(s, X(i), Y(i), Z(i)))
  }

  function PiBit(s: State, x: int, y: int, z: int): bool {
    Bit(s, x + 3 * y, x, z)
  }

  function Pi(s: State): State {
    seq(1600, i requires 0 <= i < 1600 => PiBit(s, X(i), Y(i), Z(i)))
  }

  function ChiBit(s: State, x: int, y: int, z: int): bool {
    Xor(Bit(s, x, y, z), !Bit(s, x + 1, y, z) && Bit(s, x + 2, y, z))
  }

  function Chi(s: State): State {
    seq(1600, i requires 0 <= i < 1600 => ChiBit(s, X(i), Y(i), Z(i)))
  }

  /** The feedback register of algorithm 5 after t steps. */
  function Register(t: nat): (r: seq<bool>)
    ensures |r| == 8
  {
    if t == 0 then [true, false, false, false, false, false, false, false]
    else
      var r := Register(t - 1);
      [r[7], r[0], r[1], r[2], Xor(r[3], r[7]), Xor(r[4], r[7]), Xor(r[5], r[7]), r[6]]
  }

  function Rc(t: nat): bool {
    Register(t % 255)[0]
  }

  function Power2(j: nat): nat {
    if j == 0 then 1 else 2 * Power2(j - 1)
  }

  /** Bit z of the constant of round ir: rc(j + 7 ir) at z = 2^j - 1 for j up to 6, otherwise 0. */
  ghost predicate RoundBit(ir: nat, z: nat) {
    exists j: nat :: j <= 6 && z == Power2(j) - 1 && Rc(j + 7 * ir)
  }

  ghost function IotaBit(s: State, ir: nat, x: int, y: int, z: nat): bool {
    Xor(Bit(s, x, y, z), x == 0 && y == 0 && RoundBit(ir, z))
  }

  ghost function Iota(s: State, ir: nat): State {
    seq(1600, i requires 0 <= i < 1600 => IotaBit(s, ir, X(i), Y(i), Z(i)))
  }

  // ---------- the permutation, section 3.3 ----------

  ghost function Rnd(s: State, ir: nat): State {
    Iota(Chi(Pi(Rho(Theta(s)))), ir)
  }

  ghost function Rnds(s: State, n: nat): State {
    if n == 0 then s else Rnd(Rnds(s, n - 1), n - 1)
  }

  const ROUNDS: nat := 24

  ghost function KeccakF(s: State): State {
    Rnds(s, ROUNDS)
  }

  // ---------- the sponge, sections 4 and 5 ----------

  /** pad10*1(x, m). */
  function Pad(x: nat, m: nat): seq<bool>
    requires x > 0
  {
    [true] + seq((-(m as int) - 2) % x, _ => false) + [true]
  }

  /** A block of at most 1600 bits, filled up with zeros and added. */
  function AddBlock(s: State, block: seq<bool>): State {
    seq(1600, i requires 0 <= i < 1600 => Xor(s[i], i < |block| && block[i]))
  }

  ghost function Absorb(s: State, p: seq<bool>, r: nat): State
    requires 0 < r <= 1600
    decreases |p|
  {
    if |p| < r then s else Absorb(KeccakF(AddBlock(s, p[..r])), p[r..], r)
  }

  ghost function Squeeze(s: State, d: nat, r: nat): seq<bool>
    requires 0 < r <= 1600
    decreases d
  {
    if d <= r then s[..d] else s[..r] + Squeeze(KeccakF(s), d - r, r)
  }

  /** KECCAK[c](n, d), with c = 1600 - r. */
  ghost function Keccak(n: seq<bool>, d: nat, r: nat): seq<bool>
    requires 0 < r <= 1600
  {
    Squeeze(Absorb(seq(1600, _ => false), n + Pad(r, |n|), r), d, r)
  }
}
