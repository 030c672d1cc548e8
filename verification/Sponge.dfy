/** The sponge over the Keccak permutation, as a function of the whole message. */
module Sponge {
  import opened Arithmetic
  import opened Keccak

  type Octet = bv8

  /** Sizes of a message block, for digests of 512, 384, 256 and 224 bits. */
  predicate IsRate(size: nat) {
    size == 72 || size == 104 || size == 136 || size == 144
  }

  /** Eight bytes as a lane, lowest byte first. */
  function LoadLane(block: seq<Octet>, i: nat): Lane
    requires 8 * i + 8 <= |block|
  {
    (block[8 * i] as Lane) | ((block[8 * i + 1] as Lane) << 8) | ((block[8 * i + 2] as Lane) << 16)
    | ((block[8 * i + 3] as Lane) << 24) | ((block[8 * i + 4] as Lane) << 32) | ((block[8 * i + 5] as Lane) << 40)
    | ((block[8 * i + 6] as Lane) << 48) | ((block[8 * i + 7] as Lane) << 56)
  }

  /** Byte k of a lane, lowest first. */
  function StoredByte(a: Lane, k: nat): Octet
    requires k < 8
    decreases k
  {
    if k == 0 then (a & 0xff) as Octet else StoredByte(a >> 8, k - 1)
  }

  /** The block added to the first lanes of the state. */
  function Added(s: Lanes, block: seq<Octet>): Lanes
    requires |block| % 8 == 0 && |block| <= 200
  {
    hide Xor, LoadLane;
    seq(25, i requires 0 <= i < 25 => if 8 * i < |block| then Xor(s[i], LoadLane(block, i)) else s[i])
  }

  function AbsorbBlock(s: Lanes, block: seq<Octet>): Lanes
    requires IsRate(|block|)
  {
    Permute(Added(s, block))
  }

  /** Absorbs the whole blocks of a message; an incomplete one at the end is left out. */
  function AbsorbAll(s: Lanes, message: seq<Octet>, rate: nat): Lanes
    requires IsRate(rate)
    decreases |message|
  {
    if |message| < rate then s else AbsorbAll(AbsorbBlock(s, message[..rate]), message[rate..], rate)
  }

  /** The incomplete block at the end of a message. */
  function Tail(message: seq<Octet>, rate: nat): seq<Octet>
    requires IsRate(rate)
    decreases |message|
  {
    if |message| < rate then message else Tail(message[rate..], rate)
  }

  /** pad10*1 in bytes: a first bit, zeros, and a last bit that completes a block. */
  function Padding(length: nat, rate: nat): seq<Octet>
    requires IsRate(rate)
  {
    var room := rate - length % rate;
    if room == 1 then [0x81] else [0x01] + seq(room - 2, _ => 0) + [0x80]
  }

  function ZeroLanes(): Lanes {
    seq(25, _ => 0)
  }

  function Squeezed(message: seq<Octet>, rate: nat): Lanes
    requires IsRate(rate)
  {
    AbsorbAll(ZeroLanes(), message + Padding(|message|, rate), rate)
  }

  function Digest(s: Lanes, size: nat): seq<Octet>
    requires size <= 200
  {
    seq(size, i requires 0 <= i < size => StoredByte(s[i / 8], i % 8))
  }

  /** The hash of a message: the capacity is twice the digest. */
  function Hash(message: seq<Octet>, rate: nat): seq<Octet>
    requires IsRate(rate)
  {
    Digest(Squeezed(message, rate), 100 - rate / 2)
  }

  // ---------- the padding, bit by bit ----------

  function BitOf(x: Octet, k: nat): bool
    requires k < 8
  {
    (x >> k) & 1 != 0
  }

  /** The bits of a byte string, lowest bit of each byte first (FIPS 202, appendix B.1). */
  function Bits(s: seq<Octet>): seq<bool> {
    seq(8 * |s|, i requires 0 <= i < 8 * |s| => BitOf(s[i / 8], i % 8))
  }

  lemma PaddingByteBits(k: nat)
    requires k < 8
    ensures !BitOf(0, k) && (BitOf(0x01, k) <==> k == 0) && (BitOf(0x80, k) <==> k == 7)
    ensures BitOf(0x81, k) <==> k == 0 || k == 7
  {
    assert k == 0 || k == 1 || k == 2 || k == 3 || k == 4 || k == 5 || k == 6 || k == 7;
  }

  /** The padding of section 5.1: a one, the least number of zeros, and a one, up to a whole block. */
  lemma PaddingIsPad101(length: nat, rate: nat)
    requires IsRate(rate)
    ensures var bits := Bits(Padding(length, rate));
            && |bits| >= 8 && (8 * length + |bits|) % (8 * rate) == 0 && |bits| <= 8 * rate
            && forall i :: 0 <= i < |bits| ==> (bits[i] <==> i == 0 || i == |bits| - 1)
  {
    var padding := Padding(length, rate);
    var bits := Bits(padding);
    WholeBlocks(length, rate);
    hide BitOf;
    forall i | 0 <= i < |bits| ensures bits[i] <==> i == 0 || i == |bits| - 1 {
      PaddingByteBits(i % 8);
      assert bits[i] == BitOf(padding[i / 8], i % 8);
    }
  }

  lemma WholeBlocks(length: nat, rate: nat)
    requires rate > 0
    ensures (8 * length + 8 * (rate - length % rate)) % (8 * rate) == 0
  {
    DivBounds(length, rate);
    var q := length / rate + 1;
    assert 8 * length + 8 * (rate - length % rate) == q * (8 * rate);
    DivUnique(q * (8 * rate), 8 * rate, q, 0);
  }

  // ---------- absorbing in pieces ----------

  lemma {:induction false} TailLength(message: seq<Octet>, rate: nat)
    requires IsRate(rate)
    ensures |Tail(message, rate)| == |message| % rate
    decreases |message|
  {
    if |message| >= rate {
      TailLength(message[rate..], rate);
      DivModAddMultiple(|message| - rate, rate, 1);
    }
  }

  /** Absorbing a message and more is absorbing the message, then its tail and the rest. */
  lemma {:induction false} AbsorbMore(s: Lanes, message: seq<Octet>, more: seq<Octet>, rate: nat)
    requires IsRate(rate)
    ensures AbsorbAll(s, message + more, rate) == AbsorbAll(AbsorbAll(s, message, rate), Tail(message, rate) + more, rate)
    ensures Tail(message + more, rate) == Tail(Tail(message, rate) + more, rate)
    decreases |message|
  {
    hide AbsorbBlock;
    if |message| >= rate {
      assert (message + more)[..rate] == message[..rate];
      assert (message + more)[rate..] == message[rate..] + more;
      AbsorbMore(AbsorbBlock(s, message[..rate]), message[rate..], more, rate);
    }
  }

  /** The last block: the tail and the padding. */
  lemma LastBlock(message: seq<Octet>, rate: nat)
    requires IsRate(rate)
    ensures |Tail(message, rate) + Padding(|message|, rate)| == rate
    ensures Squeezed(message, rate)
         == AbsorbBlock(AbsorbAll(ZeroLanes(), message, rate), Tail(message, rate) + Padding(|message|, rate))
  {
    hide AbsorbBlock, ZeroLanes;
    var block := Tail(message, rate) + Padding(|message|, rate);
    TailLength(message, rate);
    AbsorbMore(ZeroLanes(), message, Padding(|message|, rate), rate);
    assert block[..rate] == block && block[rate..] == [];
  }
}
