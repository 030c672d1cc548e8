/** The streaming hash: a context that takes a message in chunks of any size. */
module Sha3 {
  import opened Arithmetic
  import opened Keccak
  import opened Sha3Permutation
  import opened Sponge
  import opened KeccakBits
  import F = Fips202

  /** Marks a context that has given its digest. */
  const FINALIZED: nat := 0x8000_0000

  /** Adds the lanes `from <= i < to` of a block to the state. */
  method AddLanes(hash: array<Lane>, block: seq<Octet>, from: nat, to: nat)
    requires hash.Length == 25 && from <= to <= 25 && 8 * to <= |block|
    modifies hash
    ensures forall k :: 0 <= k < 25 ==>
              hash[k] == if from <= k < to then Xor(old(hash[k]), LoadLane(block, k)) else old(hash[k])
  {
    hide Xor, LoadLane;
    var i := from;
    while i < to
      invariant from <= i <= to
      invariant forall k :: 0 <= k < 25 ==>
                  hash[k] == if from <= k < i then Xor(old(hash[k]), LoadLane(block, k)) else old(hash[k])
    {
      hash[i] := Xor(hash[i], LoadLane(block, i));
      i := i + 1;
    }
  }

  /** Adds a block, as far as its size goes, and permutes. */
  method ProcessBlock(hash: array<Lane>, block: seq<Octet>)
    requires hash.Length == 25 && IsRate(|block|)
    modifies hash
    ensures hash[..] == AbsorbBlock(old(hash[..]), block)
    ensures StateBits(hash[..]) == F.KeccakF(F.AddBlock(StateBits(old(hash[..])), Bits(block)))
  {
    hide Xor, LoadLane, Permute, StateBits, F.KeccakF, F.AddBlock, Bits;
    AddLanes(hash, block, 0, 9);
    if |block| > 72 {
      AddLanes(hash, block, 9, 13);
      if |block| > 104 {
        AddLanes(hash, block, 13, 17);
        if |block| > 136 {
          AddLanes(hash, block, 17, 18);
        }
      }
    }
    assert hash[..] == Added(old(hash[..]), block);
    PermuteOnArray(hash);
    AddedRefines(old(hash[..]), block);
    PermuteRefines(Added(old(hash[..]), block));
  }

  method CopyInto(buffer: array<Octet>, at: nat, bytes: seq<Octet>)
    requires at + |bytes| <= buffer.Length
    modifies buffer
    ensures buffer[at..at + |bytes|] == bytes
    ensures forall k :: 0 <= k < buffer.Length && (k < at || at + |bytes| <= k) ==> buffer[k] == old(buffer[k])
  {
    var i := 0;
    while i < |bytes|
      invariant i <= |bytes|
      invariant buffer[at..at + i] == bytes[..i]
      invariant forall k :: 0 <= k < buffer.Length && (k < at || at + i <= k) ==> buffer[k] == old(buffer[k])
    {
      buffer[at + i] := bytes[i];
      assert buffer[at..at + (i + 1)] == buffer[at..at + i] + [bytes[i]];
      i := i + 1;
    }
  }

  class Context {
    const hash: array<Lane>
    const message: array<Octet>
    var rest: nat
    var blockSize: nat
    /** The message taken in so far. */
    ghost var fed: seq<Octet>

    /** The state has absorbed the whole blocks of the message; the buffer starts with the rest. */
    ghost predicate Valid()
      reads this, hash, message
    {
      && hash.Length == 25 && message.Length == 192 && IsRate(blockSize)
      && if rest >= FINALIZED then hash[..] == Squeezed(fed, blockSize)
         else rest < blockSize && hash[..] == AbsorbAll(ZeroLanes(), fed, blockSize)
              && message[..rest] == Tail(fed, blockSize)
    }

    /** Starts a hash with a digest of the given number of bits. */
    constructor (bits: nat)
      requires bits == 224 || bits == 256 || bits == 384 || bits == 512
      ensures Valid() && fed == [] && rest == 0 && blockSize == (1600 - bits * 2) / 8
      ensures fresh(hash) && fresh(message)
    {
      var rate := 1600 - bits * 2;
      hash := new Lane[25](_ => 0);
      message := new Octet[192](_ => 0);
      rest, blockSize, fed := 0, rate / 8, [];
      new;
      assert hash[..] == ZeroLanes();
    }

    /** Fills the partial block in the buffer; once it is whole, processes it. Returns what is left of the chunk. */
    method FillPartial(index: nat, chunk: seq<Octet>) returns (filled: bool, left: seq<Octet>)
      requires hash.Length == 25 && message.Length == 192 && IsRate(blockSize) && 0 < index < blockSize
      modifies hash, message
      ensures filled <==> index + |chunk| >= blockSize
      ensures !filled ==> hash[..] == old(hash[..]) && message[..index + |chunk|] == old(message[..index]) + chunk
      ensures filled ==> AbsorbAll(hash[..], left, blockSize) == AbsorbAll(old(hash[..]), old(message[..index]) + chunk, blockSize)
      ensures filled ==> Tail(left, blockSize) == Tail(old(message[..index]) + chunk, blockSize)
    {
      hide AbsorbAll, Tail, AbsorbBlock, IsRate;
      RateFacts(blockSize);
      ghost var start, whole := message[..index], message[..index] + chunk;
      var room := blockSize - index;
      var part := if |chunk| < room then chunk else chunk[..room];
      CopyInto(message, index, part);
      assert message[..index] == start;
      assert message[..index + |part|] == start + part;
      if |chunk| < room {
        return false, [];
      }
      assert whole[..blockSize] == start + part;
      left := chunk[room..];
      assert whole[blockSize..] == left;
      FirstBlock(whole, hash[..], blockSize);
      ProcessBlock(hash, message[..blockSize]);
      filled := true;
    }

    /**
     * Takes in a chunk. Blocks are read where they are when `aligned`, else
     * through the buffer; a finished context ignores the chunk.
     */
    method Update(chunk: seq<Octet>, aligned: bool)
      requires Valid()
      modifies this`rest, this`fed, hash, message
      ensures Valid() && (old(rest) >= FINALIZED <==> rest >= FINALIZED)
      ensures fed == if old(rest) >= FINALIZED then old(fed) else old(fed) + chunk
    {
      hide AbsorbAll, Tail, AbsorbBlock, ZeroLanes, Squeezed, IsRate;
      var index := rest;
      if rest >= FINALIZED { return; }
      RestAdvances(fed, chunk, blockSize);
      RateFacts(blockSize);
      AbsorbMore(ZeroLanes(), fed, chunk, blockSize);
      rest := (rest + |chunk|) % blockSize;
      ghost var whole := Tail(fed, blockSize) + chunk;
      fed := fed + chunk;
      var left := chunk;
      if index != 0 {
        var filled;
        filled, left := FillPartial(index, chunk);
        if !filled {
          Unfinished(whole, hash[..], blockSize);
          RestIs(index + |chunk|, blockSize);
          return;
        }
      } else {
        assert whole == chunk;
      }
      left := ProcessBlocks(left, aligned);
      if |left| > 0 {
        CopyInto(message, 0, left);
      }
      assert message[..|left|] == left;
    }

    /** Processes the whole blocks of a chunk; returns what is left over. */
    method ProcessBlocks(chunk: seq<Octet>, aligned: bool) returns (left: seq<Octet>)
      requires hash.Length == 25 && message.Length == 192 && IsRate(blockSize)
      modifies hash, message
      ensures hash[..] == AbsorbAll(old(hash[..]), chunk, blockSize)
      ensures left == Tail(chunk, blockSize) && |left| < blockSize
    {
      hide AbsorbAll, Tail, AbsorbBlock, IsRate;
      RateFacts(blockSize);
      left := chunk;
      while |left| >= blockSize
        invariant AbsorbAll(hash[..], left, blockSize) == AbsorbAll(old(hash[..]), chunk, blockSize)
        invariant Tail(left, blockSize) == Tail(chunk, blockSize)
        decreases |left|
      {
        FirstBlock(left, hash[..], blockSize);
        if aligned {
          ProcessBlock(hash, left[..blockSize]);
        } else {
          CopyInto(message, 0, left[..blockSize]);
          assert message[..blockSize] == left[..blockSize];
          ProcessBlock(hash, message[..blockSize]);
        }
        left := left[blockSize..];
      }
      Unfinished(left, hash[..], blockSize);
    }

    /** Pads and processes the last block, unless that has been done, and reads the digest off the state. */
    method KeccakFinal() returns (digest: seq<Octet>)
      requires Valid()
      modifies this`rest, hash, message
      ensures Valid() && rest >= FINALIZED && fed == old(fed)
      ensures digest == Hash(fed, blockSize)
    {
      hide AbsorbAll, Tail, AbsorbBlock, ZeroLanes, Squeezed, Digest, IsRate, Padding;
      RateFacts(blockSize);
      if rest < FINALIZED {
        TailLength(fed, blockSize);
        PadBuffer();
        LastBlock(fed, blockSize);
        ProcessBlock(hash, message[..blockSize]);
        rest := FINALIZED;
      }
      digest := ReadDigest(100 - blockSize / 2);
    }

    /** Clears the rest of the buffer and sets the padding bits. */
    method PadBuffer()
      requires message.Length == 192 && IsRate(blockSize) && rest == |fed| % blockSize && message[..rest] == Tail(fed, blockSize)
      modifies message
      ensures message[..blockSize] == Tail(fed, blockSize) + Padding(|fed|, blockSize)
    {
      hide Tail, IsRate, Padding, SetBits;
      RateFacts(blockSize);
      ghost var tail, room := Tail(fed, blockSize), blockSize - rest;
      SetPaddingBits();
      var zeros := seq(blockSize - rest, _ => 0);
      CopyInto(message, rest, zeros);
      assert message[..rest] == tail;
      assert message[rest] == message[rest..rest + room][0] && message[blockSize - 1] == message[rest..rest + room][room - 1];
      message[rest] := SetBits(message[rest], 0x01);
      message[blockSize - 1] := SetBits(message[blockSize - 1], 0x80);
      assert message[..rest] == tail;
      PaddingShape(message[rest..blockSize], |fed|, blockSize);
      assert message[..blockSize] == message[..rest] + message[rest..blockSize];
    }

    /** The lanes of the state as bytes, lowest first. */
    method ReadDigest(size: nat) returns (digest: seq<Octet>)
      requires hash.Length == 25 && size <= 200
      ensures digest == Digest(hash[..], size)
    {
      var lanes: Lanes := hash[..];
      digest := seq(size, i requires 0 <= i < size => StoredByte(lanes[i / 8], i % 8));
    }
  }

  function SetBits(x: Octet, bits: Octet): Octet {
    x | bits
  }

  lemma SetPaddingBits()
    ensures SetBits(0, 0x01) == 0x01 && SetBits(0, 0x80) == 0x80 && SetBits(0x01, 0x80) == 0x81
  {
  }

  lemma PaddingShape(bytes: seq<Octet>, length: nat, rate: nat)
    requires IsRate(rate) && |bytes| == rate - length % rate
    requires |bytes| == 1 ==> bytes[0] == 0x81
    requires |bytes| > 1 ==> bytes[0] == 0x01 && bytes[|bytes| - 1] == 0x80
    requires forall k :: 0 < k < |bytes| - 1 ==> bytes[k] == 0
    ensures bytes == Padding(length, rate)
  {
    hide IsRate;
    RateFacts(rate);
  }

  lemma RateFacts(rate: nat)
    requires IsRate(rate)
    ensures 72 <= rate <= 144 && rate % 8 == 0
  {
  }

  lemma RestIs(n: nat, m: nat)
    requires n < m
    ensures n % m == n
  {
  }

  lemma RestAdvances(fed: seq<Octet>, chunk: seq<Octet>, rate: nat)
    requires IsRate(rate)
    ensures |Tail(fed, rate)| == |fed| % rate
    ensures |Tail(fed + chunk, rate)| == (|fed| % rate + |chunk|) % rate < rate
  {
    hide Tail;
    TailLength(fed, rate);
    TailLength(fed + chunk, rate);
    AddBeforeMod(|fed|, |chunk|, rate);
  }

  lemma AddBeforeMod(a: nat, b: nat, m: nat)
    requires m > 0
    ensures (a % m + b) % m == (a + b) % m
  {
    DivBounds(a, m);
    DivModAddMultiple(a % m + b, m, a / m);
    assert a == a % m + m * (a / m);
  }

  lemma FirstBlock(m: seq<Octet>, s: Lanes, rate: nat)
    requires IsRate(rate) && |m| >= rate
    ensures AbsorbAll(s, m, rate) == AbsorbAll(AbsorbBlock(s, m[..rate]), m[rate..], rate)
    ensures Tail(m, rate) == Tail(m[rate..], rate)
  {
    hide AbsorbBlock;
  }

  lemma Unfinished(m: seq<Octet>, s: Lanes, rate: nat)
    requires IsRate(rate) && |m| < rate
    ensures AbsorbAll(s, m, rate) == s && Tail(m, rate) == m
  {
  }

  function Joined(chunks: seq<seq<Octet>>): seq<Octet> {
    if |chunks| == 0 then [] else Joined(chunks[..|chunks| - 1]) + chunks[|chunks| - 1]
  }

  /** However a message is split into chunks, the digest is that of the whole message. */
  method HashChunks(bits: nat, chunks: seq<seq<Octet>>, aligned: seq<bool>) returns (digest: seq<Octet>)
    requires bits == 224 || bits == 256 || bits == 384 || bits == 512
    requires |aligned| == |chunks|
    ensures IsRate(200 - bits / 4) && digest == Hash(Joined(chunks), 200 - bits / 4)
    ensures Bits(digest) == F.Keccak(Bits(Joined(chunks)), bits, 1600 - 2 * bits)
  {
    hide AbsorbAll, Tail, ZeroLanes, Squeezed, Hash, Bits, F.Keccak;
    var context := new Context(bits);
    var i := 0;
    while i < |chunks|
      invariant i <= |chunks| && context.Valid() && context.rest < FINALIZED && context.blockSize == 200 - bits / 4
      invariant fresh(context) && fresh(context.hash) && fresh(context.message)
      invariant context.fed == Joined(chunks[..i])
    {
      context.Update(chunks[i], aligned[i]);
      assert chunks[..i + 1][..i] == chunks[..i];
      i := i + 1;
    }
    assert chunks[..|chunks|] == chunks;
    digest := context.KeccakFinal();
    HashIsKeccak(Joined(chunks), 200 - bits / 4);
  }
}
