/** Block headers, block identity and the proof-of-work target (block.rs, firopow.rs). */
module Blocks {
  import opened Prelude
  import opened Primitives
  import opened Transactions

  datatype Header = Header(
    version: u32, networkId: Str, height: u64, previousHash: Digest, merkleRoot: Digest,
    baseFee: u64, timestamp: u64, nonce: u64, mixHash: Digest, difficulty: u8)

  datatype Block = Block(header: Header, transactions: seq<Transaction>)

  /** The native routine takes a 32-bit block number. */
  function HeightAsI32(height: u64): nat { Min(height, 0x7FFF_FFFF) }

  function SeedOf(h: Header): Seed {
    Seed(h.version, h.previousHash, h.merkleRoot, h.timestamp, h.difficulty, h.height)
  }

  function BlockHash(c: Crypto, b: Block): Digest {
    var h := b.header;
    if c.powRuns(HeightAsI32(h.height), SeedOf(h), h.nonce)
    then Pow(HeightAsI32(h.height), SeedOf(h), h.nonce)
    else Zero
  }

  function EnsurePow(c: Crypto, b: Block): Result<()> {
    var h := b.header;
    var number, seed := HeightAsI32(h.height), SeedOf(h);
    var accepted := c.powVerifies(number, seed, h.mixHash, h.nonce, Boundary(h.difficulty));
    var _ :- Need(c.powRuns(number, seed, h.nonce), InvalidPow);
    Need(accepted && h.mixHash == Mix(number, seed, h.nonce)
         && MeetsTarget(c.digestBytes(Pow(number, seed, h.nonce)), h.difficulty), InvalidPow)
  }

  /** On blocks that pass the proof-of-work check, the hash fixes every committed field and
      the mix hash; only network id, base fee and the transaction list remain open. */
  lemma {:induction false} PowFixesHeader(c: Crypto, a: Block, b: Block)
    requires EnsurePow(c, a).Ok? && EnsurePow(c, b).Ok?
    requires BlockHash(c, a) == BlockHash(c, b)
    ensures a.header == b.header.(networkId := a.header.networkId, baseFee := a.header.baseFee)
  {
  }

  /** A block passes exactly if the routine runs on it, reproduces its mix hash and accepts
      it at the boundary, and its hash starts with as many zero bits as its difficulty says. */
  lemma {:induction false} EnsurePowMeaning(c: Crypto, b: Block)
    ensures var h := b.header;
            var number, seed := HeightAsI32(h.height), SeedOf(h);
            EnsurePow(c, b).Ok? <==>
              && c.powRuns(number, seed, h.nonce)
              && h.mixHash == Mix(number, seed, h.nonce)
              && c.powVerifies(number, seed, h.mixHash, h.nonce, Boundary(h.difficulty))
              && LeadingZerosFrom(c.digestBytes(BlockHash(c, b)), 0) >= h.difficulty
  {
    hide Boundary, MeetsTarget, LeadingZerosFrom;
    var h := b.header;
    TargetIsLeadingZeros(c.digestBytes(Pow(HeightAsI32(h.height), SeedOf(h), h.nonce)), h.difficulty);
  }

  // ----- target comparison

  function Boundary(bits: u8): (r: Bytes32)
  {
    seq(32, i requires 0 <= i < 32 => BoundaryByte(bits, i))
  }

  function BoundaryByte(bits: u8, i: nat): byte {
    if i < bits / 8 then 0
    else if i == bits / 8 then 255 / Pow2(bits % 8)
    else 255
  }

  /** Zero the whole leading bytes, shift the next one, as the source does in place. */
  method FillBoundary(bits: u8) returns (boundary: array<byte>)
    ensures fresh(boundary)
    ensures boundary[..] == Boundary(bits)
  {
    boundary := new byte[32](_ => 255);
    var fullBytes, rem := bits / 8, bits % 8;
    var i := 0;
    while i < Min(fullBytes, 32)
      invariant 0 <= i <= fullBytes < 32 && boundary.Length == 32
      invariant forall k :: 0 <= k < i ==> boundary[k] == 0
      invariant forall k :: i <= k < 32 ==> boundary[k] == 255
    {
      boundary[i] := 0;
      i := i + 1;
    }
    if fullBytes < 32 && rem > 0 {
      boundary[fullBytes] := 255 / Pow2(rem);
    }
    if bits == 255 {
      assert Pow2(7) == 128;
      assert forall k :: 0 <= k < 31 ==> boundary[k] == 0;
      boundary[31] := 1;
    }
  }

  /** Big-endian comparison, equality accepted. */
  predicate MeetsFrom(hash: Bytes32, boundary: Bytes32, i: nat)
    requires i <= 32
    decreases 32 - i
  {
    i == 32 || hash[i] < boundary[i] || (hash[i] == boundary[i] && MeetsFrom(hash, boundary, i + 1))
  }

  predicate MeetsTarget(hash: Bytes32, bits: u8) { MeetsFrom(hash, Boundary(bits), 0) }

  method HashMeetsBoundary(hash: Bytes32, boundary: Bytes32) returns (r: bool)
    ensures r == MeetsFrom(hash, boundary, 0)
  {
    for i := 0 to 32
      invariant MeetsFrom(hash, boundary, 0) == MeetsFrom(hash, boundary, i)
    {
      if hash[i] < boundary[i] {
        return true;
      }
      if hash[i] > boundary[i] {
        return false;
      }
    }
    r := true;
  }

  function ByteLeadingZeros(b: byte): nat {
    if b >= 128 then 0 else if b >= 64 then 1 else if b >= 32 then 2 else if b >= 16 then 3
    else if b >= 8 then 4 else if b >= 4 then 5 else if b >= 2 then 6 else if b >= 1 then 7 else 8
  }

  function LeadingZerosFrom(hash: Bytes32, i: nat): nat
    requires i <= 32
    decreases 32 - i
  {
    if i == 32 then 0
    else if hash[i] == 0 then 8 + LeadingZerosFrom(hash, i + 1)
    else ByteLeadingZeros(hash[i])
  }

  lemma {:induction false} ShiftedByte(b: byte, rem: nat)
    requires rem < 8
    ensures b <= 255 / Pow2(rem) <==> ByteLeadingZeros(b) >= rem
  {
    assert Pow2(1) == 2 && Pow2(2) == 4 && Pow2(3) == 8;
    assert Pow2(4) == 16 && Pow2(5) == 32 && Pow2(6) == 64 && Pow2(7) == 128;
  }

  lemma {:induction false} MeetsPastShiftedByte(hash: Bytes32, bits: u8, i: nat)
    requires bits / 8 < i <= 32
    ensures MeetsFrom(hash, Boundary(bits), i)
    decreases 32 - i
  {
    if i < 32 {
      MeetsPastShiftedByte(hash, bits, i + 1);
    }
  }

  lemma {:induction false} MeetsFromIffZeros(hash: Bytes32, bits: u8, i: nat)
    requires i <= bits / 8
    ensures MeetsFrom(hash, Boundary(bits), i) <==> 8 * i + LeadingZerosFrom(hash, i) >= bits
    decreases 32 - i
  {
    if i < bits / 8 {
      MeetsFromIffZeros(hash, bits, i + 1);
    } else {
      ShiftedByte(hash[i], bits % 8);
      MeetsPastShiftedByte(hash, bits, i + 1);
    }
  }

  /** The byte-wise target check is exactly the leading-zero-bits requirement. */
  lemma {:induction false} TargetIsLeadingZeros(hash: Bytes32, bits: u8)
    ensures MeetsTarget(hash, bits) <==> LeadingZerosFrom(hash, 0) >= bits
  {
    MeetsFromIffZeros(hash, bits, 0);
  }
}
