/** A tip hash pins down the whole chain; prefixes, clocks, work and fork choice (chain.rs). */
module ChainIdentity {
  import opened Prelude
  import opened Primitives
  import opened Transactions
  import opened Merkle
  import opened Blocks
  import opened Consensus
  import opened Ledgers
  import opened Chains
  import Difficulty

  // ----- prefixes and clocks

  lemma {:induction false} ValidPrefix(c: Crypto, now: u64, network: Network, blocks: seq<Block>, count: nat)
    requires Valid(c, now, network, blocks) && count <= |blocks|
    ensures Valid(c, now, network, blocks[..count])
    decreases |blocks|
  {
    hide AppendBlock;
    if count < |blocks| {
      ValidPrefix(c, now, network, DropLast(blocks), count);
      assert DropLast(blocks)[..count] == blocks[..count];
    } else {
      assert blocks[..count] == blocks;
    }
  }

  lemma {:induction false} ValidTip(c: Crypto, now: u64, network: Network, blocks: seq<Block>)
    requires Valid(c, now, network, blocks) && blocks != []
    ensures Valid(c, now, network, DropLast(blocks))
    ensures Accepted(c, now, network, DropLast(blocks), Last(blocks))
  {
    hide AppendBlock, Accepted, ChainInvariant;
    ValidChainInvariant(c, now, network, DropLast(blocks));
    FromBlocksShape(c, now, network, DropLast(blocks));
    InvariantStep(c, now, FromBlocks(c, now, network, DropLast(blocks)).value, Last(blocks));
  }

  lemma {:induction false} ValidBlockAt(c: Crypto, now: u64, network: Network, blocks: seq<Block>, i: nat)
    requires Valid(c, now, network, blocks) && i < |blocks|
    ensures Accepted(c, now, network, blocks[..i], blocks[i])
  {
    hide Valid, Accepted;
    ValidPrefix(c, now, network, blocks, i + 1);
    ValidTip(c, now, network, blocks[..i + 1]);
    assert DropLast(blocks[..i + 1]) == blocks[..i];
  }

  /** Block `i` of a chain is at least as hard to find as its difficulty says. */
  lemma {:induction false} ChainBlocksMeetTarget(c: Crypto, now: u64, network: Network, blocks: seq<Block>, i: nat)
    requires Valid(c, now, network, blocks) && i < |blocks|
    ensures LeadingZerosFrom(c.digestBytes(BlockHash(c, blocks[i])), 0) >= blocks[i].header.difficulty
    ensures blocks[i].header.difficulty >= network.MinimumDifficulty()
  {
    hide Valid, BlockHash, EnsurePow, CheckBodies, MerkleRoot, NextBaseFee, CheckCoinbaseAmount, TransactionNetwork,
         LeadingZerosFrom, Boundary;
    ValidBlockAt(c, now, network, blocks, i);
    EnsurePowMeaning(c, blocks[i]);
  }

  /** The headers of a chain carry its network, version 1, and a base fee that follows from the
      block before: 1 at genesis, then by the number of its spends. */
  lemma {:induction false} ChainHeaders(c: Crypto, now: u64, network: Network, blocks: seq<Block>, i: nat)
    requires Valid(c, now, network, blocks) && i < |blocks|
    ensures blocks[i].header.networkId == network.NetworkId() && blocks[i].header.version == 1
    ensures i == 0 ==> blocks[i].header.baseFee == 1
    ensures i > 0 ==>
            var before := blocks[i - 1];
            before.transactions != []
            && FeeFollows(Max(before.header.baseFee, 1), |before.transactions| - 1, blocks[i].header.baseFee)
  {
    hide Valid, BlockHash, EnsurePow, CheckBodies, MerkleRoot, CheckCoinbaseAmount, TransactionNetwork, FeeFollows,
         NextBaseFeeAfter;
    ValidBlockAt(c, now, network, blocks, i);
    if i > 0 {
      ValidBlockAt(c, now, network, blocks, i - 1);
      BaseFeeMeaning(blocks[i - 1].header.baseFee, |blocks[i - 1].transactions| - 1);
    }
  }

  /** From the third block on, the difficulty of a chain follows the solve times of the last
      sixty intervals, against a target of a minute, within the bounds of the network; the
      second block has that of the first. */
  lemma {:induction false} ChainDifficulties(c: Crypto, now: u64, network: Network, blocks: seq<Block>, i: nat)
    requires Valid(c, now, network, blocks) && 0 < i < |blocks|
    ensures i == 1 ==> blocks[1].header.difficulty == blocks[0].header.difficulty
    ensures i > 1 ==> Difficulty.FollowsLastHour(network, blocks[..i], blocks[i].header.difficulty)
  {
    hide Valid, BlockHash, EnsurePow, CheckBodies, MerkleRoot, NextBaseFee, CheckCoinbaseAmount, TransactionNetwork,
         Difficulty.FollowsLastHour, Difficulty.NextDifficulty;
    ValidBlockAt(c, now, network, blocks, i);
    ValidBlockAt(c, now, network, blocks, i - 1);
    assert Last(blocks[..i]) == blocks[i - 1];
    Difficulty.NextFollowsLastHour(network, blocks[..i], blocks[i].header.difficulty);
  }

  /** The main network starts from one block only. */
  lemma {:induction false} MainnetGenesisIsFixed(c: Crypto, now: u64, blocks: seq<Block>)
    requires Valid(c, now, MainnetCandidate, blocks) && blocks != []
    ensures c.digestBytes(BlockHash(c, blocks[0])) == MAINNET_GENESIS_HASH
  {
    hide Valid, BlockHash, EnsurePow, CheckBodies, MerkleRoot, NextBaseFee, CheckCoinbaseAmount, TransactionNetwork;
    ValidBlockAt(c, now, MainnetCandidate, blocks, 0);
    assert blocks[..0] == [];
  }

  /** On a chain exactly the first transaction of every block is a coinbase; every other one
      is signed with the key its sender's address derives from, on the chain's network. */
  lemma {:induction false} ChainSpendsAreSigned(
    c: Crypto, now: u64, network: Network, blocks: seq<Block>, i: nat, j: nat)
    requires Valid(c, now, network, blocks) && i < |blocks| && j < |blocks[i].transactions|
    ensures var t := blocks[i].transactions[j];
            && (t.IsCoinbase() <==> j == 0)
            && WellShaped(c, t) && c.addressNetwork(t.to) == Some(network)
            && (j > 0 ==> SignedBySender(c, t) && c.addressNetwork(t.from.value) == Some(network))
  {
    hide Valid, BlockHash, EnsurePow, CheckBodies, MerkleRoot, NextBaseFee, ExpectedCoinbase, Verify, Encode,
         IsBlank, UnsignedPayload;
    ValidBlockAt(c, now, network, blocks, i);
    AcceptedBodies(c, blocks[i].transactions, |blocks[i].transactions|);
    VerifyMeaning(c, blocks[i].transactions[j]);
    assert TransactionNetwork(c, blocks[i].transactions[j]) == Ok(network);
  }

  /** A chain accepted at one time is accepted, with the same ledger, at any later time. */
  lemma {:induction false} LaterClock(c: Crypto, now: u64, later: u64, network: Network, blocks: seq<Block>)
    requires Valid(c, now, network, blocks) && now <= later
    ensures FromBlocks(c, later, network, blocks) == FromBlocks(c, now, network, blocks)
    decreases |blocks|
  {
    hide ValidateNextBlock, ApplyBlock;
    if blocks != [] {
      LaterClock(c, now, later, network, DropLast(blocks));
      var before := FromBlocks(c, now, network, DropLast(blocks)).value;
      ClockOnlyRelaxes(c, now, later, before.network, before.blocks, Last(blocks), before.state.emitted);
    }
  }

  // ----- identity

  lemma {:induction false} AcceptedTransactionsEqual(c: Crypto, a: Block, b: Block)
    requires MerkleRoot(c, a.transactions).Ok? && MerkleRoot(c, a.transactions) == MerkleRoot(c, b.transactions)
    requires CheckBodies(c, a.transactions, |a.transactions|).Ok?
    requires CheckBodies(c, b.transactions, |b.transactions|).Ok?
    ensures a.transactions == b.transactions
  {
    hide MerkleRoot, CheckBodies, Encode, Verify;
    AcceptedBodies(c, a.transactions, |a.transactions|);
    AcceptedBodies(c, b.transactions, |b.transactions|);
    forall i | 0 <= i < |a.transactions| ensures Encodable(a.transactions[i]) {
      SmallIsEncodable(c, a.transactions[i]);
    }
    forall i | 0 <= i < |b.transactions| ensures Encodable(b.transactions[i]) {
      SmallIsEncodable(c, b.transactions[i]);
    }
    RootDeterminesTransactions(c, a.transactions, b.transactions);
  }

  /** Proof of work commits neither to the network id nor to the base fee, but validation
      forces both, so on one parent chain the hash determines the block. */
  lemma {:induction false} AcceptedBlocksEqual(
    c: Crypto, nowA: u64, netA: Network, nowB: u64, netB: Network, blocks: seq<Block>, a: Block, b: Block)
    requires Accepted(c, nowA, netA, blocks, a) && Accepted(c, nowB, netB, blocks, b)
    requires BlockHash(c, a) == BlockHash(c, b)
    ensures a == b && netA == netB
  {
    hide BlockHash, EnsurePow, CheckBodies, MerkleRoot, NextBaseFee, Encode, CheckCoinbaseAmount, TransactionNetwork;
    PowFixesHeader(c, a, b);
    AcceptedTransactionsEqual(c, a, b);
    assert TransactionNetwork(c, a.transactions[0]) == Ok(netA);
    assert TransactionNetwork(c, b.transactions[0]) == Ok(netB);
  }

  /** Two accepted chains with the same tip hash are the same chain, block by block, and
      belong to the same network, whatever networks and clocks they were accepted under. */
  lemma {:induction false} TipDeterminesChain(
    c: Crypto, nowA: u64, netA: Network, a: seq<Block>, nowB: u64, netB: Network, b: seq<Block>)
    requires Valid(c, nowA, netA, a) && Valid(c, nowB, netB, b) && a != [] && b != []
    requires BlockHash(c, Last(a)) == BlockHash(c, Last(b))
    ensures a == b && netA == netB
    decreases |a|
  {
    hide Valid, Accepted, BlockHash;
    ValidTip(c, nowA, netA, a);
    ValidTip(c, nowB, netB, b);
    TipHeader(c, nowA, netA, a);
    TipHeader(c, nowB, netB, b);
    PowFixesTips(c, nowA, netA, a, nowB, netB, b);
    if |a| > 1 {
      TipDeterminesChain(c, nowA, netA, DropLast(a), nowB, netB, DropLast(b));
    } else {
      assert DropLast(a) == DropLast(b) == [];
    }
    AcceptedBlocksEqual(c, nowA, netA, nowB, netB, DropLast(a), Last(a), Last(b));
    assert a == DropLast(a) + [Last(a)] && b == DropLast(b) + [Last(b)];
  }

  lemma {:induction false} TipHeader(c: Crypto, now: u64, network: Network, blocks: seq<Block>)
    requires Valid(c, now, network, blocks) && blocks != []
    ensures Last(blocks).header.height == |blocks| - 1
    ensures Last(blocks).header.previousHash == PreviousHash(c, DropLast(blocks))
  {
    hide BlockHash, TxHash, Sound, NoncesMatch;
    FromBlocksShape(c, now, network, blocks);
    ValidChainInvariant(c, now, network, blocks);
  }

  lemma {:induction false} PowFixesTips(
    c: Crypto, nowA: u64, netA: Network, a: seq<Block>, nowB: u64, netB: Network, b: seq<Block>)
    requires a != [] && b != [] && BlockHash(c, Last(a)) == BlockHash(c, Last(b))
    requires Accepted(c, nowA, netA, DropLast(a), Last(a)) && Accepted(c, nowB, netB, DropLast(b), Last(b))
    ensures Last(a).header.height == Last(b).header.height
    ensures Last(a).header.previousHash == Last(b).header.previousHash
  {
    hide BlockHash, EnsurePow, CheckBodies, MerkleRoot, NextBaseFee, Encode, CheckCoinbaseAmount, TransactionNetwork;
    PowFixesHeader(c, Last(a), Last(b));
  }

  /** Chains that agree on one block hash at some height agree on everything up to it. */
  lemma {:induction false} SharedBlockSharesHistory(
    c: Crypto, nowA: u64, netA: Network, a: seq<Block>, nowB: u64, netB: Network, b: seq<Block>, height: nat)
    requires Valid(c, nowA, netA, a) && Valid(c, nowB, netB, b)
    requires height < |a| && height < |b| && BlockHash(c, a[height]) == BlockHash(c, b[height])
    ensures a[..height + 1] == b[..height + 1] && netA == netB
  {
    hide Valid, BlockHash;
    ValidPrefix(c, nowA, netA, a, height + 1);
    ValidPrefix(c, nowB, netB, b, height + 1);
    TipDeterminesChain(c, nowA, netA, a[..height + 1], nowB, netB, b[..height + 1]);
  }

  lemma {:induction false} ValidHashesDistinct(
    c: Crypto, now: u64, network: Network, blocks: seq<Block>, i: nat, j: nat)
    requires Valid(c, now, network, blocks) && i < j < |blocks|
    ensures BlockHash(c, blocks[i]) != BlockHash(c, blocks[j])
  {
    hide Valid, BlockHash, Accepted;
    if BlockHash(c, blocks[i]) == BlockHash(c, blocks[j]) {
      ValidPrefix(c, now, network, blocks, i + 1);
      ValidPrefix(c, now, network, blocks, j + 1);
      TipDeterminesChain(c, now, network, blocks[..i + 1], now, network, blocks[..j + 1]);
    }
  }

  // ----- work

  function BlockWork(b: Block): Result<nat> {
    if b.header.difficulty < 128 then Ok(Pow2(b.header.difficulty)) else Err(ChainWorkOverflow)
  }

  function CumulativeWork(blocks: seq<Block>): Result<nat> {
    if blocks == [] then Ok(0) else
      var total :- CumulativeWork(DropLast(blocks));
      var work :- BlockWork(Last(blocks));
      if total + work <= U128_MAX then Ok(total + work) else Err(ChainWorkOverflow)
  }

  /** The sum over the chain as the source folds it, left to right. */
  method SumWork(blocks: seq<Block>) returns (r: Result<nat>)
    ensures r == CumulativeWork(blocks)
  {
    var total := 0;
    for i := 0 to |blocks|
      invariant CumulativeWork(blocks[..i]) == Ok(total)
    {
      assert DropLast(blocks[..i + 1]) == blocks[..i];
      var work := BlockWork(blocks[i]);
      if work.Err? || total + work.value > U128_MAX {
        WorkFailureIsFinal(blocks, i + 1);
        return Err(ChainWorkOverflow);
      }
      total := total + work.value;
    }
    assert blocks[..|blocks|] == blocks;
    r := Ok(total);
  }

  lemma {:induction false} WorkFailureIsFinal(blocks: seq<Block>, count: nat)
    requires count <= |blocks| && CumulativeWork(blocks[..count]) == Err(ChainWorkOverflow)
    ensures CumulativeWork(blocks) == Err(ChainWorkOverflow)
    decreases |blocks| - count
  {
    if count < |blocks| {
      assert DropLast(blocks[..count + 1]) == blocks[..count];
      WorkFailureIsFinal(blocks, count + 1);
    } else {
      assert blocks[..count] == blocks;
    }
  }

  /** The number of hashes one expects to try before finding the blocks: each leading zero
      bit doubles it. */
  ghost function ExpectedTrials(blocks: seq<Block>): nat {
    if blocks == [] then 0 else ExpectedTrials(DropLast(blocks)) + Pow2(Last(blocks).header.difficulty)
  }

  ghost predicate WorkFits(blocks: seq<Block>) {
    (forall i :: 0 <= i < |blocks| ==> blocks[i].header.difficulty < 128) && ExpectedTrials(blocks) <= U128_MAX
  }

  /** The sum fails exactly if a difficulty does not fit a 128-bit shift or the total does
      not fit 128 bits, however the failure comes about; otherwise it is the expected trials. */
  lemma {:induction false} WorkIsTrials(blocks: seq<Block>)
    ensures CumulativeWork(blocks).Ok? <==> WorkFits(blocks)
    ensures WorkFits(blocks) ==> CumulativeWork(blocks) == Ok(ExpectedTrials(blocks))
  {
    hide Pow2;
    if blocks != [] {
      WorkIsTrials(DropLast(blocks));
      assert forall i :: 0 <= i < |blocks| - 1 ==> DropLast(blocks)[i] == blocks[i];
    }
  }

  lemma {:induction false} WorkWithinBounds(c: Crypto, now: u64, network: Network, blocks: seq<Block>)
    requires Valid(c, now, network, blocks)
    ensures CumulativeWork(blocks).Ok?
    ensures |blocks| <= CumulativeWork(blocks).value <= |blocks| * 0x4_0000_0000
    decreases |blocks|
  {
    hide Valid, BlockHash;
    if blocks != [] {
      ValidTip(c, now, network, blocks);
      TipHeader(c, now, network, blocks);
      WorkWithinBounds(c, now, network, DropLast(blocks));
      TipWork(c, now, network, DropLast(blocks), Last(blocks));
    }
  }

  lemma {:induction false} TipWork(c: Crypto, now: u64, network: Network, blocks: seq<Block>, b: Block)
    requires Accepted(c, now, network, blocks, b)
    ensures BlockWork(b).Ok? && 1 <= BlockWork(b).value <= 0x4_0000_0000
  {
    hide BlockHash, EnsurePow, CheckBodies, MerkleRoot, NextBaseFee, Encode, CheckCoinbaseAmount, TransactionNetwork;
    Pow2Monotone(b.header.difficulty, 34);
    Pow2Values();
  }

  /** Work never overflows 128 bits on an accepted chain, and every further block adds two to
      the power of its difficulty. */
  lemma {:induction false} AppendAddsWork(c: Crypto, now: u64, network: Network, blocks: seq<Block>, b: Block)
    requires Valid(c, now, network, blocks) && Valid(c, now, network, blocks + [b])
    ensures CumulativeWork(blocks).Ok? && CumulativeWork(blocks + [b]).Ok?
    ensures CumulativeWork(blocks + [b]).value == CumulativeWork(blocks).value + Pow2(b.header.difficulty)
    ensures CumulativeWork(blocks).value == ExpectedTrials(blocks)
  {
    hide Valid, CumulativeWork;
    WorkWithinBounds(c, now, network, blocks);
    WorkWithinBounds(c, now, network, blocks + [b]);
    WorkIsTrials(blocks);
    WorkIsTrials(blocks + [b]);
    assert DropLast(blocks + [b]) == blocks;
  }

  // ----- fork choice

  function AgreedBlocks(c: Crypto, a: seq<Block>, b: seq<Block>): (r: nat)
    ensures r <= |a| && r <= |b|
  {
    if a == [] || b == [] || BlockHash(c, a[0]) != BlockHash(c, b[0]) then 0
    else 1 + AgreedBlocks(c, a[1..], b[1..])
  }

  function CommonAncestorHeight(c: Crypto, current: seq<Block>, candidate: seq<Block>): Option<u64> {
    var agreed := AgreedBlocks(c, current, candidate);
    if agreed == 0 then None else Some(current[agreed - 1].header.height)
  }

  datatype ForkChoice = KeepCurrent | AdoptCandidate

  function SelectFork(c: Crypto, current: seq<Block>, candidate: seq<Block>): Result<ForkChoice> {
    var _ :- Need(current != [] && candidate != [], InvalidGenesis);
    var _ :- Need(BlockHash(c, current[0]) == BlockHash(c, candidate[0]), InvalidGenesis);
    var candidateWork :- CumulativeWork(candidate);
    var currentWork :- CumulativeWork(current);
    Ok(if candidateWork > currentWork then AdoptCandidate else KeepCurrent)
  }

  /** The candidate wins exactly if it starts from the same genesis and took more expected
      trials to find; its length plays no part. */
  lemma {:induction false} ForkChoiceIsByTrials(c: Crypto, current: seq<Block>, candidate: seq<Block>)
    requires current != [] && candidate != [] && WorkFits(current) && WorkFits(candidate)
    ensures var choice := SelectFork(c, current, candidate);
            && (choice.Ok? <==> BlockHash(c, current[0]) == BlockHash(c, candidate[0]))
            && (choice.Ok? ==> (choice.value.AdoptCandidate? <==>
                 ExpectedTrials(candidate) > ExpectedTrials(current)))
  {
    hide BlockHash, CumulativeWork, ExpectedTrials, WorkFits;
    WorkIsTrials(current);
    WorkIsTrials(candidate);
  }

  lemma {:induction false} ValidWorkFits(c: Crypto, now: u64, network: Network, blocks: seq<Block>)
    requires Valid(c, now, network, blocks)
    ensures WorkFits(blocks)
  {
    hide Valid, CumulativeWork, WorkFits;
    WorkWithinBounds(c, now, network, blocks);
    WorkIsTrials(blocks);
  }

  lemma {:induction false} AgreedBlocksMeaning(c: Crypto, a: seq<Block>, b: seq<Block>)
    ensures var agreed := AgreedBlocks(c, a, b);
            && (forall i :: 0 <= i < agreed ==> BlockHash(c, a[i]) == BlockHash(c, b[i]))
            && (agreed < |a| && agreed < |b| ==> BlockHash(c, a[agreed]) != BlockHash(c, b[agreed]))
    decreases |a|
  {
    hide BlockHash;
    if a != [] && b != [] && BlockHash(c, a[0]) == BlockHash(c, b[0]) {
      AgreedBlocksMeaning(c, a[1..], b[1..]);
      var agreed := AgreedBlocks(c, a, b);
      forall i | 0 <= i < agreed ensures BlockHash(c, a[i]) == BlockHash(c, b[i]) {
        if i > 0 { assert a[i] == a[1..][i - 1] && b[i] == b[1..][i - 1]; }
      }
      if agreed < |a| && agreed < |b| {
        assert a[agreed] == a[1..][agreed - 1] && b[agreed] == b[1..][agreed - 1];
      }
    }
  }

  /** The reported ancestor is the exact fork point: everything up to it is shared, and the
      next blocks differ. */
  lemma {:induction false} CommonAncestorIsForkPoint(
    c: Crypto, now: u64, netA: Network, a: seq<Block>, netB: Network, b: seq<Block>)
    requires Valid(c, now, netA, a) && Valid(c, now, netB, b)
    ensures var ancestor := CommonAncestorHeight(c, a, b);
            && (ancestor.None? <==> a == [] || b == [] || a[0] != b[0])
            && (ancestor.Some? ==>
                 var h := ancestor.value;
                 h < |a| && h < |b| && a[..h + 1] == b[..h + 1]
                 && forall k :: h < k < |a| && k < |b| ==> a[k] != b[k])
  {
    hide Valid, BlockHash;
    AgreedBlocksMeaning(c, a, b);
    var agreed := AgreedBlocks(c, a, b);
    if a != [] && b != [] && a[0] == b[0] { assert agreed > 0; }
    if agreed > 0 {
      SharedBlockSharesHistory(c, now, netA, a, now, netB, b, agreed - 1);
      ValidPrefix(c, now, netA, a, agreed);
      TipHeader(c, now, netA, a[..agreed]);
      assert a[0] == a[..agreed][0] == b[..agreed][0] == b[0];
      forall k | agreed - 1 < k < |a| && k < |b| ensures a[k] != b[k] {
        assert a[..k + 1][agreed] == a[agreed] && b[..k + 1][agreed] == b[agreed];
        if a[k] == b[k] {
          SharedBlockSharesHistory(c, now, netA, a, now, netB, b, k);
        }
      }
    }
  }
}
