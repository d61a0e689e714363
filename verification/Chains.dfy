/** Validated chains: what every accepted chain satisfies, and its identity (chain.rs). */
module Chains {
  import opened Prelude
  import opened Primitives
  import opened Transactions
  import opened Merkle
  import opened Blocks
  import opened Emission
  import opened Difficulty
  import opened Consensus
  import opened Ledgers

  datatype Chain = Chain(network: Network, blocks: seq<Block>, state: Ledger)

  function AppendBlock(c: Crypto, now: u64, chain: Chain, b: Block): Result<Chain> {
    var _ :- ValidateNextBlock(c, now, chain.network, chain.blocks, b, chain.state.emitted);
    var step := ApplyBlock(c, chain.state, b);
    var _ :- step.result;
    Ok(chain.(blocks := chain.blocks + [b], state := step.state))
  }

  function FromBlocks(c: Crypto, now: u64, network: Network, blocks: seq<Block>): Result<Chain> {
    if blocks == [] then Ok(Chain(network, [], EMPTY_LEDGER)) else
      var before :- FromBlocks(c, now, network, DropLast(blocks));
      AppendBlock(c, now, before, Last(blocks))
  }

  ghost predicate Valid(c: Crypto, now: u64, network: Network, blocks: seq<Block>) {
    FromBlocks(c, now, network, blocks).Ok?
  }

  ghost function StateOf(c: Crypto, now: u64, network: Network, blocks: seq<Block>): Ledger
    requires Valid(c, now, network, blocks)
  {
    FromBlocks(c, now, network, blocks).value.state
  }

  lemma {:induction false} FromBlocksShape(c: Crypto, now: u64, network: Network, blocks: seq<Block>)
    requires Valid(c, now, network, blocks)
    ensures FromBlocks(c, now, network, blocks).value.network == network
    ensures FromBlocks(c, now, network, blocks).value.blocks == blocks
    decreases |blocks|
  {
    hide ValidateNextBlock, ApplyBlock;
    if blocks != [] {
      FromBlocksShape(c, now, network, DropLast(blocks));
    }
  }

  // ----- what acceptance of one block says

  /** The rules of the validator that later proofs use, spelled out. */
  ghost predicate Accepted(c: Crypto, now: u64, network: Network, blocks: seq<Block>, b: Block) {
    var h := b.header;
    && 0 < |b.transactions| <= MAX_TRANSACTIONS_PER_BLOCK
    && CheckBodies(c, b.transactions, |b.transactions|).Ok?
    && h.networkId == network.NetworkId()
    && h.height == ExpectedHeight(blocks)
    && (blocks != [] ==> h.timestamp > Last(blocks).header.timestamp)
    && h.timestamp <= SaturatingAdd(now, MAX_FUTURE_DRIFT)
    && h.baseFee == NextBaseFee(blocks)
    && h.version == ExpectedVersion(network, h.height)
    && network.MinimumDifficulty() <= h.difficulty <= network.MaximumDifficulty()
    && (blocks != [] ==> h.difficulty == NextDifficulty(network, blocks, h.difficulty))
    && h.previousHash == PreviousHash(c, blocks)
    && (network.MainnetCandidate? && h.height == 0 ==> c.digestBytes(BlockHash(c, b)) == MAINNET_GENESIS_HASH)
    && MerkleRoot(c, b.transactions) == Ok(h.merkleRoot)
    && EnsurePow(c, b).Ok?
    && CheckCoinbaseAmount(h.height, h.baseFee, b.transactions).Ok?
    && forall i :: 0 <= i < |b.transactions| ==> TransactionNetwork(c, b.transactions[i]) == Ok(network)
  }

  lemma {:induction false} ValidatedIsAccepted(
    c: Crypto, now: u64, network: Network, blocks: seq<Block>, b: Block, emitted: u64)
    requires ValidateNextBlock(c, now, network, blocks, b, emitted).Ok?
    ensures Accepted(c, now, network, blocks, b)
  {
    hide CheckBodies, MedianTimePast, NextDifficulty, NextBaseFee, PreviousHash, MerkleRoot, EnsurePow,
         CheckCoinbaseAmount, TransactionNetwork, ExpectedVersion;
  }

  /** These are all the rules: a block passes exactly if it obeys them, comes after the median
      of the recent blocks and stays below the supply cap. */
  lemma {:induction false} ValidationIsAcceptance(
    c: Crypto, now: u64, network: Network, blocks: seq<Block>, b: Block, emitted: u64)
    ensures ValidateNextBlock(c, now, network, blocks, b, emitted).Ok? <==>
            Accepted(c, now, network, blocks, b) && CheckMedianTimePast(blocks, b).Ok? &&
            emitted + BlockReward(b.header.height) <= MAX_SUPPLY
  {
    hide CheckBodies, CheckMedianTimePast, NextDifficulty, NextBaseFee, PreviousHash, MerkleRoot, EnsurePow,
         CheckCoinbaseAmount, TransactionNetwork, ExpectedVersion, BlockReward, BlockHash, ExpectedHeight;
  }

  // ----- what every valid chain satisfies

  function AllTransactions(blocks: seq<Block>): seq<Transaction> {
    if blocks == [] then [] else AllTransactions(DropLast(blocks)) + Last(blocks).transactions
  }

  ghost predicate Linked(c: Crypto, blocks: seq<Block>) {
    && (forall i :: 0 <= i < |blocks| ==> blocks[i].header.height == i)
    && (forall i :: 0 <= i < |blocks| ==> blocks[i].header.previousHash == PreviousHash(c, blocks[..i]))
  }

  ghost predicate TipMatches(c: Crypto, s: Ledger, blocks: seq<Block>) {
    if blocks == [] then s.height.None? && s.tipHash.None? && s.tipTimestamp.None?
    else s.height == Some(|blocks| - 1) && s.tipHash == Some(BlockHash(c, Last(blocks)))
         && s.tipTimestamp == Some(Last(blocks).header.timestamp)
  }

  /** Every account's spends along the chain carry nonces 1, 2, 3, ... in order, and the
      ledger expects the next one. */
  ghost predicate NoncesMatch(s: Ledger, txs: seq<Transaction>) {
    forall a :: NonceRun(SpendNonces(txs, a), 1)
             && s.NextNonceOf(a) == Min(1 + |SpendNonces(txs, a)|, U64_MAX)
  }

  ghost predicate ChainInvariant(c: Crypto, chain: Chain) {
    && Linked(c, chain.blocks)
    && TimestampsIncrease(chain.blocks)
    && TipMatches(c, chain.state, chain.blocks)
    && Sound(chain.state)
    && chain.state.applied == HashSet(c, AllTransactions(chain.blocks))
    && NoncesMatch(chain.state, AllTransactions(chain.blocks))
    && (forall h :: h in chain.state.blockFees ==> h < |chain.blocks|)
    && (forall h :: h in chain.state.rewards ==> h < |chain.blocks|)
  }

  lemma {:induction false} SpendNoncesConcat(a: seq<Transaction>, b: seq<Transaction>, who: Str)
    ensures SpendNonces(a + b, who) == SpendNonces(a, who) + SpendNonces(b, who)
    decreases |b|
  {
    if b == [] {
      assert a + b == a;
    } else {
      SpendNoncesConcat(a, DropLast(b), who);
      assert DropLast(a + b) == a + DropLast(b);
    }
  }

  lemma {:induction false} CoinbaseSpendsNothing(txs: seq<Transaction>, who: Str)
    requires txs != [] && txs[0].IsCoinbase()
    ensures SpendNonces(txs, who) == SpendNonces(txs[1..], who)
  {
    SpendNoncesConcat([txs[0]], txs[1..], who);
    assert [txs[0]] + txs[1..] == txs;
    assert SpendNonces([txs[0]], who) == [] by { assert DropLast([txs[0]]) == []; }
  }

  lemma {:induction false} NoncesAfterBlock(
    before: Ledger, after: Ledger, txs: seq<Transaction>, block: seq<Transaction>)
    requires block != [] && block[0].IsCoinbase() && NoncesMatch(before, txs)
    requires forall a :: NonceEffect(before, after, block[1..], a)
    ensures NoncesMatch(after, txs + block)
  {
    forall a
      ensures NonceRun(SpendNonces(txs + block, a), 1)
      ensures after.NextNonceOf(a) == Min(1 + |SpendNonces(txs + block, a)|, U64_MAX)
    {
      SpendNoncesConcat(txs, block, a);
      CoinbaseSpendsNothing(block, a);
      assert NonceEffect(before, after, block[1..], a);
    }
  }

  lemma {:induction false} HashSetConcat(c: Crypto, a: seq<Transaction>, b: seq<Transaction>)
    ensures HashSet(c, a + b) == HashSet(c, a) + HashSet(c, b)
  {
    hide Encode;
    forall i | 0 <= i < |a| ensures TxHash(c, a[i]) in HashSet(c, a + b) { assert (a + b)[i] == a[i]; }
    forall i | 0 <= i < |b| ensures TxHash(c, b[i]) in HashSet(c, a + b) { assert (a + b)[|a| + i] == b[i]; }
    forall i | 0 <= i < |a + b| ensures TxHash(c, (a + b)[i]) in HashSet(c, a) + HashSet(c, b) {
      if i >= |a| { assert (a + b)[i] == b[i - |a|]; }
    }
  }

  lemma {:induction false} LinkedSnoc(c: Crypto, blocks: seq<Block>, b: Block)
    requires Linked(c, blocks) && b.header.height == ExpectedHeight(blocks)
    requires b.header.previousHash == PreviousHash(c, blocks)
    ensures Linked(c, blocks + [b])
  {
    hide BlockHash;
    var longer := blocks + [b];
    forall i | 0 <= i < |longer| ensures longer[i].header.previousHash == PreviousHash(c, longer[..i]) {
      if i < |blocks| { assert longer[..i] == blocks[..i]; } else { assert longer[..i] == blocks; }
    }
  }

  lemma {:induction false} InvariantStep(c: Crypto, now: u64, chain: Chain, b: Block)
    requires ChainInvariant(c, chain) && AppendBlock(c, now, chain, b).Ok?
    ensures Accepted(c, now, chain.network, chain.blocks, b)
    ensures ChainInvariant(c, AppendBlock(c, now, chain, b).value)
    ensures BlockEffect(c, chain.state, AppendBlock(c, now, chain, b).value.state, b,
            ApplyBlock(c, chain.state, b).result.value)
  {
    hide ValidateNextBlock, ApplyBlock, BlockHash, TxHash, HashSet, NonceEffect, Held, Emitted, CheckBodies,
         NextDifficulty, NextBaseFee, EnsurePow, MerkleRoot, CheckCoinbaseAmount, TransactionNetwork, NoncesMatch,
         Linked;
    ValidatedIsAccepted(c, now, chain.network, chain.blocks, b, chain.state.emitted);
    AppliedBlockEffect(c, chain.state, b);
    var next := AppendBlock(c, now, chain, b).value;
    LinkedSnoc(c, chain.blocks, b);
    assert DropLast(next.blocks) == chain.blocks && Last(next.blocks) == b;
    HashSetConcat(c, AllTransactions(chain.blocks), b.transactions);
    NoncesAfterBlock(chain.state, next.state, AllTransactions(chain.blocks), b.transactions);
    assert b.header.height == |chain.blocks| by { HeightIsLength(c, next.blocks); }
  }

  lemma {:induction false} HeightIsLength(c: Crypto, blocks: seq<Block>)
    requires blocks != [] && Linked(c, blocks)
    ensures Last(blocks).header.height == |blocks| - 1
  {
  }

  /** Run invariant of a chain: heights and links, increasing time, conservation of supply,
      exactly the applied hashes, and gapless nonces for every account. */
  lemma {:induction false} ValidChainInvariant(c: Crypto, now: u64, network: Network, blocks: seq<Block>)
    requires Valid(c, now, network, blocks)
    ensures ChainInvariant(c, FromBlocks(c, now, network, blocks).value)
    decreases |blocks|
  {
    hide AppendBlock, BlockHash, TxHash, Emitted;
    if blocks == [] {
      EmptyInvariant(c, network);
    } else {
      ValidChainInvariant(c, now, network, DropLast(blocks));
      FromBlocksShape(c, now, network, DropLast(blocks));
      InvariantStep(c, now, FromBlocks(c, now, network, DropLast(blocks)).value, Last(blocks));
    }
  }

  lemma {:induction false} EmptyInvariant(c: Crypto, network: Network)
    ensures ChainInvariant(c, Chain(network, [], EMPTY_LEDGER))
  {
    hide TxHash, BlockHash, Sound;
    EmptyLedgerSound();
  }
}
