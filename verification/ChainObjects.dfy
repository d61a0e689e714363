/** The mutable chain of chain.rs and the nonce scan of devnet.rs. */
module ChainObjects {
  import opened Prelude
  import opened Primitives
  import opened Transactions
  import opened Merkle
  import opened Blocks
  import opened Difficulty
  import opened Consensus
  import opened Ledgers
  import opened LedgerStates
  import opened Chains

  /** The validator as the source runs it: loops for the bodies, the merkle root and the
      difficulty, in the order that decides which error is reported. */
  method ValidateCandidate(c: Crypto, now: u64, network: Network, blocks: seq<Block>, b: Block, emitted: u64)
    returns (r: Result<()>)
    ensures r == ValidateNextBlock(c, now, network, blocks, b, emitted)
  {
    hide CheckBodies, CheckHeader, CheckBody;
    if b.transactions == [] {
      return Err(EmptyTransactions);
    }
    if |b.transactions| > MAX_TRANSACTIONS_PER_BLOCK {
      return Err(TooManyTransactions);
    }
    r := CheckTransactionBodies(c, b.transactions);
    if r.Err? {
      return;
    }
    r := CheckHeaderRules(c, now, network, blocks, b);
    if r.Err? {
      return;
    }
    r := CheckBodyRules(c, network, b);
    if r.Err? {
      return;
    }
    var supply := CheckedAdd(emitted, Emission.BlockReward(b.header.height));
    if supply.Err? {
      return Err(supply.error);
    }
    r := Need(supply.value <= MAX_SUPPLY, SupplyOverflow);
  }

  method CheckHeaderRules(c: Crypto, now: u64, network: Network, blocks: seq<Block>, b: Block) returns (r: Result<()>)
    ensures r == CheckHeader(c, now, network, blocks, b)
  {
    hide CheckTimestamp, CheckMedianTimePast, NextBaseFee, LwmaNext, BlockHash, CheckCheckpoint, PreviousHash;
    var h := b.header;
    if h.networkId != network.NetworkId() {
      return Err(InvalidNetwork);
    }
    if h.height != ExpectedHeight(blocks) {
      return Err(InvalidHeight);
    }
    r := CheckTimestamp(blocks, b, now);
    if r.Err? {
      return;
    }
    r := CheckMedianTimePast(blocks, b);
    if r.Err? {
      return;
    }
    if h.version != ExpectedVersion(network, h.height) {
      return Err(InvalidBlockVersion);
    }
    if h.baseFee != NextBaseFee(blocks) {
      return Err(InvalidBaseFee);
    }
    if h.difficulty < network.MinimumDifficulty() || h.difficulty > network.MaximumDifficulty() {
      return Err(InvalidDifficultyAdjustment);
    }
    if blocks != [] {
      var expected := LwmaNextDifficulty(blocks, 60, 60, h.difficulty, network.MinimumDifficulty(),
          network.MaximumDifficulty());
      if h.difficulty != expected {
        return Err(InvalidDifficultyAdjustment);
      }
    }
    if h.previousHash != PreviousHash(c, blocks) {
      return Err(InvalidPreviousHash);
    }
    r := CheckCheckpoint(c, network, b);
  }

  method CheckBodyRules(c: Crypto, network: Network, b: Block) returns (r: Result<()>)
    ensures r == CheckBody(c, network, b)
  {
    hide MerkleRoot, EnsurePow, CheckCoinbaseAmount, TransactionNetwork;
    var root := ComputeMerkleRoot(c, b.transactions);
    if root.Err? {
      return Err(root.error);
    }
    if root.value != b.header.merkleRoot {
      return Err(InvalidMerkleRoot);
    }
    r := EnsurePow(c, b);
    if r.Err? {
      return;
    }
    var coinbase := CheckCoinbaseAmount(b.header.height, b.header.baseFee, b.transactions);
    if coinbase.Err? {
      return Err(coinbase.error);
    }
    for i := 0 to |b.transactions|
      invariant forall k :: 0 <= k < i ==> TransactionNetwork(c, b.transactions[k]) == Ok(network)
    {
      if TransactionNetwork(c, b.transactions[i]) != Ok(network) {
        return Err(InvalidNetwork);
      }
    }
    r := Ok(());
  }

  class ChainObject {
    const network: Network
    var blocks: seq<Block>
    const state: LedgerState

    function View(): Chain
      reads this, state
    {
      Chain(network, blocks, state.View())
    }

    constructor (network: Network)
      ensures fresh(state)
      ensures this.network == network && View() == Chain(network, [], EMPTY_LEDGER)
    {
      this.network := network;
      blocks := [];
      state := new LedgerState();
    }

    /** Validate, apply, push; a rejected block is not pushed, but the ledger keeps what was
        applied of it before the failure. */
    method Append(c: Crypto, now: u64, b: Block) returns (r: Result<()>)
      modifies this, state
      ensures match AppendBlock(c, now, old(View()), b)
              case Ok(next) => r == Ok(()) && View() == next
              case Err(e) => r == Err(e) && blocks == old(blocks)
      ensures var before := old(View());
              var valid := ValidateNextBlock(c, now, network, before.blocks, b, before.state.emitted).Ok?;
              state.View() == if valid then ApplyBlock(c, before.state, b).state else before.state
    {
      hide ValidateNextBlock, ApplyBlock;
      r := ValidateCandidate(c, now, network, blocks, b, state.emitted);
      if r.Err? {
        return;
      }
      var applied := state.ApplyBlockTo(c, b);
      if applied.Err? {
        return Err(applied.error);
      }
      blocks := blocks + [b];
      r := Ok(());
    }
  }

  lemma {:induction false} FromBlocksFailureIsFinal(
    c: Crypto, now: u64, network: Network, blocks: seq<Block>, count: nat)
    requires count <= |blocks| && FromBlocks(c, now, network, blocks[..count]).Err?
    ensures FromBlocks(c, now, network, blocks) == FromBlocks(c, now, network, blocks[..count])
    decreases |blocks| - count
  {
    hide AppendBlock;
    if count < |blocks| {
      assert DropLast(blocks[..count + 1]) == blocks[..count];
      FromBlocksFailureIsFinal(c, now, network, blocks, count + 1);
    } else {
      assert blocks[..count] == blocks;
    }
  }

  /** Rebuilds a chain from its blocks, one validated append at a time. */
  method RebuildChain(
    c: Crypto, now: u64, network: Network, blocks: seq<Block>) returns (chain: ChainObject, r: Result<()>)
    ensures fresh(chain) && fresh(chain.state)
    ensures match FromBlocks(c, now, network, blocks)
            case Ok(built) => r == Ok(()) && chain.View() == built
            case Err(e) => r == Err(e)
  {
    hide AppendBlock;
    chain := new ChainObject(network);
    for i := 0 to |blocks|
      invariant fresh(chain) && fresh(chain.state)
      invariant FromBlocks(c, now, network, blocks[..i]) == Ok(chain.View())
    {
      assert DropLast(blocks[..i + 1]) == blocks[..i];
      r := chain.Append(c, now, blocks[i]);
      if r.Err? {
        FromBlocksFailureIsFinal(c, now, network, blocks, i + 1);
        return;
      }
    }
    assert blocks[..|blocks|] == blocks;
    r := Ok(());
  }

  // ----- the full scan for an account's next nonce

  ghost predicate IsLargest(best: Option<u64>, nonces: seq<u64>) {
    match best
    case None => nonces == []
    case Some(n) => n in nonces && forall m :: m in nonces ==> m <= n
  }

  lemma {:induction false} LargestAfterOneMore(best: Option<u64>, nonces: seq<u64>, n: u64)
    requires IsLargest(best, nonces)
    ensures IsLargest(if best.None? || n > best.value then Some(n) else best, nonces + [n])
  {
  }

  /** One more, as a plain 64-bit addition. */
  function OneMore(n: u64): u64 { (n + 1) % 0x1_0000_0000_0000_0000 }

  ghost predicate IsNextAfter(next: u64, nonces: seq<u64>) {
    if nonces == [] then next == 1 else exists n :: IsLargest(Some(n), nonces) && next == OneMore(n)
  }

  /** One more than the largest nonce the address ever spent with, scanning every block. */
  method ScanNextNonce(blocks: seq<Block>, address: Str) returns (next: u64)
    ensures IsNextAfter(next, SpendNonces(AllTransactions(blocks), address))
  {
    hide SpendNonces, IsLargest;
    NoSpends(address);
    var best: Option<u64> := None;
    for i := 0 to |blocks|
      invariant IsLargest(best, SpendNonces(AllTransactions(blocks[..i]), address))
    {
      assert DropLast(blocks[..i + 1]) == blocks[..i];
      best := ScanBlock(AllTransactions(blocks[..i]), blocks[i].transactions, address, best);
    }
    assert blocks[..|blocks|] == blocks;
    next := if best.Some? then OneMore(best.value) else 1;
    NextOfLargest(best, SpendNonces(AllTransactions(blocks), address));
  }

  lemma {:induction false} NoSpends(address: Str)
    ensures SpendNonces([], address) == [] && IsLargest(None, [])
  {
  }

  lemma {:induction false} NextOfLargest(best: Option<u64>, nonces: seq<u64>)
    requires IsLargest(best, nonces)
    ensures IsNextAfter(if best.Some? then OneMore(best.value) else 1, nonces)
  {
  }

  method ScanBlock(
    ghost before: seq<Transaction>, txs: seq<Transaction>, address: Str, start: Option<u64>) returns (best: Option<u64>)
    requires IsLargest(start, SpendNonces(before, address))
    ensures IsLargest(best, SpendNonces(before + txs, address))
  {
    hide IsLargest;
    best := start;
    assert before + txs[..0] == before;
    for i := 0 to |txs|
      invariant IsLargest(best, SpendNonces(before + txs[..i], address))
    {
      assert DropLast(before + txs[..i + 1]) == before + txs[..i];
      assert Last(before + txs[..i + 1]) == txs[i];
      if txs[i].from == Some(address) {
        LargestAfterOneMore(best, SpendNonces(before + txs[..i], address), txs[i].nonce);
        if best.None? || txs[i].nonce > best.value {
          best := Some(txs[i].nonce);
        }
      }
    }
    assert txs[..|txs|] == txs;
  }

  lemma {:induction false} LastOfRunIsNext(nonces: seq<u64>, next: u64)
    requires NonceRun(nonces, 1) && IsNextAfter(next, nonces)
    ensures next == if |nonces| < U64_MAX then 1 + |nonces| else 0
  {
    if nonces != [] {
      var n :| IsLargest(Some(n), nonces) && next == OneMore(n);
      assert nonces[|nonces| - 1] == Min(|nonces|, U64_MAX);
      assert nonces[|nonces| - 1] in nonces;
    }
  }

  /** On every accepted chain the ledger's counter is what the full scan finds, exactly until
      an account has spent 2^64 - 1 times: then the counter sticks at the 64-bit maximum and
      the scan wraps to zero. */
  lemma {:induction false} LedgerNonceIsScan(
    c: Crypto, now: u64, network: Network, blocks: seq<Block>, address: Str, next: u64)
    requires Valid(c, now, network, blocks)
    requires IsNextAfter(next, SpendNonces(AllTransactions(blocks), address))
    ensures var counter := StateOf(c, now, network, blocks).NextNonceOf(address);
            var spends := |SpendNonces(AllTransactions(blocks), address)|;
            && (counter == next <==> spends < U64_MAX)
            && (spends >= U64_MAX ==> counter == U64_MAX && next == 0)
  {
    hide FromBlocks, IsNextAfter, TipMatches, Sound, HashSet, Linked;
    ValidChainInvariant(c, now, network, blocks);
    assert FromBlocks(c, now, network, blocks).value.blocks == blocks by { FromBlocksShape(c, now, network, blocks); }
    LastOfRunIsNext(SpendNonces(AllTransactions(blocks), address), next);
  }
}
