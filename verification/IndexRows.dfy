/** What the rows of a rebuilt index say, field by field: transactions, blocks and the
    history of every address (index.rs, state.rs). */
module IndexRows {
  import opened Prelude
  import opened Primitives
  import opened Transactions
  import opened Merkle
  import opened Blocks
  import opened Emission
  import opened Consensus
  import opened Ledgers
  import opened Chains
  import opened ChainIdentity
  import opened Indexes
  import opened IndexRefinement
  import opened IndexMeaning
  import opened MempoolEvents
  import Difficulty

  // ----- fees

  lemma {:induction false} CollectedAreAffordable(txs: seq<Transaction>, count: nat, baseFee: u64, j: nat)
    requires count < |txs| && CollectedTips(txs, count, baseFee).Ok? && 0 < j <= count
    ensures ValidateFee(txs[j], baseFee).Ok?
    decreases count
  {
    hide ValidateFee, EffectivePriorityFee;
    if j < count {
      CollectedAreAffordable(txs, count - 1, baseFee, j);
    } else {
      assert ValidateFee(txs[count], baseFee).value == ();
    }
  }

  /** On a chain every spend can pay the base fee of its block. */
  lemma {:induction false} ChainFeesAreAffordable(
    c: Crypto, now: u64, network: Network, blocks: seq<Block>, i: nat, j: nat)
    requires Valid(c, now, network, blocks) && i < |blocks| && j < |blocks[i].transactions|
    ensures ValidateFee(blocks[i].transactions[j], blocks[i].header.baseFee).Ok?
  {
    hide Valid, BlockHash, EnsurePow, CheckBodies, MerkleRoot, NextBaseFee, TransactionNetwork, CollectedTips;
    ValidBlockAt(c, now, network, blocks, i);
    var txs := blocks[i].transactions;
    if j > 0 {
      CollectedAreAffordable(txs, |txs| - 1, blocks[i].header.baseFee, j);
    }
  }

  // ----- transaction rows

  /** Row of transaction `j` of block `i`. */
  ghost predicate Describes(c: Crypto, row: IndexedTransaction, blocks: seq<Block>, i: nat, j: nat)
    requires i < |blocks| && j < |blocks[i].transactions|
  {
    var b, t := blocks[i], blocks[i].transactions[j];
    && row.hash == TxHash(c, t)
    && row.blockHeight == i && row.blockHash == BlockHash(c, b)
    && row.position == j && row.blockCount == |b.transactions|
    && row.version == t.version && row.nonce == t.nonce && row.memo == t.memo
    && row.from == t.from && row.to == t.to && row.amount == t.amount
    && row.maxFee == t.maxFee && row.priorityFee == t.priorityFee
    && row.senderKey == t.senderKey && row.signature == t.signature
    && row.baseFee == b.header.baseFee
    && row.burnedFee == (if j == 0 then 0 else b.header.baseFee)
    && row.tip == TipPaid(t, b.header.baseFee)
    && row.effectiveFee == row.burnedFee + row.tip
    && row.authorization == if j == 0 then ByCoinbase else Signed
  }

  lemma {:induction false} RowDescribes(c: Crypto, now: u64, network: Network, blocks: seq<Block>, i: nat, j: nat)
    requires Valid(c, now, network, blocks) && i < |blocks| && j < |blocks[i].transactions|
    ensures Describes(c, IndexedTransactionOf(c, blocks[i], j), blocks, i, j)
  {
    hide Valid, BlockHash, TxHash, EffectiveFee, EffectivePriorityFee, ValidateFee, TipPaid, WellShaped, Linked;
    ChainFeesAreAffordable(c, now, network, blocks, i, j);
    AffordableFees(blocks[i].transactions[j], blocks[i].header.baseFee);
    ChainSpendsAreSigned(c, now, network, blocks, i, j);
    StoredChainLoads(c, now, network, blocks);
    HeightAt(c, blocks, i);
  }

  lemma {:induction false} HeightAt(c: Crypto, blocks: seq<Block>, i: nat)
    requires Linked(c, blocks) && i < |blocks|
    ensures blocks[i].header.height == i
    ensures blocks[i].header.previousHash == if i == 0 then Zero else BlockHash(c, blocks[i - 1])
  {
    hide BlockHash;
    assert blocks[i].header.previousHash == PreviousHash(c, blocks[..i]);
  }

  /** The index has a row for every transaction of the chain and for no other, and each row
      says where the transaction is, what it is and what it paid. */
  lemma {:induction false} TransactionRows(c: Crypto, now: u64, network: Network, blocks: seq<Block>)
    requires Valid(c, now, network, blocks) && blocks != []
    ensures Rebuild(c, now, blocks).Ok?
    ensures var rows := Rebuild(c, now, blocks).value.tables.transactions;
            && rows.Keys == HashSet(c, AllTransactions(blocks))
            && forall i, j :: 0 <= i < |blocks| && 0 <= j < |blocks[i].transactions| ==>
                 var hash := TxHash(c, blocks[i].transactions[j]);
                 hash in rows && Describes(c, rows[hash], blocks, i, j)
  {
    hide Valid, Rebuild, TxHash, IndexedTransactionOf, Describes;
    IndexLocatesTransactions(c, now, network, blocks);
    var rows := Rebuild(c, now, blocks).value.tables.transactions;
    forall i, j | 0 <= i < |blocks| && 0 <= j < |blocks[i].transactions|
      ensures var hash := TxHash(c, blocks[i].transactions[j]);
              hash in rows && Describes(c, rows[hash], blocks, i, j)
    {
      assert Located(c, rows, blocks[i], j);
      RowDescribes(c, now, network, blocks, i, j);
    }
  }

  // ----- what leaves the sender

  /** Block `i` was applied to the ledger of the blocks before it. */
  lemma {:induction false} BlockWasApplied(c: Crypto, now: u64, network: Network, blocks: seq<Block>, i: nat)
    requires Valid(c, now, network, blocks) && i < |blocks|
    ensures Valid(c, now, network, blocks[..i]) && Valid(c, now, network, blocks[..i + 1])
    ensures var step := ApplyBlock(c, StateOf(c, now, network, blocks[..i]), blocks[i]);
            step.result.Ok? && step.state == StateOf(c, now, network, blocks[..i + 1])
    ensures Sound(StateOf(c, now, network, blocks[..i]))
  {
    hide ValidateNextBlock, ApplyBlock, Sound, BlockHash, TxHash, NoncesMatch, Linked, TipMatches;
    ValidPrefix(c, now, network, blocks, i);
    ValidPrefix(c, now, network, blocks, i + 1);
    assert DropLast(blocks[..i + 1]) == blocks[..i] && Last(blocks[..i + 1]) == blocks[i];
    ValidChainInvariant(c, now, network, blocks[..i]);
  }

  lemma {:induction false} SpendsWereApplied(c: Crypto, s: Ledger, b: Block)
    requires Sound(s) && ApplyBlock(c, s, b).result.Ok?
    ensures b.transactions != [] && NoCoinbase(b.transactions[1..])
    ensures Replay(c, s, b.transactions[1..], b.header.baseFee).result.Ok?
    ensures Simulate(c, s, b.transactions[1..], b.header.baseFee).Ok?
    ensures ApplyBlock(c, s, b).result.value.fees == Simulate(c, s, b.transactions[1..], b.header.baseFee).value.1
    ensures ApplyBlock(c, s, b).result.value.reward == BlockReward(b.header.height)
    ensures b.transactions[0].amount ==
            BlockReward(b.header.height) + ApplyBlock(c, s, b).result.value.fees.tip
  {
    hide ApplyTransaction, Replay, Simulate, TxHash, BlockHash, HashSet, NonceEffect, Held, Sound, BlockReward;
    AppliedBlockEffect(c, s, b);
  }

  /** The ledger after the spends of block `i` at positions below `j`. */
  ghost function LedgerBefore(c: Crypto, now: u64, network: Network, blocks: seq<Block>, i: nat, j: nat): Ledger
    requires Valid(c, now, network, blocks) && i < |blocks| && 0 < j <= |blocks[i].transactions|
  {
    ValidPrefix(c, now, network, blocks, i);
    Replay(c, StateOf(c, now, network, blocks[..i]), blocks[i].transactions[1..j], blocks[i].header.baseFee).state
  }

  /** Amount, burned fee and tip of a spend's row are together what its sender parts with. */
  lemma {:induction false} RowSaysWhatLeft(
    c: Crypto, now: u64, network: Network, blocks: seq<Block>, row: IndexedTransaction, i: nat, j: nat)
    requires Valid(c, now, network, blocks) && i < |blocks| && 0 < j < |blocks[i].transactions|
    requires Describes(c, row, blocks, i, j)
    ensures row.from.Some?
    ensures var sender := row.from.value;
            LedgerBefore(c, now, network, blocks, i, j + 1).BalanceOf(sender) + row.amount + row.burnedFee + row.tip ==
            LedgerBefore(c, now, network, blocks, i, j).BalanceOf(sender) + if row.to == sender then row.amount else 0
  {
    hide Valid, ApplyBlock, ApplyTransaction, TxHash, BlockHash, EffectiveFee, TipPaid, ValidateFee, Outlay, Sound,
         StateOf, Simulate, WellShaped;
    var txs, baseFee := blocks[i].transactions, blocks[i].header.baseFee;
    BlockWasApplied(c, now, network, blocks, i);
    var s := StateOf(c, now, network, blocks[..i]);
    SpendsWereApplied(c, s, blocks[i]);
    assert txs[1..][..j] == txs[1..j + 1] && txs[1..][..j - 1] == txs[1..j];
    ReplayPrefix(c, s, txs[1..], j, baseFee);
    assert DropLast(txs[1..j + 1]) == txs[1..j] && Last(txs[1..j + 1]) == txs[j];
    ChainSpendsAreSigned(c, now, network, blocks, i, j);
    ChainFeesAreAffordable(c, now, network, blocks, i, j);
    AffordableFees(txs[j], baseFee);
    SpendFlow(c, Replay(c, s, txs[1..j], baseFee).state, txs[j], baseFee, txs[j].from.value);
  }

  // ----- block rows

  /** Row of block `i`. */
  ghost predicate DescribesBlock(c: Crypto, row: IndexedBlock, blocks: seq<Block>, i: nat)
    requires i < |blocks| && blocks[i].transactions != []
  {
    var h, txs := blocks[i].header, blocks[i].transactions;
    && row.height == i && row.hash == BlockHash(c, blocks[i])
    && row.previousHash == (if i == 0 then Zero else BlockHash(c, blocks[i - 1]))
    && MerkleRoot(c, txs) == Ok(row.merkleRoot)
    && row.timestamp == h.timestamp && row.nonce == h.nonce && row.difficulty == h.difficulty
    && row.baseFee == h.baseFee
    && row.miner == txs[0].to && row.payout == txs[0].amount
    && row.count == |row.hashes| == |txs| && (forall j :: 0 <= j < |txs| ==> row.hashes[j] == TxHash(c, txs[j]))
    && row.reward == BlockReward(i)
    && row.fees.burned == (|txs| - 1) * h.baseFee
    && row.fees.tip == TipsPaid(txs[1..], h.baseFee)
    && row.fees.total == row.fees.burned + row.fees.tip
    && row.payout == row.reward + row.fees.tip
  }

  lemma {:induction false} OneMoreFee(count: nat, baseFee: nat)
    ensures (count + 1) * baseFee == count * baseFee + baseFee
  {
  }

  /** The fee totals of a dry run, from the transactions alone. */
  lemma {:induction false} SimulatedFees(c: Crypto, s: Ledger, txs: seq<Transaction>, baseFee: u64)
    requires NoCoinbase(txs) && Simulate(c, s, txs, baseFee).Ok?
    ensures var fees := Simulate(c, s, txs, baseFee).value.1;
            && fees.burned == |txs| * baseFee && fees.tip == TipsPaid(txs, baseFee)
            && fees.total == fees.burned + fees.tip
  {
    hide ApplyTransaction, ValidateFee, EffectivePriorityFee, EffectiveFee, TipPaid;
    if txs != [] {
      SimulatedFees(c, s, DropLast(txs), baseFee);
      SpendFeesAre(c, Simulate(c, s, DropLast(txs), baseFee).value.0, Last(txs), baseFee);
      OneMoreFee(|txs| - 1, baseFee);
    }
  }

  lemma {:induction false} SpendFeesAre(c: Crypto, s: Ledger, t: Transaction, baseFee: u64)
    requires !t.IsCoinbase() && ApplyTransaction(c, s, t, baseFee).result.Ok?
    ensures var tip := TipPaid(t, baseFee);
            0 <= tip && baseFee + tip <= U64_MAX &&
            ApplyTransaction(c, s, t, baseFee).result.value == FeeSummary(baseFee + tip, baseFee, tip)
  {
    hide TxHash, Verify;
    AffordableFees(t, baseFee);
  }

  /** The ledger's record of fees and reward at height `i`, from block `b` alone. */
  ghost predicate Recorded(s: Ledger, b: Block, i: u64)
    requires b.transactions != []
  {
    var fees, txs, baseFee := FeesAt(s, i), b.transactions, b.header.baseFee;
    && fees.burned == (|txs| - 1) * baseFee && fees.tip == TipsPaid(txs[1..], baseFee)
    && fees.total == fees.burned + fees.tip
    && RewardAt(s, i) == BlockReward(i)
    && txs[0].amount == BlockReward(i) + fees.tip
  }

  lemma {:induction false} AppliedBlockIsRecorded(c: Crypto, s: Ledger, b: Block)
    requires Sound(s) && ApplyBlock(c, s, b).result.Ok?
    ensures b.transactions != [] && Recorded(ApplyBlock(c, s, b).state, b, b.header.height)
  {
    hide ApplyBlock, Simulate, Replay, TxHash, BlockHash, Sound, NonceEffect, HashSet, BlockReward, TipsPaid,
         ValidateBlock;
    SpendsWereApplied(c, s, b);
    AppliedBlockEffect(c, s, b);
    SimulatedFees(c, s, b.transactions[1..], b.header.baseFee);
  }

  /** What the final ledger remembers about block `i`. */
  lemma {:induction false} LedgerRemembersBlock(c: Crypto, now: u64, network: Network, blocks: seq<Block>, i: nat)
    requires Valid(c, now, network, blocks) && i < |blocks|
    ensures blocks[i].header.height == i && blocks[i].transactions != []
    ensures Recorded(StateOf(c, now, network, blocks), blocks[i], i)
  {
    hide Valid, ApplyBlock, BlockHash, Sound, StateOf, BlockReward, TipsPaid, Linked, FeesAt, RewardAt;
    BlockWasApplied(c, now, network, blocks, i);
    StoredChainLoads(c, now, network, blocks);
    HeightAt(c, blocks, i);
    AppliedBlockIsRecorded(c, StateOf(c, now, network, blocks[..i]), blocks[i]);
    PrefixRemembered(c, now, network, blocks, i + 1);
  }

  lemma {:induction false} BlockRowDescribes(c: Crypto, now: u64, network: Network, blocks: seq<Block>, i: nat)
    requires Valid(c, now, network, blocks) && i < |blocks|
    ensures blocks[i].transactions != []
    ensures DescribesBlock(c, IndexedBlockOf(c, StateOf(c, now, network, blocks), blocks[i]), blocks, i)
  {
    hide Valid, BlockHash, TxHash, StateOf, FeesAt, RewardAt, BlockReward, TipsPaid, EnsurePow, CheckBodies, MerkleRoot,
         NextBaseFee, TransactionNetwork, CheckCoinbaseAmount, Difficulty.NextDifficulty, Linked;
    LedgerRemembersBlock(c, now, network, blocks, i);
    ValidBlockAt(c, now, network, blocks, i);
    StoredChainLoads(c, now, network, blocks);
    HeightAt(c, blocks, i);
  }

  function BlockHashes(c: Crypto, blocks: seq<Block>): set<Digest> {
    set i | 0 <= i < |blocks| :: BlockHash(c, blocks[i])
  }

  ghost predicate Filed(c: Crypto, s: Ledger, t: Tables, b: Block, i: u64)
    requires b.transactions != []
  {
    && i in t.byHeight && t.byHeight[i] == IndexedBlockOf(c, s, b)
    && BlockHash(c, b) in t.byHash && t.byHash[BlockHash(c, b)] == IndexedBlockOf(c, s, b)
    && i in t.rewards && t.rewards[i] == RewardAt(s, i)
    && i in t.fees && t.fees[i] == FeesAt(s, i).total
  }

  /** The four block tables after the blocks have been folded in. */
  ghost predicate BlockTables(c: Crypto, s: Ledger, t: Tables, blocks: seq<Block>)
    requires Bodied(blocks)
  {
    && (forall h: u64 :: h in t.byHeight <==> h < |blocks|)
    && t.rewards.Keys == t.fees.Keys == t.byHeight.Keys && t.byHash.Keys == BlockHashes(c, blocks)
    && forall i: u64 :: i < |blocks| ==> Filed(c, s, t, blocks[i], i)
  }

  lemma {:induction false} FoldedBlockTables(c: Crypto, s: Ledger, blocks: seq<Block>)
    requires Bodied(blocks) && forall i :: 0 <= i < |blocks| ==> blocks[i].header.height == i
    requires forall i, j :: 0 <= i < j < |blocks| ==> BlockHash(c, blocks[i]) != BlockHash(c, blocks[j])
    ensures WithBlocks(c, s, EMPTY_TABLES, blocks).Ok?
    ensures BlockTables(c, s, WithBlocks(c, s, EMPTY_TABLES, blocks).value, blocks)
    decreases |blocks|
  {
    hide BlockHash, IndexedBlockOf, TouchAll, ListAll, FeesAt, RewardAt;
    BodiedIndexes(c, s, EMPTY_TABLES, blocks);
    if blocks != [] {
      FoldedBlockTables(c, s, DropLast(blocks));
      assert BlockHash(c, Last(blocks)) !in BlockHashes(c, DropLast(blocks));
      FoldBlock(c, s, WithBlocks(c, s, EMPTY_TABLES, DropLast(blocks)).value, blocks);
    }
  }

  lemma {:induction false} OneMoreHash(c: Crypto, blocks: seq<Block>)
    requires blocks != []
    ensures BlockHashes(c, blocks) == BlockHashes(c, DropLast(blocks)) + {BlockHash(c, Last(blocks))}
  {
    hide BlockHash;
    var before := BlockHashes(c, DropLast(blocks));
    forall i | 0 <= i < |blocks| ensures BlockHash(c, blocks[i]) in before + {BlockHash(c, Last(blocks))} {
      if i < |blocks| - 1 { assert DropLast(blocks)[i] == blocks[i]; }
    }
    forall i | 0 <= i < |blocks| - 1 ensures BlockHash(c, DropLast(blocks)[i]) in BlockHashes(c, blocks) {
      assert DropLast(blocks)[i] == blocks[i];
    }
  }

  lemma {:induction false} FoldBlock(c: Crypto, s: Ledger, t: Tables, blocks: seq<Block>)
    requires blocks != [] && Bodied(blocks) && BlockTables(c, s, t, DropLast(blocks))
    requires Last(blocks).header.height == |blocks| - 1
    requires BlockHash(c, Last(blocks)) !in BlockHashes(c, DropLast(blocks))
    ensures WithBlock(c, s, t, Last(blocks)).Ok? && BlockTables(c, s, WithBlock(c, s, t, Last(blocks)).value, blocks)
  {
    hide BlockHash, IndexedBlockOf, TouchAll, ListAll, FeesAt, RewardAt, Filed;
    var after := WithBlock(c, s, t, Last(blocks)).value;
    OneMoreHash(c, blocks);
    FiledNow(c, s, t, Last(blocks));
    forall i: u64 | i < |blocks| - 1 ensures Filed(c, s, after, blocks[i], i) {
      assert Filed(c, s, t, DropLast(blocks)[i], i);
      assert BlockHash(c, DropLast(blocks)[i]) in BlockHashes(c, DropLast(blocks));
      StaysFiled(c, s, t, Last(blocks), blocks[i], i);
    }
  }

  lemma {:induction false} FiledNow(c: Crypto, s: Ledger, t: Tables, b: Block)
    requires b.transactions != []
    ensures WithBlock(c, s, t, b).Ok? && Filed(c, s, WithBlock(c, s, t, b).value, b, b.header.height)
  {
    hide BlockHash, IndexedBlockOf, TouchAll, ListAll, FeesAt, RewardAt;
  }

  lemma {:induction false} StaysFiled(c: Crypto, s: Ledger, t: Tables, b: Block, earlier: Block, i: u64)
    requires b.transactions != [] && earlier.transactions != [] && Filed(c, s, t, earlier, i)
    requires b.header.height != i && BlockHash(c, b) != BlockHash(c, earlier)
    ensures Filed(c, s, WithBlock(c, s, t, b).value, earlier, i)
  {
    hide BlockHash, IndexedBlockOf, TouchAll, ListAll, FeesAt, RewardAt;
  }

  /** Block `i` is found under its height and its hash, and its row and totals are right. */
  ghost predicate FoundBothWays(c: Crypto, t: Tables, blocks: seq<Block>, i: u64)
    requires i < |blocks| && blocks[i].transactions != []
  {
    && i in t.byHeight && DescribesBlock(c, t.byHeight[i], blocks, i)
    && BlockHash(c, blocks[i]) in t.byHash && t.byHash[BlockHash(c, blocks[i])] == t.byHeight[i]
    && i in t.rewards && t.rewards[i] == BlockReward(i)
    && i in t.fees && t.fees[i] == t.byHeight[i].fees.total
  }

  lemma {:induction false} FiledIsRight(
    c: Crypto, now: u64, network: Network, blocks: seq<Block>, t: Tables, i: u64)
    requires Valid(c, now, network, blocks) && i < |blocks| && blocks[i].transactions != []
    requires Filed(c, StateOf(c, now, network, blocks), t, blocks[i], i)
    ensures FoundBothWays(c, t, blocks, i)
  {
    hide Valid, BlockHash, StateOf, IndexedBlockOf, DescribesBlock, FeesAt, RewardAt, BlockReward, TipsPaid;
    BlockRowDescribes(c, now, network, blocks, i);
    LedgerRemembersBlock(c, now, network, blocks, i);
    RowFees(c, StateOf(c, now, network, blocks), blocks[i]);
  }

  lemma {:induction false} FoldedChainTables(c: Crypto, now: u64, network: Network, blocks: seq<Block>, s: Ledger)
    requires Valid(c, now, network, blocks)
    ensures Bodied(blocks) && WithBlocks(c, s, EMPTY_TABLES, blocks).Ok?
    ensures BlockTables(c, s, WithBlocks(c, s, EMPTY_TABLES, blocks).value, blocks)
  {
    hide Valid, BlockHash, WithBlocks, Linked, BlockTables;
    ValidIsBodied(c, now, network, blocks);
    if blocks != [] { StoredChainLoads(c, now, network, blocks); }
    forall i | 0 <= i < |blocks| ensures blocks[i].header.height == i { HeightAt(c, blocks, i); }
    forall i, j | 0 <= i < j < |blocks| ensures BlockHash(c, blocks[i]) != BlockHash(c, blocks[j]) {
      ValidHashesDistinct(c, now, network, blocks, i, j);
    }
    FoldedBlockTables(c, s, blocks);
  }

  /** The index has a row for every block and no other, and each row says what the block is,
      who mined it and what it paid. */
  lemma {:induction false} BlockRows(c: Crypto, now: u64, network: Network, blocks: seq<Block>)
    requires Valid(c, now, network, blocks) && blocks != []
    ensures Rebuild(c, now, blocks).Ok? && Bodied(blocks)
    ensures var t := Rebuild(c, now, blocks).value.tables;
            && (forall h: u64 :: h in t.byHeight <==> h < |blocks|)
            && t.rewards.Keys == t.fees.Keys == t.byHeight.Keys && t.byHash.Keys == BlockHashes(c, blocks)
            && forall i: u64 :: i < |blocks| ==> FoundBothWays(c, t, blocks, i)
  {
    hide Valid, Rebuild, BlockHash, StateOf, WithBlocks, WithBalances, Summarize, Filed, FoundBothWays, BlockHashes;
    RebuildIs(c, now, network, blocks);
    var s := StateOf(c, now, network, blocks);
    FoldedChainTables(c, now, network, blocks, s);
    var rows, t := Rows(c, now, network, blocks).value, Rebuild(c, now, blocks).value.tables;
    forall i: u64 | i < |blocks| ensures FoundBothWays(c, t, blocks, i) {
      assert Filed(c, s, rows, blocks[i], i);
      FiledElsewhere(c, s, rows, t, blocks[i], i);
      FiledIsRight(c, now, network, blocks, t, i);
    }
  }

  lemma {:induction false} FiledElsewhere(c: Crypto, s: Ledger, x: Tables, y: Tables, b: Block, i: u64)
    requires b.transactions != [] && Filed(c, s, x, b, i) && y == x.(addresses := y.addresses)
    ensures Filed(c, s, y, b, i)
  {
    hide BlockHash, IndexedBlockOf, FeesAt, RewardAt;
  }

  lemma {:induction false} RowFees(c: Crypto, s: Ledger, b: Block)
    requires b.transactions != []
    ensures IndexedBlockOf(c, s, b).fees == FeesAt(s, b.header.height)
  {
    hide TxHash, BlockHash;
  }

  // ----- the history of an address

  /** What `pick` lists of each transaction, in order. */
  ghost function Listed(txs: seq<Transaction>, pick: Transaction -> seq<Digest>): seq<Digest> {
    if txs == [] then [] else Listed(DropLast(txs), pick) + pick(Last(txs))
  }

  ghost function Sent(c: Crypto, a: Str): Transaction -> seq<Digest> {
    (t: Transaction) => IfThen(t.from == Some(a), TxHash(c, t))
  }

  ghost function Received(c: Crypto, a: Str): Transaction -> seq<Digest> {
    (t: Transaction) => IfThen(t.to == a, TxHash(c, t))
  }

  /** A transaction to oneself is listed twice. */
  ghost function Involving(c: Crypto, a: Str): Transaction -> seq<Digest> {
    (t: Transaction) => IfThen(t.from == Some(a), TxHash(c, t)) + IfThen(t.to == a, TxHash(c, t))
  }

  /** Heights of the blocks whose coinbase pays `a`. */
  ghost function MinedBy(blocks: seq<Block>, a: Str): seq<u64>
    requires Bodied(blocks) && |blocks| <= U64_MAX + 1
  {
    if blocks == [] then [] else
      MinedBy(DropLast(blocks), a) + IfThen(Last(blocks).transactions[0].to == a, |blocks| - 1)
  }

  ghost function SubsidiesOf(blocks: seq<Block>, a: Str): nat
    requires Bodied(blocks)
  {
    if blocks == [] then 0 else
      SubsidiesOf(DropLast(blocks), a) +
      if Last(blocks).transactions[0].to == a then BlockReward(|blocks| - 1) else 0
  }

  ghost function IfThen<T>(condition: bool, x: T): seq<T> { if condition then [x] else [] }

  /** The record lists each of the blocks `a` mined, and no other, once and in order. */
  lemma {:induction false} MinedByMeaning(blocks: seq<Block>, a: Str)
    requires Bodied(blocks) && |blocks| <= U64_MAX + 1
    ensures forall h: u64 :: h in MinedBy(blocks, a) <==> h < |blocks| && blocks[h].transactions[0].to == a
    ensures forall i, j :: 0 <= i < j < |MinedBy(blocks, a)| ==> MinedBy(blocks, a)[i] < MinedBy(blocks, a)[j]
    ensures SubsidiesOf(blocks, a) <= Emitted(|blocks|)
    decreases |blocks|
  {
    hide BlockReward;
    if blocks != [] {
      MinedByMeaning(DropLast(blocks), a);
      var before := MinedBy(DropLast(blocks), a);
      forall i | 0 <= i < |before| ensures before[i] < |blocks| - 1 {
        assert before[i] in before;
      }
    }
  }

  /** `y` is the record `x` with these entries added at the ends of its lists. */
  ghost predicate Grown(
    x: Activity, y: Activity, sent: seq<Digest>, received: seq<Digest>, both: seq<Digest>, heights: seq<u64>,
    reward: u64)
  {
    && y.address == x.address
    && y.sentHashes == x.sentHashes + sent && y.receivedHashes == x.receivedHashes + received
    && y.hashes == x.hashes + both
    && y.minedHeights == x.minedHeights + heights && y.mined == SaturatingAdd(x.mined, reward)
  }

  lemma {:induction false} GrownTwice(
    x: Activity, y: Activity, z: Activity, s1: seq<Digest>, r1: seq<Digest>, b1: seq<Digest>, h1: seq<u64>, w1: u64,
    s2: seq<Digest>, r2: seq<Digest>, b2: seq<Digest>, h2: seq<u64>, w2: u64)
    requires Grown(x, y, s1, r1, b1, h1, w1) && Grown(y, z, s2, r2, b2, h2, w2)
    ensures Grown(x, z, s1 + s2, r1 + r2, b1 + b2, h1 + h2, SaturatingAdd(w1, w2))
  {
    Regroup(x.sentHashes, s1, s2);
    Regroup(x.receivedHashes, r1, r2);
    Regroup(x.hashes, b1, b2);
    Regroup(x.minedHeights, h1, h2);
  }

  ghost function RewardIf(condition: bool, reward: u64): u64 { if condition then reward else 0 }

  lemma {:induction false} TouchGrows(
    c: Crypto, addresses: map<Str, Activity>, t: Transaction, height: u64, baseFee: u64, reward: u64, a: Str)
    ensures var sent, got := IfThen(t.from == Some(a), TxHash(c, t)), IfThen(t.to == a, TxHash(c, t));
            var pays := t.IsCoinbase() && t.to == a;
            Grown(ActivityOf(addresses, a), ActivityOf(Touch(c, addresses, t, height, baseFee, reward), a),
                  sent, got, sent + got, IfThen(pays, height), RewardIf(pays, reward))
  {
    hide TxHash, Outlay;
  }

  ghost predicate CoinbaseLeads(txs: seq<Transaction>) {
    txs != [] && forall j :: 0 <= j < |txs| ==> (txs[j].IsCoinbase() <==> j == 0)
  }

  lemma {:induction false} TouchAllGrows(
    c: Crypto, addresses: map<Str, Activity>, b: Block, n: nat, reward: u64, a: Str)
    requires n <= |b.transactions| && CoinbaseLeads(b.transactions)
    ensures var txs, pays := b.transactions[..n], n > 0 && b.transactions[0].to == a;
            Grown(ActivityOf(addresses, a), ActivityOf(TouchAll(c, addresses, b, n, reward), a),
                  Listed(txs, Sent(c, a)), Listed(txs, Received(c, a)), Listed(txs, Involving(c, a)),
                  IfThen(pays, b.header.height), RewardIf(pays, reward))
    decreases n
  {
    hide Touch, ActivityOf, TxHash, Grown, IfThen, RewardIf;
    var txs := b.transactions[..n];
    if n == 0 {
      NothingGrown(ActivityOf(addresses, a), b.header.height, reward);
    } else {
      TouchAllGrows(c, addresses, b, n - 1, reward, a);
      assert DropLast(txs) == b.transactions[..n - 1] && Last(txs) == b.transactions[n - 1];
      var before, t := TouchAll(c, addresses, b, n - 1, reward), b.transactions[n - 1];
      TouchGrows(c, before, t, b.header.height, b.header.baseFee, reward, a);
      var sent, got := IfThen(t.from == Some(a), TxHash(c, t)), IfThen(t.to == a, TxHash(c, t));
      var paid, pays := n > 1 && b.transactions[0].to == a, t.IsCoinbase() && t.to == a;
      GrownTwice(ActivityOf(addresses, a), ActivityOf(before, a), ActivityOf(TouchAll(c, addresses, b, n, reward), a),
          Listed(DropLast(txs), Sent(c, a)), Listed(DropLast(txs), Received(c, a)),
          Listed(DropLast(txs), Involving(c, a)),
          IfThen(paid, b.header.height), RewardIf(paid, reward), sent, got, sent + got,
          IfThen(pays, b.header.height), RewardIf(pays, reward));
      PaidOnce(paid, pays, b.header.height, reward);
    }
  }

  lemma {:induction false} PaidOnce(paid: bool, pays: bool, height: u64, reward: u64)
    requires !(paid && pays)
    ensures IfThen(paid, height) + IfThen(pays, height) == IfThen(paid || pays, height)
    ensures SaturatingAdd(RewardIf(paid, reward), RewardIf(pays, reward)) == RewardIf(paid || pays, reward)
  {
  }

  lemma {:induction false} NothingGrown(x: Activity, height: u64, reward: u64)
    ensures Grown(x, x, [], [], [], IfThen(false, height), RewardIf(false, reward))
  {
  }

  lemma {:induction false} ListedConcat(x: seq<Transaction>, y: seq<Transaction>, pick: Transaction -> seq<Digest>)
    ensures Listed(x + y, pick) == Listed(x, pick) + Listed(y, pick)
    decreases |y|
  {
    if y == [] {
      assert x + y == x;
    } else {
      ListedConcat(x, DropLast(y), pick);
      assert DropLast(x + y) == x + DropLast(y);
      Regroup(Listed(x, pick), Listed(DropLast(y), pick), pick(Last(y)));
    }
  }

  /** The record of `a` tells the history of the blocks. */
  ghost predicate Tells(c: Crypto, x: Activity, blocks: seq<Block>, a: Str)
    requires Bodied(blocks) && |blocks| <= U64_MAX + 1
  {
    var txs := AllTransactions(blocks);
    && x.address == a
    && x.sentHashes == Listed(txs, Sent(c, a)) && x.receivedHashes == Listed(txs, Received(c, a))
    && x.hashes == Listed(txs, Involving(c, a))
    && x.minedHeights == MinedBy(blocks, a) && x.mined == SubsidiesOf(blocks, a)
  }

  lemma {:induction false} TellsStep(c: Crypto, x: Activity, y: Activity, blocks: seq<Block>, a: Str)
    requires blocks != [] && Bodied(blocks) && |blocks| <= U64_MAX + 1 && Tells(c, x, DropLast(blocks), a)
    requires var txs, pays := Last(blocks).transactions, Last(blocks).transactions[0].to == a;
             Grown(x, y, Listed(txs, Sent(c, a)), Listed(txs, Received(c, a)), Listed(txs, Involving(c, a)),
                   IfThen(pays, |blocks| - 1), RewardIf(pays, BlockReward(|blocks| - 1)))
    ensures Tells(c, y, blocks, a)
  {
    hide Listed, BlockReward;
    var earlier, latest := AllTransactions(DropLast(blocks)), Last(blocks).transactions;
    ListedConcat(earlier, latest, Sent(c, a));
    ListedConcat(earlier, latest, Received(c, a));
    ListedConcat(earlier, latest, Involving(c, a));
    MinedByMeaning(blocks, a);
    EmittedBounded(|blocks|);
  }

  lemma {:induction false} FoldTells(c: Crypto, s: Ledger, blocks: seq<Block>, a: Str)
    requires Bodied(blocks) && |blocks| <= U64_MAX + 1
    requires forall i :: 0 <= i < |blocks| ==>
               && blocks[i].header.height == i && RewardAt(s, i) == BlockReward(i)
               && CoinbaseLeads(blocks[i].transactions)
    ensures WithBlocks(c, s, EMPTY_TABLES, blocks).Ok?
    ensures Tells(c, ActivityOf(WithBlocks(c, s, EMPTY_TABLES, blocks).value.addresses, a), blocks, a)
    decreases |blocks|
  {
    hide TouchAll, ListAll, BlockHash, FeesAt, RewardAt, IndexedBlockOf, Listed, Grown, BlockReward;
    BodiedIndexes(c, s, EMPTY_TABLES, blocks);
    if blocks != [] {
      FoldTells(c, s, DropLast(blocks), a);
      var b, before := Last(blocks), WithBlocks(c, s, EMPTY_TABLES, DropLast(blocks)).value;
      TouchAllGrows(c, before.addresses, b, |b.transactions|, RewardAt(s, b.header.height), a);
      assert b.transactions[..|b.transactions|] == b.transactions;
      TellsStep(c, ActivityOf(before.addresses, a),
          ActivityOf(WithBlocks(c, s, EMPTY_TABLES, blocks).value.addresses, a), blocks, a);
    } else {
      NothingToTell(c, a);
    }
  }

  lemma {:induction false} NothingToTell(c: Crypto, a: Str)
    ensures Tells(c, NoActivity(a), [], a)
  {
  }

  lemma {:induction false} RewardIsSubsidy(c: Crypto, now: u64, network: Network, blocks: seq<Block>, i: nat)
    requires Valid(c, now, network, blocks) && i < |blocks|
    ensures blocks[i].header.height == i && RewardAt(StateOf(c, now, network, blocks), i) == BlockReward(i)
    ensures CoinbaseLeads(blocks[i].transactions)
  {
    hide Valid, StateOf, BlockReward, RewardAt, FeesAt, WellShaped, SignedBySender, TipsPaid;
    LedgerRemembersBlock(c, now, network, blocks, i);
    forall j | 0 <= j < |blocks[i].transactions| ensures blocks[i].transactions[j].IsCoinbase() <==> j == 0 {
      ChainSpendsAreSigned(c, now, network, blocks, i, j);
    }
  }

  lemma {:induction false} RowsTell(c: Crypto, now: u64, network: Network, blocks: seq<Block>, a: Str)
    requires Valid(c, now, network, blocks) && blocks != []
    ensures Bodied(blocks) && |blocks| <= U64_MAX + 1 && Rows(c, now, network, blocks).Ok?
    ensures var x := ActivityOf(Rows(c, now, network, blocks).value.addresses, a);
            Tells(c, x, blocks, a) && !x.inLedger && x.balance == 0
  {
    hide Valid, StateOf, BlockHash, WithBlocks, Tells, BlockReward, RewardAt, CoinbaseLeads, Bodied, ActivityOf;
    ValidIsBodied(c, now, network, blocks);
    TipHeader(c, now, network, blocks);
    var s := StateOf(c, now, network, blocks);
    forall i | 0 <= i < |blocks|
      ensures blocks[i].header.height == i && RewardAt(s, i) == BlockReward(i) && CoinbaseLeads(blocks[i].transactions)
    {
      RewardIsSubsidy(c, now, network, blocks, i);
    }
    FoldTells(c, s, blocks, a);
    RowsStartClear(c, s, blocks, a);
    NeverInLedger(c, s, blocks, a);
  }

  /** The record of every address lists exactly the transactions it sent and received and
      the blocks it mined, in chain order, and totals their subsidies. */
  lemma {:induction false} AddressHistory(c: Crypto, now: u64, network: Network, blocks: seq<Block>, a: Str)
    requires Valid(c, now, network, blocks) && blocks != []
    ensures Rebuild(c, now, blocks).Ok? && Bodied(blocks) && |blocks| <= U64_MAX + 1
    ensures var x := ActivityOf(Rebuild(c, now, blocks).value.tables.addresses, a);
            Tells(c, x, blocks, a) && (x.inLedger <==> a in StateOf(c, now, network, blocks).balances)
  {
    hide FromBlocks, Rebuild, WithBlocks, Tells, Bodied, WithBalances, Summarize, ActivityOf, Rows, BlockHash;
    RebuildIs(c, now, network, blocks);
    RowsTell(c, now, network, blocks, a);
    var rows, balances := Rows(c, now, network, blocks).value, StateOf(c, now, network, blocks).balances;
    BalanceEntered(rows.addresses, balances, a);
    TellsApartFromBalance(c, ActivityOf(rows.addresses, a), ActivityOf(WithBalances(rows.addresses, balances), a),
        blocks, a);
  }

  lemma {:induction false} NeverInLedger(c: Crypto, s: Ledger, blocks: seq<Block>, a: Str)
    requires Bodied(blocks)
    ensures WithBlocks(c, s, EMPTY_TABLES, blocks).Ok?
    ensures !ActivityOf(WithBlocks(c, s, EMPTY_TABLES, blocks).value.addresses, a).inLedger
  {
    hide WithBlocks, Bodied;
    FreshRows(c, s, blocks);
    var m := WithBlocks(c, s, EMPTY_TABLES, blocks).value.addresses;
    assert Cleared(ActivityOf(m, a)) == ActivityOf(m, a);
  }

  lemma {:induction false} BalanceEntered(m: map<Str, Activity>, balances: map<Str, u64>, a: Str)
    requires ActivityOf(m, a).balance == 0 && !ActivityOf(m, a).inLedger
    ensures ActivityOf(WithBalances(m, balances), a) ==
            ActivityOf(m, a).(inLedger := a in balances, balance := if a in balances then balances[a] else 0)
  {
  }

  lemma {:induction false} TellsApartFromBalance(c: Crypto, x: Activity, y: Activity, blocks: seq<Block>, a: Str)
    requires Bodied(blocks) && |blocks| <= U64_MAX + 1 && Tells(c, x, blocks, a)
    requires y == x.(inLedger := y.inLedger, balance := y.balance)
    ensures Tells(c, y, blocks, a)
  {
    hide Listed;
  }

  // ----- the summary

  lemma {:induction false} HashSetSize(c: Crypto, txs: seq<Transaction>)
    requires forall i, j :: 0 <= i < j < |txs| ==> TxHash(c, txs[i]) != TxHash(c, txs[j])
    ensures |HashSet(c, txs)| == |txs|
    decreases |txs|
  {
    hide TxHash;
    if txs == [] {
      assert HashSet(c, txs) == {};
    } else {
      HashSetSize(c, DropLast(txs));
      HashSetSnoc(c, txs);
      assert TxHash(c, Last(txs)) !in HashSet(c, DropLast(txs));
    }
  }

  lemma {:induction false} ChainHashesCount(c: Crypto, now: u64, network: Network, blocks: seq<Block>)
    requires Valid(c, now, network, blocks)
    ensures |HashSet(c, AllTransactions(blocks))| == |AllTransactions(blocks)|
    decreases |blocks|
  {
    hide Valid, TxHash, HashSet;
    if blocks == [] {
      HashSetSize(c, []);
    } else {
      ValidPrefix(c, now, network, blocks, |blocks| - 1);
      ChainHashesCount(c, now, network, DropLast(blocks));
      TipIsFresh(c, now, network, blocks);
      HashSetSize(c, Last(blocks).transactions);
      HashSetConcat(c, AllTransactions(DropLast(blocks)), Last(blocks).transactions);
    }
  }

  /** The summary counts the chain's blocks and transactions, names its tip, and splits the
      supply cap into what is emitted and what remains. */
  lemma {:induction false} SummaryMeaning(c: Crypto, now: u64, network: Network, blocks: seq<Block>)
    requires Valid(c, now, network, blocks) && blocks != []
    ensures Rebuild(c, now, blocks).Ok?
    ensures var index := Rebuild(c, now, blocks).value;
            && index.summary.network == network
            && index.summary.height == Some(|blocks| - 1) && index.summary.blockCount == |blocks|
            && index.summary.tipHash == Some(BlockHash(c, Last(blocks)))
            && index.summary.latestTimestamp == Some(Last(blocks).header.timestamp)
            && index.summary.transactionCount == |AllTransactions(blocks)|
            && index.summary.addressCount == |index.tables.addresses|
            && index.summary.emitted == Emitted(|blocks|)
            && index.summary.emitted + index.summary.remaining == MAX_SUPPLY
  {
    hide Rebuild, FromBlocks, BlockHash, WithBlocks, WithBalances, HashSet, Emitted, DescribesBlock, Summarize,
         BlockHashes, Rows;
    RebuildIs(c, now, network, blocks);
    var index := Rebuild(c, now, blocks).value;
    SummaryFields(c, FromBlocks(c, now, network, blocks).value, index.tables);
    TransactionRowKeys(c, now, network, blocks);
    ChainHashesCount(c, now, network, blocks);
    BlockRows(c, now, network, blocks);
    TipHeader(c, now, network, blocks);
    EmittedByChain(c, now, network, blocks);
    EmittedBounded(|blocks|);
    assert FoundBothWays(c, index.tables, blocks, |blocks| - 1);
    RowTimestamp(c, index.tables.byHeight[|blocks| - 1], blocks);
    assert |index.tables.transactions| == |index.tables.transactions.Keys|;
  }

  lemma {:induction false} SummaryFields(c: Crypto, chain: Chain, t: Tables)
    requires chain.blocks != []
    ensures var s, height := Summarize(c, chain, t), Last(chain.blocks).header.height;
            && s.network == chain.network && s.height == Some(height) && s.blockCount == |chain.blocks|
            && s.tipHash == Some(BlockHash(c, Last(chain.blocks)))
            && (height in t.byHeight ==> s.latestTimestamp == Some(t.byHeight[height].timestamp))
            && s.transactionCount == |t.transactions| && s.addressCount == |t.addresses|
            && s.emitted == chain.state.emitted
            && (s.emitted <= MAX_SUPPLY ==> s.emitted + s.remaining == MAX_SUPPLY)
  {
    hide BlockHash;
  }

  lemma {:induction false} RowTimestamp(c: Crypto, row: IndexedBlock, blocks: seq<Block>)
    requires blocks != [] && Last(blocks).transactions != [] && DescribesBlock(c, row, blocks, |blocks| - 1)
    ensures row.timestamp == Last(blocks).header.timestamp
  {
    hide TxHash, BlockHash;
  }

  lemma {:induction false} TransactionRowKeys(c: Crypto, now: u64, network: Network, blocks: seq<Block>)
    requires Valid(c, now, network, blocks) && blocks != []
    ensures Rebuild(c, now, blocks).Ok?
    ensures Rebuild(c, now, blocks).value.tables.transactions.Keys == HashSet(c, AllTransactions(blocks))
  {
    hide Valid, Rebuild, TxHash, Located;
    IndexLocatesTransactions(c, now, network, blocks);
  }

  lemma {:induction false} EmittedByChain(c: Crypto, now: u64, network: Network, blocks: seq<Block>)
    requires Valid(c, now, network, blocks) && blocks != []
    ensures FromBlocks(c, now, network, blocks).value.state.emitted == Emitted(|blocks|)
    ensures FromBlocks(c, now, network, blocks).value.network == network
    ensures FromBlocks(c, now, network, blocks).value.blocks == blocks
  {
    hide FromBlocks, BlockHash, TxHash, Held, Linked, NoncesMatch, Emitted, HashSet;
    FromBlocksShape(c, now, network, blocks);
    ValidChainInvariant(c, now, network, blocks);
  }
}
