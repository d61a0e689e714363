/** Block templates (devnet.rs): what the builder produces is what the validator accepts. */
module Templates {
  import opened Prelude
  import opened Primitives
  import opened Transactions
  import opened Merkle
  import opened Blocks
  import opened Emission
  import opened Difficulty
  import opened Consensus
  import opened Ledgers
  import opened Chains
  import opened ChainIdentity
  import opened Mempool
  import opened MempoolEvents
  import opened TemplateSelection
  import opened Nodes

  const MAX_TEMPLATE_TRANSACTIONS: nat := 10_000

  datatype Template = Template(block: Block, included: seq<Digest>, skipped: seq<Digest>)

  function TipsOf(txs: seq<Transaction>, baseFee: u64): Result<u64> {
    if txs == [] then Ok(0) else
      var total :- TipsOf(DropLast(txs), baseFee);
      var _ :- ValidateFee(Last(txs), baseFee);
      var tip :- EffectivePriorityFee(Last(txs), baseFee);
      CheckedAdd(total, tip)
  }

  function CoinbaseFor(height: u64, miner: Str, amount: u64): Transaction {
    Transaction(1, height, None, miner, amount, 0, 0, None, None, None)
  }

  /** The current time, but after the tip and after the median of the recent blocks. */
  function TemplateTime(now: u64, blocks: seq<Block>): u64
    requires blocks != []
  {
    var floor := match MedianTimePast(blocks) case Some(m) => Min(m + 1, U64_MAX) case None => 0;
    Max(now, Max(SaturatingAdd(Last(blocks).header.timestamp, 1), floor))
  }

  function Limit(maxTransactions: nat, maxPool: nat): nat {
    Min(Min(maxTransactions, maxPool), MAX_TRANSACTIONS_PER_BLOCK - 1)
  }

  function Assemble(
    c: Crypto, now: u64, network: Network, blocks: seq<Block>, fallback: u8, miner: Str, spends: seq<Transaction>)
    : Result<Block>
    requires blocks != [] && Last(blocks).header.height < U64_MAX
  {
    var height, baseFee := Last(blocks).header.height + 1, NextBaseFee(blocks);
    var tips :- TipsOf(spends, baseFee);
    var amount :- CheckedAdd(BlockReward(height), tips);
    var coinbase := CoinbaseFor(height, miner, amount);
    var _ :- ValidateShape(c, coinbase);
    var root :- MerkleRoot(c, [coinbase] + spends);
    var version, difficulty := ExpectedVersion(network, height), NextDifficulty(network, blocks, fallback);
    var header := Header(version, network.NetworkId(), height, BlockHash(c, Last(blocks)), root, baseFee,
                         TemplateTime(now, blocks), 0, Zero, difficulty);
    Ok(Block(header, [coinbase] + spends))
  }

  function CreateTemplate(
    c: Crypto, now: u64, n: Node, fallback: u8, miner: Str, maxTransactions: nat): Result<Template>
  {
    var _ :- Need(0 < maxTransactions <= MAX_TEMPLATE_TRANSACTIONS, InvalidInput);
    var _ :- ParseAddress(c, miner);
    var blocks :- LoadBlocks(c, n);
    var chain :- FromBlocks(c, now, n.network, blocks);
    var (selected, skipped) :- Select(c, chain, Mined(c, chain), n.pool, Limit(maxTransactions, n.maxPool), now);
    var _ :- Need(Last(blocks).header.height < U64_MAX, InvalidHeight);
    var block :- Assemble(c, now, n.network, blocks, fallback, miner, Txs(selected));
    Ok(Template(block, Hashes(selected), skipped))
  }

  // ----- the dry run succeeds on a pending list

  lemma {:induction false} SpendFees(c: Crypto, s: Ledger, t: Transaction, baseFee: u64)
    requires !t.IsCoinbase() && ApplyTransaction(c, s, t, baseFee).result.Ok?
    ensures var step := ApplyTransaction(c, s, t, baseFee);
            var fee := step.result.value;
            fee.burned == baseFee && fee.total == fee.burned + fee.tip &&
                step.state.totalBurned == s.totalBurned + baseFee
  {
    hide TxHash, Verify;
  }

  /** A list that applies in order can be simulated without overflow, and its fees are what
      the ledger lost and burned. */
  lemma {:induction false} ReplaySimulates(c: Crypto, s: Ledger, txs: seq<Transaction>, baseFee: u64)
    requires NoCoinbase(txs) && Held(s) <= U64_MAX && Replay(c, s, txs, baseFee).result.Ok?
    ensures Simulate(c, s, txs, baseFee).Ok?
    ensures var after := Replay(c, s, txs, baseFee).state;
            var fees := Simulate(c, s, txs, baseFee).value.1;
            && Simulate(c, s, txs, baseFee).value.0 == after
            && fees.tip + Held(after) == Held(s) && fees.burned + s.totalBurned == after.totalBurned
            && fees.total == fees.tip + fees.burned
            && TipsOf(txs, baseFee) == Ok(fees.tip)
  {
    hide ApplyTransaction, TxHash, Total, ValidateFee, EffectivePriorityFee, SpendEffect;
    if txs != [] {
      ReplaySimulates(c, s, DropLast(txs), baseFee);
      var before := Replay(c, s, DropLast(txs), baseFee).state;
      SpendConserves(c, before, Last(txs), baseFee);
      SpendFees(c, before, Last(txs), baseFee);
      SpendHeld(c, before, Last(txs), baseFee);
    }
  }

  lemma {:induction false} SpendHeld(c: Crypto, s: Ledger, t: Transaction, baseFee: u64)
    requires !t.IsCoinbase() && ApplyTransaction(c, s, t, baseFee).result.Ok?
    ensures Held(ApplyTransaction(c, s, t, baseFee).state) + ApplyTransaction(c, s, t, baseFee).result.value.tip ==
            Held(s)
  {
    hide ApplyTransaction, TxHash, Total;
    SpendConserves(c, s, t, baseFee);
  }

  lemma {:induction false} TipsAreCollected(first: Transaction, txs: seq<Transaction>, count: nat, baseFee: u64)
    requires count <= |txs|
    ensures CollectedTips([first] + txs, count, baseFee) == TipsOf(txs[..count], baseFee)
    decreases count
  {
    hide ValidateFee, EffectivePriorityFee;
    if count > 0 {
      TipsAreCollected(first, txs, count - 1, baseFee);
      assert DropLast(txs[..count]) == txs[..count - 1];
      assert ([first] + txs)[count] == txs[count - 1] == Last(txs[..count]);
    }
  }

  // ----- bodies

  lemma {:induction false} GoodBodiesPass(c: Crypto, txs: seq<Transaction>, count: nat)
    requires count <= |txs|
    requires forall i :: 0 <= i < |txs| ==> |Encode(c, txs[i])| <= MAX_TRANSACTION_WIRE_BYTES && Verify(c, txs[i]).Ok?
    requires forall i, j :: 0 <= i < j < |txs| ==> TxHash(c, txs[i]) != TxHash(c, txs[j])
    ensures CheckBodies(c, txs, count).Ok?
    decreases count
  {
    hide Encode, Verify;
    if count > 0 {
      GoodBodiesPass(c, txs, count - 1);
      assert Verify(c, txs[count - 1]).value == ();
    }
  }

  lemma {:induction false} BodyLength(t: Transaction)
    requires |t.to| <= 65 && (t.from.Some? ==> |t.from.value| <= 65)
    ensures |EncodeBody(t)| <= 1_000
  {
  }

  lemma {:induction false} WireLength(c: Crypto, t: Transaction)
    requires |t.to| <= 65 && (t.from.Some? ==> |t.from.value| <= 65)
    ensures |Encode(c, t)| <= MAX_TRANSACTION_WIRE_BYTES
  {
    hide EncodeBody, EncodeString, SigningNetworkId, Ascii;
    BodyLength(t);
  }

  lemma {:induction false} VerifiedWireLength(c: Crypto, t: Transaction)
    requires AddressesAreShort(c) && Verify(c, t).Ok?
    ensures |Encode(c, t)| <= MAX_TRANSACTION_WIRE_BYTES
  {
    hide Encode, Verify;
    VerifiedShape(c, t);
    WireLength(c, t);
  }

  lemma {:induction false} CoinbaseHashDiffers(c: Crypto, coinbase: Transaction, t: Transaction)
    requires coinbase.IsCoinbase() && !t.IsCoinbase() && Verify(c, t).Ok?
    ensures TxHash(c, coinbase) != TxHash(c, t)
  {
    hide Verify;
    VerifiedShape(c, t);
    LayoutsNeverCollide(c, coinbase, t);
  }

  lemma {:induction false} TemplateBodies(
    c: Crypto, s: Ledger, coinbase: Transaction, spends: seq<Transaction>, baseFee: u64)
    requires AddressesAreShort(c) && coinbase.IsCoinbase() && ValidateShape(c, coinbase).Ok?
    requires NoCoinbase(spends) && Replay(c, s, spends, baseFee).result.Ok?
    ensures var txs := [coinbase] + spends; CheckBodies(c, txs, |txs|).Ok?
  {
    hide Replay, Encode, Verify, ValidateShape, CheckBodies, NonceEffect;
    var txs := [coinbase] + spends;
    ReplayEffect(c, s, spends, baseFee);
    CoinbaseVerifies(c, coinbase);
    forall i | 0 <= i < |txs| ensures |Encode(c, txs[i])| <= MAX_TRANSACTION_WIRE_BYTES && Verify(c, txs[i]).Ok? {
      if i > 0 { ReplayedAreVerified(c, s, spends, baseFee, i - 1); }
      VerifiedWireLength(c, txs[i]);
    }
    forall i, j | 0 <= i < j < |txs| ensures TxHash(c, txs[i]) != TxHash(c, txs[j]) {
      ReplayedAreVerified(c, s, spends, baseFee, j - 1);
      if i == 0 {
        CoinbaseHashDiffers(c, coinbase, txs[j]);
      } else {
        assert TxHash(c, spends[i - 1]) != TxHash(c, spends[j - 1]);
      }
    }
    GoodBodiesPass(c, txs, |txs|);
  }

  lemma {:induction false} CoinbaseVerifies(c: Crypto, t: Transaction)
    requires t.IsCoinbase() && ValidateShape(c, t).Ok?
    ensures Verify(c, t).Ok?
  {
    hide ValidateShape;
  }

  // ----- header

  lemma {:induction false} TemplateTimePasses(now: u64, later: u64, blocks: seq<Block>, b: Block)
    requires blocks != [] && TimestampsIncrease(blocks) && now <= later
    requires Last(blocks).header.timestamp < SaturatingAdd(now, MAX_FUTURE_DRIFT)
    requires b.header.timestamp == TemplateTime(now, blocks)
    ensures CheckTimestamp(blocks, b, later).Ok? && CheckMedianTimePast(blocks, b).Ok?
  {
    hide MedianTimePast;
    MedianIsAncient(blocks);
    MedianTimePastIsImplied(blocks, b, later);
  }

  lemma {:induction false} TemplateDifficultyPasses(network: Network, blocks: seq<Block>, fallback: u8)
    requires blocks != []
    ensures var d := NextDifficulty(network, blocks, fallback);
            network.MinimumDifficulty() <= d <= network.MaximumDifficulty() && d == NextDifficulty(network, blocks, d)
  {
    hide LwmaNext;
    var lo, hi := network.MinimumDifficulty(), network.MaximumDifficulty();
    DifficultyMovesLittle(blocks, 60, 60, fallback, lo, hi);
    FallbackIgnored(blocks, 60, 60, fallback, NextDifficulty(network, blocks, fallback), lo, hi);
  }

  /** The template with the two fields a miner fills in. */
  ghost predicate MinedFrom(template: Block, b: Block) {
    b == template.(header := template.header.(nonce := b.header.nonce, mixHash := b.header.mixHash))
  }

  lemma {:induction false} TemplateHeader(
    c: Crypto, now: u64, later: u64, network: Network, blocks: seq<Block>, fallback: u8, miner: Str,
    spends: seq<Transaction>, b: Block)
    requires blocks != [] && TimestampsIncrease(blocks) && now <= later
    requires Last(blocks).header.timestamp < SaturatingAdd(now, MAX_FUTURE_DRIFT)
    requires Last(blocks).header.height < U64_MAX
    requires Assemble(c, now, network, blocks, fallback, miner, spends).Ok?
    requires MinedFrom(Assemble(c, now, network, blocks, fallback, miner, spends).value, b)
    ensures CheckHeader(c, later, network, blocks, b).Ok?
  {
    hide TipsOf, ValidateShape, MerkleRoot, NextDifficulty, NextBaseFee, BlockHash, MedianTimePast, CheckTimestamp,
         CheckMedianTimePast, TemplateTime, BlockReward;
    TemplateTimePasses(now, later, blocks, b);
    TemplateDifficultyPasses(network, blocks, fallback);
  }

  /** On an accepted chain the template's time is the clock, or one second after the tip if
      the clock is behind. */
  lemma {:induction false} TemplateTimeIs(now: u64, blocks: seq<Block>)
    requires blocks != [] && TimestampsIncrease(blocks) && Last(blocks).header.timestamp < U64_MAX
    ensures TemplateTime(now, blocks) == Max(now, Last(blocks).header.timestamp + 1)
  {
    hide MedianTimePast;
    MedianIsAncient(blocks);
  }

  // ----- coinbase and body

  lemma {:induction false} TemplateCoinbase(
    c: Crypto, now: u64, network: Network, blocks: seq<Block>, fallback: u8, miner: Str, spends: seq<Transaction>,
    b: Block)
    requires blocks != [] && Last(blocks).header.height < U64_MAX && NoCoinbase(spends)
    requires Assemble(c, now, network, blocks, fallback, miner, spends).Ok?
    requires MinedFrom(Assemble(c, now, network, blocks, fallback, miner, spends).value, b)
    ensures b.transactions == [b.transactions[0]] + spends && b.transactions[0].IsCoinbase()
    ensures ValidateShape(c, b.transactions[0]).Ok?
    ensures b.transactions[0].to == miner && b.transactions[0].amount != 0
    ensures CheckCoinbaseAmount(b.header.height, b.header.baseFee, b.transactions).Ok?
    ensures MerkleRoot(c, b.transactions) == Ok(b.header.merkleRoot)
    ensures TipsOf(spends, b.header.baseFee).Ok?
    ensures b.transactions[0].amount == BlockReward(b.header.height) + TipsOf(spends, b.header.baseFee).value
    ensures b.header.height == Last(blocks).header.height + 1 && b.header.baseFee == NextBaseFee(blocks)
    ensures b.header.previousHash == BlockHash(c, Last(blocks)) && b.header.timestamp == TemplateTime(now, blocks)
  {
    hide TipsOf, MerkleRoot, NextDifficulty, NextBaseFee, BlockHash, TemplateTime, BlockReward, CollectedTips;
    var baseFee := NextBaseFee(blocks);
    assert spends[..|spends|] == spends;
    TipsAreCollected(b.transactions[0], spends, |spends|, baseFee);
    ShapedHasAmount(c, b.transactions[0]);
  }

  lemma {:induction false} ShapedHasAmount(c: Crypto, t: Transaction)
    requires ValidateShape(c, t).Ok?
    ensures t.amount != 0
  {
  }

  lemma {:induction false} TemplateBody(c: Crypto, network: Network, b: Block, spends: seq<Transaction>)
    requires b.transactions != [] && b.transactions == [b.transactions[0]] + spends && b.transactions[0].IsCoinbase()
    requires CheckCoinbaseAmount(b.header.height, b.header.baseFee, b.transactions).Ok?
    requires MerkleRoot(c, b.transactions) == Ok(b.header.merkleRoot) && EnsurePow(c, b).Ok?
    requires ParseAddress(c, b.transactions[0].to) == Ok(network)
    requires forall i :: 0 <= i < |spends| ==> TransactionNetwork(c, spends[i]) == Ok(network)
    ensures CheckBody(c, network, b).Ok?
  {
    hide MerkleRoot, EnsurePow, CheckCoinbaseAmount;
    forall i | 0 <= i < |b.transactions| ensures TransactionNetwork(c, b.transactions[i]) == Ok(network) {
      if i > 0 { assert b.transactions[i] == spends[i - 1]; }
    }
  }

  // ----- ledger

  /** No account's nonce counter is within one block of the 64-bit maximum. */
  ghost predicate NoncesHaveRoom(s: Ledger) {
    forall a :: s.NextNonceOf(a) + MAX_TRANSACTIONS_PER_BLOCK <= U64_MAX
  }

  lemma {:induction false} SpendAppears(txs: seq<Transaction>, i: nat, j: nat, a: Str)
    requires i < j < |txs| && txs[i].from == Some(a) && txs[j].from == Some(a)
    ensures exists p, q :: 0 <= p < q < |SpendNonces(txs, a)| && SpendNonces(txs, a)[p] == txs[i].nonce &&
              SpendNonces(txs, a)[q] == txs[j].nonce
    decreases |txs|
  {
    var shorter := SpendNonces(DropLast(txs), a);
    if j < |txs| - 1 {
      SpendAppears(DropLast(txs), i, j, a);
      var p, q :| 0 <= p < q < |shorter| && shorter[p] == txs[i].nonce && shorter[q] == txs[j].nonce;
      assert SpendNonces(txs, a)[p] == txs[i].nonce && SpendNonces(txs, a)[q] == txs[j].nonce;
    } else {
      SpendIsListed(DropLast(txs), i, a);
      var p :| 0 <= p < |shorter| && shorter[p] == txs[i].nonce;
      var q := |shorter|;
      assert SpendNonces(txs, a)[p] == txs[i].nonce && SpendNonces(txs, a)[q] == txs[j].nonce;
    }
  }

  lemma {:induction false} SpendIsListed(txs: seq<Transaction>, i: nat, a: Str)
    requires i < |txs| && txs[i].from == Some(a)
    ensures exists p :: 0 <= p < |SpendNonces(txs, a)| && SpendNonces(txs, a)[p] == txs[i].nonce
    decreases |txs|
  {
    var shorter := SpendNonces(DropLast(txs), a);
    if i < |txs| - 1 {
      SpendIsListed(DropLast(txs), i, a);
      var p :| 0 <= p < |shorter| && shorter[p] == txs[i].nonce;
      assert SpendNonces(txs, a)[p] == txs[i].nonce;
    } else {
      assert SpendNonces(txs, a)[|shorter|] == txs[i].nonce;
    }
  }

  lemma {:induction false} SpendCount(txs: seq<Transaction>, a: Str)
    ensures |SpendNonces(txs, a)| <= |txs|
    decreases |txs|
  {
    if txs != [] {
      SpendCount(DropLast(txs), a);
    }
  }

  lemma {:induction false} SelectedNoncesDiffer(c: Crypto, s: Ledger, txs: seq<Transaction>, baseFee: u64)
    requires NoCoinbase(txs) && Replay(c, s, txs, baseFee).result.Ok? && NoncesHaveRoom(s)
    requires |txs| <= MAX_TRANSACTIONS_PER_BLOCK
    ensures NoRepeatedNonce(txs)
  {
    hide Replay, TxHash, SpendNonces;
    ReplayEffect(c, s, txs, baseFee);
    var after := Replay(c, s, txs, baseFee).state;
    forall i, j | 0 <= i < j < |txs| && txs[i].from.Some? && txs[i].from == txs[j].from
      ensures txs[i].nonce != txs[j].nonce
    {
      var a := txs[i].from.value;
      SpendAppears(txs, i, j, a);
      SpendCount(txs, a);
      assert NonceEffect(s, after, txs, a);
      var p, q :| 0 <= p < q < |SpendNonces(txs, a)| && SpendNonces(txs, a)[p] == txs[i].nonce &&
          SpendNonces(txs, a)[q] == txs[j].nonce;
    }
  }

  lemma {:induction false} TemplateLedger(c: Crypto, s: Ledger, b: Block, spends: seq<Transaction>)
    requires Sound(s) && NoRepeatedNonce(spends) && NoCoinbase(spends)
    requires b.transactions != [] && b.transactions == [b.transactions[0]] + spends
    requires Replay(c, s, spends, b.header.baseFee).result.Ok?
    requires b.header.height == BlockCount(s) && (s.tipHash.Some? ==> b.header.previousHash == s.tipHash.value)
    requires s.tipHash.Some? && (s.tipTimestamp.Some? ==> b.header.timestamp > s.tipTimestamp.value)
    requires CheckCoinbaseAmount(b.header.height, b.header.baseFee, b.transactions).Ok?
    requires TipsOf(spends, b.header.baseFee).Ok?
    requires b.transactions[0].amount == BlockReward(b.header.height) + TipsOf(spends, b.header.baseFee).value
    ensures ValidateBlock(c, s, b).Ok?
  {
    hide Replay, Simulate, Total, Emitted, CheckCoinbaseAmount, BlockReward, TipsOf, TxHash, NoRepeatedNonce;
    assert b.transactions[1..] == spends;
    HeldFits(s);
    ReplaySimulates(c, s, spends, b.header.baseFee);
    SupplyCapNeverFires(s);
  }

  // ----- what a template contains

  /** A template pays the asked miner the subsidy and the tips, and holds the transactions it
      reports, in order; their number is limited by the request, the pool limit and the block.
      If the limit is not reached, none of the transactions still waiting could be appended,
      unless more than 64 compete and 64 are in. */
  lemma {:induction false} TemplateContents(
    c: Crypto, now: u64, n: Node, fallback: u8, miner: Str, maxTransactions: nat)
    requires NodeInvariant(c, n) && CreateTemplate(c, now, n, fallback, miner, maxTransactions).Ok?
    ensures Valid(c, now, n.network, n.canonical)
    ensures var made := CreateTemplate(c, now, n, fallback, miner, maxTransactions).value;
            var txs, baseFee := made.block.transactions, made.block.header.baseFee;
            var chain := FromBlocks(c, now, n.network, n.canonical).value;
            var limit := Min(Min(maxTransactions, n.maxPool), 1_023);
            var candidates := Candidates(c, chain, Mined(c, chain), n.pool, now);
            && txs != [] && txs[0].IsCoinbase() && txs[0].to == miner
            && TipsOf(txs[1..], baseFee).Ok?
            && txs[0].amount == BlockReward(|n.canonical|) + TipsOf(txs[1..], baseFee).value
            && |made.included| == |txs| - 1 <= limit
            && (forall i :: 0 <= i < |made.included| ==> made.included[i] == TxHash(c, txs[i + 1]))
            && (forall r :: r in n.pool && limit > 0 ==> r.txHash in made.included || r.txHash in made.skipped)
            && (|made.included| < limit && (|candidates| <= 64 || |made.included| < 64) ==>
                 forall r :: r in candidates && r.txHash !in made.included ==>
                   ValidatePending(c, Replay(c, chain.state, txs[1..], baseFee).state, r.tx, baseFee).Err?)
  {
    hide FromBlocks, Select, EverValid, ArchiveSound, CheckStructure, TxHash, BlockHash, Mined, ChainInvariant, Replay,
         ValidatePending, Candidates, Assemble, BlockReward, TipsOf, NextBaseFee;
    var chain := FromBlocks(c, now, n.network, n.canonical).value;
    RebuiltInvariant(c, now, n.network, n.canonical);
    TipHeader(c, now, n.network, n.canonical);
    var limit := Limit(maxTransactions, n.maxPool);
    SelectMeaning(c, chain, Mined(c, chain), n.pool, limit, now);
    var selected := Select(c, chain, Mined(c, chain), n.pool, limit, now).value.0;
    PendingParts(c, chain, selected);
    var made := CreateTemplate(c, now, n, fallback, miner, maxTransactions).value;
    TemplateCoinbase(c, now, n.network, n.canonical, fallback, miner, Txs(selected), made.block);
    assert made.block.transactions[1..] == Txs(selected);
  }

  lemma {:induction false} PendingParts(c: Crypto, chain: Chain, selected: seq<Record>)
    requires Pending(c, chain, selected)
    ensures NoCoinbase(Txs(selected)) && Consistent(c, selected)
  {
  }

  // ----- the theorem

  lemma {:induction false} TemplateAppends(
    c: Crypto, now: u64, later: u64, chain: Chain, fallback: u8, miner: Str, selected: seq<Record>, b: Block)
    requires chain.blocks != [] && ChainInvariant(c, chain) && Last(chain.blocks).header.height < U64_MAX
    requires now <= later && AddressesAreShort(c)
    requires Last(chain.blocks).header.timestamp < SaturatingAdd(now, MAX_FUTURE_DRIFT)
    requires ParseAddress(c, miner) == Ok(chain.network)
    requires Pending(c, chain, selected) && SameNetwork(c, chain.network, selected)
    requires |selected| < MAX_TRANSACTIONS_PER_BLOCK
    requires Assemble(c, now, chain.network, chain.blocks, fallback, miner, Txs(selected)).Ok?
    requires MinedFrom(Assemble(c, now, chain.network, chain.blocks, fallback, miner, Txs(selected)).value, b)
    requires EnsurePow(c, b).Ok?
    ensures b.transactions != [] && b.transactions[1..] == Txs(selected)
    ensures AppendBlock(c, later, chain, b).Ok? <==>
            NoRepeatedNonce(b.transactions[1..]) && TxHash(c, b.transactions[0]) !in chain.state.applied
  {
    hide Replay, Assemble, MinedFrom, CheckBodies, CheckHeader, CheckBody, ValidateBlock, EnsurePow, Encode,
         TransactionNetwork, CheckCoinbaseAmount, MerkleRoot, BlockHash, NextBaseFee, TemplateTime, BlockReward,
         TipsOf, AddressesAreShort, NoncesMatch, HashSet, Sound, NoRepeatedNonce, ValidateShape, ApplyBlock;
    var spends := Txs(selected);
    TemplateCoinbase(c, now, chain.network, chain.blocks, fallback, miner, spends, b);
    TemplateHeader(c, now, later, chain.network, chain.blocks, fallback, miner, spends, b);
    TemplateBodies(c, chain.state, b.transactions[0], spends, b.header.baseFee);
    TemplateBody(c, chain.network, b, spends);
    TemplateTimeAfterTip(now, chain.blocks);
    assert Last(chain.blocks).header.height == |chain.blocks| - 1 by { HeightIsLength(c, chain.blocks); }
    assert b.transactions[1..] == spends;
    AppliedMeans(c, chain.state, b);
    if NoRepeatedNonce(spends) {
      TemplateLedger(c, chain.state, b, spends);
      SupplyCapNeverFires(chain.state);
      TemplateApplies(c, chain.state, b, spends);
    }
  }

  /** The two conditions are necessary for any block. */
  lemma {:induction false} AppliedMeans(c: Crypto, s: Ledger, b: Block)
    requires Sound(s)
    ensures ApplyBlock(c, s, b).result.Ok? ==> ValidateBlock(c, s, b).Ok? && b.transactions != []
    ensures ApplyBlock(c, s, b).result.Ok? ==> NoRepeatedNonce(b.transactions[1..])
    ensures ApplyBlock(c, s, b).result.Ok? ==> TxHash(c, b.transactions[0]) !in s.applied
  {
    hide Sound, Replay, Simulate, TxHash, ApplyTransaction, NoRepeatedNonce, HashSet;
    if ValidateBlock(c, s, b).Ok? {
      ApplyBlockOutcome(c, s, b);
    }
  }

  lemma {:induction false} TemplateTimeAfterTip(now: u64, blocks: seq<Block>)
    requires blocks != [] && Last(blocks).header.timestamp < SaturatingAdd(now, MAX_FUTURE_DRIFT)
    ensures TemplateTime(now, blocks) > Last(blocks).header.timestamp
  {
    hide MedianTimePast;
  }

  lemma {:induction false} TemplateApplies(c: Crypto, s: Ledger, b: Block, spends: seq<Transaction>)
    requires Sound(s) && ValidateBlock(c, s, b).Ok? && b.transactions != []
    requires b.transactions == [b.transactions[0]] + spends
    requires NoCoinbase(spends) && Replay(c, s, spends, b.header.baseFee).result.Ok?
    requires b.transactions[0].IsCoinbase()
    ensures ApplyBlock(c, s, b).result.Ok? <==> TxHash(c, b.transactions[0]) !in s.applied
  {
    hide Sound, ValidateBlock, ApplyBlock, Encode, Replay, Simulate;
    assert b.transactions[1..] == spends;
    ApplyBlockOutcome(c, s, b);
    if TxHash(c, b.transactions[0]) in HashSet(c, spends) {
      var i :| 0 <= i < |spends| && TxHash(c, spends[i]) == TxHash(c, b.transactions[0]);
      ReplayedAreVerified(c, s, spends, b.header.baseFee, i);
      CoinbaseHashDiffers(c, b.transactions[0], spends[i]);
    }
  }

  /** Every template the node builds, once the miner has found a nonce and mix hash that
      meet its target, is accepted on the same tip by the validator, the ledger and the
      store, at the time of the template or any later time, if and only if its coinbase hash
      is fresh and no sender repeats a nonce. The second can only fail for an account whose
      nonce counter has come within one block of the 64-bit maximum, where it sticks. */
  lemma {:induction false} TemplateIsAccepted(
    c: Crypto, now: u64, later: u64, n: Node, fallback: u8, miner: Str, maxTransactions: nat, b: Block)
    requires NodeInvariant(c, n) && now <= later && AddressesAreShort(c)
    requires CreateTemplate(c, now, n, fallback, miner, maxTransactions).Ok?
    requires MinedFrom(CreateTemplate(c, now, n, fallback, miner, maxTransactions).value.block, b)
    requires EnsurePow(c, b).Ok?
    requires ParseAddress(c, miner) == Ok(n.network)
    requires Last(n.canonical).header.timestamp < SaturatingAdd(now, MAX_FUTURE_DRIFT)
    requires Last(n.canonical).header.height < I64_MAX
    ensures b.transactions != [] && Valid(c, now, n.network, n.canonical)
    ensures var state := StateOf(c, now, n.network, n.canonical);
            var fresh' := TxHash(c, b.transactions[0]) !in state.applied;
            && (SubmitMinedBlock(c, later, n, b).Ok? <==> fresh' && NoRepeatedNonce(b.transactions[1..]))
            && (NoncesHaveRoom(state) ==> NoRepeatedNonce(b.transactions[1..]))
    ensures SubmitMinedBlock(c, later, n, b).Ok? ==>
            SubmitMinedBlock(c, later, n, b).value.canonical == n.canonical + [b]
  {
    hide FromBlocks, Select, Assemble, MinedFrom, EnsurePow, NoncesHaveRoom, AddressesAreShort, TxHash, BlockHash,
         EverValid, ArchiveSound, CheckStructure, AppendBlock, CanInsert, Unmined, Mined, ChainInvariant, Replay,
         NoRepeatedNonce;
    var chain := FromBlocks(c, now, n.network, n.canonical).value;
    RebuiltInvariant(c, now, n.network, n.canonical);
    var limit := Limit(maxTransactions, n.maxPool);
    SelectMeaning(c, chain, Mined(c, chain), n.pool, limit, now);
    var selected := Select(c, chain, Mined(c, chain), n.pool, limit, now).value.0;
    SubsetSameNetwork(c, n.network, selected, n.pool);
    TemplateAppends(c, now, later, chain, fallback, miner, selected, b);
    LaterClock(c, now, later, n.network, n.canonical);
    if NoncesHaveRoom(chain.state) {
      SelectedNoncesDiffer(c, chain.state, Txs(selected), NextBaseFee(chain.blocks));
    }
    if AppendBlock(c, later, chain, b).Ok? {
      AppendFits(c, later, n.network, n.canonical, b);
    }
  }
}
