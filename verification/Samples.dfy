/** A concrete network on which the theorems apply: a genesis block that is accepted,
    templates mined on top of it, and coinbase-only chains of any moderate length. */
module Samples {
  import opened Prelude
  import opened Primitives
  import opened Transactions
  import opened Merkle
  import opened Blocks
  import opened Emission
  import opened Difficulty
  import opened Consensus
  import opened Ledgers
  import opened Chains
  import opened ChainIdentity
  import opened Mempool
  import opened MempoolEvents
  import opened TemplateSelection
  import opened Nodes
  import opened Templates

  const MINER: Str := [109]

  /** Short strings are addresses, every key belongs to the miner, every signature checks,
      every nonce meets the target. */
  function Lenient(): Crypto {
    Crypto((s: Str) => if |s| <= 65 then Some(Devnet) else None,
           (key, network) => MINER, (key, message, signature) => true,
           (number, seed, nonce) => true, (number, seed, mix, nonce, boundary) => true,
           digest => seq(32, _ => 0))
  }

  lemma {:induction false} LenientAddressesAreShort()
    ensures AddressesAreShort(Lenient()) && ParseAddress(Lenient(), MINER) == Ok(Devnet)
  {
  }

  /** The header with the mix hash that belongs to its seed and nonce. */
  function Sealed(b: Block): Block {
    b.(header := b.header.(mixHash := Mix(HeightAsI32(b.header.height), SeedOf(b.header), b.header.nonce)))
  }

  lemma {:induction false} ZeroMeets(hash: Bytes32, boundary: Bytes32, i: nat)
    requires i <= 32 && forall k :: 0 <= k < 32 ==> hash[k] == 0
    ensures MeetsFrom(hash, boundary, i)
    decreases 32 - i
  {
    if i < 32 {
      ZeroMeets(hash, boundary, i + 1);
    }
  }

  lemma {:induction false} SealedPasses(b: Block)
    ensures EnsurePow(Lenient(), Sealed(b)).Ok?
  {
    hide Boundary, MeetsFrom;
    var h := Sealed(b).header;
    ZeroMeets(Lenient().digestBytes(Pow(HeightAsI32(h.height), SeedOf(h), h.nonce)), Boundary(h.difficulty), 0);
  }

  // ----- genesis

  lemma {:induction false} EarlyReward(height: nat)
    requires height < 1_576_800
    ensures BlockReward(height) == INITIAL_REWARD > 0
  {
    assert Halvings(height) == 0;
    assert Pow2(0) == 1;
  }

  function CoinbaseAt(nonce: u64): Transaction { CoinbaseFor(nonce, MINER, INITIAL_REWARD) }

  function GenesisDraft(nonce: u64): Block {
    var root := TxHash(Lenient(), CoinbaseAt(nonce));
    Block(Header(1, Devnet.NetworkId(), 0, Zero, root, 1, 0, 0, Zero, 4), [CoinbaseAt(nonce)])
  }

  /** A genesis block whose coinbase carries the given nonce. */
  function GenesisWith(nonce: u64): Block { Sealed(GenesisDraft(nonce)) }

  function Genesis(): Block { GenesisWith(0) }

  lemma {:induction false} CoinbaseIsShaped(nonce: u64)
    ensures ValidateShape(Lenient(), CoinbaseAt(nonce)).Ok?
    ensures TransactionNetwork(Lenient(), CoinbaseAt(nonce)) == Ok(Devnet)
  {
    assert MINER[0] == 109;
  }

  lemma {:induction false} GenesisBodies(nonce: u64)
    ensures CheckBodies(Lenient(), GenesisWith(nonce).transactions, 1).Ok?
  {
    hide Encode, Verify, ValidateShape;
    var t := CoinbaseAt(nonce);
    CoinbaseIsShaped(nonce);
    CoinbaseVerifies(Lenient(), t);
    WireLength(Lenient(), t);
    GoodBodiesPass(Lenient(), GenesisWith(nonce).transactions, 1);
  }

  lemma {:induction false} GenesisCoinbaseAmount(nonce: u64)
    ensures CheckCoinbaseAmount(0, 1, GenesisWith(nonce).transactions) == Ok(INITIAL_REWARD)
  {
    hide Encode, BlockReward, BlockHash;
    EarlyReward(0);
    assert CollectedTips(GenesisWith(nonce).transactions, 0, 1) == Ok(0);
  }

  lemma {:induction false} GenesisBody(nonce: u64)
    ensures CheckBody(Lenient(), Devnet, GenesisWith(nonce)).Ok?
  {
    hide Encode, EnsurePow, CheckCoinbaseAmount, TransactionNetwork;
    GenesisCoinbaseAmount(nonce);
    CoinbaseIsShaped(nonce);
    SealedPasses(GenesisDraft(nonce));
    assert MerkleRoot(Lenient(), GenesisWith(nonce).transactions) == Ok(TxHash(Lenient(), CoinbaseAt(nonce)));
  }

  lemma {:induction false} GenesisHeader(nonce: u64)
    ensures CheckHeader(Lenient(), 0, Devnet, [], GenesisWith(nonce)).Ok?
  {
    hide Encode, BlockHash;
  }

  /** The genesis block is an accepted chain. */
  lemma {:induction false} GenesisIsValid(nonce: u64)
    ensures Valid(Lenient(), 0, Devnet, [GenesisWith(nonce)])
  {
    hide TxHash, BlockHash, CheckBodies, CheckHeader, CheckBody, BlockReward, ValidateBlock, ApplyBlock, Sound,
         HashSet, Simulate;
    var c, g := Lenient(), GenesisWith(nonce);
    GenesisBodies(nonce);
    GenesisHeader(nonce);
    GenesisBody(nonce);
    EarlyReward(0);
    EmptyLedgerSound();
    CoinbaseOnlyValidates(c, EMPTY_LEDGER, g);
    NoHashes(c, g);
    ApplyBlockOutcome(c, EMPTY_LEDGER, g);
    assert DropLast([g]) == [] && Last([g]) == g;
    assert FromBlocks(c, 0, Devnet, []) == Ok(Chain(Devnet, [], EMPTY_LEDGER));
  }

  function NodeWith(blocks: seq<Block>): Node { Node.Node(Devnet, 100, blocks, map[], []) }

  lemma {:induction false} NodeIsSound(blocks: seq<Block>)
    requires blocks != [] && Valid(Lenient(), 0, Devnet, blocks)
    ensures NodeInvariant(Lenient(), NodeWith(blocks))
  {
    hide Valid, TxHash, TransactionNetwork;
    ValidIsEverValid(Lenient(), 0, Devnet, blocks);
  }

  // ----- mining on top

  lemma {:induction false} Assembles(now: u64, blocks: seq<Block>)
    requires blocks != [] && Last(blocks).header.height < 7_000
    ensures Assemble(Lenient(), now, Devnet, blocks, 4, MINER, []).Ok?
    ensures var txs := Assemble(Lenient(), now, Devnet, blocks, 4, MINER, []).value.transactions;
            txs == [CoinbaseAt(Last(blocks).header.height + 1)]
  {
    hide TxHash, BlockHash, BlockReward, NextBaseFee, NextDifficulty, TemplateTime, ValidateShape;
    var height := Last(blocks).header.height + 1;
    EarlyReward(height);
    CoinbaseIsShaped(height);
    assert [CoinbaseAt(height)] + [] == [CoinbaseAt(height)];
  }

  /** The empty template made on these blocks at time `now`, with this nonce and the mix hash
      that goes with it. */
  function MinedAt(now: u64, blocks: seq<Block>, nonce: u64): Block {
    if blocks == [] || Last(blocks).header.height >= 7_000 then Genesis() else
      Assembles(now, blocks);
      var draft := Assemble(Lenient(), now, Devnet, blocks, 4, MINER, []).value;
      Sealed(draft.(header := draft.header.(nonce := nonce)))
  }

  /** A block mined at the earliest possible time. */
  function NextOn(blocks: seq<Block>, nonce: u64): Block { MinedAt(0, blocks, nonce) }

  /** An appended block is accepted exactly if its coinbase hash is new. */
  lemma {:induction false} MinedOutcome(now: u64, clock: u64, blocks: seq<Block>, nonce: u64)
    requires blocks != [] && Valid(Lenient(), clock, Devnet, blocks) && now <= clock
    requires Last(blocks).header.height < 7_000 && Last(blocks).header.timestamp <= 7_000
    ensures var b := MinedAt(now, blocks, nonce);
            && b.transactions == [CoinbaseAt(Last(blocks).header.height + 1)] && b.header.nonce == nonce
            && b.header.height == Last(blocks).header.height + 1
            && b.header.timestamp == Max(now, Last(blocks).header.timestamp + 1)
            && b.header.difficulty == NextDifficulty(Devnet, blocks, 4)
            && (Valid(Lenient(), clock, Devnet, blocks + [b]) <==>
                 TxHash(Lenient(), b.transactions[0]) !in StateOf(Lenient(), clock, Devnet, blocks).applied)
  {
    hide FromBlocks, AppendBlock, TxHash, BlockHash, NextBaseFee, NextDifficulty, ChainInvariant, EnsurePow,
         MerkleRoot, ValidateShape, TemplateTime, CheckCoinbaseAmount, Lenient;
    var c, b := Lenient(), MinedAt(now, blocks, nonce);
    Assembles(now, blocks);
    var draft := Assemble(c, now, Devnet, blocks, 4, MINER, []).value;
    RebuiltInvariant(c, clock, Devnet, blocks);
    LenientAddressesAreShort();
    SealedPasses(draft.(header := draft.header.(nonce := nonce)));
    var chain := FromBlocks(c, clock, Devnet, blocks).value;
    NothingPending(c, chain);
    assert Txs([]) == [];
    TemplateAppends(c, now, clock, chain, 4, MINER, [], b);
    TemplateCoinbase(c, now, Devnet, blocks, 4, MINER, [], b);
    TimeIsClose(c, now, clock, blocks);
    AppendedIsValid(c, clock, Devnet, blocks, b);
  }

  lemma {:induction false} NothingPending(c: Crypto, chain: Chain)
    ensures Pending(c, chain, []) && SameNetwork(c, chain.network, [])
  {
    ReplayNothing(c, chain.state, NextBaseFee(chain.blocks));
    assert Txs([]) == [];
  }

  lemma {:induction false} TimeIsClose(c: Crypto, now: u64, clock: u64, blocks: seq<Block>)
    requires blocks != [] && Valid(c, clock, Devnet, blocks) && Last(blocks).header.timestamp < U64_MAX
    ensures TemplateTime(now, blocks) == Max(now, Last(blocks).header.timestamp + 1)
  {
    hide FromBlocks, TemplateTime, Linked, TipMatches, Sound, NoncesMatch, HashSet;
    RebuiltInvariant(c, clock, Devnet, blocks);
    TemplateTimeIs(now, blocks);
  }

  // ----- chains of coinbases

  function Coinbases(n: nat): (r: seq<Transaction>)
    requires n <= 7_001
    ensures |r| == n && forall i :: 0 <= i < n ==> r[i] == CoinbaseAt(i)
  {
    seq(n, i requires 0 <= i < n => CoinbaseAt(i))
  }

  /** An accepted chain that pays nothing but subsidies. */
  ghost predicate PaysSubsidies(clock: u64, blocks: seq<Block>) {
    && 0 < |blocks| <= 7_001 && blocks[0] == Genesis() && Valid(Lenient(), clock, Devnet, blocks)
    && AllTransactions(blocks) == Coinbases(|blocks|)
  }

  /** Such a chain with blocks one second apart. */
  ghost predicate Plain(blocks: seq<Block>) {
    PaysSubsidies(0, blocks) && Last(blocks).header.timestamp < |blocks|
  }

  lemma {:induction false} GenesisIsPlain()
    ensures Plain([Genesis()])
  {
    hide TxHash, Valid;
    GenesisIsValid(0);
    assert AllTransactions([Genesis()]) == [CoinbaseAt(0)] by { assert DropLast([Genesis()]) == []; }
  }

  lemma {:induction false} CoinbasesDiffer(x: u64, y: u64)
    requires x != y
    ensures TxHash(Lenient(), CoinbaseAt(x)) != TxHash(Lenient(), CoinbaseAt(y))
  {
    hide Encode;
    if TxHash(Lenient(), CoinbaseAt(x)) == TxHash(Lenient(), CoinbaseAt(y)) {
      EncodingInjective(Lenient(), CoinbaseAt(x), CoinbaseAt(y));
    }
  }

  lemma {:induction false} NextCoinbaseIsNew(clock: u64, blocks: seq<Block>)
    requires PaysSubsidies(clock, blocks) && |blocks| <= 7_000
    ensures TxHash(Lenient(), CoinbaseAt(|blocks|)) !in StateOf(Lenient(), clock, Devnet, blocks).applied
  {
    hide FromBlocks, TxHash, CoinbaseAt, Genesis, TipMatches, NoncesMatch, Sound, Linked, Lenient;
    RebuiltInvariant(Lenient(), clock, Devnet, blocks);
    forall i: u64 | i < |blocks| ensures TxHash(Lenient(), CoinbaseAt(i)) != TxHash(Lenient(), CoinbaseAt(|blocks|)) {
      CoinbasesDiffer(i, |blocks|);
    }
  }

  lemma {:induction false} MinedPaysSubsidies(now: u64, clock: u64, blocks: seq<Block>, nonce: u64)
    requires PaysSubsidies(clock, blocks) && |blocks| <= 7_000 && Last(blocks).header.timestamp <= 7_000 && now <= clock
    ensures var b := MinedAt(now, blocks, nonce);
            && PaysSubsidies(clock, blocks + [b])
            && b.header.timestamp == Max(now, Last(blocks).header.timestamp + 1)
            && b.header.difficulty == NextDifficulty(Devnet, blocks, 4)
  {
    hide FromBlocks, TxHash, MinedAt, CoinbaseAt, Genesis, Lenient, NextDifficulty;
    TipHeader(Lenient(), clock, Devnet, blocks);
    MinedOutcome(now, clock, blocks, nonce);
    NextCoinbaseIsNew(clock, blocks);
    var longer := blocks + [MinedAt(now, blocks, nonce)];
    assert DropLast(longer) == blocks;
    assert AllTransactions(longer) == Coinbases(|blocks|) + [CoinbaseAt(|blocks|)];
  }

  lemma {:induction false} NextIsPlain(blocks: seq<Block>, nonce: u64)
    requires Plain(blocks) && |blocks| <= 7_000
    ensures Plain(blocks + [NextOn(blocks, nonce)])
  {
    hide PaysSubsidies, MinedAt;
    SubsidyChainLength(0, blocks);
    MinedPaysSubsidies(0, 0, blocks, nonce);
  }

  lemma {:induction false} SubsidyChainLength(clock: u64, blocks: seq<Block>)
    requires PaysSubsidies(clock, blocks)
    ensures 0 < |blocks| <= 7_001
  {
  }

  /** `n` blocks on the genesis, all mined with the same nonce. */
  function Grow(n: nat, nonce: u64): (r: seq<Block>)
    ensures |r| == n + 1
  {
    if n == 0 then [Genesis()] else Grow(n - 1, nonce) + [NextOn(Grow(n - 1, nonce), nonce)]
  }

  lemma {:induction false} GrowIsPlain(n: nat, nonce: u64)
    requires n <= 7_000
    ensures Plain(Grow(n, nonce))
    decreases n
  {
    hide Plain, MinedAt, Genesis;
    if n == 0 {
      GenesisIsPlain();
    } else {
      GrowIsPlain(n - 1, nonce);
      NextIsPlain(Grow(n - 1, nonce), nonce);
    }
  }

  lemma {:induction false} GrowPrefix(n: nat, k: nat, nonce: u64)
    requires k <= n
    ensures Grow(n, nonce)[..k + 1] == Grow(k, nonce)
    decreases n
  {
    hide MinedAt, Genesis;
    if k < n {
      GrowPrefix(n - 1, k, nonce);
      assert Grow(n, nonce)[..k + 1] == Grow(n - 1, nonce)[..k + 1];
    }
  }

  // ----- templates

  lemma {:induction false} NothingSelected(chain: Chain)
    requires ChainInvariant(Lenient(), chain)
    ensures Select(Lenient(), chain, Mined(Lenient(), chain), [], 1, 0).Ok?
    ensures Select(Lenient(), chain, Mined(Lenient(), chain), [], 1, 0).value.0 == []
  {
    hide ChainInvariant, Select, Mined, Pending, Candidates;
    SelectMeaning(Lenient(), chain, Mined(Lenient(), chain), [], 1, 0);
    NoneSelected(Select(Lenient(), chain, Mined(Lenient(), chain), [], 1, 0).value.0);
  }

  lemma {:induction false} NoneSelected(selected: seq<Record>)
    ensures Subset(selected, []) ==> selected == []
  {
    if selected != [] {
      assert selected[0] in selected;
    }
  }

  function TemplateOn(nonce: u64): Result<Template> {
    CreateTemplate(Lenient(), 0, NodeWith([GenesisWith(nonce)]), 4, MINER, 1)
  }

  lemma {:induction false} TemplateExists(nonce: u64)
    ensures TemplateOn(nonce).Ok? && TemplateOn(nonce).value.block.transactions == [CoinbaseAt(1)]
  {
    hide FromBlocks, Assemble, Select, BlockHash, ChainInvariant, Mined;
    var c, blocks := Lenient(), [GenesisWith(nonce)];
    GenesisIsValid(nonce);
    RebuiltInvariant(c, 0, Devnet, blocks);
    NothingSelected(FromBlocks(c, 0, Devnet, blocks).value);
    Assembles(0, blocks);
  }

  lemma {:induction false} GenesisApplies(nonce: u64)
    ensures Valid(Lenient(), 0, Devnet, [GenesisWith(nonce)])
    ensures StateOf(Lenient(), 0, Devnet, [GenesisWith(nonce)]).applied == {TxHash(Lenient(), CoinbaseAt(nonce))}
  {
    hide FromBlocks, TxHash, BlockHash, TipMatches, NoncesMatch, Sound, Linked;
    var g := GenesisWith(nonce);
    GenesisIsValid(nonce);
    RebuiltInvariant(Lenient(), 0, Devnet, [g]);
    assert DropLast([g]) == [] && AllTransactions([g]) == [CoinbaseAt(nonce)];
    NoHashes(Lenient(), g);
    HashSetCons(Lenient(), [CoinbaseAt(nonce)]);
    assert [CoinbaseAt(nonce)][1..] == g.transactions[1..];
  }

  /** The hypotheses of template acceptance can be met, with both outcomes: the block mined
      from the template is accepted, except on a genesis whose coinbase carries the nonce 1,
      where the node's own next template repeats that coinbase and is refused. */
  lemma {:induction false} TemplateOutcomes(nonce: u64)
    ensures TemplateOn(nonce).Ok?
    ensures var b := Sealed(TemplateOn(nonce).value.block);
            && EnsurePow(Lenient(), b).Ok?
            && (SubmitMinedBlock(Lenient(), 0, NodeWith([GenesisWith(nonce)]), b).Ok? <==> nonce != 1)
  {
    hide NodeInvariant, CreateTemplate, SubmitMinedBlock, EnsurePow, TxHash, FromBlocks, NoncesHaveRoom,
         AddressesAreShort;
    var c, n := Lenient(), NodeWith([GenesisWith(nonce)]);
    TemplateExists(nonce);
    GenesisApplies(nonce);
    NodeIsSound([GenesisWith(nonce)]);
    SealedPasses(TemplateOn(nonce).value.block);
    LenientAddressesAreShort();
    TemplateIsAccepted(c, 0, 0, n, 4, MINER, 1, Sealed(TemplateOn(nonce).value.block));
    if nonce != 1 {
      CoinbasesDiffer(1, nonce);
    }
  }
}
