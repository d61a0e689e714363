/** The incrementally maintained index is the full rebuild, whatever happened to the chain
    since the index was written (index.rs). */
module IndexRefinement {
  import opened Prelude
  import opened Primitives
  import opened Transactions
  import opened Blocks
  import opened Consensus
  import opened Ledgers
  import opened Chains
  import opened ChainIdentity
  import opened Indexes
  import Nodes
  import Merkle
  import Emission
  import Difficulty

  // ----- what valid chains give the indexer

  lemma {:induction false} NetworkIsRead(c: Crypto, now: u64, network: Network, blocks: seq<Block>)
    requires Valid(c, now, network, blocks) && blocks != []
    ensures NetworkOf(blocks[0]) == Ok(network)
  {
    hide Valid, BlockHash, EnsurePow, CheckBodies, NextBaseFee, Merkle.MerkleRoot, Encode, CheckCoinbaseAmount,
         TransactionNetwork;
    ValidBlockAt(c, now, network, blocks, 0);
  }

  lemma {:induction false} StoredChainLoads(c: Crypto, now: u64, network: Network, blocks: seq<Block>)
    requires Valid(c, now, network, blocks) && blocks != []
    ensures Load(c, blocks) == Ok(blocks)
    ensures Linked(c, blocks)
  {
    hide FromBlocks, BlockHash, TipMatches, NoncesMatch, Sound, HashSet;
    FromBlocksShape(c, now, network, blocks);
    ValidChainInvariant(c, now, network, blocks);
    Nodes.LinkedHasStructure(c, blocks, |blocks|);
  }

  ghost predicate Bodied(blocks: seq<Block>) {
    forall i :: 0 <= i < |blocks| ==> blocks[i].transactions != []
  }

  lemma {:induction false} ValidIsBodied(c: Crypto, now: u64, network: Network, blocks: seq<Block>)
    requires Valid(c, now, network, blocks)
    ensures Bodied(blocks)
  {
    hide Valid, BlockHash, EnsurePow, CheckBodies, NextBaseFee, Merkle.MerkleRoot, Encode, CheckCoinbaseAmount,
         TransactionNetwork;
    forall i | 0 <= i < |blocks| ensures blocks[i].transactions != [] {
      ValidBlockAt(c, now, network, blocks, i);
    }
  }

  // ----- the ledger of a prefix

  lemma {:induction false} TransactionKeepsKeys(c: Crypto, s: Ledger, t: Transaction, baseFee: u64)
    ensures s.balances.Keys <= ApplyTransaction(c, s, t, baseFee).state.balances.Keys
  {
    hide Encode, Verify;
  }

  lemma {:induction false} ReplayKeepsKeys(c: Crypto, s: Ledger, txs: seq<Transaction>, baseFee: u64)
    ensures s.balances.Keys <= Replay(c, s, txs, baseFee).state.balances.Keys
    decreases |txs|
  {
    hide ApplyTransaction;
    if txs != [] {
      ReplayKeepsKeys(c, s, DropLast(txs), baseFee);
      TransactionKeepsKeys(c, Replay(c, s, DropLast(txs), baseFee).state, Last(txs), baseFee);
    }
  }

  lemma {:induction false} BlockKeepsKeys(c: Crypto, s: Ledger, b: Block)
    requires ApplyBlock(c, s, b).result.Ok?
    ensures s.balances.Keys <= ApplyBlock(c, s, b).state.balances.Keys
  {
    hide ApplyTransaction, Replay, Simulate, CheckCoinbaseAmount, NoRepeatedNonce;
    ValidatedHasCoinbase(c, s, b);
    var spends := Replay(c, s, b.transactions[1..], b.header.baseFee);
    ReplayKeepsKeys(c, s, b.transactions[1..], b.header.baseFee);
    TransactionKeepsKeys(c, spends.state, b.transactions[0], b.header.baseFee);
  }

  /** A later ledger remembers what it said about every height of the prefix, and forgets
      no account. */
  ghost predicate Remembers(before: Ledger, after: Ledger, count: nat) {
    && before.balances.Keys <= after.balances.Keys
    && forall h: u64 :: h < count ==> FeesAt(after, h) == FeesAt(before, h) && RewardAt(after, h) == RewardAt(before, h)
  }

  lemma {:induction false} RemembersStep(c: Crypto, now: u64, chain: Chain, b: Block)
    requires ChainInvariant(c, chain) && AppendBlock(c, now, chain, b).Ok?
    ensures Remembers(chain.state, AppendBlock(c, now, chain, b).value.state, |chain.blocks|)
  {
    hide ValidateNextBlock, ApplyBlock, BlockHash, TxHash, HashSet, NonceEffect, Held, Emission.Emitted,
         Difficulty.NextDifficulty, NextBaseFee, EnsurePow, Merkle.MerkleRoot, CheckCoinbaseAmount,
         TransactionNetwork, CheckBodies, NoncesMatch, Linked, Sound;
    InvariantStep(c, now, chain, b);
    BlockKeepsKeys(c, chain.state, b);
    var next := AppendBlock(c, now, chain, b).value;
    assert Last(next.blocks) == b;
    HeightIsLength(c, next.blocks);
  }

  lemma {:induction false} PrefixRemembered(c: Crypto, now: u64, network: Network, blocks: seq<Block>, count: nat)
    requires Valid(c, now, network, blocks) && count <= |blocks|
    ensures Valid(c, now, network, blocks[..count])
    ensures Remembers(StateOf(c, now, network, blocks[..count]), StateOf(c, now, network, blocks), count)
    decreases |blocks|
  {
    hide AppendBlock, Remembers;
    ValidPrefix(c, now, network, blocks, count);
    if count == |blocks| {
      assert blocks[..count] == blocks;
      RemembersItself(StateOf(c, now, network, blocks), count);
    } else {
      PrefixRemembered(c, now, network, DropLast(blocks), count);
      assert DropLast(blocks)[..count] == blocks[..count];
      ValidChainInvariant(c, now, network, DropLast(blocks));
      FromBlocksShape(c, now, network, DropLast(blocks));
      RemembersStep(c, now, FromBlocks(c, now, network, DropLast(blocks)).value, Last(blocks));
      RemembersChain(StateOf(c, now, network, blocks[..count]), StateOf(c, now, network, DropLast(blocks)),
          StateOf(c, now, network, blocks), count, |blocks| - 1);
    }
  }

  lemma {:induction false} RemembersItself(s: Ledger, count: nat)
    ensures Remembers(s, s, count)
  {
  }

  lemma {:induction false} RemembersChain(a: Ledger, b: Ledger, d: Ledger, count: nat, more: nat)
    requires Remembers(a, b, count) && Remembers(b, d, more) && count <= more
    ensures Remembers(a, d, count)
  {
    hide FeesAt, RewardAt;
  }

  // ----- folding blocks into the tables

  /** Rows depend on the ledger only through the fees and rewards of their own heights. */
  lemma {:induction false} RowsAgree(c: Crypto, a: Ledger, b: Ledger, t: Tables, blocks: seq<Block>)
    requires forall i :: 0 <= i < |blocks| ==>
      FeesAt(a, blocks[i].header.height) == FeesAt(b, blocks[i].header.height) &&
          RewardAt(a, blocks[i].header.height) == RewardAt(b, blocks[i].header.height)
    ensures WithBlocks(c, a, t, blocks) == WithBlocks(c, b, t, blocks)
    decreases |blocks|
  {
    hide FeesAt, RewardAt, TouchAll, ListAll, BlockHash;
    if blocks != [] {
      RowsAgree(c, a, b, t, DropLast(blocks));
    }
  }

  lemma {:induction false} BlocksJoin(c: Crypto, s: Ledger, t: Tables, first: seq<Block>, rest: seq<Block>)
    requires WithBlocks(c, s, t, first).Ok?
    ensures WithBlocks(c, s, t, first + rest) == WithBlocks(c, s, WithBlocks(c, s, t, first).value, rest)
    decreases |rest|
  {
    hide WithBlock;
    if rest == [] {
      assert first + rest == first;
    } else {
      BlocksJoin(c, s, t, first, DropLast(rest));
      assert DropLast(first + rest) == first + DropLast(rest);
    }
  }

  lemma {:induction false} BodiedIndexes(c: Crypto, s: Ledger, t: Tables, blocks: seq<Block>)
    requires Bodied(blocks)
    ensures WithBlocks(c, s, t, blocks).Ok?
    decreases |blocks|
  {
    hide TouchAll, ListAll, BlockHash, FeesAt, RewardAt, IndexedBlockOf;
    if blocks != [] {
      BodiedIndexes(c, s, t, DropLast(blocks));
    }
  }

  /** `x` is `y` with ledger balances still filled in for some accounts among `ledger`. */
  ghost predicate SameButBalances(x: map<Str, Activity>, y: map<Str, Activity>, ledger: set<Str>) {
    && y.Keys <= x.Keys <= y.Keys + ledger
    && forall a :: Cleared(ActivityOf(x, a)) == ActivityOf(y, a)
  }

  lemma {:induction false} UpdateBoth(
    x: map<Str, Activity>, y: map<Str, Activity>, ledger: set<Str>, k: Str, v: Activity, w: Activity)
    requires SameButBalances(x, y, ledger) && Cleared(v) == w
    ensures SameButBalances(x[k := v], y[k := w], ledger)
  {
    hide Cleared;
    var x', y' := x[k := v], y[k := w];
    forall a ensures Cleared(ActivityOf(x', a)) == ActivityOf(y', a) {
      if a != k {
        assert ActivityOf(x', a) == ActivityOf(x, a) && ActivityOf(y', a) == ActivityOf(y, a);
      }
    }
  }

  lemma {:induction false} TouchKeepsSame(
    c: Crypto, x: map<Str, Activity>, y: map<Str, Activity>, ledger: set<Str>, t: Transaction, height: u64,
    baseFee: u64, reward: u64)
    requires SameButBalances(x, y, ledger)
    ensures SameButBalances(Touch(c, x, t, height, baseFee, reward), Touch(c, y, t, height, baseFee, reward), ledger)
  {
    hide Encode, Outlay, ActivityOf;
    var hash := TxHash(c, t);
    var sx, sy := x, y;
    if t.from.Some? {
      var a, outlay := t.from.value, Outlay(t, baseFee);
      var v, w := AddSent(ActivityOf(x, a), hash, outlay), AddSent(ActivityOf(y, a), hash, outlay);
      assert Cleared(ActivityOf(x, a)) == ActivityOf(y, a);
      UpdateBoth(x, y, ledger, a, v, w);
      sx, sy := x[a := v], y[a := w];
    }
    assert Cleared(ActivityOf(sx, t.to)) == ActivityOf(sy, t.to);
    UpdateBoth(sx, sy, ledger, t.to, AddReceived(ActivityOf(sx, t.to), hash, t, height, reward),
        AddReceived(ActivityOf(sy, t.to), hash, t, height, reward));
  }

  lemma {:induction false} TouchAllKeepsSame(
    c: Crypto, x: map<Str, Activity>, y: map<Str, Activity>, ledger: set<Str>, b: Block, n: nat, reward: u64)
    requires SameButBalances(x, y, ledger) && n <= |b.transactions|
    ensures SameButBalances(TouchAll(c, x, b, n, reward), TouchAll(c, y, b, n, reward), ledger)
    decreases n
  {
    hide Touch, SameButBalances;
    if n > 0 {
      TouchAllKeepsSame(c, x, y, ledger, b, n - 1, reward);
      TouchKeepsSame(c, TouchAll(c, x, b, n - 1, reward), TouchAll(c, y, b, n - 1, reward), ledger,
          b.transactions[n - 1], b.header.height, b.header.baseFee, reward);
    }
  }

  ghost predicate SameTables(x: Tables, y: Tables, ledger: set<Str>) {
    && x == y.(addresses := x.addresses)
    && SameButBalances(x.addresses, y.addresses, ledger)
  }

  lemma {:induction false} BlocksKeepSame(
    c: Crypto, s: Ledger, x: Tables, y: Tables, ledger: set<Str>, blocks: seq<Block>)
    requires SameTables(x, y, ledger) && Bodied(blocks)
    ensures WithBlocks(c, s, x, blocks).Ok? && WithBlocks(c, s, y, blocks).Ok?
    ensures SameTables(WithBlocks(c, s, x, blocks).value, WithBlocks(c, s, y, blocks).value, ledger)
    decreases |blocks|
  {
    hide TouchAll, ListAll, BlockHash, FeesAt, RewardAt, SameButBalances, IndexedBlockOf;
    BodiedIndexes(c, s, x, blocks);
    BodiedIndexes(c, s, y, blocks);
    if blocks != [] {
      BlocksKeepSame(c, s, x, y, ledger, DropLast(blocks));
      var fx, fy := WithBlocks(c, s, x, DropLast(blocks)).value, WithBlocks(c, s, y, DropLast(blocks)).value;
      TouchAllKeepsSame(c, fx.addresses, fy.addresses, ledger, Last(blocks), |Last(blocks).transactions|,
          RewardAt(s, Last(blocks).header.height));
    }
  }

  lemma {:induction false} BalancesFilledIn(m: map<Str, Activity>, balances: map<Str, u64>)
    requires SameButBalances(m, m, {})
    ensures SameButBalances(WithBalances(m, balances), m, balances.Keys)
  {
    var filled := WithBalances(m, balances);
    forall a ensures Cleared(ActivityOf(filled, a)) == ActivityOf(m, a) {
      assert Cleared(ActivityOf(m, a)) == ActivityOf(m, a);
      assert ActivityOf(filled, a) == Balanced(m, balances, a);
    }
  }

  /** Clearing and refilling balances forgets what had been filled in before. */
  lemma {:induction false} RefillForgets(
    x: map<Str, Activity>, y: map<Str, Activity>, ledger: set<Str>, balances: map<Str, u64>)
    requires SameButBalances(x, y, ledger) && ledger <= balances.Keys
    ensures WithBalances(ClearedAll(x), balances) == WithBalances(y, balances)
  {
    hide Cleared;
    var cleared := ClearedAll(x);
    forall a | a in x.Keys + balances.Keys ensures Balanced(cleared, balances, a) == Balanced(y, balances, a) {
      assert Cleared(ActivityOf(x, a)) == ActivityOf(y, a);
      if a !in x { assert a !in y && a !in cleared; }
    }
  }

  // ----- the rebuild of a valid chain, and its extension

  /** The tables a rebuild produces before balances are filled in. */
  ghost function Rows(c: Crypto, now: u64, network: Network, blocks: seq<Block>): Result<Tables>
    requires Valid(c, now, network, blocks)
  {
    WithBlocks(c, StateOf(c, now, network, blocks), EMPTY_TABLES, blocks)
  }

  lemma {:induction false} RebuildIs(c: Crypto, now: u64, network: Network, blocks: seq<Block>)
    requires Valid(c, now, network, blocks) && blocks != []
    ensures FromBlocks(c, now, network, blocks).value.blocks == blocks && Rows(c, now, network, blocks).Ok?
    ensures Rebuild(c, now, blocks) ==
            Ok(Assemble(c, FromBlocks(c, now, network, blocks).value, Rows(c, now, network, blocks).value))
  {
    hide FromBlocks, WithBlocks, BlockHash, Assemble, NetworkOf, Load, Linked, Bodied;
    NetworkIsRead(c, now, network, blocks);
    StoredChainLoads(c, now, network, blocks);
    ValidIsBodied(c, now, network, blocks);
    BodiedIndexes(c, StateOf(c, now, network, blocks), EMPTY_TABLES, blocks);
    FromBlocksShape(c, now, network, blocks);
  }

  /** The prefix's rows, computed under the whole chain's ledger. */
  lemma {:induction false} PrefixRows(c: Crypto, now: u64, network: Network, blocks: seq<Block>, count: nat)
    requires Valid(c, now, network, blocks) && 0 < count <= |blocks|
    ensures Valid(c, now, network, blocks[..count]) && Rows(c, now, network, blocks[..count]).Ok?
    ensures var s := StateOf(c, now, network, blocks);
            && Rows(c, now, network, blocks[..count]) == WithBlocks(c, s, EMPTY_TABLES, blocks[..count])
            && Rows(c, now, network, blocks) == WithBlocks(c, s, Rows(c, now, network, blocks[..count]).value,
                blocks[count..])
            && StateOf(c, now, network, blocks[..count]).balances.Keys <= s.balances.Keys
  {
    hide FromBlocks, WithBlocks, BlockHash, FeesAt, RewardAt, Load, Bodied, PreviousHash;
    var prior, s := blocks[..count], StateOf(c, now, network, blocks);
    PrefixRemembered(c, now, network, blocks, count);
    StoredChainLoads(c, now, network, blocks);
    RowsAgree(c, StateOf(c, now, network, prior), s, EMPTY_TABLES, prior);
    ValidIsBodied(c, now, network, prior);
    BodiedIndexes(c, s, EMPTY_TABLES, prior);
    BlocksJoin(c, s, EMPTY_TABLES, prior, blocks[count..]);
    assert prior + blocks[count..] == blocks;
  }

  lemma {:induction false} FreshRows(c: Crypto, s: Ledger, blocks: seq<Block>)
    requires Bodied(blocks)
    ensures WithBlocks(c, s, EMPTY_TABLES, blocks).Ok?
    ensures SameButBalances(WithBlocks(c, s, EMPTY_TABLES, blocks).value.addresses,
            WithBlocks(c, s, EMPTY_TABLES, blocks).value.addresses, {})
  {
    hide WithBlocks;
    BlocksKeepSame(c, s, EMPTY_TABLES, EMPTY_TABLES, {}, blocks);
  }

  /** Appending the new blocks to the rebuild of a prefix gives the rebuild of the chain. */
  lemma {:induction false} ExtensionIsRebuild(c: Crypto, now: u64, network: Network, blocks: seq<Block>, count: nat)
    requires Valid(c, now, network, blocks) && 0 < count <= |blocks|
    ensures Rebuild(c, now, blocks[..count]).Ok?
    ensures Extend(c, now, Rebuild(c, now, blocks[..count]).value, blocks, blocks[count..]) == Rebuild(c, now, blocks)
  {
    hide FromBlocks, WithBlocks, BlockHash, NetworkOf, Summarize, WithBalances, ClearedAll, Rebuild,
         SameButBalances, Bodied;
    var prior, s := blocks[..count], StateOf(c, now, network, blocks);
    PrefixRows(c, now, network, blocks, count);
    RebuildIs(c, now, network, blocks);
    RebuildIs(c, now, network, prior);
    NetworkIsRead(c, now, network, blocks);
    FromBlocksShape(c, now, network, blocks);
    var rows, balances := Rows(c, now, network, prior).value, StateOf(c, now, network, prior).balances;
    ValidIsBodied(c, now, network, prior);
    FreshRows(c, s, prior);
    BalancesFilledIn(rows.addresses, balances);
    var existing := rows.(addresses := WithBalances(rows.addresses, balances));
    BodiedSuffix(c, now, network, blocks, count);
    BlocksKeepSame(c, s, existing, rows, balances.Keys, blocks[count..]);
    RefillForgets(WithBlocks(c, s, existing, blocks[count..]).value.addresses,
        Rows(c, now, network, blocks).value.addresses, balances.Keys, s.balances);
  }

  lemma {:induction false} BodiedSuffix(c: Crypto, now: u64, network: Network, blocks: seq<Block>, count: nat)
    requires Valid(c, now, network, blocks) && count <= |blocks|
    ensures Bodied(blocks[count..])
  {
    hide Valid;
    ValidIsBodied(c, now, network, blocks);
  }

  // ----- the theorem

  lemma {:induction false} RebuildIgnoresClock(c: Crypto, a: u64, b: u64, network: Network, blocks: seq<Block>)
    requires Valid(c, a, network, blocks) && Valid(c, b, network, blocks) && blocks != []
    ensures Rebuild(c, a, blocks) == Rebuild(c, b, blocks)
  {
    hide FromBlocks, Rebuild, Assemble, WithBlocks;
    LaterClock(c, a, U64_MAX, network, blocks);
    LaterClock(c, b, U64_MAX, network, blocks);
    RebuildIs(c, a, network, blocks);
    RebuildIs(c, b, network, blocks);
  }

  lemma {:induction false} RebuildSummary(c: Crypto, now: u64, network: Network, blocks: seq<Block>)
    requires Valid(c, now, network, blocks) && blocks != []
    ensures Rebuild(c, now, blocks).Ok?
    ensures Rebuild(c, now, blocks).value.summary.height == Some(|blocks| - 1)
    ensures Rebuild(c, now, blocks).value.summary.tipHash == Some(BlockHash(c, Last(blocks)))
  {
    hide Valid, Rebuild, WithBlocks, BlockHash;
    RebuildIs(c, now, network, blocks);
    TipHeader(c, now, network, blocks);
  }

  /** The stored index is what a rebuild of some earlier accepted chain returned. */
  ghost predicate RebuiltFrom(c: Crypto, stored: Index, past: u64, network: Network, prior: seq<Block>) {
    Valid(c, past, network, prior) && prior != [] && Rebuild(c, past, prior) == Ok(stored)
  }

  /** The indexed tip is still on the chain exactly when the indexed chain is a prefix. */
  lemma {:induction false} IndexedTipOnChain(
    c: Crypto, now: u64, network: Network, blocks: seq<Block>, past: u64, priorNetwork: Network, prior: seq<Block>)
    requires Valid(c, past, priorNetwork, prior) && prior != [] && Valid(c, now, network, blocks)
    ensures |prior| <= |blocks| && BlockHash(c, blocks[|prior| - 1]) == BlockHash(c, Last(prior)) <==> prior <= blocks
    ensures prior <= blocks ==> priorNetwork == network && Valid(c, now, network, prior)
  {
    hide Valid, BlockHash;
    if |prior| <= |blocks| && BlockHash(c, blocks[|prior| - 1]) == BlockHash(c, Last(prior)) {
      SharedBlockSharesHistory(c, past, priorNetwork, prior, now, network, blocks, |prior| - 1);
      assert prior[..|prior|] == prior;
      ValidPrefix(c, now, network, blocks, |prior|);
    }
    if prior <= blocks {
      assert blocks[|prior| - 1] == Last(prior);
    }
  }

  /** Given the earlier chain as a prefix, appending yields the rebuild. */
  lemma {:induction false} AppendsToPrefix(
    c: Crypto, now: u64, network: Network, blocks: seq<Block>, stored: Index, past: u64, prior: seq<Block>)
    requires RebuiltFrom(c, stored, past, network, prior) && Valid(c, now, network, blocks) && prior <= blocks
    requires Valid(c, now, network, prior)
    ensures |prior| < |blocks| ==> Extend(c, now, stored, blocks, blocks[|prior|..]) == Rebuild(c, now, blocks)
    ensures |prior| == |blocks| ==> Ok(stored) == Rebuild(c, now, blocks)
  {
    hide Valid, Rebuild, Extend;
    RebuildIgnoresClock(c, past, now, network, prior);
    assert blocks[..|prior|] == prior;
    ExtensionIsRebuild(c, now, network, blocks, |prior|);
    if |prior| == |blocks| {
      assert prior == blocks;
    }
  }

  lemma {:induction false} AppendOutcome(
    c: Crypto, now: u64, network: Network, blocks: seq<Block>, stored: Index, past: u64, priorNetwork: Network,
    prior: seq<Block>)
    requires RebuiltFrom(c, stored, past, priorNetwork, prior)
    requires Valid(c, now, network, blocks) && blocks != []
    ensures TryAppend(c, now, stored, blocks).Ok?
    ensures prior <= blocks <==> TryAppend(c, now, stored, blocks).value.Some?
    ensures TryAppend(c, now, stored, blocks).value.Some? ==>
            Ok(TryAppend(c, now, stored, blocks).value.value) == Rebuild(c, now, blocks)
  {
    hide Valid, Rebuild, Extend, BlockHash, Load, Linked, ContinuesFrom;
    RebuildSummary(c, past, priorNetwork, prior);
    RebuildSummary(c, now, network, blocks);
    StoredChainLoads(c, now, network, blocks);
    ValidPrefixLinks(c, now, network, blocks, |prior|);
    IndexedTipOnChain(c, now, network, blocks, past, priorNetwork, prior);
    if prior <= blocks {
      AppendsToPrefix(c, now, network, blocks, stored, past, prior);
    }
  }

  lemma {:induction false} ValidPrefixLinks(c: Crypto, now: u64, network: Network, blocks: seq<Block>, count: nat)
    requires Valid(c, now, network, blocks) && blocks != [] && 0 < count
    ensures forall i :: 0 <= i < |blocks| ==> blocks[i].header.height == i
    ensures count < |blocks| ==> ContinuesFrom(c, BlockHash(c, blocks[count - 1]), blocks[count..])
  {
    hide Valid, BlockHash, Load;
    StoredChainLoads(c, now, network, blocks);
    if count < |blocks| {
      var rest := blocks[count..];
      forall i {:trigger rest[i]} | 0 <= i < |rest| ensures rest[i].header.previousHash ==
          BlockHash(c, blocks[count + i - 1]) {
        assert rest[i] == blocks[count + i];
        assert blocks[count + i].header.previousHash == PreviousHash(c, blocks[..count + i]);
      }
    }
  }

  ghost predicate ValidViews(c: Crypto, now: u64, network: Network, views: Views) {
    && Valid(c, now, network, views.tip) && Valid(c, now, network, views.links)
    && Valid(c, now, network, views.append) && Valid(c, now, network, views.rebuild)
    && views.tip != [] && views.links != [] && views.append != [] && views.rebuild != []
  }

  lemma {:induction false} SampleAnswers(c: Crypto, now: u64, network: Network, index: Index, blocks: seq<Block>)
    requires Valid(c, now, network, blocks) && blocks != []
    ensures ParentLinksMatch(c, index, blocks).Ok?
  {
    hide Valid, BlockHash, Linked, Load, RowMatches;
    StoredChainLoads(c, now, network, blocks);
  }

  /** Starting from no index, or from the rebuild of any earlier accepted chain, the index
      returned is exactly the full rebuild of a chain that was read during the call, even
      if the chain changed between the reads. */
  lemma {:induction false} EnsureIsRebuild(
    c: Crypto, now: u64, network: Network, stored: Option<Index>, views: Views, past: u64, priorNetwork: Network,
    prior: seq<Block>)
    requires stored.Some? ==> RebuiltFrom(c, stored.value, past, priorNetwork, prior)
    requires ValidViews(c, now, network, views)
    ensures EnsureIndex(c, now, stored, views).Ok?
    ensures EnsureIndex(c, now, stored, views) in {Rebuild(c, now, views.tip), Rebuild(c, now, views.append),
            Rebuild(c, now, views.rebuild)}
  {
    hide Valid, Rebuild, TryAppend, BlockHash, Linked, Load, ParentLinksMatch;
    StoredChainLoads(c, now, network, views.tip);
    RebuildSummary(c, now, network, views.rebuild);
    if stored.Some? {
      SampleAnswers(c, now, network, stored.value, views.links);
      RebuildSummary(c, past, priorNetwork, prior);
      AppendOutcome(c, now, network, views.append, stored.value, past, priorNetwork, prior);
      RebuildSummary(c, now, network, views.append);
      RebuildSummary(c, now, network, views.tip);
      if BlockHash(c, Last(views.tip)) == BlockHash(c, Last(prior)) {
        TipDeterminesChain(c, now, network, views.tip, past, priorNetwork, prior);
        RebuildIgnoresClock(c, past, now, network, prior);
      }
    }
  }

  /** With one view of the chain: unchanged, extended, shortened or reorganised, the result
      is what a full rebuild of the current chain returns. */
  lemma {:induction false} IndexIsExact(
    c: Crypto, now: u64, network: Network, stored: Option<Index>, blocks: seq<Block>, past: u64,
    priorNetwork: Network, prior: seq<Block>)
    requires stored.Some? ==> RebuiltFrom(c, stored.value, past, priorNetwork, prior)
    requires Valid(c, now, network, blocks) && blocks != []
    ensures EnsureIndex(c, now, stored, Views(blocks, blocks, blocks, blocks)) == Rebuild(c, now, blocks)
    ensures Rebuild(c, now, blocks).Ok?
    ensures RebuiltFrom(c, Rebuild(c, now, blocks).value, now, network, blocks)
  {
    hide Valid, Rebuild, EnsureIndex, BlockHash;
    EnsureIsRebuild(c, now, network, stored, Views(blocks, blocks, blocks, blocks), past, priorNetwork, prior);
    RebuildSummary(c, now, network, blocks);
  }

  // ----- what the sampled rows are for

  /** The sample holds exactly if the indexed tip is the chain's and each of the last 17 rows,
      or all if there are fewer, has its block's hash and the hash of the block before. */
  lemma {:induction false} SampleMeaning(c: Crypto, now: u64, network: Network, index: Index, blocks: seq<Block>)
    requires Valid(c, now, network, blocks) && blocks != []
    requires index.summary.height.Some?
    ensures ParentLinksMatch(c, index, blocks) == Ok(true) <==>
              && index.summary.height == Some(|blocks| - 1)
              && index.summary.tipHash == Some(BlockHash(c, Last(blocks)))
              && forall h: u64 :: |blocks| - 17 <= h < |blocks| ==> RowNames(c, index, blocks, h)
  {
    hide Valid, BlockHash, Load, RowMatches, RowNames;
    StoredChainLoads(c, now, network, blocks);
    TipHeader(c, now, network, blocks);
    forall h: u64 | h < |blocks| ensures RowMatches(c, index, blocks, h) == RowNames(c, index, blocks, h) {
      assert blocks[h].header.height == h;
      RowMatchesAt(c, index, blocks, h);
    }
  }

  /** The row at `h` has its block's hash and the hash of the block before. */
  ghost predicate RowNames(c: Crypto, index: Index, blocks: seq<Block>, h: u64)
    requires h < |blocks|
  {
    && h in index.tables.byHeight && index.tables.byHeight[h].hash == BlockHash(c, blocks[h])
    && (h > 0 ==> index.tables.byHeight[h].previousHash == BlockHash(c, blocks[h - 1]))
  }

  lemma {:induction false} RowMatchesAt(c: Crypto, index: Index, blocks: seq<Block>, h: u64)
    requires h < |blocks| && blocks[h].header.height == h
    ensures RowMatches(c, index, blocks, h) == RowNames(c, index, blocks, h)
  {
    hide BlockHash;
  }

  /** But on one view the sample decides nothing: an index whose tip is the chain's is returned
      as it is, whatever its rows say, because the append path takes it for up to date. */
  lemma {:induction false} MatchingTipIsKept(c: Crypto, now: u64, network: Network, stored: Index, blocks: seq<Block>)
    requires Valid(c, now, network, blocks) && blocks != []
    requires stored.summary.height == Some(|blocks| - 1)
    requires stored.summary.tipHash == Some(BlockHash(c, Last(blocks)))
    ensures EnsureIndex(c, now, Some(stored), Views(blocks, blocks, blocks, blocks)) == Ok(stored)
  {
    hide Valid, BlockHash, Load, ParentLinksMatch, Rebuild, Extend, Linked;
    StoredChainLoads(c, now, network, blocks);
    TipHeader(c, now, network, blocks);
    SampleAnswers(c, now, network, stored, blocks);
  }

  /** So the promise that a failing sample leads to a full rebuild does not hold: here every
      row is missing, the sample fails, and the empty tables are returned. The result is a
      rebuild only if what was stored already is one. */
  lemma {:induction false} FailingSampleIsIgnored(c: Crypto, now: u64, network: Network, blocks: seq<Block>)
    requires Valid(c, now, network, blocks) && blocks != []
    ensures Rebuild(c, now, blocks).Ok?
    ensures var stored := Index(Rebuild(c, now, blocks).value.summary, EMPTY_TABLES);
            var result := EnsureIndex(c, now, Some(stored), Views(blocks, blocks, blocks, blocks));
            && ParentLinksMatch(c, stored, blocks) == Ok(false)
            && result == Ok(stored) && result != Rebuild(c, now, blocks)
  {
    hide Valid, BlockHash, Rebuild, EnsureIndex, WithBlocks;
    RebuildSummary(c, now, network, blocks);
    var stored := Index(Rebuild(c, now, blocks).value.summary, EMPTY_TABLES);
    TipHeader(c, now, network, blocks);
    SampleMeaning(c, now, network, stored, blocks);
    SampleAnswers(c, now, network, stored, blocks);
    MatchingTipIsKept(c, now, network, stored, blocks);
    var last: u64 := |blocks| - 1;
    assert !RowNames(c, stored, blocks, last);
    TablesAreNotEmpty(c, now, network, blocks);
  }

  lemma {:induction false} TablesAreNotEmpty(c: Crypto, now: u64, network: Network, blocks: seq<Block>)
    requires Valid(c, now, network, blocks) && blocks != []
    ensures Rebuild(c, now, blocks).Ok? && Rebuild(c, now, blocks).value.tables != EMPTY_TABLES
  {
    hide FromBlocks, Rebuild, TouchAll, ListAll, BlockHash, IndexedBlockOf, FeesAt, RewardAt, WithBalances, Summarize;
    RebuildIs(c, now, network, blocks);
    assert Last(blocks).header.height in Rows(c, now, network, blocks).value.byHeight;
  }

  // ----- whole runs of the watcher

  datatype Poll = Poll(now: u64, network: Network, views: Views)

  /** The index on disk after a run of polls; a failed poll leaves it as it was. */
  ghost function Watch(c: Crypto, stored: Option<Index>, polls: seq<Poll>): Option<Index> {
    if polls == [] then stored else
      var before := Watch(c, stored, DropLast(polls));
      match EnsureIndex(c, Last(polls).now, before, Last(polls).views)
      case Err(_) => before
      case Ok(index) => Some(index)
  }

  ghost predicate SomeRebuild(c: Crypto, stored: Option<Index>) {
    stored.Some? ==> exists past, network, blocks :: RebuiltFrom(c, stored.value, past, network, blocks)
  }

  /** However the chain moves between and during polls, the stored index is always the exact
      rebuild of some chain that was read, never a mixture of two. */
  lemma {:induction false} WatchStaysExact(c: Crypto, polls: seq<Poll>)
    requires forall i :: 0 <= i < |polls| ==> ValidViews(c, polls[i].now, polls[i].network, polls[i].views)
    ensures SomeRebuild(c, Watch(c, None, polls))
    decreases |polls|
  {
    hide Valid, Rebuild, EnsureIndex, RebuiltFrom;
    if polls != [] {
      WatchStaysExact(c, DropLast(polls));
      WatchStep(c, Last(polls), Watch(c, None, DropLast(polls)));
    }
  }

  lemma {:induction false} WatchStep(c: Crypto, poll: Poll, stored: Option<Index>)
    requires SomeRebuild(c, stored) && ValidViews(c, poll.now, poll.network, poll.views)
    ensures EnsureIndex(c, poll.now, stored, poll.views).Ok?
    ensures SomeRebuild(c, Some(EnsureIndex(c, poll.now, stored, poll.views).value))
  {
    hide Valid, Rebuild, EnsureIndex;
    if stored.Some? {
      var past, network, blocks :| RebuiltFrom(c, stored.value, past, network, blocks);
      EnsureIsRebuild(c, poll.now, poll.network, stored, poll.views, past, network, blocks);
    } else {
      EnsureIsRebuild(c, poll.now, poll.network, stored, poll.views, 0, Devnet, []);
    }
    var index := EnsureIndex(c, poll.now, stored, poll.views).value;
    forall blocks | blocks in {poll.views.tip, poll.views.append, poll.views.rebuild} &&
        Rebuild(c, poll.now, blocks) == Ok(index)
      ensures RebuiltFrom(c, index, poll.now, poll.network, blocks) {
    }
  }
}
