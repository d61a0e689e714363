/** What a rebuilt index says about its chain: where every transaction is, and how every
    address came by its balance (index.rs, state.rs). */
module IndexMeaning {
  import opened Prelude
  import opened Primitives
  import opened Transactions
  import opened Blocks
  import opened Consensus
  import opened Ledgers
  import opened Chains
  import opened ChainIdentity
  import opened Indexes
  import opened IndexRefinement
  import Emission
  import Difficulty
  import Merkle

  // ----- money in and money out of an address

  ghost function Incoming(txs: seq<Transaction>, a: Str): nat {
    if txs == [] then 0 else Incoming(DropLast(txs), a) + if Last(txs).to == a then Last(txs).amount else 0
  }

  ghost function Outgoing(txs: seq<Transaction>, baseFee: u64, a: Str): nat {
    if txs == [] then 0 else Outgoing(DropLast(txs), baseFee, a) + if Last(txs).from ==
        Some(a) then Outlay(Last(txs), baseFee) else 0
  }

  ghost function TotalIn(blocks: seq<Block>, a: Str): nat {
    if blocks == [] then 0 else TotalIn(DropLast(blocks), a) + Incoming(Last(blocks).transactions, a)
  }

  ghost function TotalOut(blocks: seq<Block>, a: Str): nat {
    if blocks == [] then 0 else TotalOut(DropLast(blocks), a) + Outgoing(Last(blocks).transactions,
        Last(blocks).header.baseFee, a)
  }

  lemma {:induction false} FlowsConcat(x: seq<Transaction>, y: seq<Transaction>, baseFee: u64, a: Str)
    ensures Incoming(x + y, a) == Incoming(x, a) + Incoming(y, a)
    ensures Outgoing(x + y, baseFee, a) == Outgoing(x, baseFee, a) + Outgoing(y, baseFee, a)
    decreases |y|
  {
    hide Outlay;
    if y == [] {
      assert x + y == x;
    } else {
      FlowsConcat(x, DropLast(y), baseFee, a);
      assert DropLast(x + y) == x + DropLast(y);
    }
  }

  /** A spend takes amount and effective fee from the sender and gives the amount on; the
      plain addition of the two never wraps. */
  lemma {:induction false} SpendFlow(c: Crypto, s: Ledger, t: Transaction, baseFee: u64, a: Str)
    requires !t.IsCoinbase() && ApplyTransaction(c, s, t, baseFee).result.Ok?
    ensures t.from.Some? && Outlay(t, baseFee) == t.amount + OrZero(EffectiveFee(t, baseFee))
    ensures ApplyTransaction(c, s, t,
            baseFee).state.BalanceOf(a) + (if t.from == Some(a) then Outlay(t, baseFee) else 0)
         == s.BalanceOf(a) + (if t.to == a then t.amount else 0)
  {
    hide Encode, Verify, Total;
    SpendConserves(c, s, t, baseFee);
  }

  lemma {:induction false} ReplayFlow(c: Crypto, s: Ledger, txs: seq<Transaction>, baseFee: u64, a: Str)
    requires NoCoinbase(txs) && Replay(c, s, txs, baseFee).result.Ok?
    ensures Replay(c, s, txs, baseFee).state.BalanceOf(a) + Outgoing(txs, baseFee, a) ==
            s.BalanceOf(a) + Incoming(txs, a)
    decreases |txs|
  {
    hide ApplyTransaction, Outlay;
    if txs != [] {
      ReplayFlow(c, s, DropLast(txs), baseFee, a);
      SpendFlow(c, Replay(c, s, DropLast(txs), baseFee).state, Last(txs), baseFee, a);
    }
  }

  lemma {:induction false} CoinbaseFlow(c: Crypto, s: Ledger, t: Transaction, baseFee: u64, a: Str)
    requires t.IsCoinbase() && ApplyTransaction(c, s, t, baseFee).result.Ok?
    ensures ApplyTransaction(c, s, t, baseFee).state.BalanceOf(a) ==
            s.BalanceOf(a) + (if t.to == a then t.amount else 0)
  {
    hide Encode;
  }

  lemma {:induction false} CoinbaseFirst(txs: seq<Transaction>, baseFee: u64, a: Str)
    requires txs != [] && txs[0].IsCoinbase()
    ensures Incoming(txs, a) == Incoming(txs[1..], a) + (if txs[0].to == a then txs[0].amount else 0)
    ensures Outgoing(txs, baseFee, a) == Outgoing(txs[1..], baseFee, a)
  {
    hide Outlay;
    FlowsConcat([txs[0]], txs[1..], baseFee, a);
    assert [txs[0]] + txs[1..] == txs;
    assert DropLast([txs[0]]) == [];
  }

  lemma {:induction false} BlockFlow(c: Crypto, s: Ledger, b: Block, a: Str)
    requires Sound(s) && ApplyBlock(c, s, b).result.Ok?
    ensures ApplyBlock(c, s, b).state.BalanceOf(a) + Outgoing(b.transactions, b.header.baseFee, a) ==
            s.BalanceOf(a) + Incoming(b.transactions, a)
  {
    hide ApplyTransaction, Replay, Simulate, TxHash, BlockHash, HashSet, NonceEffect, Held, Incoming, Outgoing,
         ValidateBlock, Sound;
    AppliedBlockEffect(c, s, b);
    var spends, baseFee := b.transactions[1..], b.header.baseFee;
    ReplayFlow(c, s, spends, baseFee, a);
    CoinbaseFlow(c, Replay(c, s, spends, baseFee).state, b.transactions[0], baseFee, a);
    CoinbaseFirst(b.transactions, baseFee, a);
  }

  /** An account's balance is everything it received minus everything it parted with. */
  lemma {:induction false} BalanceIsNetFlow(c: Crypto, now: u64, network: Network, blocks: seq<Block>, a: Str)
    requires Valid(c, now, network, blocks)
    ensures StateOf(c, now, network, blocks).BalanceOf(a) + TotalOut(blocks, a) == TotalIn(blocks, a)
    decreases |blocks|
  {
    hide ValidateNextBlock, ApplyBlock, Incoming, Outgoing, Sound, BlockHash, NoncesMatch, HashSet;
    if blocks != [] {
      BalanceIsNetFlow(c, now, network, DropLast(blocks), a);
      ValidChainInvariant(c, now, network, DropLast(blocks));
      BlockFlow(c, StateOf(c, now, network, DropLast(blocks)), Last(blocks), a);
    }
  }

  // ----- who can lower a balance

  lemma {:induction false} SpendIn(txs: seq<Transaction>, baseFee: u64, a: Str) returns (j: nat)
    requires Outgoing(txs, baseFee, a) > 0
    ensures j < |txs| && txs[j].from == Some(a)
  {
    hide Outlay;
    if Last(txs).from == Some(a) {
      j := |txs| - 1;
    } else {
      j := SpendIn(DropLast(txs), baseFee, a);
    }
  }

  lemma {:induction false} SpendAbove(blocks: seq<Block>, count: nat, a: Str) returns (i: nat, j: nat)
    requires count <= |blocks| && TotalOut(blocks, a) > TotalOut(blocks[..count], a)
    ensures count <= i < |blocks| && j < |blocks[i].transactions| && blocks[i].transactions[j].from == Some(a)
    decreases |blocks|
  {
    hide Outgoing;
    assert blocks[..|blocks|] == blocks;
    assert DropLast(blocks)[..count] == blocks[..count];
    if TotalOut(DropLast(blocks), a) > TotalOut(blocks[..count], a) {
      i, j := SpendAbove(DropLast(blocks), count, a);
    } else {
      i := |blocks| - 1;
      j := SpendIn(Last(blocks).transactions, Last(blocks).header.baseFee, a);
    }
  }

  lemma {:induction false} ReceiptsGrow(blocks: seq<Block>, count: nat, a: Str)
    requires count <= |blocks|
    ensures TotalIn(blocks[..count], a) <= TotalIn(blocks, a)
    decreases |blocks|
  {
    hide Incoming;
    if count == |blocks| {
      assert blocks[..count] == blocks;
    } else {
      ReceiptsGrow(DropLast(blocks), count, a);
      assert DropLast(blocks)[..count] == blocks[..count];
    }
  }

  /** Nobody else spends an account's money: if its balance is lower than after some earlier
      block, a block since then holds a spend from it, signed with a key that its address
      derives from. */
  lemma {:induction false} OnlyTheSignerSpends(
    c: Crypto, now: u64, network: Network, blocks: seq<Block>, count: nat, a: Str) returns (i: nat, j: nat)
    requires Valid(c, now, network, blocks) && count <= |blocks| && Valid(c, now, network, blocks[..count])
    requires StateOf(c, now, network, blocks).BalanceOf(a) < StateOf(c, now, network, blocks[..count]).BalanceOf(a)
    ensures count <= i < |blocks| && 0 < j < |blocks[i].transactions|
    ensures blocks[i].transactions[j].from == Some(a) && SignedBySender(c, blocks[i].transactions[j])
  {
    hide Valid, StateOf, TotalIn, TotalOut, SignedBySender, WellShaped;
    BalanceIsNetFlow(c, now, network, blocks, a);
    BalanceIsNetFlow(c, now, network, blocks[..count], a);
    ReceiptsGrow(blocks, count, a);
    i, j := SpendAbove(blocks, count, a);
    ChainSpendsAreSigned(c, now, network, blocks, i, j);
  }

  // ----- what the address table records

  /** The totals of a record stick at the 64-bit maximum. */
  ghost predicate Totals(x: Activity, received: nat, sent: nat) {
    x.received == Min(received, U64_MAX) && x.sent == Min(sent, U64_MAX)
  }

  lemma {:induction false} TouchTotals(
    c: Crypto, addresses: map<Str, Activity>, t: Transaction, height: u64, baseFee: u64, reward: u64, a: Str,
    received: nat, sent: nat)
    requires Totals(ActivityOf(addresses, a), received, sent)
    ensures Totals(ActivityOf(Touch(c, addresses, t, height, baseFee, reward), a),
                   received + (if t.to == a then t.amount else 0),
                       sent + (if t.from == Some(a) then Outlay(t, baseFee) else 0))
  {
    hide Encode, Outlay;
  }

  lemma {:induction false} TouchAllTotals(
    c: Crypto, addresses: map<Str, Activity>, b: Block, n: nat, reward: u64, a: Str, received: nat, sent: nat)
    requires n <= |b.transactions| && Totals(ActivityOf(addresses, a), received, sent)
    ensures Totals(ActivityOf(TouchAll(c, addresses, b, n, reward), a),
                   received + Incoming(b.transactions[..n], a),
                       sent + Outgoing(b.transactions[..n], b.header.baseFee, a))
    decreases n
  {
    hide Touch, ActivityOf, Totals, Outlay;
    if n == 0 {
      assert b.transactions[..0] == [];
    } else {
      TouchAllTotals(c, addresses, b, n - 1, reward, a, received, sent);
      var txs := b.transactions[..n];
      assert DropLast(txs) == b.transactions[..n - 1] && Last(txs) == b.transactions[n - 1];
      TouchTotals(c, TouchAll(c, addresses, b, n - 1, reward), b.transactions[n - 1], b.header.height,
          b.header.baseFee, reward, a,
                  received + Incoming(DropLast(txs), a), sent + Outgoing(DropLast(txs), b.header.baseFee, a));
    }
  }

  lemma {:induction false} RowTotals(c: Crypto, s: Ledger, blocks: seq<Block>, a: Str)
    requires WithBlocks(c, s, EMPTY_TABLES, blocks).Ok?
    ensures Totals(ActivityOf(WithBlocks(c, s, EMPTY_TABLES, blocks).value.addresses, a), TotalIn(blocks, a),
            TotalOut(blocks, a))
    decreases |blocks|
  {
    hide TouchAll, ListAll, BlockHash, FeesAt, RewardAt, IndexedBlockOf, Incoming, Outgoing;
    if blocks != [] {
      RowTotals(c, s, DropLast(blocks), a);
      var b, before := Last(blocks), WithBlocks(c, s, EMPTY_TABLES, DropLast(blocks)).value;
      TouchAllTotals(c, before.addresses, b, |b.transactions|, RewardAt(s, b.header.height), a,
          TotalIn(DropLast(blocks), a), TotalOut(DropLast(blocks), a));
      assert b.transactions[..|b.transactions|] == b.transactions;
    }
  }

  /** The index explains every balance: it shows the ledger's balance, and as long as the
      receipts fit in 64 bits that is exactly receipts minus outlays. */
  lemma {:induction false} IndexExplainsBalances(c: Crypto, now: u64, network: Network, blocks: seq<Block>, a: Str)
    requires Valid(c, now, network, blocks) && blocks != []
    ensures Rebuild(c, now, blocks).Ok?
    ensures var x := ActivityOf(Rebuild(c, now, blocks).value.tables.addresses, a);
            && x.balance == StateOf(c, now, network, blocks).BalanceOf(a)
            && x.received == Min(TotalIn(blocks, a), U64_MAX) && x.sent == Min(TotalOut(blocks, a), U64_MAX)
            && (TotalIn(blocks, a) <= U64_MAX ==> x.balance == x.received - x.sent)
  {
    hide FromBlocks, WithBlocks, BlockHash, TotalIn, TotalOut, Rebuild, SameButBalances;
    RebuildIs(c, now, network, blocks);
    BalanceIsNetFlow(c, now, network, blocks, a);
    var s, rows := StateOf(c, now, network, blocks), Rows(c, now, network, blocks).value;
    RowTotals(c, s, blocks, a);
    ValidIsBodied(c, now, network, blocks);
    RowsStartClear(c, s, blocks, a);
    BalanceShown(rows.addresses, s.balances, a);
  }

  lemma {:induction false} RowsStartClear(c: Crypto, s: Ledger, blocks: seq<Block>, a: Str)
    requires Bodied(blocks)
    ensures WithBlocks(c, s, EMPTY_TABLES, blocks).Ok?
    ensures ActivityOf(WithBlocks(c, s, EMPTY_TABLES, blocks).value.addresses, a).balance == 0
  {
    hide WithBlocks, Bodied;
    FreshRows(c, s, blocks);
    var m := WithBlocks(c, s, EMPTY_TABLES, blocks).value.addresses;
    assert Cleared(ActivityOf(m, a)) == ActivityOf(m, a);
  }

  lemma {:induction false} BalanceShown(m: map<Str, Activity>, balances: map<Str, u64>, a: Str)
    requires ActivityOf(m, a).balance == 0
    ensures ActivityOf(WithBalances(m, balances), a) ==
            ActivityOf(m, a).(inLedger := ActivityOf(WithBalances(m, balances), a).inLedger,
                balance := if a in balances then balances[a] else 0)
  {
  }

  // ----- where transactions are

  /** Row `j` of block `i` can be looked up by its hash. */
  ghost predicate Located(c: Crypto, transactions: map<Digest, IndexedTransaction>, b: Block, j: nat)
    requires j < |b.transactions|
  {
    TxHash(c, b.transactions[j]) in transactions &&
        transactions[TxHash(c, b.transactions[j])] == IndexedTransactionOf(c, b, j)
  }

  ghost predicate DistinctHashes(c: Crypto, b: Block) {
    forall i, j :: 0 <= i < j < |b.transactions| ==> TxHash(c, b.transactions[i]) != TxHash(c, b.transactions[j])
  }

  lemma {:induction false} ListAllLocates(c: Crypto, m: map<Digest, IndexedTransaction>, b: Block, n: nat)
    requires n <= |b.transactions| && DistinctHashes(c, b)
    ensures forall j :: 0 <= j < n ==> Located(c, ListAll(c, m, b, n), b, j)
    ensures forall d :: d !in HashSet(c, b.transactions) ==>
            (d in ListAll(c, m, b, n) <==> d in m) && (d in m ==> ListAll(c, m, b, n)[d] == m[d])
    ensures ListAll(c, m, b, n).Keys <= m.Keys + HashSet(c, b.transactions)
    decreases n
  {
    hide Encode, IndexedTransactionOf;
    if n > 0 {
      ListAllLocates(c, m, b, n - 1);
      var before := ListAll(c, m, b, n - 1);
      assert TxHash(c, b.transactions[n - 1]) in HashSet(c, b.transactions);
      forall j | 0 <= j < n ensures Located(c, ListAll(c, m, b, n), b, j) {
        if j < n - 1 {
          assert Located(c, before, b, j);
          assert TxHash(c, b.transactions[j]) != TxHash(c, b.transactions[n - 1]);
        }
      }
    }
  }

  ghost predicate AllLocated(c: Crypto, transactions: map<Digest, IndexedTransaction>, blocks: seq<Block>) {
    && transactions.Keys == HashSet(c, AllTransactions(blocks))
    && forall i, j :: 0 <= i < |blocks| && 0 <= j < |blocks[i].transactions| ==> Located(c, transactions, blocks[i], j)
  }

  lemma {:induction false} RowsLocate(c: Crypto, s: Ledger, now: u64, network: Network, blocks: seq<Block>)
    requires Valid(c, now, network, blocks) && WithBlocks(c, s, EMPTY_TABLES, blocks).Ok?
    ensures AllLocated(c, WithBlocks(c, s, EMPTY_TABLES, blocks).value.transactions, blocks)
    decreases |blocks|
  {
    hide FromBlocks, TouchAll, ListAll, BlockHash, TxHash, FeesAt, RewardAt, IndexedBlockOf, AllLocated, HashSet;
    if blocks == [] {
      assert AllLocated(c, map[], []) by { NothingLocated(c); }
    } else {
      ValidPrefix(c, now, network, blocks, |blocks| - 1);
      RowsLocate(c, s, now, network, DropLast(blocks));
      TipIsFresh(c, now, network, blocks);
      LocateStep(c, WithBlocks(c, s, EMPTY_TABLES, DropLast(blocks)).value.transactions, blocks);
    }
  }

  lemma {:induction false} NothingLocated(c: Crypto)
    ensures AllLocated(c, map[], [])
  {
    hide TxHash;
  }

  /** The tip of a valid chain repeats no hash, of its own or of the blocks before it. */
  lemma {:induction false} TipIsFresh(c: Crypto, now: u64, network: Network, blocks: seq<Block>)
    requires Valid(c, now, network, blocks) && blocks != []
    ensures DistinctHashes(c, Last(blocks))
    ensures HashSet(c, Last(blocks).transactions) !! HashSet(c, AllTransactions(DropLast(blocks)))
  {
    hide AppendBlock, BlockHash, TxHash, HashSet, NonceEffect, NoncesMatch, Linked, Sound, Emission.Emitted,
         Difficulty.NextDifficulty, NextBaseFee, EnsurePow, Merkle.MerkleRoot, CheckCoinbaseAmount,
         TransactionNetwork, CheckBodies, TipMatches;
    ValidChainInvariant(c, now, network, DropLast(blocks));
    FromBlocksShape(c, now, network, DropLast(blocks));
    InvariantStep(c, now, FromBlocks(c, now, network, DropLast(blocks)).value, Last(blocks));
    AcceptedBodies(c, Last(blocks).transactions, |Last(blocks).transactions|);
  }

  lemma {:induction false} LocateStep(c: Crypto, m: map<Digest, IndexedTransaction>, blocks: seq<Block>)
    requires blocks != [] && AllLocated(c, m, DropLast(blocks)) && DistinctHashes(c, Last(blocks))
    requires HashSet(c, Last(blocks).transactions) !! HashSet(c, AllTransactions(DropLast(blocks)))
    ensures AllLocated(c, ListAll(c, m, Last(blocks), |Last(blocks).transactions|), blocks)
  {
    hide Encode, ListAll, IndexedTransactionOf, DistinctHashes;
    var b, n := Last(blocks), |Last(blocks).transactions|;
    var after := ListAll(c, m, b, n);
    ListAllLocates(c, m, b, n);
    HashSetConcat(c, AllTransactions(DropLast(blocks)), b.transactions);
    forall j | 0 <= j < n ensures TxHash(c, b.transactions[j]) in after { assert Located(c, after, b, j); }
    forall i, j | 0 <= i < |blocks| && 0 <= j < |blocks[i].transactions| ensures Located(c, after, blocks[i], j) {
      if i < |blocks| - 1 {
        assert blocks[i] == DropLast(blocks)[i];
        assert Located(c, m, DropLast(blocks)[i], j);
      }
    }
  }

  /** The index knows exactly the chain's transactions, each with its block and position. */
  lemma {:induction false} IndexLocatesTransactions(c: Crypto, now: u64, network: Network, blocks: seq<Block>)
    requires Valid(c, now, network, blocks) && blocks != []
    ensures Rebuild(c, now, blocks).Ok? && AllLocated(c, Rebuild(c, now, blocks).value.tables.transactions, blocks)
  {
    hide FromBlocks, WithBlocks, BlockHash, Rebuild, AllLocated, WithBalances, Summarize;
    RebuildIs(c, now, network, blocks);
    RowsLocate(c, StateOf(c, now, network, blocks), now, network, blocks);
  }
}
