/** The chain index: full rebuild, incremental append and the choice between them (index.rs). */
module Indexes {
  import opened Prelude
  import opened Primitives
  import opened Transactions
  import opened Blocks
  import opened Ledgers
  import opened Chains
  import Nodes

  datatype Authorization = ByCoinbase | Signed | Unsigned

  datatype IndexedTransaction = IndexedTransaction(
    hash: Digest, blockHeight: u64, blockHash: Digest, blockCount: nat, position: nat,
    version: u32, nonce: u64, from: Option<Str>, to: Str, amount: u64,
    maxFee: u64, priorityFee: u64, effectiveFee: u64, burnedFee: u64, tip: u64, baseFee: u64,
    memo: Option<Bytes32>, senderKey: Option<Bytes32>, signature: Option<Bytes64>, authorization: Authorization)

  datatype IndexedBlock = IndexedBlock(
    height: u64, hash: Digest, previousHash: Digest, merkleRoot: Digest, timestamp: u64, nonce: u64,
    difficulty: u8, count: nat, miner: Str, payout: u64, reward: u64, fees: FeeSummary,
    baseFee: u64, hashes: seq<Digest>)

  datatype Activity = Activity(
    address: Str, inLedger: bool, balance: u64, received: u64, sent: u64, mined: u64,
    hashes: seq<Digest>, sentHashes: seq<Digest>, receivedHashes: seq<Digest>, minedHeights: seq<u64>)

  datatype Summary = Summary(
    network: Network, height: Option<u64>, blockCount: nat, transactionCount: nat, addressCount: nat,
    tipHash: Option<Digest>, latestTimestamp: Option<u64>, emitted: u64, remaining: u64)

  datatype Tables = Tables(
    byHeight: map<u64, IndexedBlock>, byHash: map<Digest, IndexedBlock>,
    transactions: map<Digest, IndexedTransaction>, addresses: map<Str, Activity>,
    rewards: map<u64, u64>, fees: map<u64, u64>)

  datatype Index = Index(summary: Summary, tables: Tables)

  const EMPTY_TABLES := Tables(map[], map[], map[], map[], map[], map[])

  // ----- records

  function OrZero(r: Result<u64>): u64 { if r.Ok? then r.value else 0 }

  function IndexedTransactionOf(c: Crypto, b: Block, i: nat): IndexedTransaction
    requires i < |b.transactions|
  {
    var t, baseFee := b.transactions[i], b.header.baseFee;
    IndexedTransaction(
      TxHash(c, t), b.header.height, BlockHash(c, b), |b.transactions|, i,
      t.version, t.nonce, t.from, t.to, t.amount, t.maxFee, t.priorityFee,
      OrZero(EffectiveFee(t, baseFee)), if t.IsCoinbase() then 0 else baseFee,
          OrZero(EffectivePriorityFee(t, baseFee)), baseFee,
      t.memo, t.senderKey, t.signature,
      if t.IsCoinbase() then ByCoinbase else if t.signature.Some? then Signed else Unsigned)
  }

  function NoActivity(address: Str): Activity {
    Activity(address, false, 0, 0, 0, 0, [], [], [], [])
  }

  function ActivityOf(addresses: map<Str, Activity>, a: Str): Activity {
    if a in addresses then addresses[a] else NoActivity(a)
  }

  function FeesAt(s: Ledger, height: u64): FeeSummary {
    if height in s.blockFees then s.blockFees[height] else FeeSummary(0, 0, 0)
  }

  function RewardAt(s: Ledger, height: u64): u64 {
    if height in s.rewards then s.rewards[height] else 0
  }

  // ----- one transaction

  /** What a sender parts with; the sum is a plain 64-bit addition. */
  function Outlay(t: Transaction, baseFee: u64): u64 {
    (t.amount + OrZero(EffectiveFee(t, baseFee))) % 0x1_0000_0000_0000_0000
  }

  function AddSent(x: Activity, hash: Digest, outlay: u64): Activity {
    x.(sentHashes := x.sentHashes + [hash], hashes := x.hashes + [hash], sent := SaturatingAdd(x.sent, outlay))
  }

  function AddReceived(x: Activity, hash: Digest, t: Transaction, height: u64, reward: u64): Activity {
    var got := x.(receivedHashes := x.receivedHashes + [hash], hashes := x.hashes + [hash],
                  received := SaturatingAdd(x.received, t.amount));
    if !t.IsCoinbase() then got
    else got.(minedHeights := got.minedHeights + [height], mined := SaturatingAdd(got.mined, reward))
  }

  function Touch(
    c: Crypto, addresses: map<Str, Activity>, t: Transaction, height: u64, baseFee: u64, reward: u64)
    : map<Str, Activity>
  {
    var hash := TxHash(c, t);
    var sent := if t.from.None? then addresses
                else addresses[t.from.value := AddSent(ActivityOf(addresses, t.from.value), hash, Outlay(t, baseFee))];
    sent[t.to := AddReceived(ActivityOf(sent, t.to), hash, t, height, reward)]
  }

  /** The address table after the first `n` transactions of a block. */
  function TouchAll(c: Crypto, addresses: map<Str, Activity>, b: Block, n: nat, reward: u64): map<Str, Activity>
    requires n <= |b.transactions|
  {
    if n == 0 then addresses
    else Touch(c, TouchAll(c, addresses, b, n - 1, reward), b.transactions[n - 1], b.header.height, b.header.baseFee,
        reward)
  }

  function ListAll(
    c: Crypto, transactions: map<Digest, IndexedTransaction>, b: Block, n: nat): map<Digest, IndexedTransaction>
    requires n <= |b.transactions|
  {
    if n == 0 then transactions
    else ListAll(c, transactions, b, n - 1)[TxHash(c, b.transactions[n - 1]) := IndexedTransactionOf(c, b, n - 1)]
  }

  // ----- one block

  function IndexedBlockOf(c: Crypto, s: Ledger, b: Block): IndexedBlock
    requires b.transactions != []
  {
    var h, coinbase := b.header, b.transactions[0];
    IndexedBlock(h.height, BlockHash(c, b), h.previousHash, h.merkleRoot, h.timestamp, h.nonce, h.difficulty,
                 |b.transactions|, coinbase.to, coinbase.amount, RewardAt(s, h.height), FeesAt(s, h.height),
                 h.baseFee, TxHashes(c, b.transactions))
  }

  function WithBlock(c: Crypto, s: Ledger, t: Tables, b: Block): Result<Tables> {
    if b.transactions == [] then Err(MissingCoinbase) else
      var height, row, reward := b.header.height, IndexedBlockOf(c, s, b), RewardAt(s, b.header.height);
      Ok(Tables(
        t.byHeight[height := row], t.byHash[BlockHash(c, b) := row],
        ListAll(c, t.transactions, b, |b.transactions|),
        TouchAll(c, t.addresses, b, |b.transactions|, reward),
        t.rewards[height := reward], t.fees[height := FeesAt(s, height).total]))
  }

  function WithBlocks(c: Crypto, s: Ledger, t: Tables, blocks: seq<Block>): Result<Tables> {
    if blocks == [] then Ok(t) else
      var before :- WithBlocks(c, s, t, DropLast(blocks));
      WithBlock(c, s, before, Last(blocks))
  }

  /** The loop over one block's transactions, updating the tables entry by entry. */
  method AppendBlockToTables(c: Crypto, s: Ledger, tables: Tables, b: Block) returns (r: Result<Tables>)
    ensures r == WithBlock(c, s, tables, b)
  {
    hide BlockHash, Encode, EffectiveFee, EffectivePriorityFee, Outlay, AddSent, AddReceived, ActivityOf, FeesAt,
         RewardAt, IndexedTransactionOf;
    if b.transactions == [] {
      return Err(MissingCoinbase);
    }
    var height, reward, fees := b.header.height, RewardAt(s, b.header.height), FeesAt(s, b.header.height);
    var hashes: seq<Digest> := [];
    var addresses, transactions := tables.addresses, tables.transactions;
    for i := 0 to |b.transactions|
      invariant hashes == TxHashes(c, b.transactions)[..i]
      invariant addresses == TouchAll(c, tables.addresses, b, i, reward)
      invariant transactions == ListAll(c, tables.transactions, b, i)
    {
      var t := b.transactions[i];
      var hash := TxHash(c, t);
      hashes := hashes + [hash];
      if t.from.Some? {
        var outlay := Outlay(t, b.header.baseFee);
        addresses := addresses[t.from.value := AddSent(ActivityOf(addresses, t.from.value), hash, outlay)];
      }
      addresses := addresses[t.to := AddReceived(ActivityOf(addresses, t.to), hash, t, height, reward)];
      transactions := transactions[hash := IndexedTransactionOf(c, b, i)];
    }
    assert hashes == TxHashes(c, b.transactions);
    var row := IndexedBlock(height, BlockHash(c, b), b.header.previousHash, b.header.merkleRoot, b.header.timestamp,
                            b.header.nonce, b.header.difficulty, |b.transactions|, b.transactions[0].to,
                            b.transactions[0].amount, reward, fees, b.header.baseFee, hashes);
    r := Ok(Tables(tables.byHeight[height := row], tables.byHash[BlockHash(c, b) := row], transactions, addresses,
                   tables.rewards[height := reward], tables.fees[height := fees.total]));
  }

  method AppendBlocksToTables(c: Crypto, s: Ledger, tables: Tables, blocks: seq<Block>) returns (r: Result<Tables>)
    ensures r == WithBlocks(c, s, tables, blocks)
  {
    hide WithBlock;
    var current := tables;
    for i := 0 to |blocks|
      invariant WithBlocks(c, s, tables, blocks[..i]) == Ok(current)
    {
      assert DropLast(blocks[..i + 1]) == blocks[..i];
      var step := AppendBlockToTables(c, s, current, blocks[i]);
      if step.Err? {
        IndexFailureIsFinal(c, s, tables, blocks, i + 1);
        return step;
      }
      current := step.value;
    }
    assert blocks[..|blocks|] == blocks;
    r := Ok(current);
  }

  lemma {:induction false} IndexFailureIsFinal(c: Crypto, s: Ledger, tables: Tables, blocks: seq<Block>, count: nat)
    requires count <= |blocks| && WithBlocks(c, s, tables, blocks[..count]).Err?
    ensures WithBlocks(c, s, tables, blocks) == WithBlocks(c, s, tables, blocks[..count])
    decreases |blocks| - count
  {
    hide WithBlock;
    if count < |blocks| {
      assert DropLast(blocks[..count + 1]) == blocks[..count];
      IndexFailureIsFinal(c, s, tables, blocks, count + 1);
    } else {
      assert blocks[..count] == blocks;
    }
  }

  // ----- balances and summary

  function WithBalance(x: Activity, balance: u64): Activity { x.(inLedger := true, balance := balance) }

  function Cleared(x: Activity): Activity { x.(inLedger := false, balance := 0) }

  /** The record of `a` once its ledger balance, if it has one, is filled in. */
  function Balanced(addresses: map<Str, Activity>, balances: map<Str, u64>, a: Str): Activity {
    if a in balances then WithBalance(ActivityOf(addresses, a), balances[a]) else ActivityOf(addresses, a)
  }

  function WithBalances(addresses: map<Str, Activity>, balances: map<Str, u64>): map<Str, Activity> {
    map a | a in addresses.Keys + balances.Keys :: Balanced(addresses, balances, a)
  }

  function ClearedAll(addresses: map<Str, Activity>): map<Str, Activity> {
    map a | a in addresses :: Cleared(addresses[a])
  }

  /** The table once the accounts in `done` have been entered. */
  function WithSome(addresses: map<Str, Activity>, balances: map<Str, u64>, done: set<Str>): map<Str, Activity>
    requires done <= balances.Keys
  {
    map a | a in addresses.Keys + done ::
      if a in done then Balanced(addresses, balances, a) else ActivityOf(addresses, a)
  }

  lemma {:induction false} WithOneMore(addresses: map<Str, Activity>, balances: map<Str, u64>, done: set<Str>, a: Str)
    requires done <= balances.Keys && a in balances.Keys - done
    ensures var before := WithSome(addresses, balances, done);
            WithSome(addresses, balances, done + {a}) == before[a := WithBalance(ActivityOf(before, a), balances[a])]
  {
    hide WithBalance;
  }

  lemma {:induction false} WithAll(addresses: map<Str, Activity>, balances: map<Str, u64>)
    ensures WithSome(addresses, balances, {}) == addresses
    ensures WithSome(addresses, balances, balances.Keys) == WithBalances(addresses, balances)
  {
    hide WithBalance;
  }

  method WriteBalances(addresses: map<Str, Activity>, balances: map<Str, u64>) returns (r: map<Str, Activity>)
    ensures r == WithBalances(addresses, balances)
  {
    hide WithSome, WithBalances;
    r := addresses;
    var todo := balances.Keys;
    WithAll(addresses, balances);
    assert balances.Keys - todo == {};
    while todo != {}
      invariant todo <= balances.Keys && r == WithSome(addresses, balances, balances.Keys - todo)
      decreases |todo|
    {
      var a :| a in todo;
      WithOneMore(addresses, balances, balances.Keys - todo, a);
      assert balances.Keys - (todo - {a}) == (balances.Keys - todo) + {a};
      r := r[a := WithBalance(ActivityOf(r, a), balances[a])];
      todo := todo - {a};
    }
    assert balances.Keys - todo == balances.Keys;
  }

  method ClearBalances(addresses: map<Str, Activity>) returns (r: map<Str, Activity>)
    ensures r == ClearedAll(addresses)
  {
    r := addresses;
    var todo := addresses.Keys;
    while todo != {}
      invariant todo <= addresses.Keys == r.Keys
      invariant forall a :: a in r ==> r[a] == if a in todo then addresses[a] else Cleared(addresses[a])
      decreases |todo|
    {
      var a :| a in todo;
      r := r[a := Cleared(r[a])];
      todo := todo - {a};
    }
  }

  function Summarize(c: Crypto, chain: Chain, t: Tables): Summary
    requires chain.blocks != []
  {
    var height := Last(chain.blocks).header.height;
    Summary(chain.network, Some(height), |chain.blocks|, |t.transactions|, |t.addresses|,
            Some(BlockHash(c, Last(chain.blocks))),
            if height in t.byHeight then Some(t.byHeight[height].timestamp) else None,
            chain.state.emitted, (MAX_SUPPLY - chain.state.emitted) % 0x1_0000_0000_0000_0000)
  }

  function Assemble(c: Crypto, chain: Chain, t: Tables): Index
    requires chain.blocks != []
  {
    var full := t.(addresses := WithBalances(t.addresses, chain.state.balances));
    Index(Summarize(c, chain, full), full)
  }

  // ----- rebuild, append, choose

  function Load(c: Crypto, blocks: seq<Block>): Result<seq<Block>> {
    var _ :- Need(blocks != [], ChainNotInitialized);
    var _ :- Nodes.CheckStructure(c, blocks);
    Ok(blocks)
  }

  function NetworkOf(b: Block): Result<Network> {
    if b.header.networkId == Devnet.NetworkId() then Ok(Devnet)
    else if b.header.networkId == Testnet.NetworkId() then Ok(Testnet)
    else if b.header.networkId == MainnetCandidate.NetworkId() then Ok(MainnetCandidate)
    else Err(InvalidNetwork)
  }

  function Rebuild(c: Crypto, now: u64, stored: seq<Block>): Result<Index> {
    var blocks :- Load(c, stored);
    var network :- NetworkOf(blocks[0]);
    var chain :- FromBlocks(c, now, network, blocks);
    var tables :- WithBlocks(c, chain.state, EMPTY_TABLES, blocks);
    FromBlocksShape(c, now, network, blocks);
    Ok(Assemble(c, chain, tables))
  }

  predicate ContinuesFrom(c: Crypto, tip: Digest, blocks: seq<Block>) {
    && (blocks != [] ==> blocks[0].header.previousHash == tip)
    && forall i {:trigger blocks[i]} :: 0 < i < |blocks| ==>
        blocks[i].header.previousHash == BlockHash(c, blocks[i - 1])
  }

  function Extend(c: Crypto, now: u64, existing: Index, blocks: seq<Block>, added: seq<Block>): Result<Index>
    requires blocks != []
  {
    var network :- NetworkOf(blocks[0]);
    var chain :- FromBlocks(c, now, network, blocks);
    var tables :- WithBlocks(c, chain.state, existing.tables, added);
    FromBlocksShape(c, now, network, blocks);
    Ok(Assemble(c, chain, tables.(addresses := ClearedAll(tables.addresses))))
  }

  /** Appends only when the indexed tip is still on the chain, below its tip or at it. */
  function TryAppend(c: Crypto, now: u64, existing: Index, stored: seq<Block>): Result<Option<Index>> {
    if existing.summary.height.None? || existing.summary.tipHash.None? then Ok(None) else
      var height, tip := existing.summary.height.value, existing.summary.tipHash.value;
      var blocks :- Load(c, stored);
      if height >= |blocks| || blocks[height].header.height != height ||
          BlockHash(c, blocks[height]) != tip then Ok(None)
      else if |blocks| == height + 1 then Ok(Some(existing))
      else if !ContinuesFrom(c, tip, blocks[height + 1..]) then Ok(None)
      else
        var index :- Extend(c, now, existing, blocks, blocks[height + 1..]);
        Ok(Some(index))
  }

  predicate RowMatches(c: Crypto, index: Index, blocks: seq<Block>, height: u64) {
    && height in index.tables.byHeight && height < |blocks|
    && blocks[height].header.height == height
    && index.tables.byHeight[height].hash == BlockHash(c, blocks[height])
    && (height > 0 ==> index.tables.byHeight[height].previousHash == BlockHash(c, blocks[height - 1]))
  }

  const PARENT_SAMPLE: nat := 16

  function ParentLinksMatch(c: Crypto, index: Index, stored: seq<Block>): Result<bool> {
    if index.summary.height.None? then Ok(index.summary.tipHash.None?) else
      var height := index.summary.height.value;
      var blocks :- Load(c, stored);
      Ok(&& Last(blocks).header.height == height
         && index.summary.tipHash == Some(BlockHash(c, Last(blocks)))
         && forall h :: height - Min(height, PARENT_SAMPLE) <= h <= height ==> RowMatches(c, index, blocks, h))
  }

  /** The four times the chain is read during one call; another process may write between. */
  datatype Views = Views(tip: seq<Block>, links: seq<Block>, append: seq<Block>, rebuild: seq<Block>)

  function EnsureIndex(c: Crypto, now: u64, stored: Option<Index>, views: Views): Result<Index> {
    var seen :- Load(c, views.tip);
    if stored.None? then Rebuild(c, now, views.rebuild) else
      var existing := stored.value;
      var current :-
        if existing.summary.height == Some(Last(seen).header.height) &&
            existing.summary.tipHash == Some(BlockHash(c, Last(seen)))
        then ParentLinksMatch(c, existing, views.links) else Ok(false);
      if current then Ok(existing) else
        var appended :- TryAppend(c, now, existing, views.append);
        if appended.Some? then Ok(appended.value) else Rebuild(c, now, views.rebuild)
  }

  // ----- the imperative forms

  method IndexChain(c: Crypto, now: u64, stored: seq<Block>) returns (r: Result<Index>)
    ensures r == Rebuild(c, now, stored)
  {
    hide BlockHash, FromBlocks, Nodes.CheckStructure, WithBlocks, WithBalances;
    var blocks :- Load(c, stored);
    var network :- NetworkOf(blocks[0]);
    var chain :- FromBlocks(c, now, network, blocks);
    var tables :- AppendBlocksToTables(c, chain.state, EMPTY_TABLES, blocks);
    FromBlocksShape(c, now, network, blocks);
    var addresses := WriteBalances(tables.addresses, chain.state.balances);
    var full := tables.(addresses := addresses);
    r := Ok(Index(Summarize(c, chain, full), full));
  }

  method LinksContinue(c: Crypto, tip: Digest, blocks: seq<Block>) returns (r: bool)
    ensures r == ContinuesFrom(c, tip, blocks)
  {
    hide BlockHash;
    if blocks == [] {
      return true;
    }
    if blocks[0].header.previousHash != tip {
      return false;
    }
    for i := 1 to |blocks|
      invariant forall k {:trigger blocks[k]} :: 0 < k < i ==>
                blocks[k].header.previousHash == BlockHash(c, blocks[k - 1])
    {
      if blocks[i].header.previousHash != BlockHash(c, blocks[i - 1]) {
        return false;
      }
    }
    r := true;
  }

  method TryAppendIndex(c: Crypto, now: u64, existing: Index, stored: seq<Block>) returns (r: Result<Option<Index>>)
    ensures r == TryAppend(c, now, existing, stored)
  {
    hide BlockHash, FromBlocks, Nodes.CheckStructure, WithBlocks, WithBalances, ClearedAll, ContinuesFrom;
    if existing.summary.height.None? || existing.summary.tipHash.None? {
      return Ok(None);
    }
    var height, tip := existing.summary.height.value, existing.summary.tipHash.value;
    var blocks :- Load(c, stored);
    if height >= |blocks| || blocks[height].header.height != height || BlockHash(c, blocks[height]) != tip {
      return Ok(None);
    }
    if |blocks| == height + 1 {
      return Ok(Some(existing));
    }
    var added := blocks[height + 1..];
    var continues := LinksContinue(c, tip, added);
    if !continues {
      return Ok(None);
    }
    var network :- NetworkOf(blocks[0]);
    var chain :- FromBlocks(c, now, network, blocks);
    var tables :- AppendBlocksToTables(c, chain.state, existing.tables, added);
    FromBlocksShape(c, now, network, blocks);
    var addresses := ClearBalances(tables.addresses);
    addresses := WriteBalances(addresses, chain.state.balances);
    var full := tables.(addresses := addresses);
    r := Ok(Some(Index(Summarize(c, chain, full), full)));
  }

  method SampleParentLinks(c: Crypto, index: Index, stored: seq<Block>) returns (r: Result<bool>)
    ensures r == ParentLinksMatch(c, index, stored)
  {
    hide BlockHash, Nodes.CheckStructure, RowMatches;
    if index.summary.height.None? {
      return Ok(index.summary.tipHash.None?);
    }
    var height := index.summary.height.value;
    var blocks :- Load(c, stored);
    if Last(blocks).header.height != height || index.summary.tipHash != Some(BlockHash(c, Last(blocks))) {
      return Ok(false);
    }
    for offset := 0 to Min(height, PARENT_SAMPLE) + 1
      invariant forall h :: height - offset < h <= height ==> RowMatches(c, index, blocks, h)
    {
      if !RowMatches(c, index, blocks, height - offset) {
        return Ok(false);
      }
    }
    r := Ok(true);
  }

  method EnsureIndexMatchesChain(c: Crypto, now: u64, stored: Option<Index>, views: Views) returns (r: Result<Index>)
    ensures r == EnsureIndex(c, now, stored, views)
  {
    hide BlockHash, Nodes.CheckStructure, Rebuild, TryAppend, ParentLinksMatch;
    var seen :- Load(c, views.tip);
    if stored.Some? {
      var existing := stored.value;
      if existing.summary.height == Some(Last(seen).header.height) &&
          existing.summary.tipHash == Some(BlockHash(c, Last(seen))) {
        var current :- SampleParentLinks(c, existing, views.links);
        if current {
          return Ok(existing);
        }
      }
      var appended :- TryAppendIndex(c, now, existing, views.append);
      if appended.Some? {
        return Ok(appended.value);
      }
    }
    r := IndexChain(c, now, views.rebuild);
  }
}
