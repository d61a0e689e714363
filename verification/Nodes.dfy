/** The node: block store with its archive of detached blocks, tip append and chain
    replacement, and the pool that goes with it (storage.rs, devnet.rs). */
module Nodes {
  import opened Prelude
  import opened Primitives
  import opened Transactions
  import opened Blocks
  import opened Consensus
  import opened Ledgers
  import opened Chains
  import opened ChainIdentity
  import opened Mempool
  import opened MempoolEvents

  const I64_MAX: nat := 0x7FFF_FFFF_FFFF_FFFF

  datatype Node = Node(network: Network, maxPool: nat,
                       canonical: seq<Block>, orphaned: map<Digest, Block>, pool: seq<Record>)

  // ----- the store

  predicate Follows(c: Crypto, previous: Block, b: Block) {
    b.header.height == SaturatingAdd(previous.header.height, 1) && b.header.previousHash == BlockHash(c, previous)
  }

  predicate FollowsUpTo(c: Crypto, blocks: seq<Block>, count: nat)
    requires 1 <= count <= |blocks|
  {
    count == 1 || (FollowsUpTo(c, blocks, count - 1) && Follows(c, blocks[count - 2], blocks[count - 1]))
  }

  function CheckStructure(c: Crypto, blocks: seq<Block>): Result<()> {
    Need(blocks != [] ==> blocks[0].header.height == 0 && FollowsUpTo(c, blocks, |blocks|), InvalidChainFile)
  }

  method VerifyChainStructure(c: Crypto, blocks: seq<Block>) returns (r: Result<()>)
    ensures r == CheckStructure(c, blocks)
  {
    hide BlockHash;
    if blocks == [] {
      return Ok(());
    }
    if blocks[0].header.height != 0 {
      return Err(InvalidChainFile);
    }
    for index := 1 to |blocks|
      invariant FollowsUpTo(c, blocks, index)
    {
      if blocks[index].header.height != SaturatingAdd(blocks[index - 1].header.height, 1)
         || blocks[index].header.previousHash != BlockHash(c, blocks[index - 1]) {
        BrokenLinkIsFinal(c, blocks, index + 1);
        return Err(InvalidChainFile);
      }
    }
    r := Ok(());
  }

  lemma {:induction false} BrokenLinkIsFinal(c: Crypto, blocks: seq<Block>, count: nat)
    requires 1 <= count <= |blocks| && !FollowsUpTo(c, blocks, count)
    ensures !FollowsUpTo(c, blocks, |blocks|)
    decreases |blocks| - count
  {
    if count < |blocks| {
      BrokenLinkIsFinal(c, blocks, count + 1);
    }
  }

  lemma {:induction false} LinkedHasStructure(c: Crypto, blocks: seq<Block>, count: nat)
    requires Linked(c, blocks) && 1 <= count <= |blocks|
    ensures FollowsUpTo(c, blocks, count)
    decreases count
  {
    hide BlockHash;
    if count > 1 {
      LinkedHasStructure(c, blocks, count - 1);
      assert blocks[count - 1].header.previousHash == PreviousHash(c, blocks[..count - 1]);
    }
  }

  function LoadBlocks(c: Crypto, n: Node): Result<seq<Block>> {
    var _ :- Need(n.canonical != [], ChainNotInitialized);
    var _ :- CheckStructure(c, n.canonical);
    Ok(n.canonical)
  }

  function VerifyTipExtension(c: Crypto, blocks: seq<Block>, b: Block): Result<()> {
    if blocks == [] then Need(b.header.height == 0, InvalidInput) else
      var _ :- Need(BlockHash(c, Last(blocks)) == b.header.previousHash, StaleChainTip);
      Need(b.header.height == SaturatingAdd(Last(blocks).header.height, 1), InvalidInput)
  }

  /** Heights are signed 64-bit keys; heights and hashes are unique columns. */
  predicate CanInsert(c: Crypto, blocks: seq<Block>, b: Block) {
    b.header.height <= I64_MAX
    && forall i :: 0 <= i < |blocks| ==>
        blocks[i].header.height != b.header.height && BlockHash(c, blocks[i]) != BlockHash(c, b)
  }

  function CheckInserts(c: Crypto, blocks: seq<Block>): Result<()> {
    if blocks == [] then Ok(()) else
      var _ :- CheckInserts(c, DropLast(blocks));
      Need(CanInsert(c, DropLast(blocks), Last(blocks)), StorageConflict)
  }

  predicate HasBlockHash(c: Crypto, blocks: seq<Block>, hash: Digest) {
    exists i :: 0 <= i < |blocks| && BlockHash(c, blocks[i]) == hash
  }

  /** Detached blocks enter the archive; a hash already there keeps its stored block. */
  function Archive(
    c: Crypto, orphaned: map<Digest, Block>, current: seq<Block>, candidate: seq<Block>): map<Digest, Block>
  {
    if current == [] then orphaned else
      var before, b := Archive(c, orphaned, DropLast(current), candidate), Last(current);
      if HasBlockHash(c, candidate, BlockHash(c, b)) || BlockHash(c, b) in before then before
      else before[BlockHash(c, b) := b]
  }

  // ----- operations

  /** The chain state that the stored blocks rebuild to. */
  function StoredChain(c: Crypto, now: u64, n: Node): Result<Chain> {
    var blocks :- LoadBlocks(c, n);
    FromBlocks(c, now, n.network, blocks)
  }

  function AppendValidated(c: Crypto, now: u64, n: Node, b: Block): Result<Node> {
    var blocks :- LoadBlocks(c, n);
    var chain :- FromBlocks(c, now, n.network, blocks);
    var _ :- AppendBlock(c, now, chain, b);
    var _ :- VerifyTipExtension(c, blocks, b);
    var _ :- Need(CanInsert(c, blocks, b), StorageConflict);
    Ok(n.(canonical := blocks + [b]))
  }

  function Unmined(c: Crypto, pool: seq<Record>, b: Block): seq<Record> {
    if pool == [] then [] else
      var before, r := Unmined(c, DropLast(pool), b), Last(pool);
      if b.transactions != [] && r.txHash in HashSet(c, b.transactions[1..]) then before else before + [r]
  }

  function SubmitMinedBlock(c: Crypto, now: u64, n: Node, b: Block): Result<Node> {
    var appended :- AppendValidated(c, now, n, b);
    Ok(appended.(pool := Unmined(c, appended.pool, b)))
  }

  datatype Replacement = Replacement(chain: Chain, detached: seq<Block>, ancestor: u64)

  /** Both chains are validated, the genesis must be shared and the work strictly greater. */
  function CheckReplacement(
    c: Crypto, now: u64, n: Node, current: seq<Block>, candidate: seq<Block>): Result<Replacement>
  {
    var _ :- FromBlocks(c, now, n.network, current);
    var chain :- FromBlocks(c, now, n.network, candidate);
    var choice :- SelectFork(c, current, candidate);
    var _ :- Need(choice == AdoptCandidate, NotEnoughWork);
    match CommonAncestorHeight(c, current, candidate)
    case None => Err(GenesisMismatch)
    case Some(ancestor) => Ok(Replacement(chain, Above(current, ancestor), ancestor))
  }

  function Above(blocks: seq<Block>, height: u64): seq<Block> {
    if blocks == [] then [] else
      Above(DropLast(blocks), height) + (if Last(blocks).header.height > height then [Last(blocks)] else [])
  }

  function ReplaceValidated(
    c: Crypto, now: u64, n: Node, expectedTip: Digest, candidate: seq<Block>): Result<(Node, Replacement)>
  {
    var current :- LoadBlocks(c, n);
    var _ :- Need(BlockHash(c, Last(current)) == expectedTip, StaleChainTip);
    var replacement :- CheckReplacement(c, now, n, current, candidate);
    var _ :- CheckInserts(c, candidate);
    Ok((n.(canonical := candidate, orphaned := Archive(c, n.orphaned, current, candidate)), replacement))
  }

  datatype Adopted = Adopted(node: Node, result: Result<Reconciled>)

  /** The replacement is committed before the pool is reconciled. */
  function AdoptCandidateChain(c: Crypto, now: u64, n: Node, expectedTip: Digest, candidate: seq<Block>): Adopted {
    match ReplaceValidated(c, now, n, expectedTip, candidate)
    case Err(e) => Adopted(n, Err(e))
    case Ok((replaced, replacement)) =>
      match Reconcile(c, replacement.chain, now, n.pool, replacement.detached, n.maxPool)
      case Err(e) => Adopted(replaced, Err(e))
      case Ok(r) => Adopted(replaced.(pool := r.kept), Ok(r))
  }

  function SubmitTransaction(c: Crypto, now: u64, n: Node, t: Transaction): Result<Node> {
    var chain :- StoredChain(c, now, n);
    var pool :- Submit(c, chain, now, n.pool, n.maxPool, t);
    Ok(n.(pool := pool))
  }

  function RefreshPool(c: Crypto, now: u64, n: Node): Result<Node> {
    var chain :- StoredChain(c, now, n);
    var clean :- Refresh(c, chain, n.pool, now);
    Ok(n.(pool := clean.valid))
  }

  // ----- invariant

  /** Accepted at some time; later clocks only relax the rules. */
  ghost predicate EverValid(c: Crypto, network: Network, blocks: seq<Block>) { Valid(c, U64_MAX, network, blocks) }

  lemma {:induction false} ValidIsEverValid(c: Crypto, now: u64, network: Network, blocks: seq<Block>)
    requires Valid(c, now, network, blocks)
    ensures EverValid(c, network, blocks)
    ensures FromBlocks(c, U64_MAX, network, blocks) == FromBlocks(c, now, network, blocks)
  {
    hide FromBlocks;
    LaterClock(c, now, U64_MAX, network, blocks);
  }

  ghost predicate SameNetwork(c: Crypto, network: Network, records: seq<Record>) {
    forall i :: 0 <= i < |records| ==> TransactionNetwork(c, records[i].tx) == Ok(network)
  }

  ghost predicate NodeInvariant(c: Crypto, n: Node) {
    && n.canonical != [] && EverValid(c, n.network, n.canonical)
    && Consistent(c, n.pool) && SameNetwork(c, n.network, n.pool)
    && ArchiveSound(c, n.network, n.orphaned)
  }

  ghost predicate FromValidChain(c: Crypto, network: Network, b: Block) {
    exists blocks, i :: EverValid(c, network, blocks) && 0 <= i < |blocks| && blocks[i] == b
  }

  /** Every archived block is filed under its hash and once was on an accepted chain. */
  ghost predicate ArchiveSound(c: Crypto, network: Network, orphaned: map<Digest, Block>) {
    forall h :: h in orphaned ==> BlockHash(c, orphaned[h]) == h && FromValidChain(c, network, orphaned[h])
  }

  // ----- one block on the tip, or more work

  /** How the canonical chain may change. */
  ghost predicate SafeChange(c: Crypto, network: Network, before: seq<Block>, after: seq<Block>) {
    || after == before
    || (|after| == |before| + 1 && before == DropLast(after) && EverValid(c, network, after))
    || (EverValid(c, network, after) && after != [] && before != [] && after[0] == before[0] && MoreWork(after, before))
  }

  ghost predicate MoreWork(a: seq<Block>, b: seq<Block>) {
    CumulativeWork(a).Ok? && CumulativeWork(b).Ok? && CumulativeWork(a).value > CumulativeWork(b).value
  }

  lemma {:induction false} AppendIsSafe(c: Crypto, now: u64, n: Node, b: Block)
    requires NodeInvariant(c, n) && SubmitMinedBlock(c, now, n, b).Ok?
    ensures var next := SubmitMinedBlock(c, now, n, b).value;
            && next.canonical == n.canonical + [b]
            && EverValid(c, n.network, next.canonical)
            && SafeChange(c, n.network, n.canonical, next.canonical)
  {
    hide FromBlocks, AppendBlock, CanInsert, BlockHash, Unmined, EverValid;
    AppendedIsValid(c, now, n.network, n.canonical, b);
    ValidIsEverValid(c, now, n.network, n.canonical + [b]);
  }

  lemma {:induction false} AppendedIsValid(c: Crypto, now: u64, network: Network, blocks: seq<Block>, b: Block)
    requires FromBlocks(c, now, network, blocks).Ok?
    ensures FromBlocks(c, now, network, blocks + [b]) ==
            AppendBlock(c, now, FromBlocks(c, now, network, blocks).value, b)
  {
    hide AppendBlock;
    assert DropLast(blocks + [b]) == blocks;
  }

  /** Whatever the validator accepts on the tip also passes the store's own checks. */
  lemma {:induction false} AppendFits(c: Crypto, now: u64, network: Network, blocks: seq<Block>, b: Block)
    requires FromBlocks(c, now, network, blocks).Ok? && blocks != []
    requires AppendBlock(c, now, FromBlocks(c, now, network, blocks).value, b).Ok?
    requires Last(blocks).header.height < I64_MAX
    ensures VerifyTipExtension(c, blocks, b).Ok? && CanInsert(c, blocks, b)
  {
    hide FromBlocks, AppendBlock, BlockHash;
    AppendedIsValid(c, now, network, blocks, b);
    var longer := blocks + [b];
    assert DropLast(longer) == blocks && Last(longer) == b;
    TipHeader(c, now, network, longer);
    TipHeader(c, now, network, blocks);
    forall i | 0 <= i < |blocks| ensures blocks[i].header.height != b.header.height &&
        BlockHash(c, blocks[i]) != BlockHash(c, b) {
      ValidHashesDistinct(c, now, network, longer, i, |blocks|);
      ValidPrefix(c, now, network, longer, i + 1);
      TipHeader(c, now, network, longer[..i + 1]);
    }
  }

  lemma {:induction false} ReplacementIsSafe(c: Crypto, now: u64, n: Node, expectedTip: Digest, candidate: seq<Block>)
    requires NodeInvariant(c, n) && ReplaceValidated(c, now, n, expectedTip, candidate).Ok?
    ensures EverValid(c, n.network, candidate) && candidate != []
    ensures SafeChange(c, n.network, n.canonical, candidate) && MoreWork(candidate, n.canonical)
    ensures Valid(c, now, n.network, n.canonical) && Valid(c, now, n.network, candidate)
  {
    hide FromBlocks, BlockHash, EverValid, CheckInserts, Archive, CumulativeWork, CommonAncestorHeight, Above;
    ValidIsEverValid(c, now, n.network, candidate);
    assert candidate[0] == n.canonical[0] by {
      GenesisShared(c, now, n.network, n.canonical, candidate);
    }
  }

  lemma {:induction false} GenesisShared(c: Crypto, now: u64, network: Network, a: seq<Block>, b: seq<Block>)
    requires Valid(c, now, network, a) && Valid(c, now, network, b) && a != [] && b != []
    requires BlockHash(c, a[0]) == BlockHash(c, b[0])
    ensures a[0] == b[0]
  {
    hide Valid, BlockHash;
    SharedBlockSharesHistory(c, now, network, a, now, network, b, 0);
    assert a[..1][0] == b[..1][0];
  }

  // ----- the archive

  /** Within one network an accepted block is determined by its hash. */
  lemma {:induction false} HashDeterminesBlock(c: Crypto, network: Network, a: Block, b: Block)
    requires FromValidChain(c, network, a) && FromValidChain(c, network, b)
    requires BlockHash(c, a) == BlockHash(c, b)
    ensures a == b
  {
    hide EverValid, BlockHash;
    var p, i :| EverValid(c, network, p) && 0 <= i < |p| && p[i] == a;
    var q, j :| EverValid(c, network, q) && 0 <= j < |q| && q[j] == b;
    EverValidPrefix(c, network, p, i);
    EverValidPrefix(c, network, q, j);
    EverValidIdentity(c, network, p[..i + 1], q[..j + 1]);
  }

  lemma {:induction false} EverValidPrefix(c: Crypto, network: Network, blocks: seq<Block>, i: nat)
    requires EverValid(c, network, blocks) && i < |blocks|
    ensures EverValid(c, network, blocks[..i + 1])
    ensures Last(blocks[..i + 1]) == blocks[i]
  {
    hide Valid;
    ValidPrefix(c, U64_MAX, network, blocks, i + 1);
  }

  lemma {:induction false} EverValidIdentity(c: Crypto, network: Network, a: seq<Block>, b: seq<Block>)
    requires EverValid(c, network, a) && EverValid(c, network, b) && a != [] && b != []
    requires BlockHash(c, Last(a)) == BlockHash(c, Last(b))
    ensures a == b
  {
    hide Valid, BlockHash;
    TipDeterminesChain(c, U64_MAX, network, a, U64_MAX, network, b);
  }

  lemma {:induction false} OnValidChain(c: Crypto, network: Network, blocks: seq<Block>, i: nat)
    requires EverValid(c, network, blocks) && i < |blocks|
    ensures FromValidChain(c, network, blocks[i])
  {
    hide EverValid;
  }

  lemma {:induction false} ArchiveMeaning(
    c: Crypto, network: Network, orphaned: map<Digest, Block>, current: seq<Block>, candidate: seq<Block>)
    requires ArchiveSound(c, network, orphaned)
    requires forall i :: 0 <= i < |current| ==> FromValidChain(c, network, current[i])
    ensures var filed := Archive(c, orphaned, current, candidate);
            && ArchiveSound(c, network, filed)
            && (forall h :: h in orphaned ==> h in filed && filed[h] == orphaned[h])
            && (forall i :: 0 <= i < |current| ==>
                  || HasBlockHash(c, candidate, BlockHash(c, current[i]))
                  || (BlockHash(c, current[i]) in filed && filed[BlockHash(c, current[i])] == current[i]))
            && (forall h :: h in filed && h !in orphaned ==> !HasBlockHash(c, candidate, h))
    decreases |current|
  {
    hide BlockHash, HasBlockHash, FromValidChain;
    if current != [] {
      ArchiveMeaning(c, network, orphaned, DropLast(current), candidate);
      var before, b := Archive(c, orphaned, DropLast(current), candidate), Last(current);
      if BlockHash(c, b) in before {
        HashDeterminesBlock(c, network, before[BlockHash(c, b)], b);
      }
      forall i | 0 <= i < |current| - 1 ensures current[i] == DropLast(current)[i] {
      }
    }
  }

  ghost predicate Stored(c: Crypto, n: Node, b: Block) {
    b in n.canonical || (BlockHash(c, b) in n.orphaned && n.orphaned[BlockHash(c, b)] == b)
  }

  /** A replacement forgets no block: each one stays canonical or is filed in the archive. */
  lemma {:induction false} ReplacementKeepsBlocks(
    c: Crypto, now: u64, n: Node, expectedTip: Digest, candidate: seq<Block>, b: Block)
    requires NodeInvariant(c, n) && ReplaceValidated(c, now, n, expectedTip, candidate).Ok?
    requires Stored(c, n, b)
    ensures Stored(c, ReplaceValidated(c, now, n, expectedTip, candidate).value.0, b)
    ensures ArchiveSound(c, n.network, ReplaceValidated(c, now, n, expectedTip, candidate).value.0.orphaned)
  {
    hide FromBlocks, BlockHash, EverValid, CheckInserts, Archive, CheckReplacement, Consistent, SameNetwork,
         FromValidChain;
    ReplacementIsSafe(c, now, n, expectedTip, candidate);
    forall i | 0 <= i < |n.canonical| ensures FromValidChain(c, n.network, n.canonical[i]) {
      OnValidChain(c, n.network, n.canonical, i);
    }
    ArchiveMeaning(c, n.network, n.orphaned, n.canonical, candidate);
    if b in n.canonical {
      var i :| 0 <= i < |n.canonical| && n.canonical[i] == b;
      if HasBlockHash(c, candidate, BlockHash(c, b)) {
        var k :| 0 <= k < |candidate| && BlockHash(c, candidate[k]) == BlockHash(c, b);
        OnValidChain(c, n.network, candidate, k);
        HashDeterminesBlock(c, n.network, candidate[k], b);
      }
    }
  }

  // ----- runs

  datatype Event =
    | MinedBlock(now: u64, block: Block)
    | CandidateChain(now: u64, expectedTip: Digest, candidate: seq<Block>)
    | NewTransaction(now: u64, tx: Transaction)
    | PoolRefresh(now: u64)

  /** The state after an event, whether or not it was accepted. */
  function Step(c: Crypto, n: Node, e: Event): Node {
    match e
    case MinedBlock(now, block) => OrUnchanged(n, SubmitMinedBlock(c, now, n, block))
    case CandidateChain(now, expectedTip, candidate) => AdoptCandidateChain(c, now, n, expectedTip, candidate).node
    case NewTransaction(now, tx) => OrUnchanged(n, SubmitTransaction(c, now, n, tx))
    case PoolRefresh(now) => OrUnchanged(n, RefreshPool(c, now, n))
  }

  function OrUnchanged(n: Node, r: Result<Node>): Node { if r.Ok? then r.value else n }

  function Run(c: Crypto, n: Node, events: seq<Event>): Node {
    if events == [] then n else Step(c, Run(c, n, DropLast(events)), Last(events))
  }

  // ----- what every event keeps

  lemma {:induction false} UnminedSubset(c: Crypto, pool: seq<Record>, b: Block)
    ensures Subset(Unmined(c, pool, b), pool)
    decreases |pool|
  {
    hide HashSet;
    if pool != [] {
      UnminedSubset(c, DropLast(pool), b);
      assert pool == DropLast(pool) + [Last(pool)];
    }
  }

  /** A mined block removes exactly its own user transactions from the pool. */
  lemma {:induction false} UnminedMeaning(c: Crypto, pool: seq<Record>, b: Block, r: Record)
    ensures r in Unmined(c, pool, b) <==>
            r in pool && forall j :: 1 <= j < |b.transactions| ==> TxHash(c, b.transactions[j]) != r.txHash
    decreases |pool|
  {
    hide TxHash;
    if pool != [] {
      UnminedMeaning(c, DropLast(pool), b, r);
      assert pool == DropLast(pool) + [Last(pool)];
      if b.transactions != [] { InUserHashes(c, b, Last(pool).txHash); }
    }
  }

  lemma {:induction false} InUserHashes(c: Crypto, b: Block, hash: Digest)
    requires b.transactions != []
    ensures hash in HashSet(c, b.transactions[1..]) <==>
            exists j :: 1 <= j < |b.transactions| && TxHash(c, b.transactions[j]) == hash
  {
    hide TxHash;
    var txs := b.transactions;
    if hash in HashSet(c, txs[1..]) {
      var i :| 0 <= i < |txs[1..]| && TxHash(c, txs[1..][i]) == hash;
      assert TxHash(c, txs[i + 1]) == hash;
    }
    if j :| 1 <= j < |txs| && TxHash(c, txs[j]) == hash {
      assert txs[1..][j - 1] == txs[j];
    }
  }

  lemma {:induction false} SubsetSameNetwork(c: Crypto, network: Network, a: seq<Record>, b: seq<Record>)
    requires Subset(a, b) && SameNetwork(c, network, b)
    ensures SameNetwork(c, network, a)
  {
    hide TransactionNetwork;
    forall i | 0 <= i < |a| ensures TransactionNetwork(c, a[i].tx) == Ok(network) { assert a[i] in b; }
  }

  /** A chain state rebuilt by the node satisfies the run invariant of chains. */
  lemma {:induction false} RebuiltInvariant(c: Crypto, now: u64, network: Network, blocks: seq<Block>)
    requires FromBlocks(c, now, network, blocks).Ok?
    ensures ChainInvariant(c, FromBlocks(c, now, network, blocks).value)
    ensures FromBlocks(c, now, network, blocks).value.blocks == blocks
    ensures FromBlocks(c, now, network, blocks).value.network == network
  {
    hide FromBlocks, ChainInvariant;
    ValidChainInvariant(c, now, network, blocks);
    FromBlocksShape(c, now, network, blocks);
  }

  lemma {:induction false} MinedBlockKeeps(c: Crypto, now: u64, n: Node, b: Block)
    requires NodeInvariant(c, n) && SubmitMinedBlock(c, now, n, b).Ok?
    ensures NodeInvariant(c, SubmitMinedBlock(c, now, n, b).value)
  {
    hide FromBlocks, AppendBlock, CanInsert, BlockHash, Unmined, EverValid, TxHash, ArchiveSound;
    AppendIsSafe(c, now, n, b);
    UnminedSubset(c, n.pool, b);
    SubsetConsistent(c, Unmined(c, n.pool, b), n.pool);
    SubsetSameNetwork(c, n.network, Unmined(c, n.pool, b), n.pool);
  }

  lemma {:induction false} SubmitKeeps(c: Crypto, now: u64, n: Node, t: Transaction)
    requires NodeInvariant(c, n) && SubmitTransaction(c, now, n, t).Ok?
    ensures var next := SubmitTransaction(c, now, n, t).value;
            && NodeInvariant(c, next) && next == n.(pool := next.pool)
            && Valid(c, now, n.network, n.canonical)
            && Pending(c, FromBlocks(c, now, n.network, n.canonical).value, next.pool)
            && |next.pool| <= n.maxPool && next.pool != [] && Last(next.pool).tx == t
            && t.from.Some? && CountFrom(next.pool, t.from.value) <= MAX_PER_SENDER
  {
    hide FromBlocks, Submit, BlockHash, EverValid, TxHash, ArchiveSound, ChainInvariant, TransactionNetwork, Replay;
    RebuiltInvariant(c, now, n.network, n.canonical);
    var chain := FromBlocks(c, now, n.network, n.canonical).value;
    SubmitMeaning(c, chain, now, n.pool, n.maxPool, t);
    var pool := SubmitTransaction(c, now, n, t).value.pool;
    SubsetSameNetwork(c, n.network, DropLast(pool), n.pool);
    forall i | 0 <= i < |pool| ensures TransactionNetwork(c, pool[i].tx) == Ok(n.network) {
      if i < |pool| - 1 { assert pool[i] == DropLast(pool)[i]; }
    }
  }

  lemma {:induction false} RefreshKeeps(c: Crypto, now: u64, n: Node)
    requires NodeInvariant(c, n) && RefreshPool(c, now, n).Ok?
    ensures var next := RefreshPool(c, now, n).value;
            && NodeInvariant(c, next) && next == n.(pool := next.pool)
            && Valid(c, now, n.network, n.canonical)
            && Pending(c, FromBlocks(c, now, n.network, n.canonical).value, next.pool)
  {
    hide FromBlocks, Refresh, BlockHash, EverValid, TxHash, ArchiveSound, ChainInvariant, TransactionNetwork, Replay;
    RebuiltInvariant(c, now, n.network, n.canonical);
    RefreshMeaning(c, FromBlocks(c, now, n.network, n.canonical).value, n.pool, now);
    SubsetSameNetwork(c, n.network, RefreshPool(c, now, n).value.pool, n.pool);
  }

  lemma {:induction false} SliceSnoc<T>(s: seq<T>, k: nat)
    requires s != [] && k <= |s|
    ensures s[k..] == if k < |s| then DropLast(s)[k..] + [Last(s)] else []
  {
  }

  lemma {:induction false} AboveMeaning(blocks: seq<Block>, height: u64)
    requires forall i :: 0 <= i < |blocks| ==> blocks[i].header.height == i
    ensures Above(blocks, height) == if height + 1 <= |blocks| then blocks[height + 1..] else []
    decreases |blocks|
  {
    if blocks != [] {
      var before := DropLast(blocks);
      assert forall i :: 0 <= i < |before| ==> before[i] == blocks[i];
      AboveMeaning(before, height);
      assert Last(blocks).header.height == |blocks| - 1;
      if height + 1 <= |blocks| {
        SliceSnoc(blocks, height + 1);
      }
    }
  }

  lemma {:induction false} UserTransactionsOnNetwork(c: Crypto, network: Network, blocks: seq<Block>)
    requires forall i, j :: 0 <= i < |blocks| && 0 <= j < |blocks[i].transactions| ==>
               TransactionNetwork(c, blocks[i].transactions[j]) == Ok(network)
    ensures forall t :: t in UserTransactions(blocks) ==> TransactionNetwork(c, t) == Ok(network)
    decreases |blocks|
  {
    hide TransactionNetwork;
    if blocks != [] {
      forall i, j | 0 <= i < |blocks| - 1 && 0 <= j < |DropLast(blocks)[i].transactions|
        ensures TransactionNetwork(c, DropLast(blocks)[i].transactions[j]) == Ok(network) {
        assert DropLast(blocks)[i] == blocks[i];
      }
      UserTransactionsOnNetwork(c, network, DropLast(blocks));
      var last := Last(blocks).transactions;
      forall t | t in last ensures TransactionNetwork(c, t) == Ok(network) {
        var j :| 0 <= j < |last| && last[j] == t;
        assert blocks[|blocks| - 1].transactions[j] == t;
      }
    }
  }

  lemma {:induction false} ValidTransactionsOnNetwork(
    c: Crypto, now: u64, network: Network, blocks: seq<Block>, i: nat, j: nat)
    requires Valid(c, now, network, blocks) && i < |blocks| && j < |blocks[i].transactions|
    ensures TransactionNetwork(c, blocks[i].transactions[j]) == Ok(network)
  {
    hide Valid, TransactionNetwork, CheckBodies, EnsurePow, CheckCoinbaseAmount, BlockHash, NextBaseFee;
    ValidBlockAt(c, now, network, blocks, i);
  }

  /** Adopting a chain detaches exactly the blocks above the fork point, keeps the node
      invariant, leaves a clean pool within its limit, and accounts for every transaction
      of a detached block. */
  lemma {:induction false} AdoptKeeps(c: Crypto, now: u64, n: Node, expectedTip: Digest, candidate: seq<Block>)
    requires NodeInvariant(c, n) && ReplaceValidated(c, now, n, expectedTip, candidate).Ok?
    ensures var replacement := ReplaceValidated(c, now, n, expectedTip, candidate).value.1;
            var adopted := AdoptCandidateChain(c, now, n, expectedTip, candidate);
            && adopted.result.Ok?
            && NodeInvariant(c, adopted.node)
            && adopted.node.canonical == candidate
            && replacement.ancestor < |n.canonical| && replacement.detached == n.canonical[replacement.ancestor + 1..]
            && n.canonical[..replacement.ancestor + 1] <= candidate
            && (forall k :: replacement.ancestor < k < |n.canonical| && k < |candidate| ==>
                  n.canonical[k] != candidate[k])
            && Pending(c, FromBlocks(c, now, n.network, candidate).value, adopted.node.pool)
            && |adopted.node.pool| <= n.maxPool
            && adopted.result == Reconcile(c, FromBlocks(c, now, n.network, candidate).value, now, n.pool,
                replacement.detached, n.maxPool)
            && adopted.node.pool == adopted.result.value.kept
  {
    hide FromBlocks, BlockHash, EverValid, CheckInserts, Archive, Reconcile, TxHash, ArchiveSound, ChainInvariant,
         TransactionNetwork, Replay, CommonAncestorHeight, Above, UserTransactions, SelectFork, HasHash, Mined;
    ReplacementIsSafe(c, now, n, expectedTip, candidate);
    var replacement := ReplaceValidated(c, now, n, expectedTip, candidate).value.1;
    DetachedAboveFork(c, now, n, candidate);
    RebuiltInvariant(c, now, n.network, candidate);
    var chain := FromBlocks(c, now, n.network, candidate).value;
    ReconcileMeaning(c, chain, now, n.pool, replacement.detached, n.maxPool);
    var r := Reconcile(c, chain, now, n.pool, replacement.detached, n.maxPool).value;
    DetachedOnNetwork(c, now, n, replacement.ancestor);
    forall i | 0 <= i < |r.kept| ensures TransactionNetwork(c, r.kept[i].tx) == Ok(n.network) {
      assert r.kept[i] in r.kept;
      if r.kept[i] in n.pool {
        var k :| 0 <= k < |n.pool| && n.pool[k] == r.kept[i];
      }
    }
    assert n.canonical[0] in n.canonical;
    ReplacementKeepsBlocks(c, now, n, expectedTip, candidate, n.canonical[0]);
  }

  lemma {:induction false} DetachedOnNetwork(c: Crypto, now: u64, n: Node, ancestor: u64)
    requires Valid(c, now, n.network, n.canonical) && ancestor < |n.canonical|
    ensures forall t :: t in UserTransactions(n.canonical[ancestor + 1..]) ==> TransactionNetwork(c, t) == Ok(n.network)
  {
    hide Valid, TransactionNetwork, UserTransactions;
    var detached := n.canonical[ancestor + 1..];
    forall i, j | 0 <= i < |detached| && 0 <= j < |detached[i].transactions|
      ensures TransactionNetwork(c, detached[i].transactions[j]) == Ok(n.network) {
      ValidTransactionsOnNetwork(c, now, n.network, n.canonical, ancestor + 1 + i, j);
    }
    UserTransactionsOnNetwork(c, n.network, detached);
  }

  lemma {:induction false} DetachedAboveFork(c: Crypto, now: u64, n: Node, candidate: seq<Block>)
    requires n.canonical != [] && CheckReplacement(c, now, n, n.canonical, candidate).Ok?
    ensures var r := CheckReplacement(c, now, n, n.canonical, candidate).value;
            && r.chain == FromBlocks(c, now, n.network, candidate).value
            && r.ancestor < |n.canonical| && r.detached == n.canonical[r.ancestor + 1..]
            && n.canonical[..r.ancestor + 1] <= candidate
            && (forall k :: r.ancestor < k < |n.canonical| && k < |candidate| ==> n.canonical[k] != candidate[k])
  {
    hide FromBlocks, BlockHash, CumulativeWork, CommonAncestorHeight, Above;
    CommonAncestorIsForkPoint(c, now, n.network, n.canonical, n.network, candidate);
    var ancestor := CommonAncestorHeight(c, n.canonical, candidate).value;
    forall i | 0 <= i < |n.canonical| ensures n.canonical[i].header.height == i {
      ValidPrefix(c, now, n.network, n.canonical, i + 1);
      TipHeader(c, now, n.network, n.canonical[..i + 1]);
    }
    AboveMeaning(n.canonical, ancestor);
    assert n.canonical[..ancestor + 1] == candidate[..ancestor + 1];
  }

  /** A fresh node, whose genesis nobody has validated yet: if the genesis passes validation
      the invariant holds, and if it never does the node never accepts anything. */
  lemma {:induction false} FreshNode(c: Crypto, network: Network, maxPool: nat, genesis: Block, e: Event)
    ensures var n := Node.Node(network, maxPool, [genesis], map[], []);
            if EverValid(c, network, [genesis]) then NodeInvariant(c, n) else Step(c, n, e) == n
  {
    hide Valid, TxHash, TransactionNetwork, SubmitMinedBlock, AdoptCandidateChain, SubmitTransaction, RefreshPool;
    var n := Node.Node(network, maxPool, [genesis], map[], []);
    if !EverValid(c, network, [genesis]) {
      UnvalidatedNode(c, n, e);
    }
  }

  lemma {:induction false} UnvalidatedNode(c: Crypto, n: Node, e: Event)
    requires !EverValid(c, n.network, n.canonical)
    ensures Step(c, n, e) == n
  {
    hide FromBlocks, CheckStructure, AppendBlock, VerifyTipExtension, CanInsert, Unmined, SelectFork,
         CommonAncestorHeight, Above, CheckInserts, Archive, Reconcile, Submit, Refresh, BlockHash;
    if Valid(c, e.now, n.network, n.canonical) {
      ValidIsEverValid(c, e.now, n.network, n.canonical);
    }
  }

  /** Where a transaction can be after a reorg. */
  ghost predicate AccountedFor(c: Crypto, chain: Chain, r: Reconciled, max: nat, hash: Digest) {
    || hash in Mined(c, chain)
    || HasHash(r.kept, hash)
    || hash in r.dropped
    || (HasHash(r.cut, hash) && |r.kept| == max)
  }

  /** Every user transaction of a detached block is mined on the new chain, pending, reported
      as dropped, or was cut because the pool is full. */
  lemma {:induction false} ReorgAccountsForTransactions(
    c: Crypto, now: u64, n: Node, expectedTip: Digest, candidate: seq<Block>, b: Block, j: nat)
    requires NodeInvariant(c, n) && ReplaceValidated(c, now, n, expectedTip, candidate).Ok?
    requires b in n.canonical && b !in candidate && 1 <= j < |b.transactions|
    ensures var adopted := AdoptCandidateChain(c, now, n, expectedTip, candidate);
            && adopted.result.Ok? && Valid(c, now, n.network, candidate)
            && adopted.node.pool == adopted.result.value.kept
            && AccountedFor(c, FromBlocks(c, now, n.network, candidate).value, adopted.result.value, n.maxPool,
                TxHash(c, b.transactions[j]))
  {
    hide FromBlocks, BlockHash, EverValid, CheckInserts, Archive, Reconcile, TxHash, ArchiveSound, ChainInvariant,
         SameNetwork, Consistent, Pending, CheckReplacement, UserTransactions, HasHash, Mined, AdoptCandidateChain,
         LoadBlocks;
    AdoptKeeps(c, now, n, expectedTip, candidate);
    ReplacementIsSafe(c, now, n, expectedTip, candidate);
    RebuiltInvariant(c, now, n.network, candidate);
    var replacement := ReplaceValidated(c, now, n, expectedTip, candidate).value.1;
    ReconcileMeaning(c, FromBlocks(c, now, n.network, candidate).value, now, n.pool, replacement.detached, n.maxPool);
    assert b in replacement.detached by { DetachedBlock(n.canonical, candidate, replacement.ancestor, b); }
    DetachedTransaction(replacement.detached, b, j);
    var i :| 0 <= i < |UserTransactions(replacement.detached)| &&
        UserTransactions(replacement.detached)[i] == b.transactions[j];
    NothingCut(TxHash(c, b.transactions[j]));
  }

  lemma {:induction false} NothingCut(hash: Digest)
    ensures !HasHash([], hash)
  {
  }

  lemma {:induction false} DetachedBlock(current: seq<Block>, candidate: seq<Block>, ancestor: u64, b: Block)
    requires ancestor < |current| && current[..ancestor + 1] <= candidate && b in current && b !in candidate
    ensures b in current[ancestor + 1..]
  {
    assert forall k :: 0 <= k <= ancestor ==> candidate[k] == current[..ancestor + 1][k] == current[k];
    var k :| 0 <= k < |current| && current[k] == b;
    assert current[ancestor + 1..][k - ancestor - 1] == b;
  }

  lemma {:induction false} DetachedTransaction(blocks: seq<Block>, b: Block, j: nat)
    requires b in blocks && 1 <= j < |b.transactions|
    ensures b.transactions[j] in UserTransactions(blocks)
    decreases |blocks|
  {
    if Last(blocks) == b {
      assert b.transactions[1..][j - 1] == b.transactions[j];
    } else {
      assert blocks == DropLast(blocks) + [Last(blocks)];
      DetachedTransaction(DropLast(blocks), b, j);
    }
  }

  // ----- whole runs

  lemma {:induction false} StepKeeps(c: Crypto, n: Node, e: Event)
    requires NodeInvariant(c, n)
    ensures NodeInvariant(c, Step(c, n, e))
    ensures Step(c, n, e).network == n.network && Step(c, n, e).maxPool == n.maxPool
    ensures SafeChange(c, n.network, n.canonical, Step(c, n, e).canonical)
  {
    hide NodeInvariant, SafeChange, SubmitMinedBlock, AdoptCandidateChain, SubmitTransaction, RefreshPool,
         ReplaceValidated, Pending;
    NoChange(c, n);
    match e
    case MinedBlock(now, b) =>
      if SubmitMinedBlock(c, now, n, b).Ok? {
        AppendIsSafe(c, now, n, b);
        MinedBlockKeeps(c, now, n, b);
        MinedBlockSettings(c, now, n, b);
      }
    case CandidateChain(now, tip, candidate) =>
      AdoptSettings(c, now, n, tip, candidate);
      if ReplaceValidated(c, now, n, tip, candidate).Ok? {
        ReplacementIsSafe(c, now, n, tip, candidate);
        AdoptKeeps(c, now, n, tip, candidate);
      }
    case NewTransaction(now, t) =>
      if SubmitTransaction(c, now, n, t).Ok? {
        SubmitKeeps(c, now, n, t);
      }
    case PoolRefresh(now) =>
      if RefreshPool(c, now, n).Ok? {
        RefreshKeeps(c, now, n);
      }
  }

  lemma {:induction false} MinedBlockSettings(c: Crypto, now: u64, n: Node, b: Block)
    requires SubmitMinedBlock(c, now, n, b).Ok?
    ensures SubmitMinedBlock(c, now, n, b).value.network == n.network
    ensures SubmitMinedBlock(c, now, n, b).value.maxPool == n.maxPool
  {
    hide LoadBlocks, FromBlocks, AppendBlock, VerifyTipExtension, CanInsert, Unmined;
  }

  lemma {:induction false} AdoptSettings(c: Crypto, now: u64, n: Node, expectedTip: Digest, candidate: seq<Block>)
    ensures var next := AdoptCandidateChain(c, now, n, expectedTip, candidate).node;
            && next.network == n.network && next.maxPool == n.maxPool
            && (ReplaceValidated(c, now, n, expectedTip, candidate).Err? ==> next == n)
  {
    hide LoadBlocks, CheckReplacement, CheckInserts, Archive, Reconcile, BlockHash;
  }

  lemma {:induction false} NoChange(c: Crypto, n: Node)
    ensures SafeChange(c, n.network, n.canonical, n.canonical)
  {
    hide EverValid;
  }

  lemma {:induction false} SafeChangeGrowsWork(c: Crypto, network: Network, before: seq<Block>, after: seq<Block>)
    requires EverValid(c, network, before) && before != [] && SafeChange(c, network, before, after)
    ensures after == before || MoreWork(after, before)
    ensures after != [] && after[0] == before[0]
  {
    hide Valid, CumulativeWork;
    if after != before && |after| == |before| + 1 && before == DropLast(after) {
      assert after == before + [Last(after)];
      AppendAddsWork(c, U64_MAX, network, before, Last(after));
    }
  }

  /** Over every run of mined blocks, candidate chains, transactions and refreshes, honest or
      not: the invariant holds, the genesis never changes, and the chain after the run is
      the one before it or has strictly more work. */
  lemma {:induction false} RunSafety(c: Crypto, n: Node, events: seq<Event>)
    requires NodeInvariant(c, n)
    ensures var end := Run(c, n, events);
            && NodeInvariant(c, end) && end.network == n.network
            && end.canonical[0] == n.canonical[0]
            && (end.canonical == n.canonical || MoreWork(end.canonical, n.canonical))
    decreases |events|
  {
    hide EverValid, ArchiveSound, Consistent, SameNetwork, Step, CumulativeWork;
    if events != [] {
      RunSafety(c, n, DropLast(events));
      var before := Run(c, n, DropLast(events));
      StepKeeps(c, before, Last(events));
      SafeChangeGrowsWork(c, n.network, before.canonical, Step(c, before, Last(events)).canonical);
    }
  }

  lemma {:induction false} RunSplit(c: Crypto, n: Node, first: seq<Event>, second: seq<Event>)
    ensures Run(c, n, first + second) == Run(c, Run(c, n, first), second)
    decreases |second|
  {
    hide Step;
    if second == [] {
      assert first + second == first;
    } else {
      assert DropLast(first + second) == first + DropLast(second);
      RunSplit(c, n, first, DropLast(second));
    }
  }

  /** Once a node has left a chain it never comes back to it. */
  lemma {:induction false} NeverReturns(c: Crypto, n: Node, first: seq<Event>, second: seq<Event>)
    requires NodeInvariant(c, n) && Run(c, n, first).canonical != n.canonical
    ensures Run(c, n, first + second).canonical != n.canonical
  {
    hide NodeInvariant, Run, CumulativeWork;
    RunSafety(c, n, first);
    RunSafety(c, Run(c, n, first), second);
    RunSplit(c, n, first, second);
  }

  lemma {:induction false} StepKeepsBlocks(c: Crypto, n: Node, e: Event, b: Block)
    requires NodeInvariant(c, n) && Stored(c, n, b)
    ensures Stored(c, Step(c, n, e), b)
  {
    hide NodeInvariant, FromBlocks, Reconcile, Submit, Refresh, CheckReplacement, CheckStructure, BlockHash,
         AppendBlock, CheckInserts, Archive, Unmined, CanInsert;
    match e
    case CandidateChain(now, tip, candidate) =>
      if ReplaceValidated(c, now, n, tip, candidate).Ok? {
        ReplacementKeepsBlocks(c, now, n, tip, candidate, b);
      }
    case _ =>
  }

  /** Across any run of reorgs no block vanishes: whatever was canonical or archived at some
      point stays canonical or archived, unchanged. */
  lemma {:induction false} NothingVanishes(c: Crypto, n: Node, events: seq<Event>, b: Block)
    requires NodeInvariant(c, n) && Stored(c, n, b)
    ensures Stored(c, Run(c, n, events), b)
    decreases |events|
  {
    hide NodeInvariant, Stored, Step;
    if events != [] {
      NothingVanishes(c, n, DropLast(events), b);
      RunSafety(c, n, DropLast(events));
      StepKeepsBlocks(c, Run(c, n, DropLast(events)), Last(events), b);
    }
  }
}
