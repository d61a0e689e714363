/** The node as an object: tables and pool updated in place, each handler proved against the
    node's transition functions (storage.rs, devnet.rs, p2p.rs). */
module NodeObjects {
  import opened Prelude
  import opened Primitives
  import opened Transactions
  import opened Blocks
  import opened Ledgers
  import opened Chains
  import opened ChainIdentity
  import opened ChainObjects
  import opened Mempool
  import opened MempoolEvents
  import opened MempoolMethods
  import opened Nodes

  method FindBlockHash(c: Crypto, blocks: seq<Block>, hash: Digest) returns (found: bool)
    ensures found == HasBlockHash(c, blocks, hash)
  {
    hide BlockHash;
    for i := 0 to |blocks|
      invariant forall k :: 0 <= k < i ==> BlockHash(c, blocks[k]) != hash
    {
      if BlockHash(c, blocks[i]) == hash {
        return true;
      }
    }
    found := false;
  }

  /** The row can be inserted unless its height does not fit or one of its keys is taken. */
  method TryInsert(c: Crypto, blocks: seq<Block>, b: Block) returns (ok: bool)
    ensures ok == CanInsert(c, blocks, b)
  {
    hide BlockHash;
    if b.header.height > I64_MAX {
      return false;
    }
    for i := 0 to |blocks|
      invariant forall k :: 0 <= k < i ==>
                blocks[k].header.height != b.header.height && BlockHash(c, blocks[k]) != BlockHash(c, b)
    {
      if blocks[i].header.height == b.header.height || BlockHash(c, blocks[i]) == BlockHash(c, b) {
        return false;
      }
    }
    ok := true;
  }

  lemma {:induction false} InsertFailureIsFinal(c: Crypto, blocks: seq<Block>, count: nat)
    requires count <= |blocks| && CheckInserts(c, blocks[..count]).Err?
    ensures CheckInserts(c, blocks) == CheckInserts(c, blocks[..count])
    decreases |blocks| - count
  {
    hide CanInsert;
    if count < |blocks| {
      assert DropLast(blocks[..count + 1]) == blocks[..count];
      InsertFailureIsFinal(c, blocks, count + 1);
    } else {
      assert blocks[..count] == blocks;
    }
  }

  method BlocksAbove(blocks: seq<Block>, height: u64) returns (above: seq<Block>)
    ensures above == Above(blocks, height)
  {
    above := [];
    for i := 0 to |blocks|
      invariant above == Above(blocks[..i], height)
    {
      assert DropLast(blocks[..i + 1]) == blocks[..i];
      if blocks[i].header.height > height {
        above := above + [blocks[i]];
      }
    }
    assert blocks[..|blocks|] == blocks;
  }

  class NodeObject {
    const network: Network
    const maxPool: nat
    var canonical: seq<Block>
    var orphaned: map<Digest, Block>
    var pool: seq<Record>

    function View(): Node reads this { Node.Node(network, maxPool, canonical, orphaned, pool) }

    constructor (network: Network, maxPool: nat, genesis: Block)
      ensures View() == Node.Node(network, maxPool, [genesis], map[], [])
    {
      this.network, this.maxPool := network, maxPool;
      canonical, orphaned, pool := [genesis], map[], [];
    }

    method Load(c: Crypto) returns (r: Result<seq<Block>>)
      ensures r == LoadBlocks(c, View())
    {
      hide CheckStructure;
      if canonical == [] {
        return Err(ChainNotInitialized);
      }
      var structure := VerifyChainStructure(c, canonical);
      if structure.Err? {
        return Err(structure.error);
      }
      r := Ok(canonical);
    }

    /** The stored blocks and the chain state they rebuild to. */
    method LoadChain(c: Crypto, now: u64) returns (r: Result<Chain>)
      ensures r == StoredChain(c, now, View())
    {
      hide LoadBlocks, FromBlocks;
      var blocks :- Load(c);
      var chain, built := RebuildChain(c, now, network, blocks);
      if built.Err? {
        return Err(built.error);
      }
      r := Ok(chain.View());
    }

    /** Validates on a rebuilt chain, checks the tip once more, inserts, and then drops the
        mined transactions from the pool. */
    method SubmitBlock(c: Crypto, now: u64, b: Block) returns (r: Result<()>)
      modifies this
      ensures match SubmitMinedBlock(c, now, old(View()), b)
              case Ok(next) => r == Ok(()) && View() == next
              case Err(e) => r == Err(e) && View() == old(View())
    {
      hide LoadBlocks, FromBlocks, AppendBlock, VerifyTipExtension, CanInsert, Unmined;
      var blocks :- Load(c);
      LoadedIsCanonical(c, View(), blocks);
      var chain, built := RebuildChain(c, now, network, blocks);
      if built.Err? {
        return Err(built.error);
      }
      var appended := chain.Append(c, now, b);
      if appended.Err? {
        return Err(appended.error);
      }
      var onTip := VerifyTipExtension(c, blocks, b);
      if onTip.Err? {
        return Err(onTip.error);
      }
      var free := TryInsert(c, canonical, b);
      if !free {
        return Err(StorageConflict);
      }
      canonical := canonical + [b];
      DropMined(c, b);
      r := Ok(());
    }

    method DropMined(c: Crypto, b: Block)
      modifies this`pool
      ensures pool == Unmined(c, old(pool), b)
    {
      hide HashSet;
      var accepted := if b.transactions == [] then {} else HashSet(c, b.transactions[1..]);
      var remaining: seq<Record> := [];
      for i := 0 to |pool|
        invariant pool == old(pool) && remaining == Unmined(c, pool[..i], b)
      {
        assert DropLast(pool[..i + 1]) == pool[..i];
        if pool[i].txHash !in accepted {
          remaining := remaining + [pool[i]];
        }
      }
      assert pool[..|pool|] == pool;
      pool := remaining;
    }

    /** Files the detached blocks, empties the canonical table and fills it again. */
    method ReplaceTables(c: Crypto, candidate: seq<Block>) returns (r: Result<()>)
      modifies this`canonical, this`orphaned
      ensures r == CheckInserts(c, candidate)
      ensures r.Ok? ==> canonical == candidate && orphaned == Archive(c, old(orphaned), old(canonical), candidate)
      ensures r.Err? ==> canonical == old(canonical) && orphaned == old(orphaned)
    {
      hide BlockHash, HasBlockHash, CanInsert;
      var current, filed := canonical, orphaned;
      for i := 0 to |current|
        invariant canonical == old(canonical) && orphaned == old(orphaned)
        invariant filed == Archive(c, old(orphaned), current[..i], candidate)
      {
        assert DropLast(current[..i + 1]) == current[..i];
        var hash := BlockHash(c, current[i]);
        var stays := FindBlockHash(c, candidate, hash);
        if !stays && hash !in filed {
          filed := filed[hash := current[i]];
        }
      }
      assert current[..|current|] == current;
      var table: seq<Block> := [];
      for i := 0 to |candidate|
        invariant canonical == old(canonical) && orphaned == old(orphaned)
        invariant table == candidate[..i] && CheckInserts(c, table).Ok?
      {
        assert DropLast(candidate[..i + 1]) == candidate[..i];
        var free := TryInsert(c, table, candidate[i]);
        if !free {
          InsertFailureIsFinal(c, candidate, i + 1);
          return Err(StorageConflict);
        }
        table := table + [candidate[i]];
      }
      assert candidate[..|candidate|] == candidate;
      canonical, orphaned := table, filed;
      r := Ok(());
    }

    method Judge(c: Crypto, now: u64, current: seq<Block>, candidate: seq<Block>) returns (r: Result<Replacement>)
      ensures r == CheckReplacement(c, now, View(), current, candidate)
    {
      hide FromBlocks, SelectFork, CommonAncestorHeight, Above;
      var _, first := RebuildChain(c, now, network, current);
      if first.Err? {
        return Err(first.error);
      }
      var chain, second := RebuildChain(c, now, network, candidate);
      if second.Err? {
        return Err(second.error);
      }
      var choice :- SelectFork(c, current, candidate);
      if choice != AdoptCandidate {
        return Err(NotEnoughWork);
      }
      var ancestor := CommonAncestorHeight(c, current, candidate);
      if ancestor.None? {
        return Err(GenesisMismatch);
      }
      var detached := BlocksAbove(current, ancestor.value);
      r := Ok(Replacement(chain.View(), detached, ancestor.value));
    }

    method Adopt(c: Crypto, now: u64, expectedTip: Digest, candidate: seq<Block>) returns (r: Result<Reconciled>)
      modifies this
      ensures Adopted(View(), r) == AdoptCandidateChain(c, now, old(View()), expectedTip, candidate)
    {
      hide LoadBlocks, CheckReplacement, CheckInserts, Archive, Reconcile, BlockHash;
      var current :- Load(c);
      LoadedIsCanonical(c, View(), current);
      if BlockHash(c, Last(current)) != expectedTip {
        return Err(StaleChainTip);
      }
      var replacement :- Judge(c, now, current, candidate);
      var _ :- ReplaceTables(c, candidate);
      var reconciled :- ReconcileAfterReorg(c, replacement.chain, now, pool, replacement.detached, maxPool);
      pool := reconciled.kept;
      r := Ok(reconciled);
    }

    method SubmitTx(c: Crypto, now: u64, t: Transaction) returns (r: Result<()>)
      modifies this`pool
      ensures match SubmitTransaction(c, now, old(View()), t)
              case Ok(next) => r == Ok(()) && View() == next
              case Err(e) => r == Err(e) && View() == old(View())
    {
      hide LoadBlocks, FromBlocks, Submit;
      var chain :- LoadChain(c, now);
      var next :- SubmitToPool(c, chain, now, pool, maxPool, t);
      pool := next;
      r := Ok(());
    }

    method RefreshMempool(c: Crypto, now: u64) returns (r: Result<()>)
      modifies this`pool
      ensures match RefreshPool(c, now, old(View()))
              case Ok(next) => r == Ok(()) && View() == next
              case Err(e) => r == Err(e) && View() == old(View())
    {
      hide LoadBlocks, FromBlocks, Sanitize, Mined;
      var chain :- LoadChain(c, now);
      var clean :- SanitizePending(c, chain, Mined(c, chain), pool, MAX_AGE, now);
      pool := clean.valid;
      r := Ok(());
    }
  }

  lemma {:induction false} LoadedIsCanonical(c: Crypto, n: Node, blocks: seq<Block>)
    requires LoadBlocks(c, n) == Ok(blocks)
    ensures blocks == n.canonical && blocks != []
  {
    hide CheckStructure;
  }
}
