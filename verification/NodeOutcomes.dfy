/** Exactly when the node accepts a block or a replacement chain (storage.rs, devnet.rs). */
module NodeOutcomes {
  import opened Prelude
  import opened Primitives
  import opened Blocks
  import opened Chains
  import opened ChainIdentity
  import opened Nodes
  import Ledgers
  import Transactions

  // ----- accepted chains fit the store

  ghost predicate Heights(blocks: seq<Block>) { forall i :: 0 <= i < |blocks| ==> blocks[i].header.height == i }

  lemma {:induction false} ValidStructure(c: Crypto, now: u64, network: Network, blocks: seq<Block>)
    requires Valid(c, now, network, blocks) && blocks != []
    ensures Heights(blocks) && Linked(c, blocks)
    ensures CheckStructure(c, blocks).Ok?
  {
    hide FromBlocks, BlockHash, TipMatches, NoncesMatch, Ledgers.Sound, Ledgers.HashSet;
    FromBlocksShape(c, now, network, blocks);
    ValidChainInvariant(c, now, network, blocks);
    LinkedHasStructure(c, blocks, |blocks|);
  }

  lemma {:induction false} LengthFits(c: Crypto, now: u64, network: Network, blocks: seq<Block>)
    requires Valid(c, now, network, blocks)
    ensures |blocks| <= U64_MAX + 1
  {
    hide Valid, BlockHash;
    if blocks != [] {
      TipHeader(c, now, network, blocks);
    }
  }

  lemma {:induction false} InsertsOk(c: Crypto, now: u64, network: Network, blocks: seq<Block>, count: nat)
    requires Valid(c, now, network, blocks) && count <= |blocks| <= I64_MAX + 1
    ensures CheckInserts(c, blocks[..count]).Ok?
    decreases count
  {
    hide Valid, BlockHash, Linked, CheckStructure;
    if count > 0 {
      InsertsOk(c, now, network, blocks, count - 1);
      ValidStructure(c, now, network, blocks);
      assert DropLast(blocks[..count]) == blocks[..count - 1] && Last(blocks[..count]) == blocks[count - 1];
      forall i | 0 <= i < count - 1 ensures BlockHash(c, blocks[i]) != BlockHash(c, blocks[count - 1]) {
        ValidHashesDistinct(c, now, network, blocks, i, count - 1);
      }
    }
  }

  lemma {:induction false} InsertsMean(c: Crypto, blocks: seq<Block>)
    requires CheckInserts(c, blocks).Ok? && blocks != []
    ensures Last(blocks).header.height <= I64_MAX
  {
    hide BlockHash;
  }

  // ----- one block

  /** A mined block is accepted exactly if it continues the chain and its height is a signed
      64-bit number; it then becomes the tip, and its transactions leave the pool. */
  lemma {:induction false} SubmitOutcome(c: Crypto, now: u64, n: Node, b: Block)
    requires n.canonical != [] && Valid(c, now, n.network, n.canonical)
    ensures var submitted := SubmitMinedBlock(c, now, n, b);
            && (submitted.Ok? <==>
                 AppendBlock(c, now, FromBlocks(c, now, n.network, n.canonical).value, b).Ok? &&
                 b.header.height <= I64_MAX)
            && (submitted.Ok? ==>
                 && submitted.value == n.(canonical := n.canonical + [b], pool := submitted.value.pool)
                 && forall r :: r in submitted.value.pool <==>
                      r in n.pool && forall j :: 1 <= j < |b.transactions| ==>
                        Transactions.TxHash(c, b.transactions[j]) != r.txHash)
  {
    hide FromBlocks, AppendBlock, BlockHash, CheckStructure, CanInsert, VerifyTipExtension, Unmined,
         Transactions.TxHash;
    ValidStructure(c, now, n.network, n.canonical);
    var chain := FromBlocks(c, now, n.network, n.canonical).value;
    if AppendBlock(c, now, chain, b).Ok? {
      AppendedIsValid(c, now, n.network, n.canonical, b);
      var longer := n.canonical + [b];
      assert DropLast(longer) == n.canonical && Last(longer) == b;
      TipHeader(c, now, n.network, longer);
      TipHeader(c, now, n.network, n.canonical);
      if b.header.height <= I64_MAX { AppendFits(c, now, n.network, n.canonical, b); }
    }
    InsertedHeight(c, n.canonical, b);
    forall r ensures r in Unmined(c, n.pool, b) <==>
      r in n.pool && forall j :: 1 <= j < |b.transactions| ==> Transactions.TxHash(c, b.transactions[j]) != r.txHash
    {
      UnminedMeaning(c, n.pool, b, r);
    }
  }

  lemma {:induction false} InsertedHeight(c: Crypto, blocks: seq<Block>, b: Block)
    ensures CanInsert(c, blocks, b) ==> b.header.height <= I64_MAX
  {
    hide BlockHash;
  }

  // ----- a replacement chain

  /** A candidate replaces the stored chain exactly if the tip is still the expected one, the
      candidate is accepted from the same genesis, took more expected trials to find, and its
      heights are signed 64-bit numbers. */
  lemma {:induction false} ReplacementOutcome(
    c: Crypto, now: u64, n: Node, expectedTip: Digest, candidate: seq<Block>)
    requires n.canonical != [] && Valid(c, now, n.network, n.canonical)
    ensures ReplaceValidated(c, now, n, expectedTip, candidate).Ok? <==>
              && BlockHash(c, Last(n.canonical)) == expectedTip
              && candidate != [] && Valid(c, now, n.network, candidate)
              && candidate[0] == n.canonical[0]
              && ExpectedTrials(candidate) > ExpectedTrials(n.canonical)
              && |candidate| <= I64_MAX + 1
    ensures ReplaceValidated(c, now, n, expectedTip, candidate).Ok? ==>
            ReplaceValidated(c, now, n, expectedTip, candidate).value.0 ==
            n.(canonical := candidate,
               orphaned := ReplaceValidated(c, now, n, expectedTip, candidate).value.0.orphaned)
  {
    hide FromBlocks, BlockHash, CheckStructure, CheckInserts, Archive, Above, CommonAncestorHeight, SelectFork,
         ExpectedTrials, WorkFits;
    ValidStructure(c, now, n.network, n.canonical);
    ValidWorkFits(c, now, n.network, n.canonical);
    if candidate == [] {
      NothingToSelect(c, n.canonical);
    } else if Valid(c, now, n.network, candidate) {
      ValidWorkFits(c, now, n.network, candidate);
      ForkChoiceIsByTrials(c, n.canonical, candidate);
      CommonAncestorIsForkPoint(c, now, n.network, n.canonical, n.network, candidate);
      TipHeader(c, now, n.network, candidate);
      if CheckInserts(c, candidate).Ok? { InsertsMean(c, candidate); }
      if |candidate| <= I64_MAX + 1 {
        InsertsOk(c, now, n.network, candidate, |candidate|);
        assert candidate[..|candidate|] == candidate;
      }
      if BlockHash(c, n.canonical[0]) == BlockHash(c, candidate[0]) {
        GenesisShared(c, now, n.network, n.canonical, candidate);
      }
    }
  }

  lemma {:induction false} NothingToSelect(c: Crypto, current: seq<Block>)
    ensures SelectFork(c, current, []).Err?
  {
  }
}
