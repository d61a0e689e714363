/** A concrete fork in which the shorter chain wins: three blocks found quickly take more
    work than four found on time (chain.rs, consensus.rs). */
module SampleWork {
  import opened Prelude
  import opened Primitives
  import opened Transactions
  import opened Blocks
  import opened Difficulty
  import opened Chains
  import opened ChainIdentity
  import opened Samples

  const CLOCK: u64 := 180

  /** `n` blocks on the genesis, each a minute after the one before. */
  function OnTime(n: nat): (r: seq<Block>)
    requires n <= 3
    ensures |r| == n + 1
  {
    if n == 0 then [Genesis()] else OnTime(n - 1) + [MinedAt(60 * n, OnTime(n - 1), 0)]
  }

  ghost predicate MinuteApart(blocks: seq<Block>) {
    && blocks != [] && blocks[0].header.timestamp == 0 && blocks[0].header.difficulty == 4
    && forall i {:trigger blocks[i]} :: 0 < i < |blocks| ==>
         blocks[i].header.timestamp == blocks[i - 1].header.timestamp + 60 && blocks[i].header.difficulty == 4
  }

  lemma {:induction false} OnTimeIsAccepted(n: nat)
    requires n <= 3
    ensures PaysSubsidies(CLOCK, OnTime(n)) && MinuteApart(OnTime(n)) && Last(OnTime(n)).header.timestamp == 60 * n
    decreases n
  {
    hide PaysSubsidies, MinedAt, NextDifficulty, Genesis;
    if n == 0 {
      GenesisIsPlain();
      AcceptedLater([Genesis()]);
      FirstDifficulty();
    } else {
      OnTimeIsAccepted(n - 1);
      MinedPaysSubsidies(60 * n, CLOCK, OnTime(n - 1), 0);
      OnTimeDifficulty(OnTime(n - 1));
    }
  }

  lemma {:induction false} OnTimeDifficulty(blocks: seq<Block>)
    requires MinuteApart(blocks)
    ensures NextDifficulty(Devnet, blocks, 4) == 4
  {
    hide LwmaNext;
    OnTimeKeepsDifficulty(blocks, 60, 60, 4, 4, 24);
    assert Last(blocks).header.difficulty == 4;
  }

  lemma {:induction false} AcceptedLater(blocks: seq<Block>)
    requires Plain(blocks)
    ensures PaysSubsidies(CLOCK, blocks)
  {
    hide FromBlocks, AllTransactions, Coinbases, Genesis, Lenient;
    LaterClock(Lenient(), 0, CLOCK, Devnet, blocks);
  }

  /** The quick chain: a second after the genesis, the third block must be four bits harder. */
  lemma {:induction false} QuickDifficulties()
    ensures forall i :: 0 <= i < 3 ==> Grow(2, 0)[i].header.difficulty == if i < 2 then 4 else 8
  {
    hide PaysSubsidies, MinedAt, NextDifficulty, Genesis;
    var one, two := Grow(1, 0), Grow(2, 0);
    GrowIsPlain(0, 0);
    GrowIsPlain(1, 0);
    assert Grow(0, 0) == [Genesis()];
    FirstDifficulty();
    MinedPaysSubsidies(0, 0, [Genesis()], 0);
    MinedPaysSubsidies(0, 0, one, 0);
    QuickStep(one);
    assert two[0] == one[0] == Genesis() && two[1] == one[1];
  }

  lemma {:induction false} FirstDifficulty()
    ensures Genesis().header.timestamp == 0 && Genesis().header.difficulty == 4
    ensures NextDifficulty(Devnet, [Genesis()], 4) == 4
  {
    hide TxHash, Lenient;
  }

  lemma {:induction false} QuickStep(blocks: seq<Block>)
    requires |blocks| == 2 && blocks[1].header.timestamp == blocks[0].header.timestamp + 1
    requires blocks[1].header.difficulty == 4
    ensures NextDifficulty(Devnet, blocks, 4) == 8
  {
    var sample := Sample(blocks, 60);
    assert sample == blocks;
    assert WeightedSolve(sample, 60, 1) == 1 by { assert WeightedSolve(sample, 60, 0) == 0; }
    assert WeightedTarget(60, 1) == 60 by { assert WeightedTarget(60, 0) == 0; }
    assert Log2(60) == 5;
  }

  lemma {:induction false} FourBitsEach(blocks: seq<Block>)
    requires MinuteApart(blocks)
    ensures ExpectedTrials(blocks) == 16 * |blocks|
  {
    if |blocks| > 1 {
      FourBitsEach(DropLast(blocks));
      assert Last(blocks).header.difficulty == 4;
    }
    assert Pow2(4) == 16;
  }

  /** Whichever chain a node is on, it ends up on the shorter one. */
  lemma {:induction false} ShorterChainWins()
    ensures var quick, steady := Grow(2, 0), OnTime(3);
            && Valid(Lenient(), CLOCK, Devnet, quick) && Valid(Lenient(), CLOCK, Devnet, steady)
            && |quick| == 3 && ExpectedTrials(quick) == 16 + 16 + 256
            && |steady| == 4 && ExpectedTrials(steady) == 16 + 16 + 16 + 16
            && SelectFork(Lenient(), steady, quick) == Ok(AdoptCandidate)
            && SelectFork(Lenient(), quick, steady) == Ok(KeepCurrent)
  {
    hide Valid, Grow, OnTime, Genesis, BlockHash, Lenient, WorkFits, SelectFork, AllTransactions, Coinbases, Plain;
    var quick, steady := Grow(2, 0), OnTime(3);
    OnTimeIsAccepted(3);
    QuickDifficulties();
    FourBitsEach(steady);
    QuickTrials(quick);
    GrowIsPlain(2, 0);
    AcceptedLater(quick);
    ValidWorkFits(Lenient(), CLOCK, Devnet, quick);
    ValidWorkFits(Lenient(), CLOCK, Devnet, steady);
    ForkChoiceIsByTrials(Lenient(), steady, quick);
    ForkChoiceIsByTrials(Lenient(), quick, steady);
  }

  lemma {:induction false} QuickTrials(blocks: seq<Block>)
    requires |blocks| == 3 && forall i :: 0 <= i < 3 ==> blocks[i].header.difficulty == if i < 2 then 4 else 8
    ensures ExpectedTrials(blocks) == 16 + 16 + 256
  {
    var two, one := DropLast(blocks), DropLast(DropLast(blocks));
    assert Last(blocks) == blocks[2] && Last(two) == blocks[1] && Last(one) == blocks[0] && DropLast(one) == [];
    assert Pow2(4) == 16 && Pow2(8) == 16 * Pow2(4);
    assert ExpectedTrials(one) == 16 by { assert ExpectedTrials([]) == 0; }
  }
}
