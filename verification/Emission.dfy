/** Block subsidy, halving schedule and the total that can ever be emitted (consensus.rs). */
module Emission {
  import opened Prelude

  const INITIAL_REWARD: u64 := 1_902_587_519
  const TOTAL_EMISSION: u64 := 5_999_999_968_382_400

  /** The reward halves every 1,576,800 blocks. */
  function Halvings(height: nat): nat { height / 1_576_800 }

  function EpochStart(epoch: nat): nat { 1_576_800 * epoch }

  function EpochPayout(reward: nat): nat { 1_576_800 * reward }

  function EpochReward(halvings: nat): (r: u64)
    ensures r <= INITIAL_REWARD
  {
    INITIAL_REWARD / Pow2(halvings)
  }

  function BlockReward(height: nat): u64 {
    var halvings := Halvings(height);
    if halvings >= 64 then 0 else EpochReward(halvings)
  }

  /** The subsidies of all heights below `count`. */
  ghost function Emitted(count: nat): nat {
    if count == 0 then 0 else Emitted(count - 1) + BlockReward(count - 1)
  }

  ghost function EpochsTotal(epochs: nat): nat {
    if epochs == 0 then 0 else EpochsTotal(epochs - 1) + EpochPayout(EpochReward(epochs - 1))
  }

  /** What one block per epoch would still pay, starting at `reward`. */
  function Remaining(reward: nat): nat {
    if reward == 0 then 0 else reward + Remaining(reward / 2)
  }

  lemma {:induction false} HalvingStep(k: nat)
    ensures EpochReward(k + 1) == EpochReward(k) / 2
  {
    hide Pow2;
    PowerDoubles(k);
    HalfQuotient(INITIAL_REWARD, Pow2(k));
  }

  lemma {:induction false} PowerDoubles(k: nat)
    ensures Pow2(k + 1) == 2 * Pow2(k)
  {
  }

  lemma {:induction false} HalfQuotient(n: nat, d: nat)
    requires d > 0
    ensures n / (2 * d) == n / d / 2
  {
    var q := n / d;
    Parity(q, d);
    QuotientUnique(n, 2 * d, q / 2, (q % 2) * d + n % d);
  }

  lemma {:induction false} Parity(q: nat, d: nat)
    ensures q * d == (q / 2) * (2 * d) + (q % 2) * d
    ensures (q % 2) * d <= d
  {
    assert q == 2 * (q / 2) + q % 2;
    assert (2 * (q / 2)) * d == (q / 2) * (2 * d);
    if q % 2 == 0 {
      assert (q % 2) * d == 0;
    } else {
      assert (q % 2) * d == d;
    }
  }

  lemma {:induction false} RemainingAtStart()
    ensures Remaining(INITIAL_REWARD) == 3_805_175_018
  {
    assert Remaining(1) == 1;
    assert Remaining(3) == 4;
    assert Remaining(7) == 11;
    assert Remaining(14) == 25;
    assert Remaining(28) == 53;
    assert Remaining(56) == 109;
    assert Remaining(113) == 222;
    assert Remaining(226) == 448;
    assert Remaining(453) == 901;
    assert Remaining(907) == 1808;
    assert Remaining(1814) == 3622;
    assert Remaining(3628) == 7250;
    assert Remaining(7257) == 14507;
    assert Remaining(14515) == 29022;
    assert Remaining(29031) == 58053;
    assert Remaining(58062) == 116115;
    assert Remaining(116124) == 232239;
    assert Remaining(232249) == 464488;
    assert Remaining(464498) == 928986;
    assert Remaining(928997) == 1857983;
    assert Remaining(1857995) == 3715978;
    assert Remaining(3715991) == 7431969;
    assert Remaining(7431982) == 14863951;
    assert Remaining(14863964) == 29727915;
    assert Remaining(29727929) == 59455844;
    assert Remaining(59455859) == 118911703;
    assert Remaining(118911719) == 237823422;
    assert Remaining(237823439) == 475646861;
    assert Remaining(475646879) == 951293740;
    assert Remaining(951293759) == 1902587499;
    assert Remaining(1902587519) == 3805175018;
  }

  lemma {:induction false} EpochsPaid(k: nat)
    ensures EpochsTotal(k) + EpochPayout(Remaining(EpochReward(k))) == TOTAL_EMISSION
  {
    if k == 0 {
      RemainingAtStart();
    } else {
      EpochsPaid(k - 1);
      HalvingStep(k - 1);
    }
  }

  lemma {:induction false} LateRewardsAreZero(k: nat)
    requires k >= 64
    ensures EpochReward(k) == 0
  {
    Pow2Monotone(31, k);
    Pow2Values();
    QuotientUnique(INITIAL_REWARD, Pow2(k), 0, INITIAL_REWARD);
  }

  lemma {:induction false} RewardInEpoch(epoch: nat, offset: nat)
    requires offset < 1_576_800
    ensures BlockReward(EpochStart(epoch) + offset) == EpochReward(epoch)
  {
    if epoch >= 64 {
      LateRewardsAreZero(epoch);
    }
  }

  ghost function Repeated(reward: nat, count: nat): nat {
    if count == 0 then 0 else Repeated(reward, count - 1) + reward
  }

  lemma {:induction false} RepeatedIsProduct(reward: nat, count: nat)
    ensures Repeated(reward, count) == count * reward
    decreases count
  {
    if count > 0 {
      RepeatedIsProduct(reward, count - 1);
    }
  }

  lemma {:induction false} EmittedWithinEpoch(epoch: nat, blocks: nat)
    requires blocks <= 1_576_800
    ensures Emitted(EpochStart(epoch) + blocks) == Emitted(EpochStart(epoch)) + Repeated(EpochReward(epoch), blocks)
    decreases blocks
  {
    if blocks > 0 {
      EmittedWithinEpoch(epoch, blocks - 1);
      RewardInEpoch(epoch, blocks - 1);
    }
  }

  lemma {:induction false} EmittedAtEpoch(epoch: nat)
    ensures Emitted(EpochStart(epoch)) == EpochsTotal(epoch)
  {
    if epoch > 0 {
      EmittedAtEpoch(epoch - 1);
      EmittedWithinEpoch(epoch - 1, 1_576_800);
      RepeatedIsProduct(EpochReward(epoch - 1), 1_576_800);
    }
  }

  lemma {:induction false} PartialEpoch(reward: nat, blocks: nat)
    requires blocks <= 1_576_800
    ensures Repeated(reward, blocks) <= EpochPayout(reward)
  {
    RepeatedIsProduct(reward, blocks);
    MultiplyMonotone(blocks, 1_576_800, reward);
  }

  /** However long the chain, the subsidies never add up to more than the fixed total,
      which stays below the supply cap. */
  lemma {:induction false} EmittedBounded(count: nat)
    ensures Emitted(count) <= TOTAL_EMISSION < 5_999_999_999_918_400
  {
    var epoch, blocks := Halvings(count), count % 1_576_800;
    EmittedAtEpoch(epoch);
    EmittedWithinEpoch(epoch, blocks);
    EpochsPaid(epoch + 1);
    PartialEpoch(EpochReward(epoch), blocks);
  }

  /** Walks the halvings with an accumulator; the checked operations never fail. */
  method TotalTheoreticalEmission() returns (r: Result<u64>)
    ensures r == Ok(TOTAL_EMISSION)
  {
    hide Remaining;
    var total: u64, reward: u64 := 0, INITIAL_REWARD;
    RemainingAtStart();
    while reward > 0
      invariant total + EpochPayout(Remaining(reward)) == TOTAL_EMISSION
    {
      RemainingStep(reward);
      var epochTotal := EpochPayout(reward);
      if epochTotal > U64_MAX || total + epochTotal > U64_MAX {
        return Err(AmountOverflow);
      }
      total := total + epochTotal;
      reward := reward / 2;
    }
    RemainingStep(0);
    r := Ok(total);
  }

  lemma {:induction false} RemainingStep(reward: nat)
    ensures Remaining(reward) == if reward == 0 then 0 else reward + Remaining(reward / 2)
  {
  }
}
