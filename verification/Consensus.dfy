/** Structural block validation against the chain so far (consensus.rs). */
module Consensus {
  import opened Prelude
  import opened Primitives
  import opened Transactions
  import opened Merkle
  import opened Blocks
  import opened Emission
  import opened Difficulty

  const MAX_TRANSACTIONS_PER_BLOCK: nat := 1_024
  const MAX_TRANSACTION_WIRE_BYTES: nat := 16_384
  const MAX_FUTURE_DRIFT: u64 := 7_200

  // ----- base fee

  /** One eighth per transaction away from the target of one, at least 1, never below 1. */
  function NextBaseFeeAfter(baseFee: u64, userTransactions: nat): u64 {
    var previous := Max(baseFee, 1);
    if userTransactions == 1 then previous else
      var distance := if userTransactions > 1 then userTransactions - 1 else 1;
      var delta := Max(Min(previous * distance, U64_MAX) / 8, 1);
      if userTransactions > 1 then Min(previous + delta, U64_MAX) else Max(previous - delta, 1)
  }

  /** One user transaction keeps the fee. Each further one raises it by an eighth, rounded
      down in the sum but by at least 1; none lowers it by an eighth, but by at least 1 and
      not below 1. */
  ghost predicate FeeFollows(before: u64, userTransactions: nat, after: u64) {
    && (userTransactions == 1 ==> after == before)
    && (userTransactions > 1 && before * (userTransactions + 7) <= U64_MAX ==>
         && before < after
         && before * (userTransactions + 7) < 8 * after + 8
         && (8 * after <= before * (userTransactions + 7) || after == before + 1))
    && (userTransactions == 0 ==>
         && 1 <= after <= before
         && (before > 1 ==> after < before && 8 * after < 7 * before + 8)
         && (8 * after >= 7 * before || after == before - 1))
  }

  lemma {:induction false} BaseFeeMeaning(baseFee: u64, userTransactions: nat)
    ensures FeeFollows(Max(baseFee, 1), userTransactions, NextBaseFeeAfter(baseFee, userTransactions))
  {
    if userTransactions > 1 {
      EighthsAbove(Max(baseFee, 1), userTransactions);
    }
  }

  lemma {:induction false} EighthsAbove(before: nat, count: nat)
    requires count > 1
    ensures before * (count + 7) == before * (count - 1) + 8 * before
  {
  }

  /** More transactions never make the next block cheaper. */
  lemma {:induction false} BaseFeeIsMonotone(baseFee: u64, fewer: nat, more: nat)
    requires fewer <= more
    ensures NextBaseFeeAfter(baseFee, fewer) <= NextBaseFeeAfter(baseFee, more)
  {
    if 1 < fewer {
      RiseIsMonotone(Max(baseFee, 1), fewer - 1, more - 1);
    }
  }

  lemma {:induction false} RiseIsMonotone(before: nat, fewer: nat, more: nat)
    requires fewer <= more
    ensures Min(before * fewer, U64_MAX) / 8 <= Min(before * more, U64_MAX) / 8
  {
    MultiplyMonotone(fewer, more, before);
    EighthIsMonotone(Min(before * fewer, U64_MAX), Min(before * more, U64_MAX));
  }

  lemma {:induction false} EighthIsMonotone(a: nat, b: nat)
    requires a <= b
    ensures a / 8 <= b / 8
  {
  }

  function UserTransactionCount(b: Block): nat { if b.transactions == [] then 0 else |b.transactions| - 1 }

  function NextBaseFee(blocks: seq<Block>): u64 {
    if blocks == [] then 1
    else NextBaseFeeAfter(Last(blocks).header.baseFee, UserTransactionCount(Last(blocks)))
  }

  ghost function FeeAfterEmptyBlocks(baseFee: u64, blocks: nat): u64 {
    if blocks == 0 then baseFee else NextBaseFeeAfter(FeeAfterEmptyBlocks(baseFee, blocks - 1), 0)
  }

  /** Empty blocks lower the fee by at least one unit each until it rests at 1. */
  lemma {:induction false} EmptyBlocksReachTheFloor(baseFee: u64, blocks: nat)
    requires baseFee >= 1
    ensures 1 <= FeeAfterEmptyBlocks(baseFee, blocks) <= Max(baseFee - blocks, 1)
    decreases blocks
  {
    if blocks > 0 {
      EmptyBlocksReachTheFloor(baseFee, blocks - 1);
    }
  }

  // ----- coinbase

  /** Tips of the first `count` user transactions, under this base fee. */
  function CollectedTips(txs: seq<Transaction>, count: nat, baseFee: u64): Result<u64>
    requires count < |txs|
  {
    if count == 0 then Ok(0) else
      var total :- CollectedTips(txs, count - 1, baseFee);
      var _ :- ValidateFee(txs[count], baseFee);
      var tip :- EffectivePriorityFee(txs[count], baseFee);
      CheckedAdd(total, tip)
  }

  function ExpectedCoinbase(height: u64, baseFee: u64, txs: seq<Transaction>): Result<u64>
    requires txs != []
  {
    var tips :- CollectedTips(txs, |txs| - 1, baseFee);
    CheckedAdd(BlockReward(height), tips)
  }

  function CheckCoinbaseStructure(txs: seq<Transaction>): Result<()> {
    var _ :- Need(txs != [], MissingCoinbase);
    var _ :- Need(txs[0].IsCoinbase(), CoinbaseNotFirst);
    var _ :- Need(txs[0].maxFee == 0 && txs[0].priorityFee == 0, InvalidCoinbaseFee);
    Need(forall i :: 1 <= i < |txs| ==> !txs[i].IsCoinbase(), DuplicateCoinbase)
  }

  function CheckCoinbaseAmount(height: u64, baseFee: u64, txs: seq<Transaction>): Result<u64> {
    var _ :- CheckCoinbaseStructure(txs);
    var expected :- ExpectedCoinbase(height, baseFee, txs);
    var _ :- Need(txs[0].amount == expected, InvalidCoinbaseAmount);
    var _ :- Need(txs[0].amount != 0, ZeroAmountTransaction);
    Ok(expected)
  }

  ghost function TipsPaid(txs: seq<Transaction>, baseFee: u64): int {
    if txs == [] then 0 else TipsPaid(DropLast(txs), baseFee) + TipPaid(Last(txs), baseFee)
  }

  lemma {:induction false} CollectedTipsAre(txs: seq<Transaction>, count: nat, baseFee: u64)
    requires count < |txs| && forall i :: 1 <= i < |txs| ==> !txs[i].IsCoinbase()
    ensures CollectedTips(txs, count, baseFee).Ok? <==>
            (forall i :: 1 <= i <= count ==> txs[i].maxFee >= baseFee) &&
            TipsPaid(txs[1..count + 1], baseFee) <= U64_MAX
    ensures CollectedTips(txs, count, baseFee).Ok? ==>
            CollectedTips(txs, count, baseFee).value == TipsPaid(txs[1..count + 1], baseFee)
    decreases count
  {
    hide EffectivePriorityFee;
    if count > 0 {
      CollectedTipsAre(txs, count - 1, baseFee);
      assert DropLast(txs[1..count + 1]) == txs[1..count] && Last(txs[1..count + 1]) == txs[count];
      if txs[count].maxFee >= baseFee {
        AffordableFees(txs[count], baseFee);
      }
    }
  }

  /** A block's coinbase is right exactly if it comes first and alone, offers no fee and pays
      the subsidy plus the tips, and every spend can pay the base fee. */
  lemma {:induction false} CoinbaseMeaning(height: u64, baseFee: u64, txs: seq<Transaction>)
    ensures CheckCoinbaseAmount(height, baseFee, txs).Ok? <==>
              && txs != [] && txs[0].maxFee == txs[0].priorityFee == 0 < txs[0].amount
              && (forall i :: 0 <= i < |txs| ==> (txs[i].IsCoinbase() <==> i == 0))
              && (forall i :: 1 <= i < |txs| ==> txs[i].maxFee >= baseFee)
              && txs[0].amount == BlockReward(height) + TipsPaid(txs[1..], baseFee)
  {
    hide BlockReward, TipsPaid, CollectedTips;
    if txs != [] && forall i :: 1 <= i < |txs| ==> !txs[i].IsCoinbase() {
      CollectedTipsAre(txs, |txs| - 1, baseFee);
      assert txs[1..|txs|] == txs[1..];
    }
  }

  // ----- timestamps

  function Insert(x: nat, s: seq<nat>): seq<nat> {
    if s == [] || x <= s[0] then [x] + s else [s[0]] + Insert(x, s[1..])
  }

  function Sorted(s: seq<nat>): seq<nat> {
    if s == [] then [] else Insert(s[0], Sorted(s[1..]))
  }

  lemma {:induction false} InsertElements(x: nat, s: seq<nat>)
    ensures |Insert(x, s)| == |s| + 1
    ensures forall y :: y in Insert(x, s) ==> y == x || y in s
  {
    if s != [] && x > s[0] {
      InsertElements(x, s[1..]);
    }
  }

  lemma {:induction false} SortedElements(s: seq<nat>)
    ensures |Sorted(s)| == |s|
    ensures forall y :: y in Sorted(s) ==> y in s
  {
    if s != [] {
      SortedElements(s[1..]);
      InsertElements(s[0], Sorted(s[1..]));
    }
  }

  function Timestamps(blocks: seq<Block>): (r: seq<nat>)
    ensures |r| == |blocks|
  {
    seq(|blocks|, i requires 0 <= i < |blocks| => blocks[i].header.timestamp)
  }

  /** Median of the last eleven timestamps, the upper one of an even count. */
  function MedianTimePast(blocks: seq<Block>): Option<nat> {
    if blocks == [] then None else
      var times := Sorted(Timestamps(blocks[Max(|blocks| - 11, 0)..]));
      SortedElements(Timestamps(blocks[Max(|blocks| - 11, 0)..]));
      Some(times[|times| / 2])
  }

  function CheckNotTooFarInFuture(timestamp: u64, now: u64): Result<()> {
    Need(timestamp <= SaturatingAdd(now, MAX_FUTURE_DRIFT), InvalidFutureTimestamp)
  }

  function CheckTimestamp(blocks: seq<Block>, b: Block, now: u64): Result<()> {
    var _ :- Need(blocks != [] ==> b.header.timestamp > Last(blocks).header.timestamp, InvalidTimestamp);
    CheckNotTooFarInFuture(b.header.timestamp, now)
  }

  function CheckMedianTimePast(blocks: seq<Block>, b: Block): Result<()> {
    match MedianTimePast(blocks)
    case None => Ok(())
    case Some(median) => Need(b.header.timestamp > median, InvalidMedianTimePast)
  }

  ghost predicate TimestampsIncrease(blocks: seq<Block>) {
    forall i, j :: 0 <= i < j < |blocks| ==> blocks[i].header.timestamp < blocks[j].header.timestamp
  }

  lemma {:induction false} MedianIsAncient(blocks: seq<Block>)
    requires blocks != [] && TimestampsIncrease(blocks)
    ensures MedianTimePast(blocks).value <= Last(blocks).header.timestamp
  {
    var recent := blocks[Max(|blocks| - 11, 0)..];
    var times := Timestamps(recent);
    SortedElements(times);
    var median := Sorted(times)[|times| / 2];
    assert median in Sorted(times);
    var k :| 0 <= k < |times| && times[k] == median;
    assert recent[k] == blocks[Max(|blocks| - 11, 0) + k];
  }

  ghost predicate Ascending(s: seq<nat>) { forall i, j :: 0 <= i < j < |s| ==> s[i] < s[j] }

  lemma {:induction false} AscendingIsSorted(s: seq<nat>)
    requires Ascending(s)
    ensures Sorted(s) == s
  {
    if s != [] {
      AscendingIsSorted(s[1..]);
      assert s == [s[0]] + s[1..];
      if |s| > 1 { assert s[1..][0] == s[1]; }
    }
  }

  /** On such a chain the median is the timestamp of the middle one of the last eleven blocks:
      the sixth from the tip, once there are that many. */
  lemma {:induction false} MedianIsMiddle(blocks: seq<Block>)
    requires blocks != [] && TimestampsIncrease(blocks)
    ensures var recent := Min(|blocks|, 11);
            MedianTimePast(blocks) == Some(blocks[|blocks| - recent + recent / 2].header.timestamp)
  {
    hide Timestamps, TimestampsIncrease, Sorted, Ascending;
    var first := Max(|blocks| - 11, 0);
    RecentTimes(blocks, first);
    AscendingIsSorted(Timestamps(blocks[first..]));
  }

  lemma {:induction false} RecentTimes(blocks: seq<Block>, first: nat)
    requires TimestampsIncrease(blocks) && first <= |blocks|
    ensures var times := Timestamps(blocks[first..]);
            && |times| == |blocks| - first && Ascending(times)
            && forall i :: 0 <= i < |times| ==> times[i] == blocks[first + i].header.timestamp
  {
    var recent := blocks[first..];
    assert forall i :: 0 <= i < |recent| ==> recent[i] == blocks[first + i];
  }

  /** On a chain whose timestamps increase, the median-time-past rule never rejects a block
      that the strict timestamp rule lets through. */
  lemma {:induction false} MedianTimePastIsImplied(blocks: seq<Block>, b: Block, now: u64)
    requires TimestampsIncrease(blocks)
    requires CheckTimestamp(blocks, b, now).Ok?
    ensures CheckMedianTimePast(blocks, b).Ok?
  {
    if blocks != [] {
      MedianIsAncient(blocks);
    }
  }

  // ----- transaction bodies

  function SeenHashes(c: Crypto, txs: seq<Transaction>, count: nat): set<Digest>
    requires count <= |txs|
  {
    set i | 0 <= i < count :: TxHash(c, txs[i])
  }

  function CheckOneBody(c: Crypto, t: Transaction, seen: set<Digest>): Result<()> {
    var _ :- Need(|Encode(c, t)| <= MAX_TRANSACTION_WIRE_BYTES, TransactionTooLarge);
    var _ :- Verify(c, t);
    Need(TxHash(c, t) !in seen, DuplicateTransactionHash)
  }

  function CheckBodies(c: Crypto, txs: seq<Transaction>, count: nat): Result<()>
    requires count <= |txs|
  {
    if count == 0 then Ok(()) else
      var _ :- CheckBodies(c, txs, count - 1);
      CheckOneBody(c, txs[count - 1], SeenHashes(c, txs, count - 1))
  }

  /** The loop of the source, with its growing set of seen hashes. */
  method CheckTransactionBodies(c: Crypto, txs: seq<Transaction>) returns (r: Result<()>)
    ensures r == CheckBodies(c, txs, |txs|)
  {
    hide Encode, Verify;
    var seen: set<Digest> := {};
    for i := 0 to |txs|
      invariant CheckBodies(c, txs, i).Ok?
      invariant seen == SeenHashes(c, txs, i)
    {
      var step := CheckOneBody(c, txs[i], seen);
      assert CheckBodies(c, txs, i + 1) == step;
      if step.Err? {
        BodyFailureIsFinal(c, txs, i + 1);
        return step;
      }
      seen := seen + {TxHash(c, txs[i])};
    }
    r := Ok(());
  }

  lemma {:induction false} BodyFailureIsFinal(c: Crypto, txs: seq<Transaction>, count: nat)
    requires count <= |txs| && CheckBodies(c, txs, count).Err?
    ensures CheckBodies(c, txs, |txs|) == CheckBodies(c, txs, count)
    decreases |txs| - count
  {
    hide CheckOneBody, SeenHashes;
    if count < |txs| {
      assert CheckBodies(c, txs, count + 1) == CheckBodies(c, txs, count);
      BodyFailureIsFinal(c, txs, count + 1);
    }
  }

  /** What the body check guarantees about an accepted list. */
  lemma {:induction false} AcceptedBodies(c: Crypto, txs: seq<Transaction>, count: nat)
    requires count <= |txs| && CheckBodies(c, txs, count).Ok?
    ensures forall i :: 0 <= i < count ==> |Encode(c, txs[i])| <= MAX_TRANSACTION_WIRE_BYTES && Verify(c, txs[i]).Ok?
    ensures forall i, j :: 0 <= i < j < count ==> TxHash(c, txs[i]) != TxHash(c, txs[j])
    decreases count
  {
    hide Encode, Verify;
    if count > 0 {
      AcceptedBodies(c, txs, count - 1);
      forall i | 0 <= i < count - 1 ensures TxHash(c, txs[i]) != TxHash(c, txs[count - 1]) {
        assert TxHash(c, txs[i]) in SeenHashes(c, txs, count - 1);
      }
    }
  }

  lemma {:induction false} WireBytesBoundStrings(c: Crypto, t: Transaction)
    ensures |Encode(c, t)| >= |t.to|
    ensures t.from.Some? ==> |Encode(c, t)| >= |t.from.value|
  {
  }

  lemma {:induction false} SmallIsEncodable(c: Crypto, t: Transaction)
    requires |Encode(c, t)| <= MAX_TRANSACTION_WIRE_BYTES
    ensures Encodable(t)
  {
    WireBytesBoundStrings(c, t);
  }

  // ----- the block

  function ExpectedVersion(network: Network, height: u64): u32 { 1 }

  const MAINNET_GENESIS_HASH: seq<byte> := [
    0x00, 0x00, 0xf1, 0x56, 0xb7, 0x27, 0x1a, 0x38, 0x07, 0xb1, 0x6e, 0xfd, 0xf9, 0x6d, 0x21, 0xac,
    0x30, 0x01, 0x1f, 0xbd, 0xcd, 0x2c, 0xe6, 0x8a, 0xf7, 0xfd, 0xd3, 0xbc, 0x77, 0xae, 0x4f, 0x3d]

  function CheckCheckpoint(c: Crypto, network: Network, b: Block): Result<()> {
    if network.MainnetCandidate? && b.header.height == 0
    then Need(c.digestBytes(BlockHash(c, b)) == MAINNET_GENESIS_HASH, InvalidCheckpoint)
    else Ok(())
  }

  function PreviousHash(c: Crypto, blocks: seq<Block>): Digest {
    if blocks == [] then Zero else BlockHash(c, Last(blocks))
  }

  function ExpectedHeight(blocks: seq<Block>): nat {
    if blocks == [] then 0 else Last(blocks).header.height + 1
  }

  /** Header rules: network, height, time, version, base fee, difficulty, parent. */
  function CheckHeader(c: Crypto, now: u64, network: Network, blocks: seq<Block>, b: Block): Result<()> {
    var h := b.header;
    var _ :- Need(h.networkId == network.NetworkId(), InvalidNetwork);
    var _ :- Need(h.height == ExpectedHeight(blocks), InvalidHeight);
    var _ :- CheckTimestamp(blocks, b, now);
    var _ :- CheckMedianTimePast(blocks, b);
    var _ :- Need(h.version == ExpectedVersion(network, h.height), InvalidBlockVersion);
    var _ :- Need(h.baseFee == NextBaseFee(blocks), InvalidBaseFee);
    var _ :- Need(network.MinimumDifficulty() <= h.difficulty <= network.MaximumDifficulty(),
        InvalidDifficultyAdjustment);
    var _ :- Need(blocks != [] ==> h.difficulty == NextDifficulty(network, blocks, h.difficulty),
        InvalidDifficultyAdjustment);
    var _ :- Need(h.previousHash == PreviousHash(c, blocks), InvalidPreviousHash);
    CheckCheckpoint(c, network, b)
  }

  /** Body rules: merkle root, work, coinbase, networks of the transactions. */
  function CheckBody(c: Crypto, network: Network, b: Block): Result<()> {
    var root :- MerkleRoot(c, b.transactions);
    var _ :- Need(root == b.header.merkleRoot, InvalidMerkleRoot);
    var _ :- EnsurePow(c, b);
    var _ :- CheckCoinbaseAmount(b.header.height, b.header.baseFee, b.transactions);
    Need(forall i :: 0 <= i < |b.transactions| ==> TransactionNetwork(c, b.transactions[i]) == Ok(network),
        InvalidNetwork)
  }

  function ValidateNextBlock(
    c: Crypto, now: u64, network: Network, blocks: seq<Block>, b: Block, emitted: u64): Result<()>
  {
    var _ :- Need(b.transactions != [], EmptyTransactions);
    var _ :- Need(|b.transactions| <= MAX_TRANSACTIONS_PER_BLOCK, TooManyTransactions);
    var _ :- CheckBodies(c, b.transactions, |b.transactions|);
    var _ :- CheckHeader(c, now, network, blocks, b);
    var _ :- CheckBody(c, network, b);
    var supply :- CheckedAdd(emitted, BlockReward(b.header.height));
    Need(supply <= MAX_SUPPLY, SupplyOverflow)
  }

  /** A later clock never rejects what an earlier one accepted. */
  lemma {:induction false} ClockOnlyRelaxes(
    c: Crypto, now: u64, later: u64, network: Network, blocks: seq<Block>, b: Block, emitted: u64)
    requires now <= later && ValidateNextBlock(c, now, network, blocks, b, emitted).Ok?
    ensures ValidateNextBlock(c, later, network, blocks, b, emitted).Ok?
  {
    hide CheckBodies, CheckBody, MedianTimePast, NextDifficulty, NextBaseFee;
  }
}
