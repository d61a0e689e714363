/** What the pool's operations record, whom they pay, and what never happens twice over any
    run (vireon-mining-pool, store.rs). */
module PoolMeaning {
  import opened Prelude
  import opened PoolSplits
  import opened PoolBooks
  import opened PoolRuns

  // ----- shares

  /** The hashes one expects to try for the shares of `a`: each required zero bit doubles it. */
  ghost function ProvenTrials(shares: seq<Share>, a: Str): nat {
    if shares == [] then 0 else
      ProvenTrials(DropLast(shares), a) + if Last(shares).miner == a then Pow2(Last(shares).bits) else 0
  }

  /** A miner's work is the expected trials behind his shares; a share of 128 or more bits
      counts as the 128-bit maximum. */
  lemma {:induction false} WorkIsTrials(shares: seq<Share>, a: Str)
    ensures (forall s :: s in shares ==> s.bits < 128) ==>
            WorkOf(WorkBy(shares), a) == Min(ProvenTrials(shares, a), U128_MAX)
    ensures forall s :: s in shares && s.bits >= 128 ==> WorkOf(WorkBy(shares), s.miner) == U128_MAX
    decreases |shares|
  {
    hide Pow2;
    if shares != [] {
      WorkIsTrials(DropLast(shares), a);
      assert shares == DropLast(shares) + [Last(shares)];
    }
  }

  /** Ids rise along the stored shares, up to the last one given out; no hash is stored twice. */
  ghost predicate InOrder(shares: seq<Share>, last: u64) {
    && (forall i, j :: 0 <= i < j < |shares| ==> shares[i].id < shares[j].id && shares[i].hash != shares[j].hash)
    && forall s :: s in shares ==> s.id <= last
  }

  ghost predicate SharesInOrder(p: Pool) { InOrder(p.shares, p.nextShareId) }

  lemma {:induction false} OneMoreInOrder(shares: seq<Share>, last: u64, s: Share)
    requires InOrder(shares, last) && s.id == last + 1 && forall x :: x in shares ==> x.hash != s.hash
    ensures InOrder(shares + [s], s.id)
  {
    assert forall i :: 0 <= i < |shares| ==> shares[i] in shares;
  }

  lemma {:induction false} FewerInOrder(shares: seq<Share>, last: u64, first: nat)
    requires InOrder(shares, last) && first <= |shares|
    ensures InOrder(shares[first..], last)
  {
  }

  lemma {:induction false} KnownShareMeaning(shares: seq<Share>, hash: Str)
    ensures var known := KnownShare(shares, hash);
            && (known.Some? ==> known.value in shares && known.value.hash == hash)
            && (known.None? ==> forall s :: s in shares ==> s.hash != hash)
    decreases |shares|
  {
    if shares != [] {
      KnownShareMeaning(DropLast(shares), hash);
      assert shares == DropLast(shares) + [Last(shares)];
    }
  }

  /** A new share goes to the end with the next id; the oldest ones make way. */
  lemma {:induction false} RecordShareMeaning(p: Pool, maxShares: nat, share: Share)
    requires forall s :: s in p.shares ==> s.hash != share.hash
    ensures var q := RecordShare(p, maxShares, share);
            var all := p.shares + [share.(id := SaturatingAdd(p.nextShareId, 1))];
            && q == p.(shares := q.shares, nextShareId := SaturatingAdd(p.nextShareId, 1))
            && |q.shares| == Min(|all|, maxShares) && q.shares == all[|all| - |q.shares|..]
  {
    KnownShareMeaning(p.shares, share.hash);
  }

  lemma {:induction false} ShareKeepsOrder(p: Pool, maxShares: nat, share: Share)
    requires SharesInOrder(p) && p.nextShareId < U64_MAX
    ensures SharesInOrder(RecordShare(p, maxShares, share))
  {
    hide KnownShare, InOrder;
    KnownShareMeaning(p.shares, share.hash);
    if KnownShare(p.shares, share.hash).None? {
      RecordShareMeaning(p, maxShares, share);
      var all, kept := p.shares + [share.(id := p.nextShareId + 1)], RecordShare(p, maxShares, share).shares;
      OneMoreInOrder(p.shares, p.nextShareId, share.(id := p.nextShareId + 1));
      FewerInOrder(all, p.nextShareId + 1, |all| - |kept|);
    }
  }

  lemma {:induction false} OthersKeepShares(p: Pool, e: Event)
    requires !e.ShareEvent?
    ensures Step(p, e).shares == p.shares && Step(p, e).nextShareId == p.nextShareId
  {
    hide Split, WorkBy, PaidShares, MovedAll, KnownBlock, Settled, HashRecorded, FindPrepared, IsHex32, Due, Consistent;
  }

  /** Over every run short enough for the numbering, the stored shares are in order. */
  lemma {:induction false} SharesStayInOrder(events: seq<Event>)
    requires |events| < U64_MAX
    ensures SharesInOrder(Run(events))
    decreases |events|
  {
    hide Step, RecordShare;
    if events != [] {
      SharesStayInOrder(DropLast(events));
      ShareIdsCount(DropLast(events));
      var p, e := Run(DropLast(events)), Last(events);
      if e.ShareEvent? {
        ShareKeepsOrder(p, e.maxShares, e.share);
        ShareStep(p, e);
      } else {
        OthersKeepShares(p, e);
      }
    }
  }

  lemma {:induction false} ShareStep(p: Pool, e: Event)
    requires e.ShareEvent?
    ensures Step(p, e) == RecordShare(p, e.maxShares, e.share)
  {
  }

  // ----- rounds

  lemma {:induction false} EligibleMeaning(shares: seq<Share>, after: int, until: u64, s: Share)
    ensures s in AcceptedBetween(shares, after, until) <==> s in shares && after < s.acceptedAt <= until
    decreases |shares|
  {
    if shares != [] {
      EligibleMeaning(DropLast(shares), after, until, s);
      assert shares == DropLast(shares) + [Last(shares)];
    }
  }

  lemma {:induction false} LatestIsAttained(blocks: seq<PoolBlock>)
    ensures blocks == [] ==> LatestFound(blocks) == 0
    ensures blocks != [] ==> exists b :: b in blocks && b.foundAt == LatestFound(blocks)
    decreases |blocks|
  {
    if blocks != [] {
      LatestIsAttained(DropLast(blocks));
      assert blocks == DropLast(blocks) + [Last(blocks)];
      assert Last(blocks) in blocks;
    }
  }

  /** A block pays the shares accepted since the latest block found before it, or only the
      `window` most recent of them. If there are none it pays the most recent of all. */
  lemma {:induction false} PaidMeaning(p: Pool, window: nat, now: u64)
    ensures var since := AcceptedBetween(p.shares, LatestFound(p.blocks), now);
            var any, paid := AcceptedBetween(p.shares, -1, now), PaidShares(p, window, now);
            && (since != [] && (window == 0 || |since| <= window) ==> paid == since)
            && (since != [] && 0 < window < |since| ==> paid == since[|since| - window..])
            && (since == [] ==> paid == any[|any| - Min(|any|, Max(window, 1))..])
            && (paid == [] <==> forall s :: s in p.shares ==> s.acceptedAt > now)
  {
    hide AcceptedBetween, LatestFound;
    NoneEligible(p.shares, LatestFound(p.blocks), now);
  }

  lemma {:induction false} NoneEligible(shares: seq<Share>, after: nat, now: u64)
    ensures AcceptedBetween(shares, -1, now) == [] <==> forall s :: s in shares ==> s.acceptedAt > now
    ensures AcceptedBetween(shares, -1, now) == [] ==> AcceptedBetween(shares, after, now) == []
    decreases |shares|
  {
    if shares != [] {
      NoneEligible(DropLast(shares), after, now);
      assert shares == DropLast(shares) + [Last(shares)];
    }
  }

  // ----- blocks

  lemma {:induction false} FeeRounds(reward: nat, basisPoints: nat)
    ensures PoolFee(reward % 0x1_0000_0000_0000_0000, basisPoints) * 10_000 <=
            (reward % 0x1_0000_0000_0000_0000) * basisPoints
    ensures (reward % 0x1_0000_0000_0000_0000) * basisPoints <
            PoolFee(reward % 0x1_0000_0000_0000_0000, basisPoints) * 10_000 + 10_000
  {
  }

  /** A new block is recorded exactly if its fee fits and some share was accepted by now. It is
      immature, keeps what it was told, and splits the reward less the fee, rounded down, by
      the work of the shares it pays; each miner's part enters his immature column. */
  lemma {:induction false} RecordBlockMeaning(
    p: Pool, height: u64, hash: Str, reward: u64, basisPoints: nat, window: nat, now: u64)
    requires forall b :: b in p.blocks ==> b.hash != hash
    ensures var r := RecordBlock(p, height, hash, reward, basisPoints, window, now);
            && (r.Ok? <==>
                 reward * basisPoints < 10_000 * (U64_MAX + 1) && exists s :: s in p.shares && s.acceptedAt <= now)
            && (r.Ok? ==>
                 && |r.value.blocks| == |p.blocks| + 1
                 && r.value == p.(blocks := p.blocks + [Last(r.value.blocks)], accounts := r.value.accounts)
                 && Describes(p, Last(r.value.blocks), height, hash, reward, basisPoints, window, now)
                 && forall a :: BalanceOf(r.value.accounts, a) ==
                      var before, got := BalanceOf(p.accounts, a), AmountIn(Last(r.value.blocks).allocations, a);
                      before.(immature := SaturatingAdd(before.immature, got)))
  {
    hide Split, WorkBy, PaidShares, MovedAll, Total;
    PaidMeaning(p, window, now);
    FeeRounds(reward, basisPoints);
    NewHash(p.blocks, hash);
    var r := RecordBlock(p, height, hash, reward, basisPoints, window, now);
    if r.Ok? {
      WorkIsPositive(PaidShares(p, window, now));
      forall a
        ensures BalanceOf(r.value.accounts, a) ==
                Moved(BalanceOf(p.accounts, a), Earn, AmountIn(Last(r.value.blocks).allocations, a))
      {
        MovedAllAt(p.accounts, Earn, Last(r.value.blocks).allocations, a);
      }
    }
  }

  ghost predicate Describes(
    p: Pool, b: PoolBlock, height: u64, hash: Str, reward: u64, basisPoints: nat, window: nat, now: u64)
  {
    && b.height == height && b.hash == hash && b.reward == reward && b.foundAt == now && b.status.Immature?
    && b.fee * 10_000 <= reward * basisPoints < b.fee * 10_000 + 10_000
    && b.distributable == SaturatingSub(reward, b.fee)
    && Whole(WorkBy(PaidShares(p, window, now))) > 0
    && b.allocations == Split(WorkBy(PaidShares(p, window, now)), b.distributable)
  }

  lemma {:induction false} NewHash(blocks: seq<PoolBlock>, hash: Str)
    requires forall b :: b in blocks ==> b.hash != hash
    ensures !KnownBlock(blocks, hash)
  {
    forall i | 0 <= i < |blocks| ensures blocks[i].hash != hash { assert blocks[i] in blocks; }
  }

  ghost predicate DistinctBlocks(p: Pool) {
    forall i, j :: 0 <= i < j < |p.blocks| ==> p.blocks[i].hash != p.blocks[j].hash
  }

  lemma {:induction false} StepKeepsBlocksDistinct(p: Pool, e: Event)
    requires DistinctBlocks(p)
    ensures DistinctBlocks(Step(p, e))
  {
    hide Split, WorkBy, PaidShares, MovedAll, Settled, HashRecorded, FindPrepared, IsHex32, Due, Consistent, KnownShare;
  }

  /** Over every run no block is recorded, and so paid for, twice. */
  lemma {:induction false} BlocksStayDistinct(events: seq<Event>)
    ensures DistinctBlocks(Run(events))
    decreases |events|
  {
    hide Step;
    if events != [] {
      BlocksStayDistinct(DropLast(events));
      StepKeepsBlocksDistinct(Run(DropLast(events)), Last(events));
    }
  }

  // ----- payouts

  /** A batch pays every account whose mature column reaches the minimum, all of it, and
      nobody else; there is none if no account does. */
  lemma {:induction false} PrepareMeaning(p: Pool, minimum: u64, now: u64, id: Str)
    ensures var r := PreparePayout(p, minimum, now, id);
            && (r.Ok? <==> exists a :: a in p.accounts && p.accounts[a].mature >= minimum)
            && (r.Ok? ==>
                 && |r.value.payouts| == |p.payouts| + 1
                 && r.value == p.(payouts := p.payouts + [Last(r.value.payouts)], accounts := r.value.accounts)
                 && var batch := Last(r.value.payouts);
                    && batch.id == id && batch.createdAt == now && batch.status.Prepared? && batch.hashes == []
                    && forall a ::
                         var before, due := BalanceOf(p.accounts, a),
                             a in p.accounts && p.accounts[a].mature >= minimum;
                         && (a in batch.items <==> due) && (due ==> batch.items[a] == before.mature)
                         && BalanceOf(r.value.accounts, a) ==
                              if due then before.(mature := 0,
                                                  pending := SaturatingAdd(before.pending, before.mature))
                              else before)
  {
    hide MovedAll;
    var items := Due(p.accounts, minimum);
    if items == map[] {
      forall a | a in p.accounts ensures p.accounts[a].mature < minimum { assert a !in items; }
    } else {
      var a :| a in items;
      assert a in p.accounts && p.accounts[a].mature >= minimum;
    }
    forall a ensures BalanceOf(MovedAll(p.accounts, Hold, items), a) ==
                     Moved(BalanceOf(p.accounts, a), Hold, AmountIn(items, a))
    {
      MovedAllAt(p.accounts, Hold, items, a);
    }
  }

  ghost predicate IsPrepared(p: Pool, id: Str, i: nat)
    requires i < |p.payouts|
  {
    p.payouts[i].id == id && p.payouts[i].status.Prepared?
  }

  lemma {:induction false} FoundMeaning(payouts: seq<Payout>, id: Str, from: nat)
    requires from <= |payouts|
    ensures var found := FindPrepared(payouts, id, from);
            && (found.Some? ==> from <= found.value)
            && forall i :: from <= i < |payouts| && payouts[i].id == id && payouts[i].status.Prepared? ==>
                 found.Some? && found.value <= i
    decreases |payouts| - from
  {
    if from < |payouts| && !(payouts[from].id == id && payouts[from].status.Prepared?) {
      FoundMeaning(payouts, id, from + 1);
    }
  }

  /** What an account looks like once its item has moved from pending to paid, or back to
      mature. */
  ghost function AfterItem(b: Balance, amount: u64, paid: bool): Balance {
    var rest := b.(pending := SaturatingSub(b.pending, amount));
    if paid then rest.(paid := SaturatingAdd(b.paid, amount)) else rest.(mature := SaturatingAdd(b.mature, amount))
  }

  /** Payout `i` left the prepared state, and only its items moved. */
  ghost predicate Closed(p: Pool, q: Pool, i: nat, hashes: seq<Str>, paid: bool)
    requires i < |p.payouts|
  {
    && q == p.(payouts := q.payouts, accounts := q.accounts)
    && q.payouts == p.payouts[i := p.payouts[i].(status := if paid then Submitted else Cancelled, hashes := hashes)]
    && forall a :: BalanceOf(q.accounts, a) ==
                   AfterItem(BalanceOf(p.accounts, a), AmountIn(p.payouts[i].items, a), paid)
  }

  /** A batch is confirmed exactly if it is prepared, transaction hashes are given, each of 64
      hexadecimal digits, and none of them was given before. */
  lemma {:induction false} ConfirmMeaning(p: Pool, id: Str, hashes: seq<Str>)
    ensures var r := ConfirmPayout(p, id, hashes);
            && (r.Ok? <==>
                 && hashes != [] && (forall h :: h in hashes ==> IsHex32(h))
                 && (forall i, h :: 0 <= i < |p.payouts| && h in p.payouts[i].hashes ==> h !in hashes)
                 && exists i :: 0 <= i < |p.payouts| && IsPrepared(p, id, i))
            && (r.Ok? ==>
                 exists i :: 0 <= i < |p.payouts| && IsPrepared(p, id, i) && Closed(p, r.value, i, hashes, true))
  {
    hide MovedAll, IsHex32, FindPrepared;
    FoundMeaning(p.payouts, id, 0);
    var r, found := ConfirmPayout(p, id, hashes), FindPrepared(p.payouts, id, 0);
    if found.Some? { assert IsPrepared(p, id, found.value); }
    if r.Ok? {
      forall a ensures BalanceOf(r.value.accounts, a) ==
                       Moved(BalanceOf(p.accounts, a), Pay, AmountIn(p.payouts[found.value].items, a))
      {
        MovedAllAt(p.accounts, Pay, p.payouts[found.value].items, a);
      }
      assert Closed(p, r.value, found.value, hashes, true);
    }
  }

  /** A batch that is cancelled returns what it held. */
  lemma {:induction false} CancelMeaning(p: Pool, id: Str)
    ensures var r := CancelPayout(p, id);
            r.Ok? ==> exists i :: 0 <= i < |p.payouts| && IsPrepared(p, id, i) &&
                                  Closed(p, r.value, i, p.payouts[i].hashes, false)
  {
    hide MovedAll, FindPrepared, Consistent;
    var r, found := CancelPayout(p, id), FindPrepared(p.payouts, id, 0);
    if r.Ok? {
      assert IsPrepared(p, id, found.value);
      forall a ensures BalanceOf(r.value.accounts, a) ==
                       Moved(BalanceOf(p.accounts, a), Release, AmountIn(p.payouts[found.value].items, a))
      {
        MovedAllAt(p.accounts, Release, p.payouts[found.value].items, a);
      }
      assert Closed(p, r.value, found.value, p.payouts[found.value].hashes, false);
    }
  }

  /** No transaction hash stands for two batches, and only submitted batches have any. */
  ghost predicate HashesUsedOnce(p: Pool) {
    && (forall i, j, h :: 0 <= i < j < |p.payouts| && h in p.payouts[i].hashes ==> h !in p.payouts[j].hashes)
    && forall i :: 0 <= i < |p.payouts| && p.payouts[i].hashes != [] ==> p.payouts[i].status.Submitted?
  }

  lemma {:induction false} StepUsesHashesOnce(p: Pool, e: Event)
    requires HashesUsedOnce(p)
    ensures HashesUsedOnce(Step(p, e))
  {
    hide Split, WorkBy, PaidShares, MovedAll, Settled, IsHex32, Due, Consistent, KnownShare, KnownBlock, FindPrepared;
    if e.ConfirmEvent? {
      var r := ConfirmPayout(p, e.id, e.hashes);
      if r.Ok? {
        ConfirmMeaning(p, e.id, e.hashes);
        var i :| 0 <= i < |p.payouts| && IsPrepared(p, e.id, i) && Closed(p, r.value, i, e.hashes, true);
      }
    }
  }

  /** Over every run, no transaction settles two payouts. */
  lemma {:induction false} HashesStayUsedOnce(events: seq<Event>)
    ensures HashesUsedOnce(Run(events))
    decreases |events|
  {
    hide Step;
    if events != [] {
      HashesStayUsedOnce(DropLast(events));
      StepUsesHashesOnce(Run(DropLast(events)), Last(events));
    }
  }
}
