/** The pool's store as an object edited in place, tied operation by operation to the
    accounting it performs (vireon-mining-pool, store.rs). */
module PoolStores {
  import opened Prelude
  import opened PoolSplits
  import opened PoolFairness
  import opened PoolBooks

  lemma {:induction false} FirstKnown(shares: seq<Share>, hash: Str, i: nat)
    requires i < |shares| && shares[i].hash == hash && KnownShare(shares[..i], hash).None?
    ensures KnownShare(shares, hash) == Some(shares[i])
    decreases |shares|
  {
    if i == |shares| - 1 {
      assert DropLast(shares) == shares[..i];
    } else {
      assert DropLast(shares)[..i] == shares[..i];
      FirstKnown(DropLast(shares), hash, i);
    }
  }

  method FilterAccepted(shares: seq<Share>, after: int, until: u64) returns (r: seq<Share>)
    ensures r == AcceptedBetween(shares, after, until)
  {
    r := [];
    for i := 0 to |shares|
      invariant r == AcceptedBetween(shares[..i], after, until)
    {
      assert DropLast(shares[..i + 1]) == shares[..i];
      if after < shares[i].acceptedAt <= until {
        r := r + [shares[i]];
      }
    }
    assert shares[..|shares|] == shares;
  }

  function Reversed<T>(s: seq<T>): seq<T> { if s == [] then [] else [Last(s)] + Reversed(DropLast(s)) }

  lemma {:induction false} ReversedPermutes<T>(s: seq<T>)
    ensures multiset(Reversed(s)) == multiset(s)
    decreases |s|
  {
    if s != [] {
      ReversedPermutes(DropLast(s));
      assert s == DropLast(s) + [Last(s)];
    }
  }

  /** Walks backwards over the shares, keeping at most `limit` that are old enough. */
  method RecentShares(shares: seq<Share>, until: u64, limit: nat) returns (r: seq<Share>)
    requires limit >= 1
    ensures r == Reversed(LastOf(AcceptedBetween(shares, -1, until), limit))
  {
    hide AcceptedBetween, Reversed;
    r := [];
    var i := |shares|;
    ghost var all := AcceptedBetween(shares, -1, until);
    assert shares[..i] == shares && all[|all|..] == [] && all[..|all|] == all;
    ReversedNothing<Share>();
    while i > 0 && |r| < limit
      invariant 0 <= i <= |shares| && |r| <= limit
      invariant |all| == |AcceptedBetween(shares[..i], -1, until)| + |r|
      invariant AcceptedBetween(shares[..i], -1, until) == all[..|all| - |r|]
      invariant r == Reversed(all[|all| - |r|..])
    {
      i := i - 1;
      AcceptedSnoc(shares, until, i);
      if shares[i].acceptedAt <= until {
        OneMoreReversed(all, |r|, AcceptedBetween(shares[..i], -1, until), shares[i]);
        r := r + [shares[i]];
      }
    }
    NoneAccepted(until);
  }

  lemma {:induction false} ReversedNothing<T>()
    ensures Reversed<T>([]) == []
  {
  }

  lemma {:induction false} NoneAccepted(until: u64)
    ensures AcceptedBetween([], -1, until) == []
  {
  }

  lemma {:induction false} AcceptedSnoc(shares: seq<Share>, until: u64, i: nat)
    requires i < |shares|
    ensures AcceptedBetween(shares[..i + 1], -1, until) ==
            AcceptedBetween(shares[..i], -1, until) + if shares[i].acceptedAt <= until then [shares[i]] else []
  {
    assert DropLast(shares[..i + 1]) == shares[..i];
  }

  /** With `taken` of its elements read from the back, the next one read is the last before them. */
  lemma {:induction false} OneMoreReversed<T>(all: seq<T>, taken: nat, before: seq<T>, x: T)
    requires taken < |all| && all[..|all| - taken] == before + [x]
    ensures all[..|all| - taken - 1] == before
    ensures Reversed(all[|all| - taken - 1..]) == Reversed(all[|all| - taken..]) + [x]
  {
    var rest := all[|all| - taken - 1..];
    assert rest[0] == all[..|all| - taken][|before|] == x;
    assert rest[1..] == all[|all| - taken..];
    assert all[..|all| - taken - 1] == all[..|all| - taken][..|before|];
    ReversedFront(rest);
  }

  lemma {:induction false} ReversedFront<T>(s: seq<T>)
    requires s != []
    ensures Reversed(s) == Reversed(s[1..]) + [s[0]]
    decreases |s|
  {
    if |s| > 1 {
      ReversedFront(DropLast(s));
      assert DropLast(s)[1..] == DropLast(s[1..]);
    } else {
      assert s[1..] == [] && DropLast(s) == [];
    }
  }

  class PoolStore {
    const maxShares: nat
    var nextShareId: u64
    var shares: seq<Share>
    var accounts: map<Str, Balance>
    var blocks: seq<PoolBlock>
    var payouts: seq<Payout>

    function Data(): Pool reads this { Pool(nextShareId, shares, accounts, blocks, payouts) }

    constructor (maxShares: nat)
      ensures this.maxShares == maxShares && Data() == EMPTY_POOL
    {
      this.maxShares := maxShares;
      nextShareId, shares, accounts, blocks, payouts := 0, [], map[], [], [];
    }

    /** A share whose hash is known is answered with the stored one and changes nothing. */
    method AcceptShare(share: Share) returns (stored: Share, duplicate: bool)
      modifies this
      ensures Data() == RecordShare(old(Data()), maxShares, share)
      ensures duplicate <==> KnownShare(old(shares), share.hash).Some?
      ensures duplicate ==> KnownShare(old(shares), share.hash) == Some(stored)
      ensures !duplicate ==> stored == share.(id := SaturatingAdd(old(nextShareId), 1))
    {
      for i := 0 to |shares|
        invariant Data() == old(Data()) && KnownShare(shares[..i], share.hash).None?
      {
        assert DropLast(shares[..i + 1]) == shares[..i];
        if shares[i].hash == share.hash {
          FirstKnown(shares, share.hash, i);
          return shares[i], true;
        }
      }
      assert shares[..|shares|] == shares;
      nextShareId := SaturatingAdd(nextShareId, 1);
      stored, duplicate := share.(id := nextShareId), false;
      shares := shares + [stored];
      if |shares| > maxShares {
        shares := shares[|shares| - maxShares..];
      }
    }

    /** One move for every address in `amounts`, account by account. */
    method MoveAmounts(move: Move, amounts: map<Str, u64>)
      modifies this`accounts
      ensures accounts == MovedAll(old(accounts), move, amounts)
    {
      hide Moved, MovedSome;
      ghost var before := accounts;
      var todo := amounts.Keys;
      MovedNone(before, move, amounts);
      while todo != {}
        invariant todo <= amounts.Keys && accounts == MovedSome(before, move, amounts, amounts.Keys - todo)
        decreases |todo|
      {
        var a :| a in todo;
        MovedOne(before, move, amounts, amounts.Keys - todo, a);
        accounts := accounts[a := Moved(BalanceOf(accounts, a), move, amounts[a])];
        assert amounts.Keys - (todo - {a}) == (amounts.Keys - todo) + {a};
        todo := todo - {a};
      }
      assert amounts.Keys - todo == amounts.Keys;
    }

    method IsKnownBlock(hash: Str) returns (known: bool)
      ensures known == KnownBlock(blocks, hash)
    {
      for i := 0 to |blocks|
        invariant forall k :: 0 <= k < i ==> blocks[k].hash != hash
      {
        if blocks[i].hash == hash {
          return true;
        }
      }
      known := false;
    }

    method LatestBlockTime() returns (latest: u64)
      ensures latest == LatestFound(blocks)
    {
      latest := 0;
      for i := 0 to |blocks|
        invariant latest == LatestFound(blocks[..i])
      {
        assert DropLast(blocks[..i + 1]) == blocks[..i];
        latest := Max(latest, blocks[i].foundAt);
      }
      assert blocks[..|blocks|] == blocks;
    }

    /** The shares to pay, up to their order. */
    method SharesToPay(window: nat, now: u64) returns (round: seq<Share>)
      ensures multiset(round) == multiset(PaidShares(Data(), window, now))
    {
      hide AcceptedBetween;
      var previous := LatestBlockTime();
      round := FilterAccepted(shares, previous, now);
      if round == [] {
        ghost var recent := LastOf(AcceptedBetween(shares, -1, now), Max(window, 1));
        round := RecentShares(shares, now, Max(window, 1));
        ReversedPermutes(recent);
      } else if |round| > window && window > 0 {
        round := round[|round| - window..];
      }
    }

    method AcceptBlock(
      height: u64, hash: Str, reward: u64, basisPoints: nat, window: nat, now: u64) returns (r: Result<()>)
      modifies this
      ensures r.Ok? <==> RecordBlock(old(Data()), height, hash, reward, basisPoints, window, now).Ok?
      ensures r.Ok? ==> Data() == RecordBlock(old(Data()), height, hash, reward, basisPoints, window, now).value
      ensures r.Err? ==> Data() == old(Data())
    {
      hide Split, WorkBy, PaidShares, MovedAll, KnownBlock, Total;
      var known := IsKnownBlock(hash);
      if known {
        return Ok(());
      }
      var fee := PoolFee(reward, basisPoints);
      if fee > U64_MAX {
        return Err(AmountOverflow);
      }
      var distributable := SaturatingSub(reward, fee);
      var round := SharesToPay(window, now);
      ghost var paid := PaidShares(Data(), window, now);
      Sorting.SameElements(round, paid);
      var split := AllocateByShareWork(round, distributable);
      if split.Err? {
        return Err(InvalidInput);
      }
      SplitIgnoresOrder(round, paid, distributable);
      MoveAmounts(Earn, split.value);
      blocks := blocks + [PoolBlock(height, hash, reward, distributable, fee, now, Immature, split.value)];
      r := Ok(());
    }

    /** Applies the collected transitions in block order. */
    method ApplyTransitions(
      transitions: seq<(BlockStatus, PoolBlock)>, ghost before: seq<PoolBlock>,
      ghost decide: PoolBlock -> BlockStatus)
      requires transitions == ChangesOf(before, decide, |before|)
      modifies this`accounts
      ensures accounts == Settled(old(accounts), before, decide, |before|)
    {
      hide MovedAll, TransitionMove;
      ghost var start := accounts;
      for i := 0 to |transitions|
        invariant accounts == AppliedChanges(start, transitions, i)
      {
        var (next, block) := transitions[i];
        match TransitionMove(block.status, next) {
          case None =>
          case Some(move) => MoveAmounts(move, block.allocations);
        }
      }
      ChangesSettle(start, before, decide, |before|);
    }

    method Mature(canonical: map<u64, Str>, tip: u64, confirmations: u64)
      modifies this
      ensures Data() == MatureBlocks(old(Data()), canonical, tip, confirmations)
    {
      hide Settled;
      ghost var before, decide := blocks, ByChain(canonical, tip, confirmations);
      var transitions: seq<(BlockStatus, PoolBlock)> := [];
      assert Restated(before, decide, 0) == before;
      for i := 0 to |blocks|
        invariant blocks == Restated(before, decide, i) && |blocks| == |before|
        invariant transitions == ChangesOf(before, decide, i)
        invariant Data() == old(Data()).(blocks := blocks)
      {
        var b := blocks[i];
        assert b == before[i];
        var next := b.status;
        if b.status.Immature? {
          if b.height in canonical && canonical[b.height] != b.hash {
            next := Orphaned;
          } else if tip >= SaturatingAdd(b.height, confirmations) && b.height in canonical {
            next := BlockStatus.Mature;
          }
        } else if b.status.Mature? {
          var diverged := if b.height in canonical then canonical[b.height] != b.hash else b.height > tip;
          if diverged {
            next := Orphaned;
          }
        }
        assert next == decide(b);
        if next != b.status {
          transitions := transitions + [(next, b)];
        }
        RestatedStep(before, decide, i);
        blocks := blocks[i := b.(status := next)];
      }
      ApplyTransitions(transitions, before, decide);
    }

    method Void(tip: u64) returns (voided: nat)
      modifies this
      ensures Data() == VoidImmatureAboveTip(old(Data()), tip)
      ensures voided == |ChangesOf(old(blocks), ByTip(tip), |old(blocks)|)|
    {
      hide Settled;
      ghost var before, decide := blocks, ByTip(tip);
      var transitions: seq<(BlockStatus, PoolBlock)> := [];
      voided := 0;
      assert Restated(before, decide, 0) == before;
      for i := 0 to |blocks|
        invariant blocks == Restated(before, decide, i) && |blocks| == |before|
        invariant transitions == ChangesOf(before, decide, i) && voided == |transitions|
        invariant Data() == old(Data()).(blocks := blocks)
      {
        var b := blocks[i];
        assert b == before[i];
        RestatedStep(before, decide, i);
        if b.status.Immature? && b.height > tip {
          transitions := transitions + [(Orphaned, b)];
          blocks := blocks[i := b.(status := Orphaned)];
          voided := voided + 1;
        } else {
          assert blocks[i := b.(status := b.status)] == blocks;
        }
      }
      ApplyTransitions(transitions, before, decide);
    }

    method Prepare(minimum: u64, now: u64, id: Str) returns (r: Result<Payout>)
      modifies this
      ensures r.Ok? <==> PreparePayout(old(Data()), minimum, now, id).Ok?
      ensures r.Ok? ==> Data() == PreparePayout(old(Data()), minimum, now, id).value && r.value == Last(payouts)
      ensures r.Err? ==> Data() == old(Data())
    {
      hide MovedAll;
      var items := Due(accounts, minimum);
      if items == map[] {
        return Err(InvalidInput);
      }
      MoveAmounts(Hold, items);
      var batch := Payout(id, now, Prepared, items, []);
      payouts := payouts + [batch];
      r := Ok(batch);
    }

    method Locate(id: Str) returns (found: Option<nat>)
      ensures found == FindPrepared(payouts, id, 0)
    {
      for i := 0 to |payouts|
        invariant FindPrepared(payouts, id, 0) == FindPrepared(payouts, id, i)
      {
        if payouts[i].id == id && payouts[i].status.Prepared? {
          return Some(i);
        }
      }
      found := None;
    }

    method Confirm(id: Str, hashes: seq<Str>) returns (r: Result<Payout>)
      modifies this
      ensures r.Ok? <==> ConfirmPayout(old(Data()), id, hashes).Ok?
      ensures r.Ok? ==> Data() == ConfirmPayout(old(Data()), id, hashes).value
      ensures r.Err? ==> Data() == old(Data())
    {
      hide MovedAll, HashRecorded, IsHex32, FindPrepared;
      if hashes == [] || exists h :: h in hashes && !IsHex32(h) {
        return Err(InvalidInput);
      }
      var recorded := IsRecorded(hashes);
      if recorded {
        return Err(InvalidInput);
      }
      var found := Locate(id);
      if found.None? {
        return Err(InvalidInput);
      }
      var i := found.value;
      MoveAmounts(Pay, payouts[i].items);
      payouts := payouts[i := payouts[i].(status := Submitted, hashes := hashes)];
      r := Ok(payouts[i]);
    }

    method IsRecorded(hashes: seq<Str>) returns (recorded: bool)
      ensures recorded == HashRecorded(payouts, hashes)
    {
      for i := 0 to |payouts|
        invariant forall k, h :: 0 <= k < i && h in payouts[k].hashes ==> h !in hashes
      {
        if exists h :: h in payouts[i].hashes && h in hashes {
          return true;
        }
      }
      recorded := false;
    }

    /** An item that its account no longer covers stops the cancellation half-way; with the
        books in order that cannot happen. */
    method Cancel(id: Str) returns (r: Result<Payout>)
      modifies this
      ensures r.Ok? <==> CancelPayout(old(Data()), id).Ok?
      ensures r.Ok? ==> Data() == CancelPayout(old(Data()), id).value
      ensures r.Err? ==> Data() == old(Data()).(accounts := accounts)
      ensures FindPrepared(old(payouts), id, 0).None? ==> Data() == old(Data())
      ensures r.Err? && FindPrepared(old(payouts), id, 0).Some? ==>
              ReleasedInPart(old(accounts), accounts, old(payouts[FindPrepared(payouts, id, 0).value].items))
    {
      hide FindPrepared, Moved, MovedSome;
      var found := Locate(id);
      if found.None? {
        return Err(InvalidInput);
      }
      var i := found.value;
      var items := payouts[i].items;
      ghost var before := accounts;
      var todo := items.Keys;
      MovedNone(before, Release, items);
      while todo != {}
        invariant Data() == old(Data()).(accounts := accounts) && todo <= items.Keys
        invariant accounts == MovedSome(before, Release, items, items.Keys - todo)
        invariant forall a :: a in items && a !in todo ==> items[a] <= BalanceOf(before, a).pending
        decreases |todo|
      {
        var a :| a in todo;
        MovedOne(before, Release, items, items.Keys - todo, a);
        if BalanceOf(accounts, a).pending < items[a] {
          assert ReleasedBut(before, accounts, items, items.Keys - todo, a);
          return Err(StorageConflict);
        }
        accounts := accounts[a := Moved(BalanceOf(accounts, a), Release, items[a])];
        assert items.Keys - (todo - {a}) == (items.Keys - todo) + {a};
        todo := todo - {a};
      }
      assert items.Keys - todo == items.Keys;
      payouts := payouts[i := payouts[i].(status := Cancelled)];
      r := Ok(payouts[i]);
    }
  }

  /** The items of `keys` were released, all of them covered; the one of `a` was not covered. */
  ghost predicate ReleasedBut(
    before: map<Str, Balance>, after: map<Str, Balance>, items: map<Str, u64>, keys: set<Str>, a: Str)
  {
    && keys <= items.Keys && a in items.Keys - keys
    && after == MovedSome(before, Release, items, keys)
    && (forall k :: k in keys ==> items[k] <= BalanceOf(before, k).pending)
    && items[a] > BalanceOf(before, a).pending
  }

  ghost predicate ReleasedInPart(before: map<Str, Balance>, after: map<Str, Balance>, items: map<Str, u64>) {
    exists keys, a :: ReleasedBut(before, after, items, keys, a)
  }

  lemma {:induction false} MovedNone(accounts: map<Str, Balance>, move: Move, amounts: map<Str, u64>)
    ensures amounts.Keys - amounts.Keys == {}
    ensures MovedSome(accounts, move, amounts, {}) == accounts
  {
    hide Moved;
  }

  // ----- transitions collected first, applied afterwards

  ghost function ChangesOf(
    blocks: seq<PoolBlock>, decide: PoolBlock -> BlockStatus, n: nat): seq<(BlockStatus, PoolBlock)>
    requires n <= |blocks|
  {
    if n == 0 then [] else
      var b := blocks[n - 1];
      ChangesOf(blocks, decide, n - 1) + if decide(b) != b.status then [(decide(b), b)] else []
  }

  ghost function AppliedChanges(
    accounts: map<Str, Balance>, changes: seq<(BlockStatus, PoolBlock)>, n: nat): map<Str, Balance>
    requires n <= |changes|
  {
    if n == 0 then accounts else Transition(AppliedChanges(accounts, changes, n - 1), changes[n - 1].1,
        changes[n - 1].0)
  }

  lemma {:induction false} AppliedPrefix(
    accounts: map<Str, Balance>, x: seq<(BlockStatus, PoolBlock)>, y: seq<(BlockStatus, PoolBlock)>, n: nat)
    requires n <= |x| && x <= y
    ensures AppliedChanges(accounts, x, n) == AppliedChanges(accounts, y, n)
    decreases n
  {
    hide Transition;
    if n > 0 {
      AppliedPrefix(accounts, x, y, n - 1);
    }
  }

  lemma {:induction false} ChangesSettle(
    accounts: map<Str, Balance>, blocks: seq<PoolBlock>, decide: PoolBlock -> BlockStatus, n: nat)
    requires n <= |blocks|
    ensures AppliedChanges(accounts, ChangesOf(blocks, decide, n), |ChangesOf(blocks, decide, n)|) ==
            Settled(accounts, blocks, decide, n)
    decreases n
  {
    hide MovedAll;
    if n > 0 {
      ChangesSettle(accounts, blocks, decide, n - 1);
      var before, after := ChangesOf(blocks, decide, n - 1), ChangesOf(blocks, decide, n);
      AppliedPrefix(accounts, before, after, |before|);
    }
  }

  lemma {:induction false} RestatedStep(blocks: seq<PoolBlock>, decide: PoolBlock -> BlockStatus, i: nat)
    requires i < |blocks|
    ensures Restated(blocks, decide, i + 1) == Restated(blocks, decide, i)[i := blocks[i].(status := decide(blocks[i]))]
  {
  }
}
