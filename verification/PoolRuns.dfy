/** Over every run of pool operations the four columns of every account are exactly what
    the recorded blocks and payouts say (vireon-mining-pool, store.rs). */
module PoolRuns {
  import opened Prelude
  import opened PoolSplits
  import opened PoolFairness
  import opened PoolBooks

  // ----- one block changes status

  ghost predicate Lawful(before: BlockStatus, after: BlockStatus) {
    after == before || TransitionMove(before, after).Some?
  }

  lemma {:induction false} DecisionsAreLawful(canonical: map<u64, Str>, tip: u64, confirmations: u64, b: PoolBlock)
    ensures Lawful(b.status, ByChain(canonical, tip, confirmations)(b))
    ensures Lawful(b.status, ByTip(tip)(b))
  {
  }

  lemma {:induction false} StatusSums(blocks: seq<PoolBlock>, i: nat, after: BlockStatus, a: Str)
    requires i < |blocks|
    ensures forall st :: StatusSum(blocks, i, after, a, st)
  {
    hide SumOf;
    forall st ensures StatusSum(blocks, i, after, a, st) {
      SumOfUpdate(blocks, i, blocks[i].(status := after), AllocatedIn(st, a));
    }
  }

  /** The sum of one status before and after block `i` changes to `after`. */
  ghost predicate StatusSum(blocks: seq<PoolBlock>, i: nat, after: BlockStatus, a: Str, st: BlockStatus)
    requires i < |blocks|
  {
    var x, changed := AmountIn(blocks[i].allocations, a), blocks[i := blocks[i].(status := after)];
    var leaves, enters := if blocks[i].status == st then x else 0, if after == st then x else 0;
    && leaves <= SumOf(blocks, AllocatedIn(st, a))
    && SumOf(changed, AllocatedIn(st, a)) == SumOf(blocks, AllocatedIn(st, a)) - leaves + enters
  }

  ghost function TransitionShort(accounts: map<Str, Balance>, b: PoolBlock, after: BlockStatus, a: Str): nat {
    match TransitionMove(b.status, after)
    case None => 0
    case Some(move) => Unclawed(BalanceOf(accounts, a), move, AmountIn(b.allocations, a))
  }

  ghost predicate TransitionExact(accounts: map<Str, Balance>, b: PoolBlock, after: BlockStatus, a: Str) {
    match TransitionMove(b.status, after)
    case None => true
    case Some(move) => Exact(BalanceOf(accounts, a), move, AmountIn(b.allocations, a))
  }

  function Changed(p: Pool, i: nat, after: BlockStatus): Pool
    requires i < |p.blocks|
  {
    p.(blocks := p.blocks[i := p.blocks[i].(status := after)], accounts := Transition(p.accounts, p.blocks[i], after))
  }

  lemma {:induction false} TransitionKeepsBooks(p: Pool, i: nat, after: BlockStatus, a: Str, short: nat)
    requires i < |p.blocks| && Lawful(p.blocks[i].status, after) && Funded(p) && BooksFor(p, a, short)
    ensures TransitionExact(p.accounts, p.blocks[i], after, a)
    ensures BooksFor(Changed(p, i, after), a, short + TransitionShort(p.accounts, p.blocks[i], after, a))
  {
    hide SumOf, Total, MovedAll;
    PromisedWithin(p.blocks, a);
    StatusSums(p.blocks, i, after, a);
    assert StatusSum(p.blocks, i, after, a, Immature);
    assert StatusSum(p.blocks, i, after, a, Mature);
    assert StatusSum(p.blocks, i, after, a, Orphaned);
    var b, x := BalanceOf(p.accounts, a), AmountIn(p.blocks[i].allocations, a);
    var move := TransitionMove(p.blocks[i].status, after);
    if move.Some? {
      MovedAllAt(p.accounts, move.value, p.blocks[i].allocations, a);
    } else {
      assert p.blocks[i := p.blocks[i].(status := after)] == p.blocks;
    }
  }

  lemma {:induction false} ChangedIsFunded(p: Pool, i: nat, after: BlockStatus)
    requires i < |p.blocks| && Funded(p)
    ensures Funded(Changed(p, i, after))
  {
    hide SumOf, Total, Transition;
    SumOfUpdate(p.blocks, i, p.blocks[i].(status := after), SharedOut());
  }

  // ----- a whole settlement

  ghost function SettleShort(p: Pool, decide: PoolBlock -> BlockStatus, n: nat, a: Str): nat
    requires n <= |p.blocks|
  {
    if n == 0 then 0 else
      SettleShort(p, decide, n - 1, a)
      + TransitionShort(Settle(p, decide, n - 1).accounts, p.blocks[n - 1], decide(p.blocks[n - 1]), a)
  }

  lemma {:induction false} SettleStep(p: Pool, decide: PoolBlock -> BlockStatus, n: nat)
    requires 0 < n <= |p.blocks|
    ensures |Settle(p, decide, n - 1).blocks| == |p.blocks| && Settle(p, decide, n - 1).blocks[n - 1] == p.blocks[n - 1]
    ensures Settle(p, decide, n) == Changed(Settle(p, decide, n - 1), n - 1, decide(p.blocks[n - 1]))
  {
    hide Transition;
    var before := Settle(p, decide, n - 1);
    assert Settle(p, decide, n).blocks == before.blocks[n - 1 := p.blocks[n - 1].(status := decide(p.blocks[n - 1]))];
  }

  lemma {:induction false} SettleKeepsBooks(p: Pool, decide: PoolBlock -> BlockStatus, n: nat, a: Str, short: nat)
    requires n <= |p.blocks| && (forall b: PoolBlock :: Lawful(b.status, decide(b))) && Funded(p)
    requires BooksFor(p, a, short)
    ensures Funded(Settle(p, decide, n))
    ensures BooksFor(Settle(p, decide, n), a, short + SettleShort(p, decide, n, a))
    ensures n > 0 ==> TransitionExact(Settle(p, decide, n - 1).accounts, p.blocks[n - 1], decide(p.blocks[n - 1]), a)
    decreases n
  {
    hide Settle, BooksFor, Funded, Changed, TransitionExact, TransitionShort;
    if n == 0 {
      SettleNothing(p, decide);
    } else {
      SettleKeepsBooks(p, decide, n - 1, a, short);
      SettleStep(p, decide, n);
      var before, after := Settle(p, decide, n - 1), decide(p.blocks[n - 1]);
      assert Lawful(p.blocks[n - 1].status, after);
      TransitionKeepsBooks(before, n - 1, after, a, short + SettleShort(p, decide, n - 1, a));
      ChangedIsFunded(before, n - 1, after);
    }
  }

  lemma {:induction false} SettleNothing(p: Pool, decide: PoolBlock -> BlockStatus)
    ensures Settle(p, decide, 0) == p
  {
    assert Restated(p.blocks, decide, 0) == p.blocks;
  }

  // ----- which status a block gets

  /** Nothing but statuses and accounts may differ between the pools. */
  ghost predicate OnlyStatuses(p: Pool, q: Pool) {
    && q == p.(blocks := q.blocks, accounts := q.accounts) && |q.blocks| == |p.blocks|
    && forall i :: 0 <= i < |p.blocks| ==> q.blocks[i] == p.blocks[i].(status := q.blocks[i].status)
  }

  /** A block ripens exactly if it was immature, is the one at its height on the chain, and
      has the confirmations. It is orphaned exactly if another block is at its height, or if
      it was mature and the chain has become too short for it; an orphan stays one. Any other
      block keeps its status. */
  lemma {:induction false} MaturityMeaning(p: Pool, canonical: map<u64, Str>, tip: u64, confirmations: u64)
    ensures var q := MatureBlocks(p, canonical, tip, confirmations);
            && OnlyStatuses(p, q)
            && forall i :: 0 <= i < |p.blocks| ==>
                 var b, after := p.blocks[i], q.blocks[i].status;
                 var onChain := b.height in canonical && canonical[b.height] == b.hash;
                 var replaced := b.height in canonical && canonical[b.height] != b.hash;
                 var confirmed := tip >= SaturatingAdd(b.height, confirmations);
                 && (after.Mature? <==>
                      (b.status.Immature? && onChain && confirmed) ||
                      (b.status.Mature? && (onChain || (b.height !in canonical && b.height <= tip))))
                 && (after.Orphaned? <==>
                      b.status.Orphaned? || replaced ||
                      (b.status.Mature? && b.height !in canonical && b.height > tip))
                 && (after.Immature? <==> b.status.Immature? && !replaced && !(onChain && confirmed))
  {
    hide Settled;
  }

  /** After a pass no block that the chain contradicts counts for anyone. */
  lemma {:induction false} NoPayForReplacedBlocks(
    p: Pool, canonical: map<u64, Str>, tip: u64, confirmations: u64, i: nat)
    requires i < |p.blocks|
    ensures var q := MatureBlocks(p, canonical, tip, confirmations);
            && |q.blocks| == |p.blocks|
            && (q.blocks[i].height in canonical && canonical[q.blocks[i].height] != q.blocks[i].hash ==>
                 q.blocks[i].status.Orphaned?)
            && (q.blocks[i].status.Mature? ==> q.blocks[i].height in canonical || q.blocks[i].height <= tip)
  {
    hide MatureBlocks;
    MaturityMeaning(p, canonical, tip, confirmations);
  }

  /** Voiding orphans exactly the immature blocks above the tip. */
  lemma {:induction false} VoidingMeaning(p: Pool, tip: u64)
    ensures var q := VoidImmatureAboveTip(p, tip);
            && OnlyStatuses(p, q)
            && forall i :: 0 <= i < |p.blocks| ==>
                 q.blocks[i].status ==
                 if p.blocks[i].status.Immature? && p.blocks[i].height > tip then Orphaned else p.blocks[i].status
  {
    hide Settled;
  }

  // ----- recording a block

  ghost predicate Recorded(p: Pool, q: Pool, b: PoolBlock) {
    && q == p.(accounts := MovedAll(p.accounts, Earn, b.allocations), blocks := p.blocks + [b])
    && b.status.Immature?
    && SumOf(q.blocks, SharedOut()) <= U64_MAX
  }

  lemma {:induction false} RecordKeepsBooks(p: Pool, q: Pool, b: PoolBlock, a: Str, short: nat)
    requires Funded(p) && BooksFor(p, a, short) && Recorded(p, q, b)
    ensures Funded(q) && BooksFor(q, a, short)
    ensures Exact(BalanceOf(p.accounts, a), Earn, AmountIn(b.allocations, a))
  {
    hide SumOf, Total, MovedAll;
    MovedAllAt(p.accounts, Earn, b.allocations, a);
    SumOfSnoc(p.blocks, b, SharedOut());
    SumOfSnoc(p.blocks, b, AllocatedIn(Immature, a));
    SumOfSnoc(p.blocks, b, AllocatedIn(Mature, a));
    SumOfSnoc(p.blocks, b, AllocatedIn(Orphaned, a));
    PromisedWithin(q.blocks, a);
  }

  // ----- payouts

  lemma {:induction false} PrepareKeepsBooks(p: Pool, minimum: u64, now: u64, id: Str, a: Str, short: nat)
    requires Funded(p) && BooksFor(p, a, short) && PreparePayout(p, minimum, now, id).Ok?
    ensures BooksFor(PreparePayout(p, minimum, now, id).value, a, short)
    ensures Exact(BalanceOf(p.accounts, a), Hold, AmountIn(Due(p.accounts, minimum), a))
  {
    hide SumOf, Total, MovedAll;
    var items := Due(p.accounts, minimum);
    var payout := Payout(id, now, Prepared, items, []);
    PromisedWithin(p.blocks, a);
    MovedAllAt(p.accounts, Hold, items, a);
    SumOfSnoc(p.payouts, payout, ItemIn(Prepared, a));
    SumOfSnoc(p.payouts, payout, ItemIn(Submitted, a));
  }

  lemma {:induction false} PayoutSums(payouts: seq<Payout>, i: nat, after: Payout, a: Str)
    requires i < |payouts| && payouts[i].status.Prepared? && after.items == payouts[i].items && !after.status.Prepared?
    ensures var x := AmountIn(after.items, a);
            && x <= SumOf(payouts, ItemIn(Prepared, a))
            && SumOf(payouts[i := after], ItemIn(Prepared, a)) == SumOf(payouts, ItemIn(Prepared, a)) - x
            && SumOf(payouts[i := after], ItemIn(Submitted, a)) ==
                SumOf(payouts, ItemIn(Submitted, a)) + if after.status.Submitted? then x else 0
  {
    hide SumOf;
    SumOfUpdate(payouts, i, after, ItemIn(Prepared, a));
    SumOfUpdate(payouts, i, after, ItemIn(Submitted, a));
  }

  lemma {:induction false} ConfirmKeepsBooks(p: Pool, id: Str, hashes: seq<Str>, a: Str, short: nat)
    requires Funded(p) && BooksFor(p, a, short) && ConfirmPayout(p, id, hashes).Ok?
    ensures BooksFor(ConfirmPayout(p, id, hashes).value, a, short)
    ensures Exact(BalanceOf(p.accounts, a), Pay, AmountIn(p.payouts[FindPrepared(p.payouts, id, 0).value].items, a))
  {
    hide SumOf, Total, MovedAll, FindPrepared, HashRecorded, IsHex32;
    var i := FindPrepared(p.payouts, id, 0).value;
    var payout := p.payouts[i];
    PromisedWithin(p.blocks, a);
    MovedAllAt(p.accounts, Pay, payout.items, a);
    PayoutSums(p.payouts, i, payout.(status := Submitted, hashes := hashes), a);
  }

  /** The books rule out the inconsistency that cancelling checks for. */
  lemma {:induction false} CancelIsConsistent(p: Pool, short: Str -> nat, id: Str)
    requires Books(p, short)
    ensures FindPrepared(p.payouts, id, 0).Some? ==>
            Consistent(p, p.payouts[FindPrepared(p.payouts, id, 0).value].items)
    ensures CancelPayout(p, id).Err? <==> FindPrepared(p.payouts, id, 0).None?
  {
    hide SumOf, Total, FindPrepared, Funded;
    var found := FindPrepared(p.payouts, id, 0);
    if found.Some? {
      var payout := p.payouts[found.value];
      forall a | a in payout.items ensures payout.items[a] <= BalanceOf(p.accounts, a).pending {
        assert BooksFor(p, a, short(a));
        PayoutSums(p.payouts, found.value, payout.(status := Cancelled), a);
      }
    }
  }

  lemma {:induction false} CancelKeepsBooks(p: Pool, id: Str, a: Str, short: nat)
    requires Funded(p) && BooksFor(p, a, short) && CancelPayout(p, id).Ok?
    ensures BooksFor(CancelPayout(p, id).value, a, short)
    ensures Exact(BalanceOf(p.accounts, a), Release, AmountIn(p.payouts[FindPrepared(p.payouts, id, 0).value].items, a))
  {
    hide SumOf, Total, MovedAll, FindPrepared, Consistent;
    var i := FindPrepared(p.payouts, id, 0).value;
    var payout := p.payouts[i];
    PromisedWithin(p.blocks, a);
    MovedAllAt(p.accounts, Release, payout.items, a);
    PayoutSums(p.payouts, i, payout.(status := Cancelled), a);
  }

  // ----- runs

  datatype Event =
    | ShareEvent(maxShares: nat, share: Share)
    | BlockEvent(height: u64, hash: Str, reward: u64, basisPoints: nat, window: nat, now: u64)
    | MatureEvent(canonical: map<u64, Str>, tip: u64, confirmations: u64)
    | VoidEvent(tip: u64)
    | PrepareEvent(minimum: u64, now: u64, id: Str)
    | ConfirmEvent(id: Str, hashes: seq<Str>)
    | CancelEvent(id: Str)

  /** A refused operation changes nothing. */
  function OrUnchanged(p: Pool, r: Result<Pool>): Pool { if r.Ok? then r.value else p }

  ghost function Step(p: Pool, e: Event): Pool {
    match e
    case ShareEvent(maxShares, share) => RecordShare(p, maxShares, share)
    case BlockEvent(height, hash, reward, basisPoints, window, now) =>
      OrUnchanged(p, RecordBlock(p, height, hash, reward, basisPoints, window, now))
    case MatureEvent(canonical, tip, confirmations) => MatureBlocks(p, canonical, tip, confirmations)
    case VoidEvent(tip) => VoidImmatureAboveTip(p, tip)
    case PrepareEvent(minimum, now, id) => OrUnchanged(p, PreparePayout(p, minimum, now, id))
    case ConfirmEvent(id, hashes) => OrUnchanged(p, ConfirmPayout(p, id, hashes))
    case CancelEvent(id) => OrUnchanged(p, CancelPayout(p, id))
  }

  /** What the event adds to the unclawed shortfall of an address. */
  ghost function StepShort(p: Pool, e: Event, a: Str): nat {
    match e
    case MatureEvent(canonical, tip, confirmations) =>
      SettleShort(p, ByChain(canonical, tip, confirmations), |p.blocks|, a)
    case _ => 0
  }

  /** What the blocks have allocated still fits in 64 bits after the event; only a block that
      is really recorded adds to it. */
  ghost predicate Affordable(p: Pool, e: Event) {
    e.BlockEvent? ==> SumOf(Step(p, e).blocks, SharedOut()) <= U64_MAX
  }

  /** A block event records a block, or leaves the pool as it was. */
  lemma {:induction false} BlockEventOutcome(p: Pool, e: Event)
    requires e.BlockEvent?
    ensures var q := Step(p, e);
            q != p ==>
              && q.blocks != [] && Last(q.blocks).status.Immature?
              && q == p.(accounts := MovedAll(p.accounts, Earn, Last(q.blocks).allocations),
                         blocks := p.blocks + [Last(q.blocks)])
  {
    hide Split, WorkBy, PaidShares, MovedAll, KnownBlock, Total;
  }

  lemma {:induction false} BlockEventKeeps(p: Pool, e: Event, a: Str, short: nat)
    requires e.BlockEvent? && Affordable(p, e) && Funded(p) && BooksFor(p, a, short)
    ensures Funded(Step(p, e)) && BooksFor(Step(p, e), a, short)
    ensures Exact(BalanceOf(p.accounts, a), Earn, AmountIn(NewAllocations(p, e), a))
  {
    hide SumOf, Total, MovedAll, BooksFor, Step, Exact;
    BlockEventOutcome(p, e);
    if Step(p, e) != p {
      RecordKeepsBooks(p, Step(p, e), Last(Step(p, e).blocks), a, short);
    } else {
      NothingEarned(BalanceOf(p.accounts, a));
    }
  }

  lemma {:induction false} NothingEarned(b: Balance)
    ensures Exact(b, Earn, 0)
  {
  }

  /** The allocations a block event adds to the immature column. */
  ghost function NewAllocations(p: Pool, e: Event): map<Str, u64>
    requires e.BlockEvent?
  {
    var q := Step(p, e);
    if |q.blocks| > |p.blocks| then Last(q.blocks).allocations else map[]
  }

  /** It is enough that the distributable rewards fit, as long as the total work of each
      round does not stick at its maximum. */
  lemma {:induction false} RewardsFit(p: Pool, e: Event)
    requires e.BlockEvent? && Funded(p)
    requires Total(WorkBy(PaidShares(p, e.window, e.now))) <= U128_MAX
    requires var fee := Min(PoolFee(e.reward, e.basisPoints), U64_MAX);
             SumOf(p.blocks, SharedOut()) + SaturatingSub(e.reward, fee) <= U64_MAX
    ensures Affordable(p, e)
  {
    hide SumOf, Total, Split, WorkBy, PaidShares, MovedAll, KnownBlock;
    var r := RecordBlock(p, e.height, e.hash, e.reward, e.basisPoints, e.window, e.now);
    if r.Ok? && !KnownBlock(p.blocks, e.hash) {
      var shares, d := PaidShares(p, e.window, e.now), SaturatingSub(e.reward, PoolFee(e.reward, e.basisPoints));
      WorkIsPositive(shares);
      SplitIsComplete(WorkBy(shares), d);
      SumOfSnoc(p.blocks, Last(r.value.blocks), SharedOut());
    }
  }

  lemma {:induction false} LawfulChain(canonical: map<u64, Str>, tip: u64, confirmations: u64)
    ensures forall b: PoolBlock :: Lawful(b.status, ByChain(canonical, tip, confirmations)(b))
    ensures forall b: PoolBlock :: Lawful(b.status, ByTip(tip)(b))
  {
    forall b: PoolBlock ensures Lawful(b.status, ByChain(canonical, tip, confirmations)(b)) &&
        Lawful(b.status, ByTip(tip)(b)) {
      DecisionsAreLawful(canonical, tip, confirmations, b);
    }
  }

  lemma {:induction false} VoidingIsNeverShort(p: Pool, tip: u64, n: nat, a: Str)
    requires n <= |p.blocks|
    ensures SettleShort(p, ByTip(tip), n, a) == 0
    decreases n
  {
    hide Settle;
    if n > 0 {
      VoidingIsNeverShort(p, tip, n - 1, a);
    }
  }

  lemma {:induction false} PayoutEventKeeps(p: Pool, e: Event, a: Str, short: nat)
    requires e.PrepareEvent? || e.ConfirmEvent? || e.CancelEvent?
    requires Funded(p) && BooksFor(p, a, short)
    ensures Funded(Step(p, e)) && BooksFor(Step(p, e), a, short)
  {
    hide SumOf, Total, MovedAll, FindPrepared, BooksFor, HashRecorded, IsHex32, Consistent, Due;
    match e
    case PrepareEvent(minimum, now, id) =>
      if PreparePayout(p, minimum, now, id).Ok? {
        PrepareKeepsBooks(p, minimum, now, id, a, short);
      }
    case ConfirmEvent(id, hashes) =>
      if ConfirmPayout(p, id, hashes).Ok? {
        ConfirmKeepsBooks(p, id, hashes, a, short);
      }
    case CancelEvent(id) =>
      if CancelPayout(p, id).Ok? {
        CancelKeepsBooks(p, id, a, short);
      }
  }

  lemma {:induction false} ShareKeepsBooks(p: Pool, maxShares: nat, share: Share, a: Str, short: nat)
    requires Funded(p) && BooksFor(p, a, short)
    ensures Funded(RecordShare(p, maxShares, share)) && BooksFor(RecordShare(p, maxShares, share), a, short)
  {
    hide SumOf, Total, KnownShare;
  }

  lemma {:induction false} StepKeepsBooks(p: Pool, e: Event, a: Str, short: nat)
    requires Affordable(p, e) && Funded(p) && BooksFor(p, a, short)
    ensures Funded(Step(p, e)) && BooksFor(Step(p, e), a, short + StepShort(p, e, a))
  {
    hide Affordable, Settle, SettleShort, RecordBlock, PreparePayout, ConfirmPayout, CancelPayout, BooksFor, Funded,
         RecordShare, Lawful, OrUnchanged;
    match e
    case ShareEvent(maxShares, share) => ShareKeepsBooks(p, maxShares, share, a, short);
    case BlockEvent(_, _, _, _, _, _) => BlockEventKeeps(p, e, a, short);
    case MatureEvent(canonical, tip, confirmations) =>
      LawfulChain(canonical, tip, confirmations);
      SettleKeepsBooks(p, ByChain(canonical, tip, confirmations), |p.blocks|, a, short);
    case VoidEvent(tip) =>
      LawfulChain(map[], tip, 0);
      SettleKeepsBooks(p, ByTip(tip), |p.blocks|, a, short);
      VoidingIsNeverShort(p, tip, |p.blocks|, a);
    case _ => PayoutEventKeeps(p, e, a, short);
  }

  ghost function Run(events: seq<Event>): Pool {
    if events == [] then EMPTY_POOL else Step(Run(DropLast(events)), Last(events))
  }

  ghost function RunShort(events: seq<Event>, a: Str): nat {
    if events == [] then 0 else RunShort(DropLast(events), a) + StepShort(Run(DropLast(events)), Last(events), a)
  }

  ghost predicate AffordableRun(events: seq<Event>) {
    events == [] || (AffordableRun(DropLast(events)) && Affordable(Run(DropLast(events)), Last(events)))
  }

  /** Over every run, every account: immature is what immature blocks allocated, pending what
      prepared payouts hold, paid what submitted ones took, and the three settled columns
      together are what mature blocks allocated plus what clawbacks could not recover. */
  lemma {:induction false} BooksBalance(events: seq<Event>, a: Str)
    requires AffordableRun(events)
    ensures Funded(Run(events)) && BooksFor(Run(events), a, RunShort(events, a))
    decreases |events|
  {
    hide Step, StepShort, Affordable;
    if events != [] {
      BooksBalance(DropLast(events), a);
      hide BooksFor, Funded;
      StepKeepsBooks(Run(DropLast(events)), Last(events), a, RunShort(DropLast(events), a));
    }
  }

  /** So cancelling a prepared payout never finds it inconsistent. */
  lemma {:induction false} CancelNeverInconsistent(events: seq<Event>, id: Str)
    requires AffordableRun(events)
    ensures CancelPayout(Run(events), id).Err? <==> FindPrepared(Run(events).payouts, id, 0).None?
  {
    hide BooksFor, Funded, Run, AffordableRun, FindPrepared, CancelPayout;
    var short := (a: Str) => RunShort(events, a);
    forall a ensures Funded(Run(events)) && BooksFor(Run(events), a, short(a)) {
      BooksBalance(events, a);
    }
    BooksBalance(events, []);
    CancelIsConsistent(Run(events), short, id);
  }

  // ----- saturating arithmetic

  /** None of the saturating operations that the event performs on the four columns of
      address `a` sticks. */
  ghost predicate StepExact(p: Pool, e: Event, a: Str) {
    match e
    case ShareEvent(_, _) => true
    case BlockEvent(_, _, _, _, _, _) => Exact(BalanceOf(p.accounts, a), Earn, AmountIn(NewAllocations(p, e), a))
    case MatureEvent(canonical, tip, confirmations) => SettleExact(p, ByChain(canonical, tip, confirmations), a)
    case VoidEvent(tip) => SettleExact(p, ByTip(tip), a)
    case PrepareEvent(minimum, _, _) => Exact(BalanceOf(p.accounts, a), Hold, AmountIn(Due(p.accounts, minimum), a))
    case ConfirmEvent(id, hashes) => ConfirmPayout(p, id, hashes).Ok? ==>
        Exact(BalanceOf(p.accounts, a), Pay, AmountIn(p.payouts[FindPrepared(p.payouts, id, 0).value].items, a))
    case CancelEvent(id) => CancelPayout(p, id).Ok? ==>
        Exact(BalanceOf(p.accounts, a), Release, AmountIn(p.payouts[FindPrepared(p.payouts, id, 0).value].items, a))
  }

  ghost predicate SettleExact(p: Pool, decide: PoolBlock -> BlockStatus, a: Str) {
    forall i {:trigger p.blocks[i]} :: 0 <= i < |p.blocks| ==>
        TransitionExact(Settle(p, decide, i).accounts, p.blocks[i], decide(p.blocks[i]), a)
  }

  lemma {:induction false} SettlementIsExact(p: Pool, decide: PoolBlock -> BlockStatus, a: Str, short: nat)
    requires (forall b: PoolBlock :: Lawful(b.status, decide(b))) && Funded(p) && BooksFor(p, a, short)
    ensures SettleExact(p, decide, a)
  {
    hide Settle, BooksFor, Funded, TransitionExact, Lawful, SettleShort;
    forall i {:trigger p.blocks[i]} | 0 <= i < |p.blocks| ensures TransitionExact(Settle(p, decide, i).accounts,
        p.blocks[i], decide(p.blocks[i]), a) {
      SettleKeepsBooks(p, decide, i + 1, a, short);
    }
  }

  lemma {:induction false} HoldingIsExact(p: Pool, minimum: u64, a: Str, short: nat)
    requires Funded(p) && BooksFor(p, a, short)
    ensures Exact(BalanceOf(p.accounts, a), Hold, AmountIn(Due(p.accounts, minimum), a))
  {
    hide SumOf, Total;
    PromisedWithin(p.blocks, a);
  }

  /** Over every run, no saturating addition or subtraction on a balance ever saturates. */
  lemma {:induction false} NothingSaturates(events: seq<Event>, e: Event, a: Str)
    requires AffordableRun(events) && Affordable(Run(events), e)
    ensures StepExact(Run(events), e, a)
  {
    hide Affordable, Run, RunShort, BooksFor, Funded, SettleExact, ConfirmPayout, CancelPayout, Due, Exact,
         FindPrepared, Step;
    BooksBalance(events, a);
    var p, short := Run(events), RunShort(events, a);
    match e
    case ShareEvent(_, _) =>
    case BlockEvent(_, _, _, _, _, _) => BlockEventKeeps(p, e, a, short);
    case MatureEvent(canonical, tip, confirmations) =>
      LawfulChain(canonical, tip, confirmations);
      SettlementIsExact(p, ByChain(canonical, tip, confirmations), a, short);
    case VoidEvent(tip) =>
      LawfulChain(map[], tip, 0);
      SettlementIsExact(p, ByTip(tip), a, short);
    case PrepareEvent(minimum, _, _) => HoldingIsExact(p, minimum, a, short);
    case ConfirmEvent(id, hashes) => if ConfirmPayout(p, id, hashes).Ok? { ConfirmKeepsBooks(p, id, hashes, a, short); }
    case CancelEvent(id) => if CancelPayout(p, id).Ok? { CancelKeepsBooks(p, id, a, short); }
  }

  // ----- the saturating operations outside the accounts

  lemma {:induction false} SettleKeepsShareId(p: Pool, e: Event)
    ensures Step(p, e).nextShareId <= p.nextShareId + 1
    ensures !e.ShareEvent? ==> Step(p, e).nextShareId == p.nextShareId
  {
    hide Split, WorkBy, PaidShares, MovedAll, KnownBlock, Settled, HashRecorded, FindPrepared, IsHex32, Due,
         Consistent, KnownShare;
  }

  /** Share ids count the share events at most, so numbering cannot stick in fewer than
      2^64 - 1 of them. */
  lemma {:induction false} ShareIdsCount(events: seq<Event>)
    ensures Run(events).nextShareId <= |events|
    decreases |events|
  {
    hide Step;
    if events != [] {
      ShareIdsCount(DropLast(events));
      SettleKeepsShareId(Run(DropLast(events)), Last(events));
    }
  }

  /** The pool's fee never exceeds the reward, for any reward, exactly if it is at most the
      whole of it in basis points; above that the subtraction sticks at zero. */
  lemma {:induction false} FeeWithinReward(basisPoints: nat)
    ensures (forall reward: u64 :: PoolFee(reward, basisPoints) <= reward) <==> basisPoints <= 10_000
  {
    if basisPoints <= 10_000 {
      forall reward: u64 ensures PoolFee(reward, basisPoints) <= reward {
        QuotientBound(reward, basisPoints, 10_000);
      }
    } else {
      assert PoolFee(10_000, basisPoints) == basisPoints;
    }
  }

  /** A maturity height that sticks at the 64-bit maximum changes no decision below it. */
  lemma {:induction false} MaturityIsExact(height: u64, confirmations: u64, tip: u64)
    ensures (tip < SaturatingAdd(height, confirmations) <==> tip < height + confirmations)
        <==> tip < U64_MAX || height + confirmations <= U64_MAX
  {
  }

  // ----- rounds

  lemma {:induction false} AcceptedTimes(shares: seq<Share>, after: int, until: u64)
    ensures forall s :: s in AcceptedBetween(shares, after, until) ==> s in shares && after < s.acceptedAt <= until
    decreases |shares|
  {
    if shares != [] {
      AcceptedTimes(DropLast(shares), after, until);
    }
  }

  lemma {:induction false} LatestIsUpperBound(blocks: seq<PoolBlock>, i: nat)
    requires i < |blocks|
    ensures blocks[i].foundAt <= LatestFound(blocks)
    decreases |blocks|
  {
    if i < |blocks| - 1 {
      LatestIsUpperBound(DropLast(blocks), i);
    }
  }

  /** Blocks are never forgotten, and neither is when they were found. */
  ghost predicate KeepsFound(p: Pool, q: Pool) {
    |p.blocks| <= |q.blocks| && forall i :: 0 <= i < |p.blocks| ==> q.blocks[i].foundAt == p.blocks[i].foundAt
  }

  lemma {:induction false} StepKeepsFound(p: Pool, e: Event)
    ensures KeepsFound(p, Step(p, e))
  {
    hide Split, WorkBy, PaidShares, MovedAll, KnownBlock, Settled, HashRecorded, FindPrepared, IsHex32, Due,
         Consistent;
  }

  lemma {:induction false} RunKeepsFound(events: seq<Event>, count: nat)
    requires count <= |events|
    ensures KeepsFound(Run(events[..count]), Run(events))
    decreases |events|
  {
    hide Step;
    if count == |events| {
      assert events[..count] == events;
    } else {
      RunKeepsFound(DropLast(events), count);
      assert DropLast(events)[..count] == events[..count];
      StepKeepsFound(Run(DropLast(events)), Last(events));
    }
  }

  lemma {:induction false} RoundTimes(p: Pool, window: nat, now: u64)
    ensures forall s :: s in Round(p, window, now) ==> LatestFound(p.blocks) < s.acceptedAt <= now
  {
    hide AcceptedBetween;
    AcceptedTimes(p.shares, LatestFound(p.blocks), now);
  }

  /** A share paid in the round of one recorded block is in no later round. */
  lemma {:induction false} RoundsAreDisjoint(events: seq<Event>, count: nat, window: nat, now: u64, share: Share)
    requires count < |events| && events[count].BlockEvent?
    requires var e := events[count];
             && |Run(events[..count + 1]).blocks| > |Run(events[..count]).blocks|
             && share in Round(Run(events[..count]), e.window, e.now)
    ensures share !in Round(Run(events), window, now)
  {
    hide Round, Split, WorkBy, PaidShares, MovedAll, KnownBlock, LatestFound;
    var e, before, after, later := events[count], Run(events[..count]), Run(events[..count + 1]), Run(events);
    assert DropLast(events[..count + 1]) == events[..count] && Last(events[..count + 1]) == e;
    RoundTimes(before, e.window, e.now);
    assert Last(after.blocks).foundAt == e.now;
    RunKeepsFound(events, count + 1);
    LatestIsUpperBound(later.blocks, |after.blocks| - 1);
    RoundTimes(later, window, now);
  }
}
