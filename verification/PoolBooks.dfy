/** Pool accounting: immature, mature, pending and paid balances through maturity, reorgs
    and payouts (vireon-mining-pool, store.rs). */
module PoolBooks {
  import opened Prelude
  import opened PoolSplits

  datatype Balance = Balance(immature: u64, mature: u64, pending: u64, paid: u64)

  datatype BlockStatus = Immature | Mature | Orphaned

  datatype PoolBlock = PoolBlock(height: u64, hash: Str, reward: u64, distributable: u64, fee: u64, foundAt: u64,
                                 status: BlockStatus, allocations: map<Str, u64>)

  datatype PayoutStatus = Prepared | Submitted | Cancelled

  datatype Payout = Payout(id: Str, createdAt: u64, status: PayoutStatus, items: map<Str, u64>, hashes: seq<Str>)

  datatype Pool = Pool(nextShareId: u64, shares: seq<Share>, accounts: map<Str, Balance>,
                       blocks: seq<PoolBlock>, payouts: seq<Payout>)

  const EMPTY_POOL := Pool(0, [], map[], [], [])

  const NO_BALANCE := Balance(0, 0, 0, 0)

  function BalanceOf(accounts: map<Str, Balance>, a: Str): Balance {
    if a in accounts then accounts[a] else NO_BALANCE
  }

  // ----- moving money between the columns of an account

  datatype Move = Earn | Ripen | Forfeit | Claw | Hold | Pay | Release

  function Moved(b: Balance, move: Move, amount: u64): Balance {
    match move
    case Earn => b.(immature := SaturatingAdd(b.immature, amount))
    case Ripen => b.(immature := SaturatingSub(b.immature, amount), mature := SaturatingAdd(b.mature, amount))
    case Forfeit => b.(immature := SaturatingSub(b.immature, amount))
    case Claw => b.(mature := SaturatingSub(b.mature, Min(amount, b.mature)))
    case Hold => b.(mature := SaturatingSub(b.mature, amount), pending := SaturatingAdd(b.pending, amount))
    case Pay => b.(pending := SaturatingSub(b.pending, amount), paid := SaturatingAdd(b.paid, amount))
    case Release => b.(pending := SaturatingSub(b.pending, amount), mature := SaturatingAdd(b.mature, amount))
  }

  /** No saturating operation of the move sticks at either end. */
  ghost predicate Exact(b: Balance, move: Move, amount: u64) {
    match move
    case Earn => b.immature + amount <= U64_MAX
    case Ripen => amount <= b.immature && b.mature + amount <= U64_MAX
    case Forfeit => amount <= b.immature
    case Claw => true
    case Hold => amount <= b.mature && b.pending + amount <= U64_MAX
    case Pay => amount <= b.pending && b.paid + amount <= U64_MAX
    case Release => amount <= b.pending && b.mature + amount <= U64_MAX
  }

  /** The accounts once the addresses in `keys` have been served. */
  function MovedSome(accounts: map<Str, Balance>, move: Move, amounts: map<Str, u64>, keys: set<Str>): map<Str, Balance>
    requires keys <= amounts.Keys
  {
    map a | a in accounts.Keys + keys ::
      if a in keys then Moved(BalanceOf(accounts, a), move, amounts[a]) else BalanceOf(accounts, a)
  }

  function MovedAll(accounts: map<Str, Balance>, move: Move, amounts: map<Str, u64>): map<Str, Balance> {
    MovedSome(accounts, move, amounts, amounts.Keys)
  }

  lemma {:induction false} MovedOne(
    accounts: map<Str, Balance>, move: Move, amounts: map<Str, u64>, keys: set<Str>, a: Str)
    requires keys <= amounts.Keys && a in amounts.Keys - keys
    ensures var before := MovedSome(accounts, move, amounts, keys);
            && BalanceOf(before, a) == BalanceOf(accounts, a)
            && MovedSome(accounts, move, amounts, keys + {a}) ==
                before[a := Moved(BalanceOf(before, a), move, amounts[a])]
  {
    hide Moved;
  }

  function AmountIn(amounts: map<Str, u64>, a: Str): u64 { if a in amounts then amounts[a] else 0 }

  lemma {:induction false} MovedAllAt(accounts: map<Str, Balance>, move: Move, amounts: map<Str, u64>, a: Str)
    ensures BalanceOf(MovedAll(accounts, move, amounts), a) == Moved(BalanceOf(accounts, a), move, AmountIn(amounts, a))
  {
  }

  // ----- shares and blocks

  function KnownShare(shares: seq<Share>, hash: Str): Option<Share> {
    if shares == [] then None else
      var before := KnownShare(DropLast(shares), hash);
      if before.Some? then before else if Last(shares).hash == hash then Some(Last(shares)) else None
  }

  function LastOf<T>(s: seq<T>, n: nat): seq<T> { if |s| > n then s[|s| - n..] else s }

  function RecordShare(p: Pool, maxShares: nat, share: Share): Pool {
    if KnownShare(p.shares, share.hash).Some? then p else
      var id := SaturatingAdd(p.nextShareId, 1);
      p.(nextShareId := id, shares := LastOf(p.shares + [share.(id := id)], maxShares))
  }

  predicate KnownBlock(blocks: seq<PoolBlock>, hash: Str) {
    exists i :: 0 <= i < |blocks| && blocks[i].hash == hash
  }

  function LatestFound(blocks: seq<PoolBlock>): u64 {
    if blocks == [] then 0 else Max(LatestFound(DropLast(blocks)), Last(blocks).foundAt)
  }

  function AcceptedBetween(shares: seq<Share>, after: int, until: u64): seq<Share> {
    if shares == [] then [] else
      var before, s := AcceptedBetween(DropLast(shares), after, until), Last(shares);
      if after < s.acceptedAt <= until then before + [s] else before
  }

  /** The shares since the previous pool block, at most the last `window` of them. */
  function Round(p: Pool, window: nat, now: u64): seq<Share> {
    var round := AcceptedBetween(p.shares, LatestFound(p.blocks), now);
    if window > 0 then LastOf(round, window) else round
  }

  /** An empty round falls back to the last `window` shares of any age. */
  function PaidShares(p: Pool, window: nat, now: u64): seq<Share> {
    var round := Round(p, window, now);
    if round != [] then round else LastOf(AcceptedBetween(p.shares, -1, now), Max(window, 1))
  }

  function PoolFee(reward: u64, basisPoints: nat): nat { reward * basisPoints / 10_000 }

  ghost function RecordBlock(
    p: Pool, height: u64, hash: Str, reward: u64, basisPoints: nat, window: nat, now: u64): Result<Pool>
  {
    if KnownBlock(p.blocks, hash) then Ok(p) else
      var fee := PoolFee(reward, basisPoints);
      var _ :- Need(fee <= U64_MAX, AmountOverflow);
      var shares := PaidShares(p, window, now);
      var _ :- Need(shares != [], InvalidInput);
      WorkIsPositive(shares);
      var distributable := SaturatingSub(reward, fee);
      var allocations := Split(WorkBy(shares), distributable);
      Ok(p.(accounts := MovedAll(p.accounts, Earn, allocations),
            blocks := p.blocks + [PoolBlock(height, hash, reward, distributable, fee, now, Immature, allocations)]))
  }

  // ----- maturity and reorgs

  /** What the canonical chain says about a block. */
  function ByChain(canonical: map<u64, Str>, tip: u64, confirmations: u64): PoolBlock -> BlockStatus {
    (b: PoolBlock) =>
      if b.status.Immature? then
        if b.height in canonical && canonical[b.height] != b.hash then Orphaned
        else if tip < SaturatingAdd(b.height, confirmations) || b.height !in canonical then Immature
        else Mature
      else if b.status.Mature? then
        if (if b.height in canonical then canonical[b.height] != b.hash else b.height > tip) then Orphaned else Mature
      else Orphaned
  }

  function ByTip(tip: u64): PoolBlock -> BlockStatus {
    (b: PoolBlock) => if b.status.Immature? && b.height > tip then Orphaned else b.status
  }

  function TransitionMove(before: BlockStatus, after: BlockStatus): Option<Move> {
    if before.Immature? && after.Mature? then Some(Ripen)
    else if before.Immature? && after.Orphaned? then Some(Forfeit)
    else if before.Mature? && after.Orphaned? then Some(Claw)
    else None
  }

  function Transition(accounts: map<Str, Balance>, b: PoolBlock, after: BlockStatus): map<Str, Balance> {
    match TransitionMove(b.status, after)
    case None => accounts
    case Some(move) => MovedAll(accounts, move, b.allocations)
  }

  function Restated(blocks: seq<PoolBlock>, decide: PoolBlock -> BlockStatus, n: nat): (r: seq<PoolBlock>)
    requires n <= |blocks|
    ensures |r| == |blocks|
  {
    seq(|blocks|, i requires 0 <= i < |blocks| => if i < n then blocks[i].(status := decide(blocks[i])) else blocks[i])
  }

  function Settled(
    accounts: map<Str, Balance>, blocks: seq<PoolBlock>, decide: PoolBlock -> BlockStatus, n: nat): map<Str, Balance>
    requires n <= |blocks|
  {
    if n == 0 then accounts else
      Transition(Settled(accounts, blocks, decide, n - 1), blocks[n - 1], decide(blocks[n - 1]))
  }

  /** The pool once the first `n` blocks have been reconsidered. */
  function Settle(p: Pool, decide: PoolBlock -> BlockStatus, n: nat): Pool
    requires n <= |p.blocks|
  {
    p.(blocks := Restated(p.blocks, decide, n), accounts := Settled(p.accounts, p.blocks, decide, n))
  }

  function MatureBlocks(p: Pool, canonical: map<u64, Str>, tip: u64, confirmations: u64): Pool {
    Settle(p, ByChain(canonical, tip, confirmations), |p.blocks|)
  }

  function VoidImmatureAboveTip(p: Pool, tip: u64): Pool {
    Settle(p, ByTip(tip), |p.blocks|)
  }

  // ----- payouts

  function Due(accounts: map<Str, Balance>, minimum: u64): map<Str, u64> {
    map a | a in accounts && accounts[a].mature >= minimum :: accounts[a].mature
  }

  function PreparePayout(p: Pool, minimum: u64, now: u64, id: Str): Result<Pool> {
    var items := Due(p.accounts, minimum);
    var _ :- Need(items != map[], InvalidInput);
    Ok(p.(accounts := MovedAll(p.accounts, Hold, items), payouts := p.payouts + [Payout(id, now, Prepared, items, [])]))
  }

  function FindPrepared(payouts: seq<Payout>, id: Str, from: nat): (r: Option<nat>)
    requires from <= |payouts|
    ensures r.Some? ==> r.value < |payouts| && payouts[r.value].id == id && payouts[r.value].status.Prepared?
    decreases |payouts| - from
  {
    if from == |payouts| then None
    else if payouts[from].id == id && payouts[from].status.Prepared? then Some(from)
    else FindPrepared(payouts, id, from + 1)
  }

  predicate HashRecorded(payouts: seq<Payout>, hashes: seq<Str>) {
    exists i, h :: 0 <= i < |payouts| && h in payouts[i].hashes && h in hashes
  }

  function ConfirmPayout(p: Pool, id: Str, hashes: seq<Str>): Result<Pool> {
    var _ :- Need(hashes != [] && forall h :: h in hashes ==> IsHex32(h), InvalidInput);
    var _ :- Need(!HashRecorded(p.payouts, hashes), InvalidInput);
    var found := FindPrepared(p.payouts, id, 0);
    var _ :- Need(found.Some?, InvalidInput);
    var i, payout := found.value, p.payouts[found.value];
    Ok(p.(accounts := MovedAll(p.accounts, Pay, payout.items),
          payouts := p.payouts[i := payout.(status := Submitted, hashes := hashes)]))
  }

  /** Every item is still covered by its account's pending column. */
  predicate Consistent(p: Pool, items: map<Str, u64>) {
    forall a :: a in items ==> items[a] <= BalanceOf(p.accounts, a).pending
  }

  function CancelPayout(p: Pool, id: Str): Result<Pool> {
    var found := FindPrepared(p.payouts, id, 0);
    var _ :- Need(found.Some?, InvalidInput);
    var i, payout := found.value, p.payouts[found.value];
    var _ :- Need(Consistent(p, payout.items), StorageConflict);
    Ok(p.(accounts := MovedAll(p.accounts, Release, payout.items),
          payouts := p.payouts[i := payout.(status := Cancelled)]))
  }

  // ----- sums over blocks and payouts

  ghost function SumOf<T>(s: seq<T>, f: T -> nat): nat {
    if s == [] then 0 else SumOf(DropLast(s), f) + f(Last(s))
  }

  lemma {:induction false} SumOfSnoc<T>(s: seq<T>, x: T, f: T -> nat)
    ensures SumOf(s + [x], f) == SumOf(s, f) + f(x)
  {
    assert DropLast(s + [x]) == s;
  }

  lemma {:induction false} SumOfUpdate<T>(s: seq<T>, i: nat, x: T, f: T -> nat)
    requires i < |s|
    ensures SumOf(s[i := x], f) == SumOf(s, f) - f(s[i]) + f(x)
    ensures f(s[i]) <= SumOf(s, f)
    decreases |s|
  {
    if i == |s| - 1 {
      assert DropLast(s[i := x]) == DropLast(s);
    } else {
      SumOfUpdate(DropLast(s), i, x, f);
      assert DropLast(s[i := x]) == DropLast(s)[i := x];
    }
  }

  ghost function AllocatedIn(status: BlockStatus, a: Str): PoolBlock -> nat {
    (b: PoolBlock) => if b.status == status then AmountIn(b.allocations, a) else 0
  }

  ghost function ItemIn(status: PayoutStatus, a: Str): Payout -> nat {
    (p: Payout) => if p.status == status then AmountIn(p.items, a) else 0
  }

  ghost function SharedOut(): PoolBlock -> nat { (b: PoolBlock) => Total(b.allocations) }

  // ----- the books

  /** What is left of a clawback that found too little still mature. */
  ghost function Unclawed(b: Balance, move: Move, amount: u64): nat {
    if move.Claw? then amount - Min(amount, b.mature) else 0
  }

  /** The columns of address `a` explained by blocks and payouts, with `short` not clawed back. */
  ghost predicate BooksFor(p: Pool, a: Str, short: nat) {
    var b := BalanceOf(p.accounts, a);
    && b.immature == SumOf(p.blocks, AllocatedIn(Immature, a))
    && b.pending == SumOf(p.payouts, ItemIn(Prepared, a))
    && b.paid == SumOf(p.payouts, ItemIn(Submitted, a))
    && b.mature + b.pending + b.paid == SumOf(p.blocks, AllocatedIn(Mature, a)) + short
    && short <= SumOf(p.blocks, AllocatedIn(Orphaned, a))
  }

  /** All that the recorded blocks ever allocated fits in 64 bits. */
  ghost predicate Funded(p: Pool) {
    SumOf(p.blocks, SharedOut()) <= U64_MAX
  }

  ghost predicate Books(p: Pool, short: Str -> nat) {
    Funded(p) && forall a :: BooksFor(p, a, short(a))
  }

  lemma {:induction false} AmountWithinTotal(amounts: map<Str, u64>, a: Str)
    ensures AmountIn(amounts, a) <= Total(amounts)
  {
    hide Total;
    if a in amounts { TotalEntry(amounts, a); }
  }

  lemma {:induction false} PromisedWithin(blocks: seq<PoolBlock>, a: Str)
    ensures SumOf(blocks, AllocatedIn(Immature, a)) + SumOf(blocks, AllocatedIn(Mature, a))
          + SumOf(blocks, AllocatedIn(Orphaned, a)) <= SumOf(blocks, SharedOut())
    decreases |blocks|
  {
    hide Total;
    if blocks != [] {
      PromisedWithin(DropLast(blocks), a);
      AmountWithinTotal(Last(blocks).allocations, a);
    }
  }
}
