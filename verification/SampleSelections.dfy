/** Where the bound on passes bites: 65 spends of one sender whose tips rise with the nonce
    leave the 65th behind, although there is room for it (mempool.rs). */
module SampleSelections {
  import opened Prelude
  import opened Primitives
  import opened Transactions
  import opened Blocks
  import opened Emission
  import opened Consensus
  import opened Ledgers
  import opened Chains
  import opened Sorting
  import opened Mempool
  import opened MempoolEvents
  import opened TemplateSelection
  import opened Nodes
  import opened IndexMeaning
  import Indexes
  import opened Samples

  // ----- the spends

  function Key(): Bytes32 { seq(32, _ => 0) }

  function Signature(): Bytes64 { seq(64, _ => 0) }

  /** The sender's spend number `n`, offering a tip of `n`. */
  function Spend(n: u64): Transaction {
    Transaction(1, n, Some(MINER), MINER, 1, 1_000, n % 1_000, None, Some(Key()), Some(Signature()))
  }

  function Offer(n: u64): Record { Record(TxHash(Lenient(), Spend(n)), 0, Spend(n)) }

  lemma {:induction false} SpendsDiffer(x: u64, y: u64)
    requires x != y
    ensures TxHash(Lenient(), Spend(x)) != TxHash(Lenient(), Spend(y))
  {
    hide Encode;
    if TxHash(Lenient(), Spend(x)) == TxHash(Lenient(), Spend(y)) {
      EncodingInjective(Lenient(), Spend(x), Spend(y));
    }
  }

  lemma {:induction false} SpendVerifies(n: u64)
    ensures Verify(Lenient(), Spend(n)).Ok? && !Spend(n).IsCoinbase()
  {
    hide UnsignedPayload;
    assert MINER[0] == 109;
  }

  lemma {:induction false} SpendFigures(n: u64)
    requires n < 999
    ensures Tip(Offer(n), 1) == n && EffectiveFee(Spend(n), 1) == Ok(1 + n) && TotalDebit(Spend(n), 1) == Ok(2 + n)
  {
    hide Encode;
  }

  // ----- the ledger while they are applied

  /** `k` spends are in; the sender can pay for the others. */
  ghost predicate Ready(s: Ledger, k: nat) {
    && k <= 65 && s.NextNonceOf(MINER) == k + 1 && s.BalanceOf(MINER) >= 100_000 - 1_000 * k
    && Held(s) <= U64_MAX
    && forall j: u64 :: k < j <= 65 ==> TxHash(Lenient(), Spend(j)) !in s.applied
  }

  lemma {:induction false} NextSpendPasses(s: Ledger, k: nat)
    requires Ready(s, k) && k < 65
    ensures ValidatePending(Lenient(), s, Spend(k + 1), 1).Ok?
    ensures ApplyTransaction(Lenient(), s, Spend(k + 1), 1).result.Ok?
  {
    hide Encode, Verify, Held, Lenient, Key, Signature;
    SpendVerifies(k + 1);
    SpendFigures(k + 1);
    LenientAddressesAreShort();
    assert TxHash(Lenient(), Spend(k + 1)) !in s.applied;
    SpendNeverOverflows(Lenient(), s, Spend(k + 1), 1);
  }

  lemma {:induction false} NextSpendLeaves(s: Ledger, k: nat)
    requires Ready(s, k) && k < 65
    ensures ApplyTransaction(Lenient(), s, Spend(k + 1), 1).result.Ok?
    ensures Ready(ApplyTransaction(Lenient(), s, Spend(k + 1), 1).state, k + 1)
  {
    hide ApplyTransaction, ValidateTransaction, TxHash, Lenient, Total, ValidatePending, EffectivePriorityFee,
         ValidateFee, Key, Signature, EffectiveFee, Indexes.Outlay, Tip;
    NextSpendPasses(s, k);
    SpendVerifies(k + 1);
    SpendFigures(k + 1);
    SpendConserves(Lenient(), s, Spend(k + 1), 1);
    SpendFlow(Lenient(), s, Spend(k + 1), 1, MINER);
    forall j: u64 | k + 1 < j <= 65 ensures TxHash(Lenient(), Spend(j)) != TxHash(Lenient(), Spend(k + 1)) {
      SpendsDiffer(j, k + 1);
    }
  }

  lemma {:induction false} LaterSpendWaits(s: Ledger, k: nat, j: u64)
    requires Ready(s, k) && k + 1 < j <= 65
    ensures ValidatePending(Lenient(), s, Spend(j), 1).Err?
  {
    hide TxHash, Verify, Held;
    SpendVerifies(j);
  }

  // ----- the offered records, in fee order

  function Table<T>(n: nat, f: nat -> T): (r: seq<T>)
    ensures |r| == n && forall i :: 0 <= i < n ==> r[i] == f(i)
  {
    seq(n, i requires 0 <= i < n => f(i))
  }

  function FromTop(): nat -> Record { (i: nat) => if i < 65 then Offer(65 - i) else Offer(0) }

  function FromBottom(): nat -> Record { (i: nat) => if i < 65 then Offer(i + 1) else Offer(0) }

  /** Offers `65`, `64`, ..., `k + 1`. */
  function Down(k: nat): seq<Record>
    requires k <= 65
  {
    Table(65 - k, FromTop())
  }

  /** Offers `1`, `2`, ..., `k`. */
  function Up(k: nat): seq<Record>
    requires k <= 65
  {
    Table(k, FromBottom())
  }

  lemma {:induction false} Listings(k: nat)
    requires k <= 65
    ensures |Down(k)| == 65 - k && forall i :: 0 <= i < 65 - k ==> Down(k)[i] == Offer(65 - i)
    ensures |Up(k)| == k && forall i :: 0 <= i < k ==> Up(k)[i] == Offer(i + 1)
  {
    hide Offer;
  }

  lemma {:induction false} NotYetTaken(k: nat, j: u64)
    requires k < j <= 65
    ensures TxHash(Lenient(), Spend(j)) !in Hashes(Up(k))
  {
    hide TxHash, Spend, Up;
    Listings(k);
    forall i | 0 <= i < k ensures Hashes(Up(k))[i] != TxHash(Lenient(), Spend(j)) {
      SpendsDiffer(i + 1, j);
    }
  }

  /** Up to its last record a pass takes nothing: every nonce but the lowest is too early. */
  lemma {:induction false} NothingTaken(start: Selection, k: nat, i: nat)
    requires k < 65 && Ready(start.state, k) && start.selected == Up(k) && start.rest == [] && i < 65 - k
    ensures PassOver(Lenient(), 1, 65, start, Down(k)[..i]) == Ok(start.(rest := Down(k)[..i]))
    decreases i
  {
    hide ValidatePending, ApplyTransaction, TxHash, Ready, Spend, Down, Up;
    Listings(k);
    if i > 0 {
      NothingTaken(start, k, i - 1);
      assert DropLast(Down(k)[..i]) == Down(k)[..i - 1];
      var j: u64 := 66 - i;
      assert Last(Down(k)[..i]) == Offer(j);
      assert Down(k)[..i] == Down(k)[..i - 1] + [Offer(j)];
      NotYetTaken(k, j);
      LaterSpendWaits(start.state, k, j);
    }
  }

  /** So each pass takes exactly one record. */
  lemma {:induction false} OneTaken(start: Selection, k: nat)
    requires k < 65 && Ready(start.state, k) && start.selected == Up(k) && start.rest == []
    ensures PassOver(Lenient(), 1, 65, start, Down(k)).Ok?
    ensures var s := PassOver(Lenient(), 1, 65, start, Down(k)).value;
            s.progress && s.selected == Up(k + 1) && s.rest == Down(k + 1) && Ready(s.state, k + 1)
  {
    hide ValidatePending, ApplyTransaction, TxHash, Ready, Spend, Down, Up;
    Listings(k);
    Listings(k + 1);
    NothingTaken(start, k, 64 - k);
    assert DropLast(Down(k)) == Down(k)[..64 - k] == Down(k + 1);
    assert Last(Down(k)) == Offer(k + 1);
    NotYetTaken(k, k + 1);
    NextSpendPasses(start.state, k);
    NextSpendLeaves(start.state, k);
    assert Up(k) + [Offer(k + 1)] == Up(k + 1);
  }

  lemma {:induction false} PassesTakeOneEach(s: Selection, k: nat, passes: nat)
    requires k + passes <= 65 && Ready(s.state, k) && s.selected == Up(k) && s.rest == Down(k)
    ensures RunPasses(Lenient(), 1, 65, s, passes).Ok?
    ensures var e := RunPasses(Lenient(), 1, 65, s, passes).value;
            e.selected == Up(k + passes) && e.rest == Down(k + passes) && Ready(e.state, k + passes)
    decreases passes
  {
    hide PassOver, Ready, Offer, Down, Up;
    Listings(k);
    if passes > 0 {
      var start := s.(rest := [], progress := false);
      OneTaken(start, k);
      PassesTakeOneEach(PassOver(Lenient(), 1, 65, start, Down(k)).value, k + 1, passes - 1);
    }
  }

  // ----- the chain

  function TipChain(): Result<Chain> { FromBlocks(Lenient(), 0, Devnet, [Genesis()]) }

  lemma {:induction false} GenesisFlows()
    ensures TotalIn([Genesis()], MINER) == INITIAL_REWARD && TotalOut([Genesis()], MINER) == 0
    ensures SpendNonces(AllTransactions([Genesis()]), MINER) == []
    ensures AllTransactions([Genesis()]) == [CoinbaseAt(0)] && NextBaseFee([Genesis()]) == 1
  {
    hide TxHash, BlockHash, Indexes.Outlay;
    var g := Genesis();
    assert g.transactions == [CoinbaseAt(0)] && g.header.baseFee == 1;
    assert DropLast([g]) == [] && Last([g]) == g;
    assert AllTransactions([g]) == [CoinbaseAt(0)];
    CoinbaseFlows();
  }

  lemma {:induction false} CoinbaseFlows()
    ensures Incoming([CoinbaseAt(0)], MINER) == INITIAL_REWARD && Outgoing([CoinbaseAt(0)], 1, MINER) == 0
    ensures SpendNonces([CoinbaseAt(0)], MINER) == []
  {
    hide Indexes.Outlay;
    var t := CoinbaseAt(0);
    assert DropLast([t]) == [] && Last([t]) == t;
  }

  lemma {:induction false} TipIsReady()
    ensures TipChain().Ok? && ChainInvariant(Lenient(), TipChain().value) && Ready(TipChain().value.state, 0)
    ensures TipChain().value.blocks == [Genesis()]
    ensures Mined(Lenient(), TipChain().value) == {TxHash(Lenient(), CoinbaseAt(0))}
  {
    hide FromBlocks, TxHash, Linked, TipMatches, Held, TotalIn, TotalOut, SpendNonces, Spend, CoinbaseAt, Genesis,
         Lenient;
    var c := Lenient();
    GenesisApplies(0);
    GenesisIsFirst();
    var s := TipChain().value.state;
    RebuiltInvariant(c, 0, Devnet, [Genesis()]);
    GenesisFlows();
    BalanceIsNetFlow(c, 0, Devnet, [Genesis()], MINER);
    HeldFits(s);
    forall j: u64 ensures TxHash(c, Spend(j)) != TxHash(c, CoinbaseAt(0)) {
      SpendIsNoCoinbase(j);
    }
  }

  lemma {:induction false} GenesisIsFirst()
    ensures Genesis() == GenesisWith(0)
  {
    hide GenesisWith;
  }

  lemma {:induction false} SpendIsNoCoinbase(n: u64)
    ensures TxHash(Lenient(), Spend(n)) != TxHash(Lenient(), CoinbaseAt(0))
  {
    LayoutsNeverCollide(Lenient(), CoinbaseAt(0), Spend(n));
  }

  lemma {:induction false} OffersInOrder(mined: set<Digest>)
    requires mined == {TxHash(Lenient(), CoinbaseAt(0))}
    ensures Filter(mined, Down(0), MAX_AGE, 0).kept == Down(0)
    ensures SortByFee(Lenient(), 1, Down(0)) == Down(0) && Consistent(Lenient(), Down(0))
  {
    hide TxHash, Spend, Filter, SortBy, Down;
    Listings(0);
    var records := Down(0);
    forall i | 0 <= i < 65 ensures records[i].txHash !in mined && !Expired(records[i], MAX_AGE, 0) {
      SpendIsNoCoinbase(65 - i);
    }
    forall i, j | 0 <= i < j < 65 ensures records[i].txHash != records[j].txHash {
      SpendsDiffer(65 - i, 65 - j);
    }
    FilterKeepsAll(mined, records, MAX_AGE, 0);
    forall i, j | 0 <= i < j < 65 ensures KeyLe(ByFee(Lenient(), 1)(records[i]), ByFee(Lenient(), 1)(records[j])) {
      SpendFigures(65 - i);
      SpendFigures(65 - j);
    }
    SortedIsFixed(ByFee(Lenient(), 1), records);
  }

  /** With 65 candidates and room for all, the 64 passes select 64, and the one left over
      could still be appended: outside its condition maximality really fails. */
  lemma {:induction false} PassLimitBites()
    ensures TipChain().Ok? && ChainInvariant(Lenient(), TipChain().value) && Consistent(Lenient(), Down(0))
    ensures var chain := TipChain().value;
            var mined := Mined(Lenient(), chain);
            && Candidates(Lenient(), chain, mined, Down(0), 0) == Down(0)
            && Select(Lenient(), chain, mined, Down(0), 65, 0).Ok?
            && Select(Lenient(), chain, mined, Down(0), 65, 0).value.0 == Up(64)
            && Offer(65).txHash !in Hashes(Up(64))
            && ValidatePending(Lenient(), Replay(Lenient(), chain.state, Txs(Up(64)), 1).state, Offer(65).tx, 1).Ok?
  {
    hide FromBlocks, ChainInvariant, Ready, TxHash, Spend, RunPasses, Filter, SortByFee, Replay, ValidatePending,
         Mined, NextBaseFee, Held, Genesis, Down, Up;
    var c := Lenient();
    Listings(0);
    Listings(64);
    TipIsReady();
    var chain := TipChain().value;
    GenesisFlows();
    OffersInOrder(Mined(c, chain));
    var start := Selection(chain.state, [], Down(0), false);
    assert Up(0) == [];
    PassesTakeOneEach(start, 0, 64);
    ReadyHeld(chain.state, 0);
    ReplayNothing(c, chain.state, 1);
    assert Txs(start.selected) == [];
    PassesKeep(c, chain.state, 1, 65, start, 64);
    var e := RunPasses(c, 1, 65, start, 64).value;
    NextSpendPasses(e.state, 64);
    NotYetTaken(64, 65);
  }

  lemma {:induction false} ReadyHeld(s: Ledger, k: nat)
    requires Ready(s, k)
    ensures Held(s) <= U64_MAX
  {
    hide Held, TxHash;
  }
}
