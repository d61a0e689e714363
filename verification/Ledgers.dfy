/** The account ledger: transactions and blocks applied to balances and nonces (state.rs). */
module Ledgers {
  import opened Prelude
  import opened Primitives
  import opened Transactions
  import opened Blocks
  import opened Emission
  import opened Consensus

  datatype FeeSummary = FeeSummary(total: u64, burned: u64, tip: u64)

  datatype BlockSummary = BlockSummary(fees: FeeSummary, reward: u64)

  datatype Ledger = Ledger(
    balances: map<Str, u64>, nonces: map<Str, u64>, emitted: u64, totalBurned: u64,
    blockFees: map<u64, FeeSummary>, rewards: map<u64, u64>,
    applied: set<Digest>, height: Option<u64>, tipHash: Option<Digest>, tipTimestamp: Option<u64>)
  {
    function BalanceOf(a: Str): u64 { if a in balances then balances[a] else 0 }
    function NextNonceOf(a: Str): u64 { if a in nonces then nonces[a] else 1 }
  }

  const EMPTY_LEDGER := Ledger(map[], map[], 0, 0, map[], map[], {}, None, None, None)

  /** A step that may fail half-way: the state it leaves behind, and the outcome. */
  datatype Applied<+T> = Applied(state: Ledger, result: Result<T>)

  function Credit(s: Ledger, a: Str, amount: u64): Result<Ledger> {
    var next :- CheckedAdd(s.BalanceOf(a), amount);
    Ok(s.(balances := s.balances[a := next]))
  }

  function Debit(s: Ledger, a: Str, amount: u64): Result<Ledger> {
    var next :- CheckedSub(s.BalanceOf(a), amount);
    Ok(s.(balances := s.balances[a := next]))
  }

  function ValidateTransaction(c: Crypto, s: Ledger, t: Transaction, baseFee: u64): Result<()> {
    if t.IsCoinbase() then Ok(()) else
      var _ :- Need(TxHash(c, t) !in s.applied, DuplicateTransactionHash);
      var _ :- Verify(c, t);
      var _ :- ValidateFee(t, baseFee);
      var _ :- Need(t.amount != 0, ZeroAmountTransaction);
      var _ :- Need(t.from.Some?, InvalidTransaction);
      var _ :- Need(t.nonce == s.NextNonceOf(t.from.value), InvalidNonce);
      var required :- TotalDebit(t, baseFee);
      Need(s.BalanceOf(t.from.value) >= required, InsufficientBalance)
  }

  function ApplyCoinbase(c: Crypto, s: Ledger, t: Transaction): Applied<FeeSummary> {
    if TxHash(c, t) in s.applied then Applied(s, Err(DuplicateTransactionHash))
    else if t.amount == 0 then Applied(s, Err(ZeroAmountTransaction))
    else
      match Credit(s, t.to, t.amount)
      case Err(e) => Applied(s, Err(e))
      case Ok(paid) => Applied(paid.(applied := paid.applied + {TxHash(c, t)}), Ok(FeeSummary(0, 0, 0)))
  }

  /** Moves the amount, burns the base fee, advances the nonce; the tip leaves the ledger
      until the coinbase collects it. */
  function ApplySpend(
    c: Crypto, s: Ledger, t: Transaction, baseFee: u64, fee: u64, tip: u64, debit: u64): Applied<FeeSummary>
    requires t.from.Some?
  {
    match Debit(s, t.from.value, debit)
    case Err(e) => Applied(s, Err(e))
    case Ok(debited) =>
      match Credit(debited, t.to, t.amount)
      case Err(e) => Applied(debited, Err(e))
      case Ok(credited) =>
        match CheckedAdd(credited.totalBurned, baseFee)
        case Err(e) => Applied(credited, Err(e))
        case Ok(burned) =>
          Applied(credited.(totalBurned := burned,
                            nonces := credited.nonces[t.from.value := SaturatingAdd(t.nonce, 1)],
                            applied := credited.applied + {TxHash(c, t)}),
                  Ok(FeeSummary(fee, baseFee, tip)))
  }

  function ApplyTransaction(c: Crypto, s: Ledger, t: Transaction, baseFee: u64): Applied<FeeSummary> {
    if t.IsCoinbase() then ApplyCoinbase(c, s, t)
    else
      match ValidateTransaction(c, s, t, baseFee)
      case Err(e) => Applied(s, Err(e))
      case Ok(_) =>
        match EffectiveFee(t, baseFee)
        case Err(e) => Applied(s, Err(e))
        case Ok(fee) =>
          match EffectivePriorityFee(t, baseFee)
          case Err(e) => Applied(s, Err(e))
          case Ok(tip) =>
            match TotalDebit(t, baseFee)
            case Err(e) => Applied(s, Err(e))
            case Ok(debit) => ApplySpend(c, s, t, baseFee, fee, tip, debit)
  }

  /** Applies a list in order, stopping at the first failure. */
  function Replay(c: Crypto, s: Ledger, txs: seq<Transaction>, baseFee: u64): Applied<()> {
    if txs == [] then Applied(s, Ok(())) else
      var before := Replay(c, s, DropLast(txs), baseFee);
      if before.result.Err? then before else
        var step := ApplyTransaction(c, before.state, Last(txs), baseFee);
        match step.result
        case Err(e) => Applied(step.state, Err(e))
        case Ok(_) => Applied(step.state, Ok(()))
  }

  function AddFees(a: FeeSummary, b: FeeSummary): Result<FeeSummary> {
    var total :- CheckedAdd(a.total, b.total);
    var burned :- CheckedAdd(a.burned, b.burned);
    var tip :- CheckedAdd(a.tip, b.tip);
    Ok(FeeSummary(total, burned, tip))
  }

  /** The dry run on a copy, summing the fees. */
  function Simulate(c: Crypto, s: Ledger, txs: seq<Transaction>, baseFee: u64): Result<(Ledger, FeeSummary)> {
    if txs == [] then Ok((s, FeeSummary(0, 0, 0))) else
      var (before, fees) :- Simulate(c, s, DropLast(txs), baseFee);
      var step := ApplyTransaction(c, before, Last(txs), baseFee);
      var fee :- step.result;
      var sum :- AddFees(fees, fee);
      Ok((step.state, sum))
  }

  predicate NoRepeatedNonce(txs: seq<Transaction>) {
    forall i, j :: 0 <= i < j < |txs| && txs[i].from.Some? ==>
      !(txs[i].from == txs[j].from && txs[i].nonce == txs[j].nonce)
  }

  function ValidateBlock(c: Crypto, s: Ledger, b: Block): Result<BlockSummary> {
    var h := b.header;
    var _ :- Need(h.height == (if s.height.Some? then s.height.value + 1 else 0), InvalidHeight);
    var _ :- Need(h.previousHash == (if s.tipHash.Some? then s.tipHash.value else Zero), InvalidPreviousHash);
    var _ :- Need(s.tipTimestamp.Some? ==> h.timestamp > s.tipTimestamp.value, InvalidTimestamp);
    var _ :- CheckCoinbaseAmount(h.height, h.baseFee, b.transactions);
    var _ :- Need(NoRepeatedNonce(b.transactions[1..]), InvalidNonce);
    var (_, fees) :- Simulate(c, s, b.transactions[1..], h.baseFee);
    var reward := BlockReward(h.height);
    var expected :- CheckedAdd(reward, fees.tip);
    var _ :- Need(b.transactions[0].amount == expected, InvalidCoinbaseAmount);
    var supply :- CheckedAdd(s.emitted, reward);
    var _ :- Need(supply <= MAX_SUPPLY, SupplyOverflow);
    Ok(BlockSummary(fees, reward))
  }

  function Record(c: Crypto, s: Ledger, b: Block, summary: BlockSummary, emitted: u64): Ledger {
    s.(emitted := emitted,
       blockFees := s.blockFees[b.header.height := summary.fees],
       rewards := s.rewards[b.header.height := summary.reward],
       height := Some(b.header.height), tipHash := Some(BlockHash(c, b)), tipTimestamp := Some(b.header.timestamp))
  }

  function ApplyBlock(c: Crypto, s: Ledger, b: Block): Applied<BlockSummary> {
    match ValidateBlock(c, s, b)
    case Err(e) => Applied(s, Err(e))
    case Ok(summary) =>
      var spends := Replay(c, s, b.transactions[1..], b.header.baseFee);
      if spends.result.Err? then Applied(spends.state, Err(spends.result.error)) else
        var coinbase := ApplyTransaction(c, spends.state, b.transactions[0], b.header.baseFee);
        if coinbase.result.Err? then Applied(coinbase.state, Err(coinbase.result.error)) else
          match CheckedAdd(coinbase.state.emitted, summary.reward)
          case Err(e) => Applied(coinbase.state, Err(e))
          case Ok(emitted) => Applied(Record(c, coinbase.state, b, summary, emitted), Ok(summary))
  }

  // ----- conservation

  ghost function Held(s: Ledger): nat { Total(s.balances) + s.totalBurned }

  lemma {:induction false} CreditTotal(s: Ledger, a: Str, amount: u64)
    requires Credit(s, a, amount).Ok?
    ensures Total(Credit(s, a, amount).value.balances) == Total(s.balances) + amount
  {
    hide Total;
    TotalUpdate(s.balances, a, s.BalanceOf(a) + amount);
  }

  lemma {:induction false} DebitTotal(s: Ledger, a: Str, amount: u64)
    requires Debit(s, a, amount).Ok?
    ensures Total(Debit(s, a, amount).value.balances) == Total(s.balances) - amount
  {
    hide Total;
    TotalUpdate(s.balances, a, s.BalanceOf(a) - amount);
  }

  lemma {:induction false} BalanceWithinTotal(s: Ledger, a: Str)
    ensures s.BalanceOf(a) <= Total(s.balances)
  {
    hide Total;
    if a in s.balances {
      TotalEntry(s.balances, a);
    }
  }

  /** What a successful spend does to the ledger, field by field. */
  ghost predicate SpendEffect(c: Crypto, before: Ledger, after: Ledger, t: Transaction, tip: nat) {
    && t.from.Some? && !t.IsCoinbase()
    && t.nonce == before.NextNonceOf(t.from.value)
    && TxHash(c, t) !in before.applied
    && Held(after) + tip == Held(before)
    && after == before.(balances := after.balances, totalBurned := after.totalBurned,
                        nonces := before.nonces[t.from.value := SaturatingAdd(t.nonce, 1)],
                        applied := before.applied + {TxHash(c, t)})
  }

  lemma {:induction false} SpendConserves(c: Crypto, s: Ledger, t: Transaction, baseFee: u64)
    requires !t.IsCoinbase()
    requires ApplyTransaction(c, s, t, baseFee).result.Ok?
    ensures ValidateTransaction(c, s, t, baseFee).Ok?
    ensures var step := ApplyTransaction(c, s, t, baseFee);
            SpendEffect(c, s, step.state, t, step.result.value.tip)
            && ValidateFee(t, baseFee).Ok? && EffectivePriorityFee(t, baseFee) == Ok(step.result.value.tip)
  {
    hide Encode, Verify, Total;
    var debit := TotalDebit(t, baseFee).value;
    DebitTotal(s, t.from.value, debit);
    var debited := Debit(s, t.from.value, debit).value;
    CreditTotal(debited, t.to, t.amount);
  }

  /** While everything held fits in 64 bits, a validated spend cannot fail half-way. */
  lemma {:induction false} SpendNeverOverflows(c: Crypto, s: Ledger, t: Transaction, baseFee: u64)
    requires !t.IsCoinbase() && Held(s) <= U64_MAX
    requires ValidateTransaction(c, s, t, baseFee).Ok?
    ensures ApplyTransaction(c, s, t, baseFee).result.Ok?
  {
    hide Encode, Verify, Total;
    var debit := TotalDebit(t, baseFee).value;
    BalanceWithinTotal(s, t.from.value);
    DebitTotal(s, t.from.value, debit);
    var debited := Debit(s, t.from.value, debit).value;
    BalanceWithinTotal(debited, t.to);
  }

  /** A spend is admitted exactly if it is new, well shaped, signed by its sender, next in the
      sender's order, and covered by the balance: amount, base fee and tip. */
  lemma {:induction false} AdmissionMeaning(c: Crypto, s: Ledger, t: Transaction, baseFee: u64)
    requires !t.IsCoinbase()
    ensures ValidateTransaction(c, s, t, baseFee).Ok? <==>
              && TxHash(c, t) !in s.applied
              && WellShaped(c, t) && SignedBySender(c, t)
              && t.nonce == s.NextNonceOf(t.from.value)
              && t.maxFee >= baseFee
              && s.BalanceOf(t.from.value) >= t.amount + baseFee + TipPaid(t, baseFee)
  {
    hide TxHash, Verify, IsBlank, EffectiveFee, UnsignedPayload;
    VerifyMeaning(c, t);
    if t.maxFee >= baseFee {
      AffordableFees(t, baseFee);
    }
  }

  // ----- lists of spends

  ghost predicate NoCoinbase(txs: seq<Transaction>) {
    forall i :: 0 <= i < |txs| ==> !txs[i].IsCoinbase()
  }

  function HashSet(c: Crypto, txs: seq<Transaction>): set<Digest> {
    set i | 0 <= i < |txs| :: TxHash(c, txs[i])
  }

  /** Nonces that address `a` spends with, in list order. */
  ghost function SpendNonces(txs: seq<Transaction>, a: Str): seq<u64> {
    if txs == [] then []
    else if Last(txs).from == Some(a) then SpendNonces(DropLast(txs), a) + [Last(txs).nonce]
    else SpendNonces(DropLast(txs), a)
  }

  /** Consecutive nonces from `start`; the counter sticks at its 64-bit maximum. */
  ghost predicate NonceRun(nonces: seq<u64>, start: u64) {
    forall i :: 0 <= i < |nonces| ==> nonces[i] == Min(start + i, U64_MAX)
  }

  ghost predicate FreshHashes(c: Crypto, applied: set<Digest>, txs: seq<Transaction>) {
    && HashSet(c, txs) !! applied
    && forall i, j :: 0 <= i < j < |txs| ==> TxHash(c, txs[i]) != TxHash(c, txs[j])
  }

  ghost predicate NonceEffect(before: Ledger, after: Ledger, txs: seq<Transaction>, a: Str) {
    && NonceRun(SpendNonces(txs, a), before.NextNonceOf(a))
    && after.NextNonceOf(a) == Min(before.NextNonceOf(a) + |SpendNonces(txs, a)|, U64_MAX)
  }

  ghost predicate ListEffect(c: Crypto, before: Ledger, after: Ledger, txs: seq<Transaction>) {
    && after == before.(balances := after.balances, totalBurned := after.totalBurned,
                        nonces := after.nonces, applied := before.applied + HashSet(c, txs))
    && FreshHashes(c, before.applied, txs)
    && forall a :: NonceEffect(before, after, txs, a)
  }

  lemma {:induction false} HashSetSnoc(c: Crypto, txs: seq<Transaction>)
    requires txs != []
    ensures HashSet(c, txs) == HashSet(c, DropLast(txs)) + {TxHash(c, Last(txs))}
  {
    hide Encode;
    forall i | 0 <= i < |txs| ensures TxHash(c, txs[i]) in HashSet(c, DropLast(txs)) + {TxHash(c, Last(txs))} {
      if i < |txs| - 1 { assert DropLast(txs)[i] == txs[i]; }
    }
    forall i | 0 <= i < |txs| - 1 ensures TxHash(c, DropLast(txs)[i]) in HashSet(c, txs) {
      assert DropLast(txs)[i] == txs[i];
    }
  }

  lemma {:induction false} FreshHashesStep(c: Crypto, applied: set<Digest>, txs: seq<Transaction>)
    requires txs != [] && FreshHashes(c, applied, DropLast(txs))
    requires TxHash(c, Last(txs)) !in applied + HashSet(c, DropLast(txs))
    ensures FreshHashes(c, applied, txs)
  {
    hide Encode;
    HashSetSnoc(c, txs);
    forall i, j | 0 <= i < j < |txs| ensures TxHash(c, txs[i]) != TxHash(c, txs[j]) {
      assert txs[i] == DropLast(txs)[i];
      if j == |txs| - 1 {
        assert TxHash(c, DropLast(txs)[i]) in HashSet(c, DropLast(txs));
      } else {
        assert txs[j] == DropLast(txs)[j];
      }
    }
  }

  lemma {:induction false} NonceEffectStep(first: Ledger, before: Ledger, after: Ledger, txs: seq<Transaction>, a: Str)
    requires txs != [] && NonceEffect(first, before, DropLast(txs), a)
    requires Last(txs).from.Some? && Last(txs).nonce == before.NextNonceOf(Last(txs).from.value)
    requires after.nonces == before.nonces[Last(txs).from.value := SaturatingAdd(Last(txs).nonce, 1)]
    ensures NonceEffect(first, after, txs, a)
  {
  }

  lemma {:induction false} ListEffectStep(
    c: Crypto, first: Ledger, before: Ledger, after: Ledger, txs: seq<Transaction>, tip: nat)
    requires txs != [] && ListEffect(c, first, before, DropLast(txs)) && SpendEffect(c, before, after, Last(txs), tip)
    ensures ListEffect(c, first, after, txs)
  {
    hide TxHash, Total, FreshHashes, NonceEffect, HashSet;
    HashSetSnoc(c, txs);
    FreshHashesStep(c, first.applied, txs);
    forall a ensures NonceEffect(first, after, txs, a) {
      NonceEffectStep(first, before, after, txs, a);
    }
  }

  /** A list of spends that applies in order has fresh distinct hashes and, for every
      sender, consecutive nonces starting at the one the ledger expects. */
  lemma {:induction false} ReplayEffect(c: Crypto, s: Ledger, txs: seq<Transaction>, baseFee: u64)
    requires NoCoinbase(txs) && Replay(c, s, txs, baseFee).result.Ok?
    ensures ListEffect(c, s, Replay(c, s, txs, baseFee).state, txs)
    ensures Held(Replay(c, s, txs, baseFee).state) <= Held(s)
  {
    hide ApplyTransaction, Encode, Total, ValidateTransaction;
    if txs != [] {
      var before := Replay(c, s, DropLast(txs), baseFee);
      ReplayEffect(c, s, DropLast(txs), baseFee);
      SpendConserves(c, before.state, Last(txs), baseFee);
      var step := ApplyTransaction(c, before.state, Last(txs), baseFee);
      ListEffectStep(c, s, before.state, step.state, txs, step.result.value.tip);
    }
  }

  /** The dry run and the live run agree, and the dry run's tips are what left the ledger. */
  lemma {:induction false} SimulationIsReplay(c: Crypto, s: Ledger, txs: seq<Transaction>, baseFee: u64)
    requires NoCoinbase(txs) && Simulate(c, s, txs, baseFee).Ok?
    ensures Replay(c, s, txs, baseFee) == Applied(Simulate(c, s, txs, baseFee).value.0, Ok(()))
    ensures Held(Simulate(c, s, txs, baseFee).value.0) + Simulate(c, s, txs, baseFee).value.1.tip == Held(s)
  {
    hide ApplyTransaction, Encode, Total;
    if txs != [] {
      SimulationIsReplay(c, s, DropLast(txs), baseFee);
      SpendConserves(c, Simulate(c, s, DropLast(txs), baseFee).value.0, Last(txs), baseFee);
    }
  }

  // ----- blocks

  ghost function BlockCount(s: Ledger): nat { if s.height.Some? then s.height.value + 1 else 0 }

  /** Balances plus burned fees are exactly the subsidies of the blocks applied so far. */
  ghost predicate Sound(s: Ledger) {
    Held(s) == s.emitted == Emitted(BlockCount(s))
  }

  /** The checks against the supply cap and against overflow cannot fire on a sound ledger. */
  lemma {:induction false} SupplyCapNeverFires(s: Ledger)
    requires Sound(s)
    ensures s.emitted + BlockReward(BlockCount(s)) <= TOTAL_EMISSION <= MAX_SUPPLY
    ensures CheckedAdd(s.emitted, BlockReward(BlockCount(s))).Ok?
  {
    EmittedBounded(BlockCount(s) + 1);
  }

  lemma {:induction false} CoinbaseCredit(c: Crypto, s: Ledger, t: Transaction, emitted: nat)
    requires t.IsCoinbase() && t.amount != 0 && TxHash(c, t) !in s.applied
    requires Held(s) + t.amount == emitted <= U64_MAX
    ensures ApplyTransaction(c, s, t, 0).result.Ok?
    ensures forall baseFee :: ApplyTransaction(c, s, t, baseFee) == ApplyTransaction(c, s, t, 0)
    ensures Held(ApplyTransaction(c, s, t, 0).state) == emitted
    ensures ApplyTransaction(c, s, t, 0).state ==
            s.(balances := ApplyTransaction(c, s, t, 0).state.balances, applied := s.applied + {TxHash(c, t)})
  {
    hide Encode, Total;
    BalanceWithinTotal(s, t.to);
    CreditTotal(s, t.to, t.amount);
  }

  /** Once a block validates on a sound ledger, applying it can fail only because the
      coinbase hash has been used before, and otherwise leaves a sound ledger. */
  lemma {:induction false} ApplyBlockOutcome(c: Crypto, s: Ledger, b: Block)
    requires Sound(s) && ValidateBlock(c, s, b).Ok?
    ensures var spends := b.transactions[1..];
            var run := ApplyBlock(c, s, b);
            var repeated := TxHash(c, b.transactions[0]) in s.applied + HashSet(c, spends);
            && (run.result.Err? <==> repeated)
            && (repeated ==> run.state == Simulate(c, s, spends, b.header.baseFee).value.0)
            && (repeated ==> run.result == Err(DuplicateTransactionHash))
            && (!repeated ==> run.result == ValidateBlock(c, s, b) && Sound(run.state))
  {
    hide Encode, Verify, Total, ApplyTransaction, Simulate, Replay, CollectedTips;
    var spends, baseFee := b.transactions[1..], b.header.baseFee;
    assert NoCoinbase(spends);
    SimulationIsReplay(c, s, spends, baseFee);
    ReplayEffect(c, s, spends, baseFee);
    var (after, fees) := Simulate(c, s, spends, baseFee).value;
    SupplyCapNeverFires(s);
    if TxHash(c, b.transactions[0]) in after.applied {
      RepeatedCoinbase(c, after, b.transactions[0], baseFee);
    } else {
      CoinbaseCredit(c, after, b.transactions[0], s.emitted + BlockReward(b.header.height));
    }
  }

  lemma {:induction false} RepeatedCoinbase(c: Crypto, s: Ledger, t: Transaction, baseFee: u64)
    requires t.IsCoinbase() && TxHash(c, t) in s.applied
    ensures ApplyTransaction(c, s, t, baseFee) == Applied(s, Err(DuplicateTransactionHash))
  {
    hide Encode;
  }

  function PlainCoinbase(): Transaction {
    Transaction(1, 0, None, [], BlockReward(0), 0, 0, None, None, None)
  }

  function PlainBlock(height: u64, previousHash: Digest): Block {
    Block(Header(1, [], height, previousHash, Zero, 1, height, 0, Zero, 4), [PlainCoinbase()])
  }

  lemma {:induction false} PlainRewards()
    ensures BlockReward(0) == BlockReward(1) == INITIAL_REWARD
  {
    assert Pow2(0) == 1;
  }

  /** A block that only pays its subsidy validates on the ledger it continues. */
  lemma {:induction false} CoinbaseOnlyValidates(c: Crypto, s: Ledger, b: Block)
    requires Sound(s) && |b.transactions| == 1 && b.transactions[0].IsCoinbase()
    requires b.transactions[0].maxFee == 0 && b.transactions[0].priorityFee == 0
    requires b.transactions[0].amount == BlockReward(b.header.height) > 0
    requires b.header.height == BlockCount(s) && (s.tipTimestamp.Some? ==> s.tipTimestamp.value < b.header.timestamp)
    requires b.header.previousHash == if s.tipHash.Some? then s.tipHash.value else Zero
    ensures ValidateBlock(c, s, b).Ok?
  {
    hide Encode, Total, Emitted, BlockReward, ApplyTransaction;
    SupplyCapNeverFires(s);
    assert b.transactions[1..] == [];
    assert CollectedTips(b.transactions, 0, b.header.baseFee) == Ok(0);
    assert Simulate(c, s, [], b.header.baseFee) == Ok((s, FeeSummary(0, 0, 0)));
  }

  lemma {:induction false} FirstPlainBlock(c: Crypto)
    ensures ApplyBlock(c, EMPTY_LEDGER, PlainBlock(0, Zero)).result.Ok?
    ensures var s := ApplyBlock(c, EMPTY_LEDGER, PlainBlock(0, Zero)).state;
            && Sound(s) && s.height == Some(0) && s.tipTimestamp == Some(0)
            && s.tipHash == Some(BlockHash(c, PlainBlock(0, Zero))) && TxHash(c, PlainCoinbase()) in s.applied
  {
    hide TxHash, BlockHash, Sound, ValidateBlock, ApplyBlock, BlockReward, HashSet, NonceEffect, Simulate;
    var first := PlainBlock(0, Zero);
    EmptyLedgerSound();
    PlainRewards();
    CoinbaseOnlyValidates(c, EMPTY_LEDGER, first);
    NoHashes(c, first);
    ApplyBlockOutcome(c, EMPTY_LEDGER, first);
    AppliedBlockEffect(c, EMPTY_LEDGER, first);
  }

  /** A block can validate and still not apply: here the second block of a chain pays the
      same coinbase transaction as the first. */
  lemma {:induction false} RepeatedCoinbaseValidates(c: Crypto)
    ensures var first := PlainBlock(0, Zero);
            var s := ApplyBlock(c, EMPTY_LEDGER, first).state;
            var second := PlainBlock(1, BlockHash(c, first));
            && ApplyBlock(c, EMPTY_LEDGER, first).result.Ok?
            && ValidateBlock(c, s, second).Ok?
            && ApplyBlock(c, s, second).result == Err(DuplicateTransactionHash)
  {
    hide TxHash, BlockHash, Sound, ValidateBlock, ApplyBlock, BlockReward, HashSet, Simulate;
    var first := PlainBlock(0, Zero);
    FirstPlainBlock(c);
    var s, second := ApplyBlock(c, EMPTY_LEDGER, first).state, PlainBlock(1, BlockHash(c, first));
    PlainRewards();
    CoinbaseOnlyValidates(c, s, second);
    ApplyBlockOutcome(c, s, second);
  }

  lemma {:induction false} NoHashes(c: Crypto, b: Block)
    requires |b.transactions| == 1
    ensures HashSet(c, b.transactions[1..]) == {} && TxHash(c, b.transactions[0]) in HashSet(c, b.transactions)
  {
    hide Encode;
  }

  lemma {:induction false} EmptyLedgerSound()
    ensures Sound(EMPTY_LEDGER)
  {
  }

  lemma {:induction false} ValidatedHasCoinbase(c: Crypto, s: Ledger, b: Block)
    requires ValidateBlock(c, s, b).Ok?
    ensures b.transactions != []
  {
    hide Simulate, NoRepeatedNonce, ExpectedCoinbase;
  }

  lemma {:induction false} HashSetCons(c: Crypto, txs: seq<Transaction>)
    requires txs != []
    ensures HashSet(c, txs) == HashSet(c, txs[1..]) + {TxHash(c, txs[0])}
  {
    hide Encode;
    forall i | 0 <= i < |txs| ensures TxHash(c, txs[i]) in HashSet(c, txs[1..]) + {TxHash(c, txs[0])} {
      if i > 0 { assert txs[1..][i - 1] == txs[i]; }
    }
    forall i | 0 <= i < |txs| - 1 ensures TxHash(c, txs[1..][i]) in HashSet(c, txs) {
      assert txs[1..][i] == txs[i + 1];
    }
  }

  /** What an applied block leaves in the ledger besides balances. */
  ghost predicate BlockEffect(c: Crypto, before: Ledger, after: Ledger, b: Block, summary: BlockSummary) {
    && b.transactions != [] && b.transactions[0].IsCoinbase() && NoCoinbase(b.transactions[1..])
    && after.applied == before.applied + HashSet(c, b.transactions)
    && HashSet(c, b.transactions) !! before.applied
    && after.height == Some(b.header.height) && after.tipHash == Some(BlockHash(c, b))
    && after.tipTimestamp == Some(b.header.timestamp)
    && after.blockFees == before.blockFees[b.header.height := summary.fees]
    && after.rewards == before.rewards[b.header.height := summary.reward]
    && forall a :: NonceEffect(before, after, b.transactions[1..], a)
  }

  lemma {:induction false} AppliedBlockEffect(c: Crypto, s: Ledger, b: Block)
    requires Sound(s) && ApplyBlock(c, s, b).result.Ok?
    ensures Sound(ApplyBlock(c, s, b).state) && ValidateBlock(c, s, b).Ok?
    ensures BlockEffect(c, s, ApplyBlock(c, s, b).state, b, ApplyBlock(c, s, b).result.value)
  {
    hide TxHash, BlockHash, Total, ApplyTransaction, Simulate, Replay, CollectedTips, FreshHashes, NonceEffect,
         HashSet, NoRepeatedNonce;
    ApplyBlockOutcome(c, s, b);
    var spends, baseFee := b.transactions[1..], b.header.baseFee;
    assert NoCoinbase(spends);
    SimulationIsReplay(c, s, spends, baseFee);
    ReplayEffect(c, s, spends, baseFee);
    var (middle, fees) := Simulate(c, s, spends, baseFee).value;
    SupplyCapNeverFires(s);
    CoinbaseCredit(c, middle, b.transactions[0], s.emitted + BlockReward(b.header.height));
    HashSetCons(c, b.transactions);
    assert HashSet(c, spends) !! s.applied by { FreshHashesDisjoint(c, s.applied, spends); }
    var after := ApplyBlock(c, s, b).state;
    forall a ensures NonceEffect(s, after, spends, a) {
      assert NonceEffect(s, middle, spends, a);
      SameNonces(s, middle, after, spends, a);
    }
  }

  lemma {:induction false} FreshHashesDisjoint(c: Crypto, applied: set<Digest>, txs: seq<Transaction>)
    requires FreshHashes(c, applied, txs)
    ensures HashSet(c, txs) !! applied
  {
  }

  lemma {:induction false} SameNonces(before: Ledger, x: Ledger, y: Ledger, txs: seq<Transaction>, a: Str)
    requires NonceEffect(before, x, txs, a) && x.nonces == y.nonces
    ensures NonceEffect(before, y, txs, a)
  {
  }
}
