/** The mutable ledger object of state.rs, each method proved against the ledger functions. */
module LedgerStates {
  import opened Prelude
  import opened Primitives
  import opened Transactions
  import opened Blocks
  import opened Emission
  import opened Consensus
  import opened Ledgers

  lemma {:induction false} ReplayFailureIsFinal(c: Crypto, s: Ledger, txs: seq<Transaction>, count: nat, baseFee: u64)
    requires count <= |txs| && Replay(c, s, txs[..count], baseFee).result.Err?
    ensures Replay(c, s, txs, baseFee) == Replay(c, s, txs[..count], baseFee)
    decreases |txs| - count
  {
    hide ApplyTransaction;
    if count < |txs| {
      assert DropLast(txs[..count + 1]) == txs[..count];
      ReplayFailureIsFinal(c, s, txs, count + 1, baseFee);
    } else {
      assert txs[..count] == txs;
    }
  }

  lemma {:induction false} SimulateFailureIsFinal(c: Crypto, s: Ledger, txs: seq<Transaction>, count: nat, baseFee: u64)
    requires count <= |txs| && Simulate(c, s, txs[..count], baseFee).Err?
    ensures Simulate(c, s, txs, baseFee).Err?
    ensures Simulate(c, s, txs, baseFee) == Simulate(c, s, txs[..count], baseFee)
    decreases |txs| - count
  {
    hide ApplyTransaction;
    if count < |txs| {
      assert DropLast(txs[..count + 1]) == txs[..count];
      SimulateFailureIsFinal(c, s, txs, count + 1, baseFee);
    } else {
      assert txs[..count] == txs;
    }
  }

  class LedgerState {
    var balances: map<Str, u64>
    var nonces: map<Str, u64>
    var emitted: u64
    var totalBurned: u64
    var blockFees: map<u64, FeeSummary>
    var rewards: map<u64, u64>
    var applied: set<Digest>
    var height: Option<u64>
    var tipHash: Option<Digest>
    var tipTimestamp: Option<u64>

    function View(): Ledger
      reads this
    {
      Ledger(balances, nonces, emitted, totalBurned, blockFees, rewards, applied, height, tipHash, tipTimestamp)
    }

    constructor ()
      ensures View() == EMPTY_LEDGER
    {
      balances, nonces, emitted, totalBurned := map[], map[], 0, 0;
      blockFees, rewards, applied := map[], map[], {};
      height, tipHash, tipTimestamp := None, None, None;
    }

    constructor Clone(other: LedgerState)
      ensures View() == other.View()
    {
      balances, nonces, emitted, totalBurned := other.balances, other.nonces, other.emitted, other.totalBurned;
      blockFees, rewards, applied := other.blockFees, other.rewards, other.applied;
      height, tipHash, tipTimestamp := other.height, other.tipHash, other.tipTimestamp;
    }

    method CreditBalance(a: Str, amount: u64) returns (r: Result<()>)
      modifies this`balances
      ensures match Credit(old(View()), a, amount)
              case Ok(next) => r == Ok(()) && View() == next
              case Err(e) => r == Err(e) && View() == old(View())
    {
      var balance := if a in balances then balances[a] else 0;
      var next := CheckedAdd(balance, amount);
      if next.Err? {
        return Err(next.error);
      }
      balances := balances[a := next.value];
      r := Ok(());
    }

    method DebitBalance(a: Str, amount: u64) returns (r: Result<()>)
      modifies this`balances
      ensures match Debit(old(View()), a, amount)
              case Ok(next) => r == Ok(()) && View() == next
              case Err(e) => r == Err(e) && View() == old(View())
    {
      var balance := if a in balances then balances[a] else 0;
      var next := CheckedSub(balance, amount);
      if next.Err? {
        return Err(next.error);
      }
      balances := balances[a := next.value];
      r := Ok(());
    }

    method ValidateAgainst(c: Crypto, t: Transaction, baseFee: u64) returns (r: Result<()>)
      ensures r == ValidateTransaction(c, View(), t, baseFee)
    {
      hide Encode, Verify;
      if t.IsCoinbase() {
        return Ok(());
      }
      if TxHash(c, t) in applied {
        return Err(DuplicateTransactionHash);
      }
      var verified := Verify(c, t);
      if verified.Err? {
        return verified;
      }
      var fee := ValidateFee(t, baseFee);
      if fee.Err? {
        return fee;
      }
      if t.amount == 0 {
        return Err(ZeroAmountTransaction);
      }
      if t.from.None? {
        return Err(InvalidTransaction);
      }
      var sender := t.from.value;
      var expectedNonce := if sender in nonces then nonces[sender] else 1;
      if t.nonce != expectedNonce {
        return Err(InvalidNonce);
      }
      var required := TotalDebit(t, baseFee);
      if required.Err? {
        return Err(required.error);
      }
      var available := if sender in balances then balances[sender] else 0;
      if available < required.value {
        return Err(InsufficientBalance);
      }
      r := Ok(());
    }

    /** A failure after the debit leaves the debit in place, as the source does. */
    method Apply(c: Crypto, t: Transaction, baseFee: u64) returns (r: Result<FeeSummary>)
      modifies this
      ensures Applied(View(), r) == ApplyTransaction(c, old(View()), t, baseFee)
    {
      hide Encode, Verify;
      if t.IsCoinbase() {
        if TxHash(c, t) in applied {
          return Err(DuplicateTransactionHash);
        }
        if t.amount == 0 {
          return Err(ZeroAmountTransaction);
        }
        var credited := CreditBalance(t.to, t.amount);
        if credited.Err? {
          return Err(credited.error);
        }
        applied := applied + {TxHash(c, t)};
        return Ok(FeeSummary(0, 0, 0));
      }
      var valid := ValidateAgainst(c, t, baseFee);
      if valid.Err? {
        return Err(valid.error);
      }
      r := ApplyValidated(c, t, baseFee);
    }

    method ApplyValidated(c: Crypto, t: Transaction, baseFee: u64) returns (r: Result<FeeSummary>)
      requires !t.IsCoinbase() && ValidateTransaction(c, View(), t, baseFee).Ok?
      modifies this
      ensures Applied(View(), r) == ApplyTransaction(c, old(View()), t, baseFee)
    {
      hide Encode, Verify;
      var sender := t.from.value;
      var fee, tip, debit := EffectiveFee(t, baseFee), EffectivePriorityFee(t, baseFee), TotalDebit(t, baseFee);
      assert fee.Ok? && tip.Ok? && debit.Ok?;
      var debited := DebitBalance(sender, debit.value);
      if debited.Err? {
        return Err(debited.error);
      }
      var credited := CreditBalance(t.to, t.amount);
      if credited.Err? {
        return Err(credited.error);
      }
      var burned := CheckedAdd(totalBurned, baseFee);
      if burned.Err? {
        return Err(burned.error);
      }
      totalBurned := burned.value;
      nonces := nonces[sender := SaturatingAdd(t.nonce, 1)];
      applied := applied + {TxHash(c, t)};
      r := Ok(FeeSummary(fee.value, baseFee, tip.value));
    }

    method ReplayAll(c: Crypto, txs: seq<Transaction>, baseFee: u64) returns (r: Result<()>)
      modifies this
      ensures Applied(View(), r) == Replay(c, old(View()), txs, baseFee)
    {
      hide ApplyTransaction;
      for i := 0 to |txs|
        invariant Replay(c, old(View()), txs[..i], baseFee) == Applied(View(), Ok(()))
      {
        assert DropLast(txs[..i + 1]) == txs[..i];
        var step := Apply(c, txs[i], baseFee);
        if step.Err? {
          ReplayFailureIsFinal(c, old(View()), txs, i + 1, baseFee);
          return Err(step.error);
        }
      }
      assert txs[..|txs|] == txs;
      r := Ok(());
    }

    /** Runs the spends on a copy and sums their fees. */
    method SimulateAll(c: Crypto, txs: seq<Transaction>, baseFee: u64) returns (r: Result<FeeSummary>)
      ensures match Simulate(c, View(), txs, baseFee)
              case Ok(run) => r == Ok(run.1)
              case Err(e) => r == Err(e)
    {
      hide ApplyTransaction, AddFees;
      var simulated := new LedgerState.Clone(this);
      var fees := FeeSummary(0, 0, 0);
      for i := 0 to |txs|
        invariant Simulate(c, View(), txs[..i], baseFee) == Ok((simulated.View(), fees))
      {
        assert DropLast(txs[..i + 1]) == txs[..i];
        var step := simulated.Apply(c, txs[i], baseFee);
        if step.Err? {
          SimulateFailureIsFinal(c, View(), txs, i + 1, baseFee);
          return Err(step.error);
        }
        var sum := AddFees(fees, step.value);
        if sum.Err? {
          SimulateFailureIsFinal(c, View(), txs, i + 1, baseFee);
          return Err(sum.error);
        }
        fees := sum.value;
      }
      assert txs[..|txs|] == txs;
      r := Ok(fees);
    }

    method ValidateBlockAgainst(c: Crypto, b: Block) returns (r: Result<BlockSummary>)
      ensures r == ValidateBlock(c, View(), b)
    {
      hide BlockReward, CheckCoinbaseAmount, Simulate;
      var h := b.header;
      if h.height != (if height.Some? then height.value + 1 else 0) {
        return Err(InvalidHeight);
      }
      if h.previousHash != (if tipHash.Some? then tipHash.value else Zero) {
        return Err(InvalidPreviousHash);
      }
      if tipTimestamp.Some? && h.timestamp <= tipTimestamp.value {
        return Err(InvalidTimestamp);
      }
      var coinbase := CheckCoinbaseAmount(h.height, h.baseFee, b.transactions);
      if coinbase.Err? {
        return Err(coinbase.error);
      }
      assert b.transactions != [] by { CoinbasePresent(b); }
      if !NoRepeatedNonce(b.transactions[1..]) {
        return Err(InvalidNonce);
      }
      var fees := SimulateAll(c, b.transactions[1..], h.baseFee);
      if fees.Err? {
        return Err(fees.error);
      }
      var reward := BlockReward(h.height);
      var expected := CheckedAdd(reward, fees.value.tip);
      if expected.Err? {
        return Err(expected.error);
      }
      if b.transactions[0].amount != expected.value {
        return Err(InvalidCoinbaseAmount);
      }
      var supply := CheckedAdd(emitted, reward);
      if supply.Err? {
        return Err(supply.error);
      }
      if supply.value > MAX_SUPPLY {
        return Err(SupplyOverflow);
      }
      r := Ok(BlockSummary(fees.value, reward));
    }

    method ApplyBlockTo(c: Crypto, b: Block) returns (r: Result<BlockSummary>)
      modifies this
      ensures Applied(View(), r) == ApplyBlock(c, old(View()), b)
    {
      hide BlockReward, CheckCoinbaseAmount, Simulate, Replay, ApplyTransaction, BlockHash, ValidateBlock;
      r := ValidateBlockAgainst(c, b);
      if r.Err? {
        return;
      }
      assert b.transactions != [] by { ValidatedHasCoinbase(c, View(), b); }
      var spends := ReplayAll(c, b.transactions[1..], b.header.baseFee);
      if spends.Err? {
        return Err(spends.error);
      }
      var coinbase := Apply(c, b.transactions[0], b.header.baseFee);
      if coinbase.Err? {
        return Err(coinbase.error);
      }
      var supply := CheckedAdd(emitted, r.value.reward);
      if supply.Err? {
        return Err(supply.error);
      }
      emitted := supply.value;
      blockFees := blockFees[b.header.height := r.value.fees];
      rewards := rewards[b.header.height := r.value.reward];
      height, tipHash, tipTimestamp := Some(b.header.height), Some(BlockHash(c, b)), Some(b.header.timestamp);
    }
  }

  lemma {:induction false} CoinbasePresent(b: Block)
    requires CheckCoinbaseAmount(b.header.height, b.header.baseFee, b.transactions).Ok?
    ensures b.transactions != []
  {
  }
}
