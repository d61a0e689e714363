/** Pending transactions: filtering, the two sort orders and nonce-safe admission
    (mempool.rs). */
module Mempool {
  import opened Prelude
  import opened Primitives
  import opened Transactions
  import opened Consensus
  import opened Ledgers
  import opened Chains
  import opened Sorting

  const MAX_AGE: u64 := 3_600

  datatype Record = Record(txHash: Digest, receivedAt: u64, tx: Transaction)

  function Txs(records: seq<Record>): (r: seq<Transaction>)
    ensures |r| == |records|
    ensures forall i :: 0 <= i < |records| ==> r[i] == records[i].tx
  {
    seq(|records|, i requires 0 <= i < |records| => records[i].tx)
  }

  /** Records store the hash of their transaction. */
  ghost predicate Consistent(c: Crypto, records: seq<Record>) {
    forall i :: 0 <= i < |records| ==> records[i].txHash == TxHash(c, records[i].tx)
  }

  function Tip(r: Record, baseFee: u64): u64 {
    match EffectivePriorityFee(r.tx, baseFee)
    case Ok(tip) => tip
    case Err(_) => 0
  }

  // ----- the two orders

  /** Sender, nonce, higher tip, older, hash. The -1 ends the sender so that a shorter
      sender comes first. */
  function AdmissionKey(c: Crypto, baseFee: u64, r: Record): seq<int> {
    (if r.tx.from.Some? then r.tx.from.value else []) + [0 - 1, r.tx.nonce, 0 - Tip(r, baseFee), r.receivedAt]
    + c.digestBytes(r.txHash)
  }

  /** Higher tip, higher maximum fee, older, hash. */
  function FeeKey(c: Crypto, baseFee: u64, r: Record): seq<int> {
    [0 - Tip(r, baseFee), 0 - r.tx.maxFee, r.receivedAt] + c.digestBytes(r.txHash)
  }

  function ByAdmission(c: Crypto, baseFee: u64): Record -> seq<int> { r => AdmissionKey(c, baseFee, r) }

  function ByFee(c: Crypto, baseFee: u64): Record -> seq<int> { r => FeeKey(c, baseFee, r) }

  function SortForAdmission(c: Crypto, baseFee: u64, records: seq<Record>): seq<Record> {
    SortBy(ByAdmission(c, baseFee), records)
  }

  function SortByFee(c: Crypto, baseFee: u64, records: seq<Record>): seq<Record> {
    SortBy(ByFee(c, baseFee), records)
  }

  ghost function Sender(r: Record): Str { if r.tx.from.Some? then r.tx.from.value else [] }

  /** Among one sender's records the lower nonce goes first; of two with the same nonce the
      higher tip, then the older, then the lower hash. */
  ghost predicate GoesFirst(c: Crypto, baseFee: u64, x: Record, y: Record) {
    || x.tx.nonce < y.tx.nonce
    || (x.tx.nonce == y.tx.nonce && Tip(x, baseFee) > Tip(y, baseFee))
    || (x.tx.nonce == y.tx.nonce && Tip(x, baseFee) == Tip(y, baseFee) && x.receivedAt < y.receivedAt)
    || (x.tx.nonce == y.tx.nonce && Tip(x, baseFee) == Tip(y, baseFee) && x.receivedAt == y.receivedAt
        && KeyLe(c.digestBytes(x.txHash), c.digestBytes(y.txHash)))
  }

  /** The admission order groups by sender, and within a sender goes by nonce. */
  lemma {:induction false} AdmissionOrder(c: Crypto, baseFee: u64, x: Record, y: Record)
    ensures KeyLe(AdmissionKey(c, baseFee, x), AdmissionKey(c, baseFee, y)) ==
            if Sender(x) == Sender(y) then GoesFirst(c, baseFee, x, y) else KeyLe(Sender(x), Sender(y))
  {
    hide Tip, KeyLe;
    var u := [x.tx.nonce, 0 - Tip(x, baseFee), x.receivedAt] + c.digestBytes(x.txHash);
    var v := [y.tx.nonce, 0 - Tip(y, baseFee), y.receivedAt] + c.digestBytes(y.txHash);
    assert AdmissionKey(c, baseFee, x) == Sender(x) + [0 - 1] + u;
    assert AdmissionKey(c, baseFee, y) == Sender(y) + [0 - 1] + v;
    if Sender(x) == Sender(y) {
      var prefix: seq<int> := Sender(x);
      KeyLePrefix(prefix + [0 - 1], u, v);
      KeyLeByParts(x.tx.nonce, 0 - Tip(x, baseFee), x.receivedAt, c.digestBytes(x.txHash),
          y.tx.nonce, 0 - Tip(y, baseFee), y.receivedAt, c.digestBytes(y.txHash));
    } else {
      KeyLeText(Sender(x), Sender(y), u, v);
    }
  }

  /** The fee order puts the higher tip first, then the higher maximum fee, then the older,
      then the lower hash. */
  lemma {:induction false} FeeOrder(c: Crypto, baseFee: u64, x: Record, y: Record)
    ensures KeyLe(FeeKey(c, baseFee, x), FeeKey(c, baseFee, y)) <==>
              || Tip(x, baseFee) > Tip(y, baseFee)
              || (Tip(x, baseFee) == Tip(y, baseFee) &&
                    (|| x.tx.maxFee > y.tx.maxFee
                     || (x.tx.maxFee == y.tx.maxFee &&
                           (|| x.receivedAt < y.receivedAt
                            || (x.receivedAt == y.receivedAt &&
                                  KeyLe(c.digestBytes(x.txHash), c.digestBytes(y.txHash)))))))
  {
    hide Tip, KeyLe;
    KeyLeByParts(0 - Tip(x, baseFee), 0 - x.tx.maxFee, x.receivedAt, c.digestBytes(x.txHash),
        0 - Tip(y, baseFee), 0 - y.tx.maxFee, y.receivedAt, c.digestBytes(y.txHash));
  }

  lemma {:induction false} SortedSizes(c: Crypto, baseFee: u64, records: seq<Record>)
    ensures |SortForAdmission(c, baseFee, records)| == |SortByFee(c, baseFee, records)| == |records|
  {
    hide SortBy;
    SortByPermutes(ByAdmission(c, baseFee), records);
    SortByPermutes(ByFee(c, baseFee), records);
    assert |multiset(SortForAdmission(c, baseFee, records))| == |multiset(records)|;
    assert |multiset(SortByFee(c, baseFee, records))| == |multiset(records)|;
  }

  /** Admission tries each sender's transactions by rising nonce, template selection all
      transactions by falling tip. */
  lemma {:induction false} SortedRecords(c: Crypto, baseFee: u64, records: seq<Record>, i: nat, j: nat)
    requires i < j < |records|
    ensures |SortForAdmission(c, baseFee, records)| == |SortByFee(c, baseFee, records)| == |records|
    ensures var x, y := SortForAdmission(c, baseFee, records)[i], SortForAdmission(c, baseFee, records)[j];
            Sender(x) == Sender(y) ==> x.tx.nonce <= y.tx.nonce
    ensures var x, y := SortByFee(c, baseFee, records)[i], SortByFee(c, baseFee, records)[j];
            Tip(x, baseFee) >= Tip(y, baseFee)
  {
    hide SortBy, KeyLe, Tip, AdmissionKey, FeeKey;
    SortedSizes(c, baseFee, records);
    SortBySorts(ByAdmission(c, baseFee), records);
    SortBySorts(ByFee(c, baseFee), records);
    AdmissionOrder(c, baseFee, SortForAdmission(c, baseFee, records)[i], SortForAdmission(c, baseFee, records)[j]);
    FeeOrder(c, baseFee, SortByFee(c, baseFee, records)[i], SortByFee(c, baseFee, records)[j]);
  }

  // ----- filtering

  datatype Filtered = Filtered(kept: seq<Record>, dropped: seq<Digest>, seen: set<Digest>)

  predicate Expired(r: Record, maxAge: u64, now: u64) {
    maxAge > 0 && SaturatingSub(now, r.receivedAt) > maxAge
  }

  /** Drops expired records, mined ones, and every repeat of a hash. */
  function Filter(mined: set<Digest>, records: seq<Record>, maxAge: u64, now: u64): Filtered {
    if records == [] then Filtered([], [], {}) else
      var before, r := Filter(mined, DropLast(records), maxAge, now), Last(records);
      if Expired(r, maxAge, now) || r.txHash in mined || r.txHash in before.seen
      then before.(dropped := before.dropped + [r.txHash])
      else Filtered(before.kept + [r], before.dropped, before.seen + {r.txHash})
  }

  method FilterCandidates(mined: set<Digest>, records: seq<Record>, maxAge: u64, now: u64)
    returns (kept: seq<Record>, dropped: seq<Digest>)
    ensures kept == Filter(mined, records, maxAge, now).kept
    ensures dropped == Filter(mined, records, maxAge, now).dropped
  {
    var seen: set<Digest> := {};
    kept, dropped := [], [];
    for i := 0 to |records|
      invariant Filter(mined, records[..i], maxAge, now) == Filtered(kept, dropped, seen)
    {
      assert DropLast(records[..i + 1]) == records[..i];
      var r := records[i];
      if maxAge > 0 && SaturatingSub(now, r.receivedAt) > maxAge {
        dropped := dropped + [r.txHash];
      } else if r.txHash in mined || r.txHash in seen {
        dropped := dropped + [r.txHash];
      } else {
        seen := seen + {r.txHash};
        kept := kept + [r];
      }
    }
    assert records[..|records|] == records;
  }

  ghost predicate Subset(a: seq<Record>, b: seq<Record>) { forall r :: r in a ==> r in b }

  /** Nothing disappears in the filter, and what it keeps is fresh, unmined and unrepeated. */
  lemma {:induction false} FilterMeaning(mined: set<Digest>, records: seq<Record>, maxAge: u64, now: u64)
    ensures var f := Filter(mined, records, maxAge, now);
            && Subset(f.kept, records)
            && (forall r :: r in records ==> r in f.kept || r.txHash in f.dropped)
            && (forall r :: r in f.kept ==> !Expired(r, maxAge, now) && r.txHash !in mined && r.txHash in f.seen)
            && (forall i, j :: 0 <= i < j < |f.kept| ==> f.kept[i].txHash != f.kept[j].txHash)
            && |f.kept| + |f.dropped| == |records|
  {
    if records != [] {
      FilterMeaning(mined, DropLast(records), maxAge, now);
      assert records == DropLast(records) + [Last(records)];
      var before := Filter(mined, DropLast(records), maxAge, now);
      forall i | 0 <= i < |before.kept| ensures before.kept[i].txHash in before.seen {
        assert before.kept[i] in before.kept;
      }
    }
  }

  /** An age limit of zero means none. */
  ghost predicate IsYoung(r: Record, maxAge: u64, now: u64) { maxAge == 0 || now <= r.receivedAt + maxAge }

  /** What the filter keeps is no older than allowed, and every hash that is unmined and has
      a young enough record is kept once. */
  lemma {:induction false} FilterIsExact(
    mined: set<Digest>, records: seq<Record>, maxAge: u64, now: u64, hash: Digest)
    ensures var kept := Filter(mined, records, maxAge, now).kept;
            HasHash(kept, hash) <==>
              hash !in mined &&
              exists i :: 0 <= i < |records| && records[i].txHash == hash && IsYoung(records[i], maxAge, now)
    ensures forall r :: r in Filter(mined, records, maxAge, now).kept ==> IsYoung(r, maxAge, now)
    ensures HasHash(Filter(mined, records, maxAge, now).kept, hash) <==>
            hash in Filter(mined, records, maxAge, now).seen
  {
    if records != [] {
      FilterIsExact(mined, DropLast(records), maxAge, now, hash);
      FilterIsExact(mined, DropLast(records), maxAge, now, Last(records).txHash);
      var before, after := Filter(mined, DropLast(records), maxAge, now), Filter(mined, records, maxAge, now);
      assert forall i :: 0 <= i < |records| - 1 ==> DropLast(records)[i] == records[i];
      assert after.kept == before.kept || after.kept == before.kept + [Last(records)];
      if after.kept != before.kept {
        assert after.kept[|before.kept|] == Last(records);
        assert forall i :: 0 <= i < |before.kept| ==> after.kept[i] == before.kept[i];
      }
    }
  }

  predicate HasHash(records: seq<Record>, hash: Digest) { exists i :: 0 <= i < |records| && records[i].txHash == hash }

  lemma {:induction false} FilterKeepsAll(mined: set<Digest>, records: seq<Record>, maxAge: u64, now: u64)
    requires forall i :: 0 <= i < |records| ==> !Expired(records[i], maxAge, now) && records[i].txHash !in mined
    requires forall i, j :: 0 <= i < j < |records| ==> records[i].txHash != records[j].txHash
    ensures Filter(mined, records, maxAge, now).kept == records
    ensures Filter(mined, records, maxAge, now).dropped == []
  {
    hide Expired, HasHash;
    if records != [] {
      FilterKeepsAll(mined, DropLast(records), maxAge, now);
      FilterIsExact(mined, DropLast(records), maxAge, now, Last(records).txHash);
      LastHashIsNew(records);
      assert records == DropLast(records) + [Last(records)];
    }
  }

  lemma {:induction false} LastHashIsNew(records: seq<Record>)
    requires records != []
    requires forall i, j :: 0 <= i < j < |records| ==> records[i].txHash != records[j].txHash
    ensures !HasHash(DropLast(records), Last(records).txHash)
  {
  }

  // ----- admission

  function ValidatePending(c: Crypto, s: Ledger, t: Transaction, baseFee: u64): Result<()> {
    var _ :- Need(!t.IsCoinbase(), InvalidInput);
    var _ :- ParseAddress(c, t.to);
    ValidateTransaction(c, s, t, baseFee)
  }

  datatype Admission = Admission(valid: seq<Record>, invalid: seq<Digest>, state: Ledger)

  function Admit(c: Crypto, s: Ledger, records: seq<Record>, baseFee: u64): Result<Admission> {
    if records == [] then Ok(Admission([], [], s)) else
      var before :- Admit(c, s, DropLast(records), baseFee);
      var r := Last(records);
      if ValidatePending(c, before.state, r.tx, baseFee).Err? then
        Ok(before.(invalid := before.invalid + [r.txHash]))
      else
        var step := ApplyTransaction(c, before.state, r.tx, baseFee);
        var _ :- step.result;
        Ok(before.(valid := before.valid + [r], state := step.state))
  }

  datatype Sanitized = Sanitized(valid: seq<Record>, dropped: seq<Digest>, state: Ledger)

  function Sanitize(
    c: Crypto, chain: Chain, mined: set<Digest>, records: seq<Record>, maxAge: u64, now: u64): Result<Sanitized>
  {
    var baseFee := NextBaseFee(chain.blocks);
    var filtered := Filter(mined, records, maxAge, now);
    var admission :- Admit(c, chain.state, SortForAdmission(c, baseFee, filtered.kept), baseFee);
    Ok(Sanitized(admission.valid, filtered.dropped + admission.invalid, admission.state))
  }

  lemma {:induction false} AdmitFailureIsFinal(c: Crypto, s: Ledger, records: seq<Record>, count: nat, baseFee: u64)
    requires count <= |records| && Admit(c, s, records[..count], baseFee).Err?
    ensures Admit(c, s, records, baseFee).Err?
    ensures Admit(c, s, records, baseFee).error == Admit(c, s, records[..count], baseFee).error
    decreases |records| - count
  {
    hide ValidatePending, ApplyTransaction;
    if count < |records| {
      assert DropLast(records[..count + 1]) == records[..count];
      AdmitFailureIsFinal(c, s, records, count + 1, baseFee);
    } else {
      assert records[..count] == records;
    }
  }

  /** Filter, sort, then admit one by one onto a copy of the tip ledger. */
  method SanitizePending(c: Crypto, chain: Chain, mined: set<Digest>, records: seq<Record>, maxAge: u64, now: u64)
    returns (r: Result<Sanitized>)
    ensures r == Sanitize(c, chain, mined, records, maxAge, now)
  {
    hide ApplyTransaction, ValidatePending, NextBaseFee, Filter, SortBy;
    var baseFee := NextBaseFee(chain.blocks);
    var candidates, dropped := FilterCandidates(mined, records, maxAge, now);
    var ordered := SortForAdmission(c, baseFee, candidates);
    var state, valid, invalid := chain.state, [], [];
    for i := 0 to |ordered|
      invariant Admit(c, chain.state, ordered[..i], baseFee) == Ok(Admission(valid, invalid, state))
    {
      assert DropLast(ordered[..i + 1]) == ordered[..i];
      if ValidatePending(c, state, ordered[i].tx, baseFee).Err? {
        invalid := invalid + [ordered[i].txHash];
      } else {
        var step := ApplyTransaction(c, state, ordered[i].tx, baseFee);
        if step.result.Err? {
          AdmitFailureIsFinal(c, chain.state, ordered, i + 1, baseFee);
          return Err(step.result.error);
        }
        state := step.state;
        valid := valid + [ordered[i]];
      }
    }
    assert ordered[..|ordered|] == ordered;
    r := Ok(Sanitized(valid, dropped + invalid, state));
  }

  // ----- what admission guarantees

  lemma {:induction false} ReplayOneMore(
    c: Crypto, s: Ledger, valid: seq<Record>, r: Record, baseFee: u64, before: Ledger)
    requires Replay(c, s, Txs(valid), baseFee) == Applied(before, Ok(()))
    requires ApplyTransaction(c, before, r.tx, baseFee).result.Ok?
    ensures Replay(c, s, Txs(valid + [r]), baseFee) == Applied(ApplyTransaction(c, before, r.tx, baseFee).state, Ok(()))
  {
    hide ApplyTransaction;
    assert DropLast(Txs(valid + [r])) == Txs(valid);
  }

  /** Admission never aborts on a ledger whose holdings fit in 64 bits; the admitted list
      applies in order; every candidate is admitted or reported. */
  lemma {:induction false} AdmitMeaning(c: Crypto, s: Ledger, records: seq<Record>, baseFee: u64)
    requires Held(s) <= U64_MAX
    ensures Admit(c, s, records, baseFee).Ok?
    ensures var a := Admit(c, s, records, baseFee).value;
            && NoCoinbase(Txs(a.valid))
            && Replay(c, s, Txs(a.valid), baseFee) == Applied(a.state, Ok(()))
            && Subset(a.valid, records)
            && (forall r :: r in records ==> r in a.valid || r.txHash in a.invalid)
            && |a.valid| + |a.invalid| == |records|
  {
    hide ApplyTransaction, ValidateTransaction, ValidatePending, Held, TxHash, ListEffect;
    if records != [] {
      AdmitMeaning(c, s, DropLast(records), baseFee);
      assert records == DropLast(records) + [Last(records)];
      var before, r := Admit(c, s, DropLast(records), baseFee).value, Last(records);
      if ValidatePending(c, before.state, r.tx, baseFee).Ok? {
        PendingIsSpend(c, before.state, r.tx, baseFee);
        ReplayEffect(c, s, Txs(before.valid), baseFee);
        SpendNeverOverflows(c, before.state, r.tx, baseFee);
        ReplayOneMore(c, s, before.valid, r, baseFee, before.state);
      }
    }
  }

  lemma {:induction false} PendingIsSpend(c: Crypto, s: Ledger, t: Transaction, baseFee: u64)
    requires ValidatePending(c, s, t, baseFee).Ok?
    ensures !t.IsCoinbase() && ValidateTransaction(c, s, t, baseFee).Ok?
  {
    hide ValidateTransaction;
  }

  /** A list that applies in order is admitted whole. */
  lemma {:induction false} AdmitAll(c: Crypto, s: Ledger, records: seq<Record>, baseFee: u64)
    requires NoCoinbase(Txs(records)) && Replay(c, s, Txs(records), baseFee).result.Ok?
    ensures Admit(c, s, records, baseFee) == Ok(Admission(records, [], Replay(c, s, Txs(records), baseFee).state))
  {
    hide ApplyTransaction, ValidateTransaction, ValidatePending, SpendEffect, TxHash;
    if records != [] {
      assert DropLast(Txs(records)) == Txs(DropLast(records));
      AdmitAll(c, s, DropLast(records), baseFee);
      var before := Replay(c, s, Txs(DropLast(records)), baseFee).state;
      SpendConserves(c, before, Last(records).tx, baseFee);
      ValidatedSpendIsPending(c, before, Last(records).tx, baseFee);
      assert records == DropLast(records) + [Last(records)];
    }
  }

  lemma {:induction false} ValidatedSpendIsPending(c: Crypto, s: Ledger, t: Transaction, baseFee: u64)
    requires !t.IsCoinbase() && ValidateTransaction(c, s, t, baseFee).Ok?
    ensures ValidatePending(c, s, t, baseFee).Ok?
  {
    hide Encode;
  }

  lemma {:induction false} AdmitKeepsOrder(
    c: Crypto, s: Ledger, records: seq<Record>, baseFee: u64, key: Record -> seq<int>)
    requires SortedBy(key, records) && Admit(c, s, records, baseFee).Ok?
    ensures SortedBy(key, Admit(c, s, records, baseFee).value.valid)
    ensures Subset(Admit(c, s, records, baseFee).value.valid, records)
  {
    hide ApplyTransaction, ValidatePending, KeyLe;
    if records != [] {
      var shorter := DropLast(records);
      AdmitKeepsOrder(c, s, shorter, baseFee, key);
      assert records == shorter + [Last(records)];
      var valid := Admit(c, s, shorter, baseFee).value.valid;
      forall i | 0 <= i < |valid| ensures KeyLe(key(valid[i]), key(Last(records))) {
        assert valid[i] in shorter;
        var k :| 0 <= k < |shorter| && shorter[k] == valid[i];
        assert records[k] == valid[i];
      }
    }
  }

  /** The pool invariant: the list applies in order to the tip ledger at the next base fee. */
  ghost predicate Pending(c: Crypto, chain: Chain, records: seq<Record>) {
    && Consistent(c, records)
    && NoCoinbase(Txs(records))
    && Replay(c, chain.state, Txs(records), NextBaseFee(chain.blocks)).result.Ok?
  }

  /** What the invariant means: no repeated and no mined hash, and for every sender a
      gapless run of nonces from the one the ledger expects. */
  lemma {:induction false} PendingMeaning(c: Crypto, chain: Chain, records: seq<Record>)
    requires Pending(c, chain, records) && ChainInvariant(c, chain)
    ensures forall i, j :: 0 <= i < j < |records| ==> records[i].txHash != records[j].txHash
    ensures forall i :: 0 <= i < |records| ==> records[i].txHash !in HashSet(c, AllTransactions(chain.blocks))
    ensures forall a :: NonceRun(SpendNonces(Txs(records), a), chain.state.NextNonceOf(a))
  {
    hide Replay, TxHash, NonceRun, Sound, Linked, TipMatches, NoncesMatch;
    ReplayEffect(c, chain.state, Txs(records), NextBaseFee(chain.blocks));
    var after := Replay(c, chain.state, Txs(records), NextBaseFee(chain.blocks)).state;
    forall i | 0 <= i < |records| ensures records[i].txHash !in chain.state.applied {
      assert TxHash(c, Txs(records)[i]) in HashSet(c, Txs(records));
    }
    forall i, j | 0 <= i < j < |records| ensures records[i].txHash != records[j].txHash {
      assert TxHash(c, Txs(records)[i]) != TxHash(c, Txs(records)[j]);
    }
    forall a ensures NonceRun(SpendNonces(Txs(records), a), chain.state.NextNonceOf(a)) {
      assert NonceEffect(chain.state, after, Txs(records), a);
    }
  }

  /** Every pending transaction is a well-shaped spend signed by its sender. */
  lemma {:induction false} PendingAreSigned(c: Crypto, chain: Chain, records: seq<Record>, i: nat)
    requires Pending(c, chain, records) && i < |records|
    ensures WellShaped(c, records[i].tx) && SignedBySender(c, records[i].tx)
  {
    hide TxHash, Replay, Verify, WellShaped, SignedBySender, NextBaseFee;
    ReplayedAreVerified(c, chain.state, Txs(records), NextBaseFee(chain.blocks), i);
    assert !Txs(records)[i].IsCoinbase();
    VerifyMeaning(c, records[i].tx);
  }

  lemma {:induction false} ReplayedAreVerified(c: Crypto, s: Ledger, txs: seq<Transaction>, baseFee: u64, i: nat)
    requires NoCoinbase(txs) && Replay(c, s, txs, baseFee).result.Ok? && i < |txs|
    ensures Verify(c, txs[i]).Ok?
    decreases |txs|
  {
    hide ApplyTransaction, Verify, TxHash, ValidateTransaction, SpendEffect;
    if i < |txs| - 1 {
      ReplayedAreVerified(c, s, DropLast(txs), baseFee, i);
    } else {
      var before := Replay(c, s, DropLast(txs), baseFee).state;
      SpendConserves(c, before, Last(txs), baseFee);
      ValidatedIsVerified(c, before, Last(txs), baseFee);
    }
  }

  lemma {:induction false} ValidatedIsVerified(c: Crypto, s: Ledger, t: Transaction, baseFee: u64)
    requires !t.IsCoinbase() && ValidateTransaction(c, s, t, baseFee).Ok?
    ensures Verify(c, t).Ok?
  {
    hide TxHash, Verify;
  }

  lemma {:induction false} SubsetConsistent(c: Crypto, a: seq<Record>, b: seq<Record>)
    requires Subset(a, b) && Consistent(c, b)
    ensures Consistent(c, a)
  {
    hide TxHash;
    forall i | 0 <= i < |a| ensures a[i].txHash == TxHash(c, a[i].tx) {
      assert a[i] in b;
    }
  }

  lemma {:induction false} SortedSubset(c: Crypto, baseFee: u64, records: seq<Record>)
    ensures Subset(SortForAdmission(c, baseFee, records), records)
    ensures forall r :: r in records ==> r in SortForAdmission(c, baseFee, records)
    ensures |SortForAdmission(c, baseFee, records)| == |records|
  {
    hide SortBy;
    var sorted := SortForAdmission(c, baseFee, records);
    SortByPermutes(ByAdmission(c, baseFee), records);
    assert |multiset(sorted)| == |multiset(records)|;
    forall r | r in sorted ensures r in records { SharedElement(sorted, records, r); }
    forall r | r in records ensures r in sorted { SharedElement(records, sorted, r); }
  }

  /** Sanitizing on an accepted chain never aborts, restores the pool invariant, loses no
      record silently, and only ever shrinks the list. */
  lemma {:induction false} SanitizeMeaning(
    c: Crypto, chain: Chain, mined: set<Digest>, records: seq<Record>, maxAge: u64, now: u64)
    requires ChainInvariant(c, chain) && Consistent(c, records)
    ensures Sanitize(c, chain, mined, records, maxAge, now).Ok?
    ensures var s := Sanitize(c, chain, mined, records, maxAge, now).value;
            && Pending(c, chain, s.valid)
            && Applied(s.state, Ok(())) == Replay(c, chain.state, Txs(s.valid), NextBaseFee(chain.blocks))
            && Subset(s.valid, records)
            && |s.valid| + |s.dropped| == |records|
            && (forall r :: r in records ==> r in s.valid || r.txHash in s.dropped)
            && (forall r :: r in records && r.txHash in mined ==> r.txHash in s.dropped)
  {
    hide Replay, TxHash, Filter, Admit, SortForAdmission, Linked, TipMatches, NoncesMatch, HashSet, Held;
    var baseFee := NextBaseFee(chain.blocks);
    var filtered := Filter(mined, records, maxAge, now);
    FilterMeaning(mined, records, maxAge, now);
    SortedSubset(c, baseFee, filtered.kept);
    HeldFits(chain.state);
    AdmitMeaning(c, chain.state, SortForAdmission(c, baseFee, filtered.kept), baseFee);
    var s := Sanitize(c, chain, mined, records, maxAge, now).value;
    assert Subset(s.valid, records);
    SubsetConsistent(c, s.valid, records);
    forall r | r in records && r.txHash in mined ensures r.txHash in s.dropped {
      assert r !in filtered.kept;
    }
  }

  lemma {:induction false} HeldFits(s: Ledger)
    requires Sound(s)
    ensures Held(s) <= U64_MAX
  {
    hide Emission.Emitted, Held;
    Emission.EmittedBounded(BlockCount(s));
  }

  /** Sanitizing twice at one moment on one tip changes nothing the second time. */
  lemma {:induction false} SanitizeIsIdempotent(
    c: Crypto, chain: Chain, mined: set<Digest>, records: seq<Record>, maxAge: u64, now: u64)
    requires ChainInvariant(c, chain) && Consistent(c, records)
    ensures Sanitize(c, chain, mined, records, maxAge, now).Ok?
    ensures var s := Sanitize(c, chain, mined, records, maxAge, now).value;
            Sanitize(c, chain, mined, s.valid, maxAge, now) == Ok(Sanitized(s.valid, [], s.state))
  {
    hide Replay, TxHash, Filter, Admit, SortBy, Linked, TipMatches, NoncesMatch, HashSet, Held, Sound, KeyLe;
    SanitizeMeaning(c, chain, mined, records, maxAge, now);
    var baseFee := NextBaseFee(chain.blocks);
    var key := ByAdmission(c, baseFee);
    var filtered := Filter(mined, records, maxAge, now);
    var sorted := SortForAdmission(c, baseFee, filtered.kept);
    var valid := Sanitize(c, chain, mined, records, maxAge, now).value.valid;
    FilterMeaning(mined, records, maxAge, now);
    SortBySorts(key, filtered.kept);
    AdmitKeepsOrder(c, chain.state, sorted, baseFee, key);
    SortedSubset(c, baseFee, filtered.kept);
    PendingMeaning(c, chain, valid);
    forall i | 0 <= i < |valid| ensures !Expired(valid[i], maxAge, now) && valid[i].txHash !in mined {
      assert valid[i] in valid && valid[i] in sorted && valid[i] in filtered.kept;
    }
    FilterKeepsAll(mined, valid, maxAge, now);
    SortedIsFixed(key, valid);
    AdmitAll(c, chain.state, valid, baseFee);
    var none: seq<Digest> := [];
    assert none + none == none;
  }
}
