/** Choosing pending transactions for a block template: repeated fee-first passes in which
    a transaction may be unlocked by its parent (mempool.rs). */
module TemplateSelection {
  import opened Prelude
  import opened Primitives
  import opened Transactions
  import opened Consensus
  import opened Ledgers
  import opened Chains
  import opened Sorting
  import opened Mempool

  datatype Selection = Selection(state: Ledger, selected: seq<Record>, rest: seq<Record>, progress: bool)

  function Hashes(records: seq<Record>): (r: seq<Digest>)
    ensures |r| == |records| && forall i :: 0 <= i < |r| ==> r[i] == records[i].txHash
  {
    seq(|records|, i requires 0 <= i < |records| => records[i].txHash)
  }

  function Consider(c: Crypto, baseFee: u64, limit: nat, s: Selection, r: Record): Result<Selection> {
    if |s.selected| >= limit then Ok(s.(rest := s.rest + [r]))
    else if r.txHash in Hashes(s.selected) then Ok(s)
    else if ValidatePending(c, s.state, r.tx, baseFee).Err? then Ok(s.(rest := s.rest + [r]))
    else
      var step := ApplyTransaction(c, s.state, r.tx, baseFee);
      var _ :- step.result;
      Ok(Selection(step.state, s.selected + [r], s.rest, true))
  }

  function PassOver(c: Crypto, baseFee: u64, limit: nat, start: Selection, records: seq<Record>): Result<Selection> {
    if records == [] then Ok(start) else
      var before :- PassOver(c, baseFee, limit, start, DropLast(records));
      Consider(c, baseFee, limit, before, Last(records))
  }

  function RunPasses(c: Crypto, baseFee: u64, limit: nat, s: Selection, passes: nat): Result<Selection>
    decreases passes
  {
    if passes == 0 || |s.selected| >= limit || s.rest == [] then Ok(s) else
      var next :- PassOver(c, baseFee, limit, s.(rest := [], progress := false), s.rest);
      if next.progress then RunPasses(c, baseFee, limit, next, passes - 1) else Ok(next)
  }

  function Candidates(c: Crypto, chain: Chain, mined: set<Digest>, records: seq<Record>, now: u64): seq<Record> {
    SortByFee(c, NextBaseFee(chain.blocks), Filter(mined, records, MAX_AGE, now).kept)
  }

  function Select(c: Crypto, chain: Chain, mined: set<Digest>, records: seq<Record>, limit: nat, now: u64)
    : Result<(seq<Record>, seq<Digest>)>
  {
    if limit == 0 then Ok(([], [])) else
      var candidates := Candidates(c, chain, mined, records, now);
      var s :- RunPasses(c, NextBaseFee(chain.blocks), limit, Selection(chain.state, [], candidates, false),
          Min(|candidates| + 1, 64));
      Ok((s.selected, Filter(mined, records, MAX_AGE, now).dropped + Hashes(s.rest)))
  }

  // ----- the loops

  lemma {:induction false} PassFailureIsFinal(
    c: Crypto, baseFee: u64, limit: nat, start: Selection, records: seq<Record>, count: nat)
    requires count <= |records| && PassOver(c, baseFee, limit, start, records[..count]).Err?
    ensures PassOver(c, baseFee, limit, start, records) == PassOver(c, baseFee, limit, start, records[..count])
    decreases |records| - count
  {
    hide Consider;
    if count < |records| {
      assert DropLast(records[..count + 1]) == records[..count];
      PassFailureIsFinal(c, baseFee, limit, start, records, count + 1);
    } else {
      assert records[..count] == records;
    }
  }

  method OnePass(c: Crypto, baseFee: u64, limit: nat, start: Selection) returns (r: Result<Selection>)
    ensures r == PassOver(c, baseFee, limit, start.(rest := [], progress := false), start.rest)
  {
    hide ApplyTransaction, ValidatePending;
    var remaining := start.rest;
    var state, selected, stillPending, progress := start.state, start.selected, [], false;
    ghost var from := start.(rest := [], progress := false);
    for i := 0 to |remaining|
      invariant PassOver(c, baseFee, limit, from, remaining[..i]) ==
                Ok(Selection(state, selected, stillPending, progress))
    {
      assert DropLast(remaining[..i + 1]) == remaining[..i];
      var record := remaining[i];
      if |selected| >= limit {
        stillPending := stillPending + [record];
      } else if record.txHash in Hashes(selected) {
      } else if ValidatePending(c, state, record.tx, baseFee).Err? {
        stillPending := stillPending + [record];
      } else {
        var step := ApplyTransaction(c, state, record.tx, baseFee);
        if step.result.Err? {
          PassFailureIsFinal(c, baseFee, limit, from, remaining, i + 1);
          return Err(step.result.error);
        }
        state := step.state;
        selected := selected + [record];
        progress := true;
      }
    }
    assert remaining[..|remaining|] == remaining;
    r := Ok(Selection(state, selected, stillPending, progress));
  }

  method SelectPending(c: Crypto, chain: Chain, mined: set<Digest>, records: seq<Record>, limit: nat, now: u64)
    returns (r: Result<(seq<Record>, seq<Digest>)>)
    ensures r == Select(c, chain, mined, records, limit, now)
  {
    hide PassOver, NextBaseFee, Filter, SortByFee;
    if limit == 0 {
      return Ok(([], []));
    }
    var baseFee := NextBaseFee(chain.blocks);
    var kept, skipped := FilterCandidates(mined, records, MAX_AGE, now);
    var candidates := SortByFee(c, baseFee, kept);
    var s := Selection(chain.state, [], candidates, false);
    var passes := Min(|candidates| + 1, 64);
    ghost var goal := RunPasses(c, baseFee, limit, s, passes);
    while passes > 0
      invariant passes >= 0 && RunPasses(c, baseFee, limit, s, passes) == goal
    {
      if |s.selected| >= limit || s.rest == [] {
        break;
      }
      var next := OnePass(c, baseFee, limit, s);
      if next.Err? {
        return Err(next.error);
      }
      s := next.value;
      passes := passes - 1;
      if !s.progress {
        break;
      }
    }
    assert goal == Ok(s);
    r := Ok((s.selected, skipped + Hashes(s.rest)));
  }

  // ----- what a selection guarantees

  ghost predicate Selecting(c: Crypto, first: Ledger, baseFee: u64, limit: nat, s: Selection) {
    && |s.selected| <= limit
    && NoCoinbase(Txs(s.selected))
    && Replay(c, first, Txs(s.selected), baseFee) == Applied(s.state, Ok(()))
  }

  lemma {:induction false} ConsiderKeeps(c: Crypto, first: Ledger, baseFee: u64, limit: nat, s: Selection, r: Record)
    requires Held(first) <= U64_MAX && Selecting(c, first, baseFee, limit, s)
    ensures Consider(c, baseFee, limit, s, r).Ok?
    ensures Selecting(c, first, baseFee, limit, Consider(c, baseFee, limit, s, r).value)
  {
    hide ApplyTransaction, ValidatePending, ValidateTransaction, Held, Replay, ListEffect;
    if |s.selected| < limit && ValidatePending(c, s.state, r.tx, baseFee).Ok? {
      PendingIsSpend(c, s.state, r.tx, baseFee);
      ReplayEffect(c, first, Txs(s.selected), baseFee);
      SpendNeverOverflows(c, s.state, r.tx, baseFee);
      ReplayOneMore(c, first, s.selected, r, baseFee, s.state);
    }
  }

  /** Where the records of a pass can go. */
  ghost predicate Accounted(s: Selection, start: seq<Record>, records: seq<Record>) {
    && (forall r :: r in s.selected ==> r in start || r in records)
    && (forall r :: r in s.rest ==> r in records)
    && (forall r :: r in start ==> r in s.selected)
    && (forall r :: r in records ==> r.txHash in Hashes(s.selected) || r in s.rest)
  }

  lemma {:induction false} InHashes(records: seq<Record>, r: Record)
    requires r in records
    ensures r.txHash in Hashes(records)
  {
    var k :| 0 <= k < |records| && records[k] == r;
    assert Hashes(records)[k] == r.txHash;
  }

  lemma {:induction false} HashesGrow(records: seq<Record>, r: Record)
    ensures forall d :: d in Hashes(records) ==> d in Hashes(records + [r])
  {
    assert Hashes(records + [r]) == Hashes(records) + [r.txHash];
  }

  lemma {:induction false} PassKeeps(
    c: Crypto, first: Ledger, baseFee: u64, limit: nat, start: Selection, records: seq<Record>)
    requires Held(first) <= U64_MAX && Selecting(c, first, baseFee, limit, start) && start.rest == [] && !start.progress
    ensures PassOver(c, baseFee, limit, start, records).Ok?
    ensures var s := PassOver(c, baseFee, limit, start, records).value;
            && Selecting(c, first, baseFee, limit, s)
            && Accounted(s, start.selected, records)
            && |s.rest| <= |records|
            && (s.progress ==> |s.rest| < |records| && |s.selected| > |start.selected|)
            && |s.selected| >= |start.selected|
            && (!s.progress ==> s.state == start.state && s.selected == start.selected)
    decreases |records|
  {
    hide Held, Replay, ApplyTransaction, ValidatePending, Selecting, Accounted, Consider;
    if records == [] {
      NothingConsidered(start);
    } else {
      PassKeeps(c, first, baseFee, limit, start, DropLast(records));
      var before := PassOver(c, baseFee, limit, start, DropLast(records)).value;
      ConsiderKeeps(c, first, baseFee, limit, before, Last(records));
      ConsiderMoves(c, baseFee, limit, before, Last(records));
      AccountedStep(before, Consider(c, baseFee, limit, before, Last(records)).value, start.selected, records);
    }
  }

  /** A considered record is taken, already taken, or left for later. */
  ghost predicate Placed(before: Selection, after: Selection, r: Record) {
    || (after.selected == before.selected + [r] && after.rest == before.rest && after.progress)
    || (after == before && r.txHash in Hashes(before.selected))
    || after == before.(rest := before.rest + [r])
  }

  lemma {:induction false} ConsiderMoves(c: Crypto, baseFee: u64, limit: nat, s: Selection, r: Record)
    requires Consider(c, baseFee, limit, s, r).Ok?
    ensures Placed(s, Consider(c, baseFee, limit, s, r).value, r)
  {
    hide ApplyTransaction, ValidatePending, Hashes;
  }

  lemma {:induction false} NothingConsidered(start: Selection)
    requires start.rest == []
    ensures Accounted(start, start.selected, [])
  {
  }

  lemma {:induction false} AccountedStep(before: Selection, after: Selection, start: seq<Record>, records: seq<Record>)
    requires records != [] && Accounted(before, start, DropLast(records)) && Placed(before, after, Last(records))
    ensures Accounted(after, start, records)
  {
    hide Hashes;
    assert records == DropLast(records) + [Last(records)];
    HashesGrow(before.selected, Last(records));
    InHashes(before.selected + [Last(records)], Last(records));
  }

  /** After a pass without progress, every leftover was refused by the final ledger. */
  lemma {:induction false} StuckPassRefuses(
    c: Crypto, first: Ledger, baseFee: u64, limit: nat, start: Selection, records: seq<Record>)
    requires Held(first) <= U64_MAX && Selecting(c, first, baseFee, limit, start) && start.rest == [] && !start.progress
    requires PassOver(c, baseFee, limit, start, records).Ok?
    requires !PassOver(c, baseFee, limit, start, records).value.progress
    requires |start.selected| < limit
    ensures forall r :: r in PassOver(c, baseFee, limit, start, records).value.rest ==>
            ValidatePending(c, start.state, r.tx, baseFee).Err?
    decreases |records|
  {
    hide Held, Replay, ApplyTransaction, ValidatePending, Selecting, Accounted;
    if records != [] {
      PassKeeps(c, first, baseFee, limit, start, DropLast(records));
      StuckPassRefuses(c, first, baseFee, limit, start, DropLast(records));
    }
  }

  ghost predicate CannotGrow(c: Crypto, baseFee: u64, limit: nat, s: Selection) {
    |s.selected| >= limit || forall r :: r in s.rest ==> ValidatePending(c, s.state, r.tx, baseFee).Err?
  }

  lemma {:induction false} PassesKeep(c: Crypto, first: Ledger, baseFee: u64, limit: nat, s: Selection, passes: nat)
    requires Held(first) <= U64_MAX && Selecting(c, first, baseFee, limit, s)
    ensures RunPasses(c, baseFee, limit, s, passes).Ok?
    ensures var e := RunPasses(c, baseFee, limit, s, passes).value;
            && Selecting(c, first, baseFee, limit, e)
            && (forall r :: r in e.selected ==> r in s.selected || r in s.rest)
            && (forall r :: r in e.rest ==> r in s.rest)
            && (forall d :: d in Hashes(s.selected) ==> d in Hashes(e.selected))
            && (forall r :: r in s.rest ==> r.txHash in Hashes(e.selected) || r in e.rest)
            && |e.selected| >= |s.selected|
            && (passes >= |s.rest| ==> CannotGrow(c, baseFee, limit, e))
            && (|e.selected| < |s.selected| + passes ==> CannotGrow(c, baseFee, limit, e))
    decreases passes
  {
    hide Held, Replay, ApplyTransaction, ValidatePending, Selecting, PassOver;
    if passes > 0 && |s.selected| < limit && s.rest != [] {
      var start := s.(rest := [], progress := false);
      assert Selecting(c, first, baseFee, limit, start) by { SelectingIgnoresRest(c, first, baseFee, limit, s, start); }
      PassKeeps(c, first, baseFee, limit, start, s.rest);
      var next := PassOver(c, baseFee, limit, start, s.rest).value;
      forall d | d in Hashes(s.selected) ensures d in Hashes(next.selected) {
        var k :| 0 <= k < |s.selected| && Hashes(s.selected)[k] == d;
        InHashes(next.selected, s.selected[k]);
      }
      if next.progress {
        PassesKeep(c, first, baseFee, limit, next, passes - 1);
      } else {
        StuckPassRefuses(c, first, baseFee, limit, start, s.rest);
      }
    }
  }

  lemma {:induction false} SelectingIgnoresRest(
    c: Crypto, first: Ledger, baseFee: u64, limit: nat, s: Selection, t: Selection)
    requires Selecting(c, first, baseFee, limit, s) && t.state == s.state && t.selected == s.selected
    ensures Selecting(c, first, baseFee, limit, t)
  {
  }

  /** A selection on an accepted chain always succeeds, applies in order, respects the limit,
      takes only offered records and reports every record it leaves behind. It is maximal,
      so that nothing left over could still be appended, unless more than 64 candidates were
      offered and the 64 passes already selected at least 64. */
  lemma {:induction false} SelectMeaning(
    c: Crypto, chain: Chain, mined: set<Digest>, records: seq<Record>, limit: nat, now: u64)
    requires ChainInvariant(c, chain) && Consistent(c, records)
    ensures Select(c, chain, mined, records, limit, now).Ok?
    ensures var (selected, skipped) := Select(c, chain, mined, records, limit, now).value;
            var candidates, baseFee := Candidates(c, chain, mined, records, now), NextBaseFee(chain.blocks);
            && Pending(c, chain, selected)
            && |selected| <= limit
            && Subset(selected, records)
            && (limit > 0 ==> forall r :: r in records ==> r.txHash in Hashes(selected) || r.txHash in skipped)
            && (|selected| < limit && (|candidates| <= 64 || |selected| < 64) ==>
                 forall r :: r in candidates && r.txHash !in Hashes(selected) ==>
                   ValidatePending(c, Replay(c, chain.state, Txs(selected), baseFee).state, r.tx, baseFee).Err?)
  {
    hide Held, ApplyTransaction, ValidatePending, RunPasses, Filter, SortByFee, Linked, TipMatches, NoncesMatch,
         HashSet, NextBaseFee, TxHash, Replay;
    var baseFee := NextBaseFee(chain.blocks);
    HeldFits(chain.state);
    FilterMeaning(mined, records, MAX_AGE, now);
    var kept := Filter(mined, records, MAX_AGE, now).kept;
    var candidates := Candidates(c, chain, mined, records, now);
    FeeSortSubset(c, baseFee, kept);
    var start := Selection(chain.state, [], candidates, false);
    ReplayNothing(c, chain.state, baseFee);
    assert Txs(start.selected) == [];
    PassesKeep(c, chain.state, baseFee, limit, start, Min(|candidates| + 1, 64));
    var end := RunPasses(c, baseFee, limit, start, Min(|candidates| + 1, 64)).value;
    var (selected, skipped) := Select(c, chain, mined, records, limit, now).value;
    if limit > 0 {
      SubsetConsistent(c, selected, records);
      forall r | r in records ensures r.txHash in Hashes(selected) || r.txHash in skipped {
        if r in end.rest { InHashes(end.rest, r); }
      }
    }
  }

  lemma {:induction false} ReplayNothing(c: Crypto, s: Ledger, baseFee: u64)
    ensures Replay(c, s, [], baseFee) == Applied(s, Ok(()))
  {
  }

  lemma {:induction false} FeeSortSubset(c: Crypto, baseFee: u64, records: seq<Record>)
    ensures forall r :: r in records <==> r in SortByFee(c, baseFee, records)
  {
    hide SortBy;
    var sorted := SortByFee(c, baseFee, records);
    SortByPermutes(ByFee(c, baseFee), records);
    forall r | r in sorted ensures r in records { SharedElement(sorted, records, r); }
    forall r | r in records ensures r in sorted { SharedElement(records, sorted, r); }
  }

  // ----- which transaction comes first

  ghost predicate Admissible(c: Crypto, baseFee: u64, s: Ledger, r: Record) {
    ValidatePending(c, s, r.tx, baseFee).Ok?
  }

  lemma {:induction false} NothingPicked(c: Crypto, baseFee: u64, limit: nat, start: Selection, records: seq<Record>)
    requires start.selected == [] && limit > 0
    requires forall i :: 0 <= i < |records| ==> !Admissible(c, baseFee, start.state, records[i])
    ensures PassOver(c, baseFee, limit, start, records).Ok?
    ensures PassOver(c, baseFee, limit, start, records).value.selected == []
    ensures PassOver(c, baseFee, limit, start, records).value.state == start.state
    decreases |records|
  {
    hide ApplyTransaction, ValidatePending;
    if records != [] {
      NothingPicked(c, baseFee, limit, start, DropLast(records));
      assert records[|records| - 1] == Last(records);
    }
  }

  /** A pass from nothing selects the first admissible record first. */
  lemma {:induction false} FirstPicked(
    c: Crypto, baseFee: u64, limit: nat, start: Selection, records: seq<Record>, k: nat)
    requires start.selected == [] && limit > 0 && k < |records| && Admissible(c, baseFee, start.state, records[k])
    requires forall i :: 0 <= i < k ==> !Admissible(c, baseFee, start.state, records[i])
    requires PassOver(c, baseFee, limit, start, records).Ok?
    ensures var s := PassOver(c, baseFee, limit, start, records).value; s.selected != [] && s.selected[0] == records[k]
    decreases |records|
  {
    hide ApplyTransaction, ValidatePending;
    if k == |records| - 1 {
      NothingPicked(c, baseFee, limit, start, DropLast(records));
    } else {
      FirstPicked(c, baseFee, limit, start, DropLast(records), k);
    }
  }

  lemma {:induction false} PassExtends(c: Crypto, baseFee: u64, limit: nat, start: Selection, records: seq<Record>)
    requires PassOver(c, baseFee, limit, start, records).Ok?
    ensures start.selected <= PassOver(c, baseFee, limit, start, records).value.selected
    decreases |records|
  {
    hide ApplyTransaction, ValidatePending;
    if records != [] {
      PassExtends(c, baseFee, limit, start, DropLast(records));
    }
  }

  lemma {:induction false} PassesExtend(c: Crypto, baseFee: u64, limit: nat, s: Selection, passes: nat)
    requires RunPasses(c, baseFee, limit, s, passes).Ok?
    ensures s.selected <= RunPasses(c, baseFee, limit, s, passes).value.selected
    decreases passes
  {
    hide PassOver;
    if passes > 0 && |s.selected| < limit && s.rest != [] {
      PassExtends(c, baseFee, limit, s.(rest := [], progress := false), s.rest);
      var next := PassOver(c, baseFee, limit, s.(rest := [], progress := false), s.rest).value;
      if next.progress {
        PassesExtend(c, baseFee, limit, next, passes - 1);
      }
    }
  }

  lemma {:induction false} LeastAdmissible(
    c: Crypto, baseFee: u64, s: Ledger, records: seq<Record>, i: nat) returns (k: nat)
    requires i < |records| && Admissible(c, baseFee, s, records[i])
    ensures k <= i && Admissible(c, baseFee, s, records[k])
    ensures forall j :: 0 <= j < k ==> !Admissible(c, baseFee, s, records[j])
  {
    hide Admissible;
    k := 0;
    while !Admissible(c, baseFee, s, records[k])
      invariant k <= i && forall j :: 0 <= j < k ==> !Admissible(c, baseFee, s, records[j])
      decreases i - k
    {
      k := k + 1;
    }
  }

  /** The selection leads with the best: no candidate that the tip ledger admits offers a
      higher tip than the first transaction selected. */
  lemma {:induction false} BestTipLeads(
    c: Crypto, chain: Chain, mined: set<Digest>, records: seq<Record>, limit: nat, now: u64, r: Record)
    requires ChainInvariant(c, chain) && Consistent(c, records) && limit > 0
    requires r in Filter(mined, records, MAX_AGE, now).kept
    requires Admissible(c, NextBaseFee(chain.blocks), chain.state, r)
    ensures Select(c, chain, mined, records, limit, now).Ok?
    ensures var selected, baseFee := Select(c, chain, mined, records, limit, now).value.0, NextBaseFee(chain.blocks);
            && selected != [] && Admissible(c, baseFee, chain.state, selected[0])
            && Tip(selected[0], baseFee) >= Tip(r, baseFee)
  {
    hide Filter, Tip, SortByFee, Admissible, NextBaseFee, RunPasses, ChainInvariant, Pending, TxHash;
    var baseFee, kept := NextBaseFee(chain.blocks), Filter(mined, records, MAX_AGE, now).kept;
    SelectMeaning(c, chain, mined, records, limit, now);
    var candidates := Candidates(c, chain, mined, records, now);
    FeeSortSubset(c, baseFee, kept);
    var i :| 0 <= i < |candidates| && candidates[i] == r;
    var k := LeastAdmissible(c, baseFee, chain.state, candidates, i);
    SortedSizes(c, baseFee, kept);
    if k < i { SortedRecords(c, baseFee, kept, k, i); }
    FirstOfPasses(c, baseFee, limit, Selection(chain.state, [], candidates, false), Min(|candidates| + 1, 64), k);
  }

  lemma {:induction false} FirstOfPasses(
    c: Crypto, baseFee: u64, limit: nat, s: Selection, passes: nat, k: nat)
    requires s.selected == [] && !s.progress && limit > 0 && passes > 0
    requires k < |s.rest| && Admissible(c, baseFee, s.state, s.rest[k])
    requires forall i :: 0 <= i < k ==> !Admissible(c, baseFee, s.state, s.rest[i])
    requires RunPasses(c, baseFee, limit, s, passes).Ok?
    ensures var e := RunPasses(c, baseFee, limit, s, passes).value; e.selected != [] && e.selected[0] == s.rest[k]
  {
    hide Admissible, PassOver;
    var first := s.(rest := []);
    assert first == s.(rest := [], progress := false);
    FirstPicked(c, baseFee, limit, first, s.rest, k);
    var next := PassOver(c, baseFee, limit, first, s.rest).value;
    if next.progress {
      PassesExtend(c, baseFee, limit, next, passes - 1);
    }
  }
}
