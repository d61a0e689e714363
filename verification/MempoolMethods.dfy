/** The pool operations as the node runs them: maps and lists filled and trimmed in loops
    (mempool.rs, devnet.rs). */
module MempoolMethods {
  import opened Prelude
  import opened Primitives
  import opened Transactions
  import opened Blocks
  import opened Consensus
  import opened Ledgers
  import opened Chains
  import opened Sorting
  import opened Mempool
  import opened MempoolEvents

  // ----- the cheapest package

  lemma {:induction false} LeastIsVictim(records: seq<Record>, baseFee: u64, incomingTip: u64, best: Str)
    requires Cheaper(records, best, baseFee, incomingTip)
    requires forall sender :: Cheaper(records, sender, baseFee, incomingTip) ==>
             KeyLe(PackageKey(records, best, baseFee), PackageKey(records, sender, baseFee))
    ensures Victim(records, baseFee, incomingTip) == Some(best)
  {
    hide KeyLe, PackageOf, VictimAmong;
    VictimMeaning(records, baseFee, incomingTip);
    var v := Victim(records, baseFee, incomingTip).value;
    KeyAntisymmetric(PackageKey(records, v, baseFee), PackageKey(records, best, baseFee));
    assert v == PackageKey(records, v, baseFee)[2..] && best == PackageKey(records, best, baseFee)[2..];
  }

  /** The map from sender to least tip and earliest arrival. */
  method GatherPackages(records: seq<Record>, baseFee: u64) returns (packages: map<Str, Package>)
    ensures forall sender :: PackageOf(records, sender, baseFee) ==
              if sender in packages then Some(packages[sender]) else None
  {
    hide Tip;
    packages := map[];
    for i := 0 to |records|
      invariant forall sender :: PackageOf(records[..i], sender, baseFee) ==
                  if sender in packages then Some(packages[sender]) else None
    {
      assert DropLast(records[..i + 1]) == records[..i];
      var r := records[i];
      if r.tx.from.Some? {
        var sender, tip := r.tx.from.value, Tip(r, baseFee);
        var entry := if sender in packages then packages[sender] else Package(tip, r.receivedAt);
        packages := packages[sender := Package(Min(entry.minTip, tip), Min(entry.oldest, r.receivedAt))];
      }
    }
    assert records[..|records|] == records;
  }

  function PackageRank(p: Package, sender: Str): seq<int> { [p.minTip, p.oldest] + sender }

  method LowestFeePackage(records: seq<Record>, baseFee: u64, incomingTip: u64) returns (victim: Option<Str>)
    ensures victim == Victim(records, baseFee, incomingTip)
  {
    hide KeyLe, PackageOf, VictimAmong, PackageKey;
    var packages := GatherPackages(records, baseFee);
    victim := None;
    var todo := packages.Keys;
    while todo != {}
      invariant todo <= packages.Keys
      invariant victim.Some? ==> victim.value in packages && Cheaper(records, victim.value, baseFee, incomingTip)
      invariant forall sender :: sender in packages && sender !in todo &&
                                    Cheaper(records, sender, baseFee, incomingTip) ==>
        victim.Some? && KeyLe(PackageKey(records, victim.value, baseFee), PackageKey(records, sender, baseFee))
      decreases |todo|
    {
      var sender :| sender in todo;
      ghost var key := PackageKey(records, sender, baseFee);
      KeyReflexive(key);
      CheaperIs(records, sender, baseFee, incomingTip, packages[sender]);
      if packages[sender].minTip < incomingTip {
        if victim.None? {
          victim := Some(sender);
        } else {
          ghost var bestKey := PackageKey(records, victim.value, baseFee);
          KeyTotal(key, bestKey);
          CheaperIs(records, victim.value, baseFee, incomingTip, packages[victim.value]);
          if KeyLe(PackageRank(packages[sender], sender), PackageRank(packages[victim.value], victim.value)) {
            forall other | other in packages && other !in todo && Cheaper(records, other, baseFee, incomingTip)
              ensures KeyLe(key, PackageKey(records, other, baseFee)) {
              KeyTransitive(key, bestKey, PackageKey(records, other, baseFee));
            }
            victim := Some(sender);
          }
        }
      }
      todo := todo - {sender};
    }
    VictimMeaning(records, baseFee, incomingTip);
    forall sender | Cheaper(records, sender, baseFee, incomingTip) ensures sender in packages {
      assert PackageOf(records, sender, baseFee).Some?;
    }
    if victim.Some? {
      LeastIsVictim(records, baseFee, incomingTip, victim.value);
    }
  }

  lemma {:induction false} CheaperIs(records: seq<Record>, sender: Str, baseFee: u64, incomingTip: u64, p: Package)
    requires PackageOf(records, sender, baseFee) == Some(p)
    ensures Cheaper(records, sender, baseFee, incomingTip) <==> p.minTip < incomingTip
    ensures PackageKey(records, sender, baseFee) == PackageRank(p, sender)
  {
    hide PackageOf;
  }

  // ----- submission

  method OwnPositions(records: seq<Record>, sender: Str) returns (own: seq<nat>)
    ensures own == PositionsFrom(records, sender, |records|)
  {
    own := [];
    for i := 0 to |records|
      invariant own == PositionsFrom(records, sender, i)
    {
      if records[i].tx.from == Some(sender) {
        own := own + [i];
      }
    }
  }

  method RemoveAt(records: seq<Record>, drop: seq<nat>) returns (kept: seq<Record>)
    ensures kept == KeepOthers(records, drop, |records|)
  {
    kept := [];
    for i := 0 to |records|
      invariant kept == KeepOthers(records, drop, i)
    {
      if i !in drop {
        kept := kept + [records[i]];
      }
    }
  }

  method RetainOthers(records: seq<Record>, sender: Str) returns (kept: seq<Record>)
    ensures kept == NotFrom(records, sender)
  {
    kept := [];
    for i := 0 to |records|
      invariant kept == NotFrom(records[..i], sender)
    {
      assert DropLast(records[..i + 1]) == records[..i];
      if records[i].tx.from != Some(sender) {
        kept := kept + [records[i]];
      }
    }
    assert records[..|records|] == records;
  }

  method EnforceSenderCap(
    c: Crypto, chain: Chain, now: u64, s: Sanitized, t: Transaction) returns (r: Result<Sanitized>)
    ensures r == CapSender(c, chain, now, s, t)
  {
    hide Sanitize, NextBaseFee, Surplus, KeepOthers, PositionsFrom, Mined;
    if t.from.None? {
      return Ok(s);
    }
    var own := OwnPositions(s.valid, t.from.value);
    if |own| < MAX_PER_SENDER {
      return Ok(s);
    }
    var kept := RemoveAt(s.valid, Surplus(s.valid, t.from.value, NextBaseFee(chain.blocks)));
    r := SanitizePending(c, chain, Mined(c, chain), kept, MAX_AGE, now);
  }

  method EvictForRoom(
    c: Crypto, chain: Chain, now: u64, max: nat, s: Sanitized, t: Transaction) returns (r: Result<Sanitized>)
    ensures r == MakeRoom(c, chain, now, max, s, t)
  {
    hide Sanitize, NextBaseFee, Victim, NotFrom, Tip, Mined;
    if |s.valid| < max {
      return Ok(s);
    }
    var baseFee := NextBaseFee(chain.blocks);
    var victim := LowestFeePackage(s.valid, baseFee, Tip(Record(Zero, 0, t), baseFee));
    if victim.None? {
      return Err(MempoolFull);
    }
    var kept := RetainOthers(s.valid, victim.value);
    var rebuilt :- SanitizePending(c, chain, Mined(c, chain), kept, MAX_AGE, now);
    if |rebuilt.valid| >= max {
      return Err(MempoolFull);
    }
    r := Ok(rebuilt);
  }

  method SubmitToPool(
    c: Crypto, chain: Chain, now: u64, records: seq<Record>, max: nat, t: Transaction) returns (r: Result<seq<Record>>)
    ensures r == Submit(c, chain, now, records, max, t)
  {
    hide Sanitize, NextBaseFee, CapSender, MakeRoom, TxHash, Mined, TransactionNetwork, ValidatePending,
         ApplyTransaction;
    var hash := TxHash(c, t);
    if hash in Mined(c, chain) {
      return Err(InvalidInput);
    }
    var network :- TransactionNetwork(c, t);
    if network != chain.network {
      return Err(NetworkMismatch);
    }
    var clean :- SanitizePending(c, chain, Mined(c, chain), records, MAX_AGE, now);
    for i := 0 to |clean.valid|
      invariant forall k :: 0 <= k < i ==> clean.valid[k].txHash != hash
    {
      if clean.valid[i].txHash == hash {
        return Err(InvalidInput);
      }
    }
    var capped :- EnforceSenderCap(c, chain, now, clean, t);
    var roomy :- EvictForRoom(c, chain, now, max, capped, t);
    var _ :- ValidatePending(c, roomy.state, t, NextBaseFee(chain.blocks));
    var step := ApplyTransaction(c, roomy.state, t, NextBaseFee(chain.blocks));
    var _ :- step.result;
    r := Ok(roomy.valid + [Record(hash, now, t)]);
  }

  // ----- reconciliation

  /** Adds the transactions of detached blocks, guided by the set of known hashes. */
  method ReturnDetached(c: Crypto, records: seq<Record>, detached: seq<Block>, now: u64) returns (all: seq<Record>)
    ensures all == AddDetached(c, records, UserTransactions(detached), now)
  {
    hide TxHash;
    all := records;
    var known := set i | 0 <= i < |records| :: records[i].txHash;
    var txs: seq<Transaction> := [];
    for i := 0 to |detached|
      invariant txs == UserTransactions(detached[..i])
    {
      assert DropLast(detached[..i + 1]) == detached[..i];
      if detached[i].transactions != [] {
        txs := txs + detached[i].transactions[1..];
      }
    }
    assert detached[..|detached|] == detached;
    for i := 0 to |txs|
      invariant all == AddDetached(c, records, txs[..i], now)
      invariant forall h :: h in known <==> HasHash(all, h)
    {
      assert DropLast(txs[..i + 1]) == txs[..i];
      var hash := TxHash(c, txs[i]);
      if hash !in known {
        ghost var before := all;
        all := all + [Record(hash, now, txs[i])];
        known := known + {hash};
        HasHashSnoc(before, Record(hash, now, txs[i]));
      }
    }
    assert txs[..|txs|] == txs;
  }

  lemma {:induction false} HasHashSnoc(records: seq<Record>, r: Record)
    ensures forall h :: HasHash(records + [r], h) <==> HasHash(records, h) || h == r.txHash
  {
    forall h ensures HasHash(records + [r], h) <==> HasHash(records, h) || h == r.txHash {
      HasHashAt(records + [r], |records|);
      if HasHash(records, h) { HasHashGrows(records, records + [r], h); }
    }
  }

  method ReconcileAfterReorg(
    c: Crypto, chain: Chain, now: u64, records: seq<Record>, detached: seq<Block>, max: nat)
    returns (r: Result<Reconciled>)
    ensures r == Reconcile(c, chain, now, records, detached, max)
  {
    hide Sanitize, AddDetached, UserTransactions, Mined;
    var all := ReturnDetached(c, records, detached, now);
    var clean :- SanitizePending(c, chain, Mined(c, chain), all, MAX_AGE, now);
    var kept, cut := clean.valid, [];
    assert kept[..|kept|] == kept && kept[|kept|..] == [];
    if |kept| > max {
      kept, cut := kept[..max], kept[max..];
    }
    r := Ok(Reconciled(kept, cut, clean.dropped));
  }
}
