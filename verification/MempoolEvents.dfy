/** Submitting a transaction, refreshing the pool and reconciling it after a reorg
    (devnet.rs, mempool.rs). */
module MempoolEvents {
  import opened Prelude
  import opened Primitives
  import opened Transactions
  import opened Blocks
  import opened Consensus
  import opened Ledgers
  import opened Chains
  import opened Sorting
  import opened Mempool

  const MAX_PER_SENDER: nat := 32

  function Mined(c: Crypto, chain: Chain): set<Digest> { HashSet(c, AllTransactions(chain.blocks)) }

  function Refresh(c: Crypto, chain: Chain, records: seq<Record>, now: u64): Result<Sanitized> {
    Sanitize(c, chain, Mined(c, chain), records, MAX_AGE, now)
  }

  // ----- the per-sender cap

  predicate SentBy(r: Record, sender: Str) { r.tx.from == Some(sender) }

  function CountFrom(records: seq<Record>, sender: Str): nat {
    if records == [] then 0 else CountFrom(DropLast(records), sender) + (if SentBy(Last(records), sender) then 1 else 0)
  }

  /** Positions of the sender's records among the first `count`. */
  function PositionsFrom(records: seq<Record>, sender: Str, count: nat): seq<nat>
    requires count <= |records|
  {
    if count == 0 then [] else
      PositionsFrom(records, sender, count - 1) + (if SentBy(records[count - 1], sender) then [count - 1] else [])
  }

  function TipKey(records: seq<Record>, baseFee: u64, i: nat): seq<int> {
    if i < |records| then [Tip(records[i], baseFee), records[i].receivedAt] else []
  }

  function ByTip(records: seq<Record>, baseFee: u64): nat -> seq<int> { (i: nat) => TipKey(records, baseFee, i) }

  /** The sender's lowest tips, enough of them to leave room for one more. */
  function Surplus(records: seq<Record>, sender: Str, baseFee: u64): (r: seq<nat>)
  {
    var own := PositionsFrom(records, sender, |records|);
    var sorted := SortBy(ByTip(records, baseFee), own);
    if |own| >= MAX_PER_SENDER && |own| + 1 - MAX_PER_SENDER <= |sorted|
    then sorted[..|own| + 1 - MAX_PER_SENDER] else []
  }

  function KeepOthers(records: seq<Record>, drop: seq<nat>, count: nat): seq<Record>
    requires count <= |records|
  {
    if count == 0 then [] else
      KeepOthers(records, drop, count - 1) + (if count - 1 in drop then [] else [records[count - 1]])
  }

  function CapSender(c: Crypto, chain: Chain, now: u64, s: Sanitized, t: Transaction): Result<Sanitized> {
    if t.from.Some? && |PositionsFrom(s.valid, t.from.value, |s.valid|)| >= MAX_PER_SENDER then
      Refresh(c, chain, KeepOthers(s.valid, Surplus(s.valid, t.from.value, NextBaseFee(chain.blocks)), |s.valid|), now)
    else Ok(s)
  }

  // ----- eviction of the cheapest package

  datatype Package = Package(minTip: u64, oldest: u64)

  function PackageOf(records: seq<Record>, sender: Str, baseFee: u64): Option<Package> {
    if records == [] then None else
      var before, r := PackageOf(DropLast(records), sender, baseFee), Last(records);
      if !SentBy(r, sender) then before
      else match before
        case None => Some(Package(Tip(r, baseFee), r.receivedAt))
        case Some(p) => Some(Package(Min(p.minTip, Tip(r, baseFee)), Min(p.oldest, r.receivedAt)))
  }

  function PackageKey(records: seq<Record>, sender: Str, baseFee: u64): seq<int> {
    match PackageOf(records, sender, baseFee)
    case None => []
    case Some(p) => [p.minTip, p.oldest] + sender
  }

  predicate Cheaper(records: seq<Record>, sender: Str, baseFee: u64, incomingTip: u64) {
    var p := PackageOf(records, sender, baseFee);
    p.Some? && p.value.minTip < incomingTip
  }

  /** Cheapest package below the incoming tip among the senders of the first `count` records. */
  function VictimAmong(records: seq<Record>, baseFee: u64, incomingTip: u64, count: nat): Option<Str>
    requires count <= |records|
  {
    if count == 0 then None else
      var best, from := VictimAmong(records, baseFee, incomingTip, count - 1), records[count - 1].tx.from;
      if from.Some? && Cheaper(records, from.value, baseFee, incomingTip)
         && (best.None? || KeyLe(PackageKey(records, from.value, baseFee), PackageKey(records, best.value, baseFee)))
      then from else best
  }

  function Victim(records: seq<Record>, baseFee: u64, incomingTip: u64): Option<Str> {
    VictimAmong(records, baseFee, incomingTip, |records|)
  }

  function NotFrom(records: seq<Record>, sender: Str): seq<Record> {
    if records == [] then [] else
      NotFrom(DropLast(records), sender) + (if SentBy(Last(records), sender) then [] else [Last(records)])
  }

  function MakeRoom(c: Crypto, chain: Chain, now: u64, max: nat, s: Sanitized, t: Transaction): Result<Sanitized> {
    if |s.valid| < max then Ok(s) else
      var baseFee := NextBaseFee(chain.blocks);
      var victim := Victim(s.valid, baseFee, Tip(Record(Zero, 0, t), baseFee));
      var _ :- Need(victim.Some?, MempoolFull);
      var rebuilt :- Refresh(c, chain, NotFrom(s.valid, victim.value), now);
      var _ :- Need(|rebuilt.valid| < max, MempoolFull);
      Ok(rebuilt)
  }

  // ----- submission

  function Submit(
    c: Crypto, chain: Chain, now: u64, records: seq<Record>, max: nat, t: Transaction): Result<seq<Record>>
  {
    var hash := TxHash(c, t);
    var _ :- Need(hash !in Mined(c, chain), InvalidInput);
    var network :- TransactionNetwork(c, t);
    var _ :- Need(network == chain.network, NetworkMismatch);
    var clean :- Refresh(c, chain, records, now);
    var _ :- Need(forall i :: 0 <= i < |clean.valid| ==> clean.valid[i].txHash != hash, InvalidInput);
    var capped :- CapSender(c, chain, now, clean, t);
    var roomy :- MakeRoom(c, chain, now, max, capped, t);
    var _ :- ValidatePending(c, roomy.state, t, NextBaseFee(chain.blocks));
    var step := ApplyTransaction(c, roomy.state, t, NextBaseFee(chain.blocks));
    var _ :- step.result;
    Ok(roomy.valid + [Record(hash, now, t)])
  }

  // ----- reconciliation after a reorg

  function UserTransactions(blocks: seq<Block>): seq<Transaction> {
    if blocks == [] then [] else
      var txs := Last(blocks).transactions;
      UserTransactions(DropLast(blocks)) + (if txs == [] then [] else txs[1..])
  }

  function AddDetached(c: Crypto, records: seq<Record>, txs: seq<Transaction>, now: u64): seq<Record> {
    if txs == [] then records else
      var before, hash := AddDetached(c, records, DropLast(txs), now), TxHash(c, Last(txs));
      if HasHash(before, hash) then before
      else before + [Record(hash, now, Last(txs))]
  }

  datatype Reconciled = Reconciled(kept: seq<Record>, cut: seq<Record>, dropped: seq<Digest>)

  /** `cut` is what truncation removes; the source neither keeps nor reports it. */
  function Reconcile(
    c: Crypto, chain: Chain, now: u64, records: seq<Record>, detached: seq<Block>, max: nat): Result<Reconciled>
  {
    var clean :- Refresh(c, chain, AddDetached(c, records, UserTransactions(detached), now), now);
    var n := Min(|clean.valid|, max);
    Ok(Reconciled(clean.valid[..n], clean.valid[n..], clean.dropped))
  }

  // ----- lemmas on counting

  lemma {:induction false} CountIsPositions(records: seq<Record>, sender: Str, count: nat)
    requires count <= |records|
    ensures |PositionsFrom(records, sender, count)| == CountFrom(records[..count], sender)
    ensures forall k :: k in PositionsFrom(records, sender, count) ==> k < count && SentBy(records[k], sender)
    ensures Distinct(PositionsFrom(records, sender, count))
    decreases count
  {
    if count > 0 {
      CountIsPositions(records, sender, count - 1);
      assert DropLast(records[..count]) == records[..count - 1];
      var before := PositionsFrom(records, sender, count - 1);
      forall i | 0 <= i < |before| ensures before[i] < count - 1 { assert before[i] in before; }
    }
  }

  ghost function Below(drop: seq<nat>, count: nat): set<nat> { set k | k in drop && k < count }

  lemma {:induction false} KeptCount(records: seq<Record>, sender: Str, drop: seq<nat>, count: nat)
    requires count <= |records|
    requires forall k :: k in drop ==> k < |records| && SentBy(records[k], sender)
    ensures CountFrom(KeepOthers(records, drop, count), sender) + |Below(drop, count)| ==
            CountFrom(records[..count], sender)
    decreases count
  {
    if count > 0 {
      KeptCount(records, sender, drop, count - 1);
      assert DropLast(records[..count]) == records[..count - 1];
      if count - 1 in drop {
        assert Below(drop, count) == Below(drop, count - 1) + {count - 1};
        assert KeepOthers(records, drop, count) == KeepOthers(records, drop, count - 1);
      } else {
        assert Below(drop, count) == Below(drop, count - 1);
        assert DropLast(KeepOthers(records, drop, count)) == KeepOthers(records, drop, count - 1);
      }
    } else {
      assert Below(drop, 0) == {};
    }
  }

  ghost function Elements(s: seq<nat>): set<nat> { set k | k in s }

  lemma {:induction false} DistinctSize(s: seq<nat>)
    requires Distinct(s)
    ensures |Elements(s)| == |s|
    decreases |s|
  {
    if s == [] {
      assert Elements(s) == {};
    } else {
      DistinctSize(DropLast(s));
      assert s == DropLast(s) + [Last(s)];
      assert Elements(s) == Elements(DropLast(s)) + {Last(s)};
      assert Last(s) !in Elements(DropLast(s));
    }
  }

  lemma {:induction false} KeepOthersMeaning(records: seq<Record>, drop: seq<nat>, count: nat)
    requires count <= |records|
    ensures Subset(KeepOthers(records, drop, count), records)
    ensures forall k :: 0 <= k < count && k !in drop ==> records[k] in KeepOthers(records, drop, count)
    decreases count
  {
    if count > 0 {
      KeepOthersMeaning(records, drop, count - 1);
      assert records[count - 1] in records;
    }
  }

  /** Dropping the surplus leaves the sender one slot below the cap, and the surplus holds
      only the sender's own records, none with a higher tip than one that stays. */
  lemma {:induction false} SurplusLeavesRoom(records: seq<Record>, sender: Str, baseFee: u64)
    requires |PositionsFrom(records, sender, |records|)| >= MAX_PER_SENDER
    ensures var drop := Surplus(records, sender, baseFee);
            && CountFrom(KeepOthers(records, drop, |records|), sender) == MAX_PER_SENDER - 1
            && (forall k :: k in drop ==> k < |records| && SentBy(records[k], sender))
            && forall k, j :: k in drop && j in PositionsFrom(records, sender, |records|) && j !in drop ==>
                 k < |records| && j < |records| && PoorerOrOlder(records[k], records[j], baseFee)
  {
    hide SortBy, KeepOthers, TipKey, KeyLe, PoorerOrOlder;
    var own := PositionsFrom(records, sender, |records|);
    var key := ByTip(records, baseFee);
    var sorted := SortBy(key, own);
    CountIsPositions(records, sender, |records|);
    SortByPermutes(key, own);
    assert |multiset(sorted)| == |multiset(own)|;
    PermutationStaysDistinct(own, sorted);
    var drop := Surplus(records, sender, baseFee);
    assert drop == sorted[..|own| + 1 - MAX_PER_SENDER];
    forall k | k in drop ensures k < |records| && SentBy(records[k], sender) {
      assert k in sorted;
      SharedElement(sorted, own, k);
    }
    KeptCount(records, sender, drop, |records|);
    DistinctSize(drop);
    assert Below(drop, |records|) == Elements(drop);
    assert records[..|records|] == records;
    SurplusIsLowest(own, key, |drop|);
    forall k, j | k in drop && j in own && j !in drop
      ensures k < |records| && j < |records| && PoorerOrOlder(records[k], records[j], baseFee)
    {
      TipKeyOrder(records, baseFee, k, j);
    }
  }

  /** Lower tip, or the same tip and no later arrival. */
  ghost predicate PoorerOrOlder(x: Record, y: Record, baseFee: u64) {
    Tip(x, baseFee) < Tip(y, baseFee) || (Tip(x, baseFee) == Tip(y, baseFee) && x.receivedAt <= y.receivedAt)
  }

  lemma {:induction false} TipKeyOrder(records: seq<Record>, baseFee: u64, k: nat, j: nat)
    requires k < |records| && j < |records|
    ensures KeyLe(TipKey(records, baseFee, k), TipKey(records, baseFee, j)) <==>
            PoorerOrOlder(records[k], records[j], baseFee)
  {
    hide Tip;
    var x, y := records[k], records[j];
    KeyLeHead(Tip(x, baseFee), Tip(y, baseFee), [x.receivedAt], [y.receivedAt]);
    assert [Tip(x, baseFee)] + [x.receivedAt] == TipKey(records, baseFee, k);
    assert [Tip(y, baseFee)] + [y.receivedAt] == TipKey(records, baseFee, j);
  }

  /** A prefix of the sorted list is below everything outside it. */
  lemma {:induction false} SurplusIsLowest(own: seq<nat>, key: nat -> seq<int>, n: nat)
    requires n <= |SortBy(key, own)|
    ensures var drop := SortBy(key, own)[..n];
            forall k, j :: k in drop && j in own && j !in drop ==> KeyLe(key(k), key(j))
  {
    hide SortBy, KeyLe;
    var sorted := SortBy(key, own);
    SortByPermutes(key, own);
    SortBySorts(key, own);
    SameElements(sorted, own);
    assert forall i :: 0 <= i < n ==> sorted[i] == sorted[..n][i];
    forall k, j | k in sorted[..n] && j in own && j !in sorted[..n] ensures KeyLe(key(k), key(j)) {
      var x :| 0 <= x < n && sorted[x] == k;
      var y :| 0 <= y < |sorted| && sorted[y] == j;
    }
  }

  lemma {:induction false} CountSplit(a: seq<Record>, b: seq<Record>, sender: Str)
    ensures CountFrom(a + b, sender) == CountFrom(a, sender) + CountFrom(b, sender)
    decreases |b|
  {
    if b == [] {
      assert a + b == a;
    } else {
      CountSplit(a, DropLast(b), sender);
      assert DropLast(a + b) == a + DropLast(b);
    }
  }

  // ----- the cheapest package

  lemma {:induction false} PackageSender(records: seq<Record>, sender: Str, baseFee: u64)
    ensures PackageOf(records, sender, baseFee).Some? <==> exists i :: 0 <= i < |records| && SentBy(records[i], sender)
    decreases |records|
  {
    if records != [] {
      PackageSender(DropLast(records), sender, baseFee);
      assert forall i :: 0 <= i < |records| - 1 ==> DropLast(records)[i] == records[i];
    }
  }

  /** The package's figures are the least tip and the earliest arrival of the sender's records. */
  lemma {:induction false} PackageFigures(records: seq<Record>, sender: Str, baseFee: u64, i: nat)
    requires i < |records| && SentBy(records[i], sender)
    ensures PackageOf(records, sender, baseFee).Some?
    ensures PackageOf(records, sender, baseFee).value.minTip <= Tip(records[i], baseFee)
    ensures PackageOf(records, sender, baseFee).value.oldest <= records[i].receivedAt
    decreases |records|
  {
    hide Tip;
    if i < |records| - 1 {
      PackageFigures(DropLast(records), sender, baseFee, i);
    }
  }

  /** Both figures belong to some record of the sender. */
  lemma {:induction false} PackageIsAttained(records: seq<Record>, sender: Str, baseFee: u64)
    requires PackageOf(records, sender, baseFee).Some?
    ensures var p := PackageOf(records, sender, baseFee).value;
            && (exists r :: r in records && SentBy(r, sender) && Tip(r, baseFee) == p.minTip)
            && exists r :: r in records && SentBy(r, sender) && r.receivedAt == p.oldest
    decreases |records|
  {
    hide Tip;
    var before := PackageOf(DropLast(records), sender, baseFee);
    assert records == DropLast(records) + [Last(records)];
    assert Last(records) in records;
    if before.Some? {
      PackageIsAttained(DropLast(records), sender, baseFee);
    }
  }

  /** Lower least tip; of equal ones the older; of these the lower address. */
  ghost predicate NotDearer(records: seq<Record>, baseFee: u64, a: Str, b: Str) {
    var p, q := PackageOf(records, a, baseFee), PackageOf(records, b, baseFee);
    && p.Some? && q.Some?
    && (|| p.value.minTip < q.value.minTip
        || (p.value.minTip == q.value.minTip && p.value.oldest < q.value.oldest)
        || (p == q && KeyLe(a, b)))
  }

  lemma {:induction false} PackageOrder(records: seq<Record>, baseFee: u64, a: Str, b: Str)
    requires PackageOf(records, a, baseFee).Some? && PackageOf(records, b, baseFee).Some?
    ensures KeyLe(PackageKey(records, a, baseFee), PackageKey(records, b, baseFee)) <==>
            NotDearer(records, baseFee, a, b)
  {
    hide KeyLe, PackageOf;
    var p, q := PackageOf(records, a, baseFee).value, PackageOf(records, b, baseFee).value;
    KeyLeHead(p.oldest, q.oldest, a, b);
    KeyLeHead(p.minTip, q.minTip, [p.oldest] + a, [q.oldest] + b);
    assert [p.minTip] + ([p.oldest] + a) == [p.minTip, p.oldest] + a;
    assert [q.minTip] + ([q.oldest] + b) == [q.minTip, q.oldest] + b;
  }

  lemma {:induction false} VictimAmongMeaning(records: seq<Record>, baseFee: u64, incomingTip: u64, count: nat)
    requires count <= |records|
    ensures var v := VictimAmong(records, baseFee, incomingTip, count);
            && (v.Some? ==> Cheaper(records, v.value, baseFee, incomingTip))
            && forall i :: 0 <= i < count && records[i].tx.from.Some? &&
                              Cheaper(records, records[i].tx.from.value, baseFee, incomingTip) ==>
                 v.Some? && KeyLe(PackageKey(records, v.value, baseFee),
                     PackageKey(records, records[i].tx.from.value, baseFee))
    decreases count
  {
    hide Cheaper, PackageKey, KeyLe;
    if count > 0 {
      VictimAmongMeaning(records, baseFee, incomingTip, count - 1);
      var best, v, from := VictimAmong(records, baseFee, incomingTip, count - 1),
          VictimAmong(records, baseFee, incomingTip, count), records[count - 1].tx.from;
      if from.Some? {
        KeyReflexive(PackageKey(records, from.value, baseFee));
        if best.Some? { KeyTotal(PackageKey(records, from.value, baseFee), PackageKey(records, best.value, baseFee)); }
      }
      forall i | 0 <= i < count && records[i].tx.from.Some? &&
          Cheaper(records, records[i].tx.from.value, baseFee, incomingTip)
        ensures v.Some? && KeyLe(PackageKey(records, v.value, baseFee),
                PackageKey(records, records[i].tx.from.value, baseFee)) {
        if i < count - 1 && v != best {
          KeyTransitive(PackageKey(records, v.value, baseFee), PackageKey(records, best.value, baseFee),
              PackageKey(records, records[i].tx.from.value, baseFee));
        }
      }
    }
  }

  /** A victim exists iff some sender's package tips below the incoming transaction, and it
      is the least such package by tip, then age, then address. */
  lemma {:induction false} VictimMeaning(records: seq<Record>, baseFee: u64, incomingTip: u64)
    ensures var v := Victim(records, baseFee, incomingTip);
            && (v.Some? <==> exists sender :: Cheaper(records, sender, baseFee, incomingTip))
            && (v.Some? ==> Cheaper(records, v.value, baseFee, incomingTip))
            && forall sender :: Cheaper(records, sender, baseFee, incomingTip) ==>
                 v.Some? && KeyLe(PackageKey(records, v.value, baseFee), PackageKey(records, sender, baseFee))
  {
    hide PackageKey, KeyLe, PackageOf, VictimAmong;
    VictimAmongMeaning(records, baseFee, incomingTip, |records|);
    forall sender | Cheaper(records, sender, baseFee, incomingTip)
      ensures Victim(records, baseFee, incomingTip).Some?
           && KeyLe(PackageKey(records, Victim(records, baseFee, incomingTip).value, baseFee),
               PackageKey(records, sender, baseFee)) {
      PackageSender(records, sender, baseFee);
      var i :| 0 <= i < |records| && SentBy(records[i], sender);
    }
  }

  /** The least package below the incoming tip, by tip, then age, then address. */
  ghost predicate CheapestPackage(records: seq<Record>, baseFee: u64, incomingTip: u64, sender: Str) {
    && Cheaper(records, sender, baseFee, incomingTip)
    && forall other :: Cheaper(records, other, baseFee, incomingTip) ==> NotDearer(records, baseFee, sender, other)
  }

  lemma {:induction false} VictimIsCheapest(records: seq<Record>, baseFee: u64, incomingTip: u64)
    requires Victim(records, baseFee, incomingTip).Some?
    ensures CheapestPackage(records, baseFee, incomingTip, Victim(records, baseFee, incomingTip).value)
  {
    hide PackageKey, KeyLe, PackageOf, Victim, NotDearer;
    VictimMeaning(records, baseFee, incomingTip);
    var v := Victim(records, baseFee, incomingTip).value;
    forall other | Cheaper(records, other, baseFee, incomingTip) ensures NotDearer(records, baseFee, v, other) {
      PackageOrder(records, baseFee, v, other);
    }
  }

  // ----- what the events guarantee

  lemma {:induction false} NotFromMeaning(records: seq<Record>, sender: Str)
    ensures forall r :: r in NotFrom(records, sender) <==> r in records && !SentBy(r, sender)
  {
    if records != [] {
      NotFromMeaning(DropLast(records), sender);
      assert records == DropLast(records) + [Last(records)];
    }
  }

  /** A clean pool on the tip, with the ledger it leads to. */
  ghost predicate Clean(c: Crypto, chain: Chain, s: Sanitized) {
    && Pending(c, chain, s.valid)
    && Replay(c, chain.state, Txs(s.valid), NextBaseFee(chain.blocks)) == Applied(s.state, Ok(()))
  }

  lemma {:induction false} RefreshMeaning(c: Crypto, chain: Chain, records: seq<Record>, now: u64)
    requires ChainInvariant(c, chain) && Consistent(c, records)
    ensures Refresh(c, chain, records, now).Ok?
    ensures Clean(c, chain, Refresh(c, chain, records, now).value)
    ensures Subset(Refresh(c, chain, records, now).value.valid, records)
    ensures |Refresh(c, chain, records, now).value.valid| <= |records|
    ensures forall r :: r in records ==> r in Refresh(c, chain, records, now).value.valid ||
                                         r.txHash in Refresh(c, chain, records, now).value.dropped
    ensures forall r :: r in records && r.txHash in Mined(c, chain) ==>
            r.txHash in Refresh(c, chain, records, now).value.dropped
  {
    hide Sanitize, ChainInvariant, Replay, Consistent, Mined;
    SanitizeMeaning(c, chain, Mined(c, chain), records, MAX_AGE, now);
  }

  ghost predicate Distinguishable(records: seq<Record>) {
    forall i, j :: 0 <= i < j < |records| ==> records[i].txHash != records[j].txHash
  }

  /** A list without repeats that only contains records of another has no more from any sender. */
  lemma {:induction false} SubsetCount(a: seq<Record>, b: seq<Record>, sender: Str)
    requires Distinguishable(a) && Subset(a, b)
    ensures CountFrom(a, sender) <= CountFrom(b, sender)
    decreases |a|
  {
    if a != [] {
      var r := Last(a);
      assert r in b;
      var k :| 0 <= k < |b| && b[k] == r;
      var rest := b[..k] + b[k + 1..];
      forall x | x in DropLast(a) ensures x in rest {
        assert x in b && x != r;
        var j :| 0 <= j < |b| && b[j] == x;
        assert if j < k then rest[j] == x else rest[j - 1] == x;
      }
      SubsetCount(DropLast(a), rest, sender);
      CountSplit(b[..k], b[k + 1..], sender);
      CountSplit(b[..k], [r] + b[k + 1..], sender);
      CountSplit([r], b[k + 1..], sender);
      assert b == b[..k] + ([r] + b[k + 1..]);
      assert DropLast([r]) == [];
    }
  }

  lemma {:induction false} CapMeaning(c: Crypto, chain: Chain, now: u64, s: Sanitized, t: Transaction)
    requires ChainInvariant(c, chain) && Clean(c, chain, s)
    ensures CapSender(c, chain, now, s, t).Ok?
    ensures Clean(c, chain, CapSender(c, chain, now, s, t).value)
    ensures Subset(CapSender(c, chain, now, s, t).value.valid, s.valid)
    ensures t.from.Some? ==> CountFrom(CapSender(c, chain, now, s, t).value.valid, t.from.value) < MAX_PER_SENDER
    ensures t.from.Some? && CountFrom(s.valid, t.from.value) < MAX_PER_SENDER ==>
            CapSender(c, chain, now, s, t) == Ok(s)
  {
    hide ChainInvariant, Replay, Refresh, NextBaseFee, Surplus, TxHash;
    if t.from.Some? {
      var sender := t.from.value;
      CountIsPositions(s.valid, sender, |s.valid|);
      assert s.valid[..|s.valid|] == s.valid;
      if |PositionsFrom(s.valid, sender, |s.valid|)| >= MAX_PER_SENDER {
        var drop := Surplus(s.valid, sender, NextBaseFee(chain.blocks));
        var kept := KeepOthers(s.valid, drop, |s.valid|);
        SurplusLeavesRoom(s.valid, sender, NextBaseFee(chain.blocks));
        KeepOthersMeaning(s.valid, drop, |s.valid|);
        SubsetConsistent(c, kept, s.valid);
        RefreshMeaning(c, chain, kept, now);
        var capped := Refresh(c, chain, kept, now).value;
        PendingMeaning(c, chain, capped.valid);
        SubsetCount(capped.valid, kept, sender);
      }
    }
  }

  lemma {:induction false} RoomMeaning(c: Crypto, chain: Chain, now: u64, max: nat, s: Sanitized, t: Transaction)
    requires ChainInvariant(c, chain) && Clean(c, chain, s) && MakeRoom(c, chain, now, max, s, t).Ok?
    ensures Clean(c, chain, MakeRoom(c, chain, now, max, s, t).value)
    ensures Subset(MakeRoom(c, chain, now, max, s, t).value.valid, s.valid)
    ensures |MakeRoom(c, chain, now, max, s, t).value.valid| < max
    ensures |s.valid| >= max ==>
            var baseFee := NextBaseFee(chain.blocks);
            exists victim :: CheapestPackage(s.valid, baseFee, Tip(Record(Zero, 0, t), baseFee), victim)
              && Subset(MakeRoom(c, chain, now, max, s, t).value.valid, NotFrom(s.valid, victim))
  {
    hide ChainInvariant, Replay, Refresh, NextBaseFee, Victim, TxHash, CheapestPackage;
    if |s.valid| >= max {
      var baseFee := NextBaseFee(chain.blocks);
      var victim := Victim(s.valid, baseFee, Tip(Record(Zero, 0, t), baseFee)).value;
      NotFromMeaning(s.valid, victim);
      SubsetConsistent(c, NotFrom(s.valid, victim), s.valid);
      RefreshMeaning(c, chain, NotFrom(s.valid, victim), now);
      VictimIsCheapest(s.valid, baseFee, Tip(Record(Zero, 0, t), baseFee));
    }
  }

  lemma {:induction false} CheapestIsUnique(records: seq<Record>, baseFee: u64, incomingTip: u64, x: Str, y: Str)
    requires CheapestPackage(records, baseFee, incomingTip, x) && CheapestPackage(records, baseFee, incomingTip, y)
    ensures x == y
  {
    hide KeyLe, PackageOf;
    PackageOrder(records, baseFee, x, y);
    PackageOrder(records, baseFee, y, x);
    KeyAntisymmetric(PackageKey(records, x, baseFee), PackageKey(records, y, baseFee));
    assert x == PackageKey(records, x, baseFee)[2..] && y == PackageKey(records, y, baseFee)[2..];
  }

  /** A full pool makes room exactly if there is a cheapest package below the incoming tip and
      the pool without that sender, sanitized, is below the limit. */
  lemma {:induction false} RoomOutcome(c: Crypto, chain: Chain, now: u64, max: nat, s: Sanitized, t: Transaction)
    requires ChainInvariant(c, chain) && Clean(c, chain, s)
    ensures var baseFee := NextBaseFee(chain.blocks);
            var tip, roomy := Tip(Record(Zero, 0, t), baseFee), MakeRoom(c, chain, now, max, s, t);
            && (|s.valid| < max ==> roomy == Ok(s))
            && (|s.valid| >= max ==>
                 forall victim :: CheapestPackage(s.valid, baseFee, tip, victim) ==>
                   var rebuilt := Refresh(c, chain, NotFrom(s.valid, victim), now);
                   rebuilt.Ok? && roomy == if |rebuilt.value.valid| < max then rebuilt else Err(MempoolFull))
            && (|s.valid| >= max && (forall victim :: !CheapestPackage(s.valid, baseFee, tip, victim)) ==>
                 roomy == Err(MempoolFull))
  {
    hide ChainInvariant, Replay, Refresh, NextBaseFee, Victim, TxHash, CheapestPackage, Tip, NotFrom;
    var baseFee := NextBaseFee(chain.blocks);
    var tip := Tip(Record(Zero, 0, t), baseFee);
    if Victim(s.valid, baseFee, tip).Some? {
      VictimIsCheapest(s.valid, baseFee, tip);
    }
    forall victim | CheapestPackage(s.valid, baseFee, tip, victim)
      ensures Victim(s.valid, baseFee, tip) == Some(victim)
      ensures Refresh(c, chain, NotFrom(s.valid, victim), now).Ok?
    {
      CheapestIsVictim(s.valid, baseFee, tip, victim);
      NotFromIsSubset(s.valid, victim);
      SubsetConsistent(c, NotFrom(s.valid, victim), s.valid);
      RefreshMeaning(c, chain, NotFrom(s.valid, victim), now);
    }
  }

  lemma {:induction false} NotFromIsSubset(records: seq<Record>, sender: Str)
    ensures Subset(NotFrom(records, sender), records)
  {
    NotFromMeaning(records, sender);
  }

  lemma {:induction false} CheapestIsVictim(records: seq<Record>, baseFee: u64, incomingTip: u64, victim: Str)
    requires CheapestPackage(records, baseFee, incomingTip, victim)
    ensures Victim(records, baseFee, incomingTip) == Some(victim)
  {
    hide KeyLe, PackageOf, Victim, NotDearer, PackageKey;
    VictimMeaning(records, baseFee, incomingTip);
    VictimIsCheapest(records, baseFee, incomingTip);
    CheapestIsUnique(records, baseFee, incomingTip, victim, Victim(records, baseFee, incomingTip).value);
  }

  /** After every successful submission the pool applies in order to the tip, holds at most
      the configured number of records, and at most 32 of the submitting sender. */
  lemma {:induction false} SubmitMeaning(
    c: Crypto, chain: Chain, now: u64, records: seq<Record>, max: nat, t: Transaction)
    requires ChainInvariant(c, chain) && Consistent(c, records)
    requires Submit(c, chain, now, records, max, t).Ok?
    ensures var pool := Submit(c, chain, now, records, max, t).value;
            && Pending(c, chain, pool)
            && |pool| <= max
            && pool != [] && Last(pool) == Record(TxHash(c, t), now, t)
            && Subset(DropLast(pool), records)
            && t.from.Some? && CountFrom(pool, t.from.value) <= MAX_PER_SENDER
            && TransactionNetwork(c, t) == Ok(chain.network)
  {
    hide ChainInvariant, Replay, Refresh, NextBaseFee, TxHash, TransactionNetwork, CapSender, MakeRoom,
         ValidatePending, ApplyTransaction;
    RefreshMeaning(c, chain, records, now);
    var clean := Refresh(c, chain, records, now).value;
    CapMeaning(c, chain, now, clean, t);
    var capped := CapSender(c, chain, now, clean, t).value;
    RoomMeaning(c, chain, now, max, capped, t);
    var roomy := MakeRoom(c, chain, now, max, capped, t).value;
    PendingIsSpend(c, roomy.state, t, NextBaseFee(chain.blocks));
    ValidatedHasSender(c, roomy.state, t, NextBaseFee(chain.blocks));
    var added := Record(TxHash(c, t), now, t);
    ReplayOneMore(c, chain.state, roomy.valid, added, NextBaseFee(chain.blocks), roomy.state);
    var pool := roomy.valid + [added];
    PendingMeaning(c, chain, roomy.valid);
    SubsetCount(roomy.valid, capped.valid, t.from.value);
    assert DropLast(pool) == roomy.valid;
  }

  /** While the sender is below the cap and the pool below its limit, a submission is accepted
      exactly if it is new, on the network and admissible after the pending ones, and it then
      adds one record and removes none. */
  lemma {:induction false} SubmitAddsOne(
    c: Crypto, chain: Chain, now: u64, records: seq<Record>, max: nat, t: Transaction)
    requires ChainInvariant(c, chain) && Consistent(c, records) && Refresh(c, chain, records, now).Ok?
    requires var clean := Refresh(c, chain, records, now).value;
             && |clean.valid| < max && (t.from.Some? ==> CountFrom(clean.valid, t.from.value) < MAX_PER_SENDER)
    ensures var clean := Refresh(c, chain, records, now).value;
            var pool, hash := Submit(c, chain, now, records, max, t), TxHash(c, t);
            && (pool.Ok? <==>
                 && hash !in Mined(c, chain) && !HasHash(clean.valid, hash)
                 && TransactionNetwork(c, t) == Ok(chain.network)
                 && ValidatePending(c, clean.state, t, NextBaseFee(chain.blocks)).Ok?)
            && (pool.Ok? ==> pool.value == clean.valid + [Record(hash, now, t)])
  {
    hide ChainInvariant, Replay, Refresh, NextBaseFee, TxHash, TransactionNetwork, CapSender, ValidatePending,
         ApplyTransaction, Mined, ValidateTransaction, Held, ListEffect;
    RefreshMeaning(c, chain, records, now);
    var clean, baseFee := Refresh(c, chain, records, now).value, NextBaseFee(chain.blocks);
    CapMeaning(c, chain, now, clean, t);
    CapIgnoresCoinbases(c, chain, now, clean, t);
    if ValidatePending(c, clean.state, t, baseFee).Ok? {
      PendingIsSpend(c, clean.state, t, baseFee);
      ChainHoldings(c, chain);
      ReplayEffect(c, chain.state, Txs(clean.valid), baseFee);
      SpendNeverOverflows(c, clean.state, t, baseFee);
    }
  }

  lemma {:induction false} CapIgnoresCoinbases(c: Crypto, chain: Chain, now: u64, s: Sanitized, t: Transaction)
    ensures t.from.None? ==> CapSender(c, chain, now, s, t) == Ok(s)
  {
  }

  lemma {:induction false} ChainHoldings(c: Crypto, chain: Chain)
    requires ChainInvariant(c, chain)
    ensures Held(chain.state) <= U64_MAX
  {
    hide Linked, TipMatches, NoncesMatch, HashSet, Total;
    HeldFits(chain.state);
  }

  lemma {:induction false} ValidatedHasSender(c: Crypto, s: Ledger, t: Transaction, baseFee: u64)
    requires !t.IsCoinbase() && ValidateTransaction(c, s, t, baseFee).Ok?
    ensures t.from.Some?
  {
    hide TxHash, Verify;
  }

  lemma {:induction false} AddDetachedMeaning(c: Crypto, records: seq<Record>, txs: seq<Transaction>, now: u64)
    requires Consistent(c, records)
    ensures var all := AddDetached(c, records, txs, now);
            && Consistent(c, all)
            && records <= all
            && (forall i :: |records| <= i < |all| ==> all[i].tx in txs && all[i].receivedAt == now)
            && (forall i :: 0 <= i < |txs| ==> HasHash(all, TxHash(c, txs[i])))
    decreases |txs|
  {
    hide TxHash, HasHash;
    if txs != [] {
      AddDetachedMeaning(c, records, DropLast(txs), now);
      var before, all := AddDetached(c, records, DropLast(txs), now), AddDetached(c, records, txs, now);
      assert before <= all;
      forall i | 0 <= i < |txs| ensures HasHash(all, TxHash(c, txs[i])) {
        if i < |txs| - 1 {
          assert HasHash(before, TxHash(c, DropLast(txs)[i]));
          HasHashGrows(before, all, TxHash(c, txs[i]));
        } else if !HasHash(before, TxHash(c, Last(txs))) {
          HasHashAt(all, |all| - 1);
        }
      }
    }
  }

  lemma {:induction false} HasHashGrows(a: seq<Record>, b: seq<Record>, hash: Digest)
    requires a <= b && HasHash(a, hash)
    ensures HasHash(b, hash)
  {
  }

  lemma {:induction false} HasHashAt(records: seq<Record>, i: nat)
    requires i < |records|
    ensures HasHash(records, records[i].txHash)
  {
  }

  lemma {:induction false} ReplayPrefix(c: Crypto, s: Ledger, txs: seq<Transaction>, count: nat, baseFee: u64)
    requires count <= |txs| && Replay(c, s, txs, baseFee).result.Ok?
    ensures Replay(c, s, txs[..count], baseFee).result.Ok?
    decreases |txs|
  {
    hide ApplyTransaction;
    if count < |txs| {
      ReplayPrefix(c, s, DropLast(txs), count, baseFee);
      assert DropLast(txs)[..count] == txs[..count];
    } else {
      assert txs[..count] == txs;
    }
  }

  /** After a reorg the pool is clean and within its limit, and every transaction of a
      detached block, like every record already pending, is still pending, reported as
      dropped, or one of the records the capacity cut removed; mined ones are dropped. */
  lemma {:induction false} ReconcileMeaning(
    c: Crypto, chain: Chain, now: u64, records: seq<Record>, detached: seq<Block>, max: nat)
    requires ChainInvariant(c, chain) && Consistent(c, records)
    ensures Reconcile(c, chain, now, records, detached, max).Ok?
    ensures var r := Reconcile(c, chain, now, records, detached, max).value;
            var txs := UserTransactions(detached);
            && Pending(c, chain, r.kept)
            && |r.kept| <= max
            && (r.cut != [] ==> |r.kept| == max)
            && (forall k :: k in r.kept ==> k in records || k.tx in txs)
            && (forall k :: k in records ==> k in r.kept || k in r.cut || k.txHash in r.dropped)
            && (forall i :: 0 <= i < |txs| ==>
                HasHash(r.kept, TxHash(c, txs[i])) || HasHash(r.cut, TxHash(c, txs[i])) ||
                TxHash(c, txs[i]) in r.dropped)
            && (forall i :: 0 <= i < |txs| && TxHash(c, txs[i]) in Mined(c, chain) ==> TxHash(c, txs[i]) in r.dropped)
  {
    hide ChainInvariant, Replay, Refresh, TxHash, AddDetached, UserTransactions, Mined, HasHash;
    var txs := UserTransactions(detached);
    var all := AddDetached(c, records, txs, now);
    AddDetachedMeaning(c, records, txs, now);
    RefreshMeaning(c, chain, all, now);
    var clean := Refresh(c, chain, all, now).value;
    var r := Reconcile(c, chain, now, records, detached, max).value;
    assert clean.valid == r.kept + r.cut;
    assert Txs(r.kept) == Txs(clean.valid)[..|r.kept|];
    ReplayPrefix(c, chain.state, Txs(clean.valid), |r.kept|, NextBaseFee(chain.blocks));
    forall k | k in r.kept ensures k in records || k.tx in txs {
      assert k in clean.valid && k in all;
      var i :| 0 <= i < |all| && all[i] == k;
      if i < |records| { assert records[i] == k; }
    }
    forall k | k in records ensures k in all {
      var i :| 0 <= i < |records| && records[i] == k;
      assert all[i] == k;
    }
    forall i | 0 <= i < |txs|
      ensures HasHash(r.kept, TxHash(c, txs[i])) || HasHash(r.cut, TxHash(c, txs[i])) || TxHash(c, txs[i]) in r.dropped
      ensures TxHash(c, txs[i]) in Mined(c, chain) ==> TxHash(c, txs[i]) in r.dropped
    {
      RecordWithHash(all, TxHash(c, txs[i]), r.kept, r.cut, r.dropped, clean.valid);
      WithHash(all, TxHash(c, txs[i]));
    }
  }

  lemma {:induction false} WithHash(records: seq<Record>, hash: Digest)
    requires HasHash(records, hash)
    ensures exists k :: k in records && k.txHash == hash
  {
    var i :| 0 <= i < |records| && records[i].txHash == hash;
    assert records[i] in records;
  }

  lemma {:induction false} RecordWithHash(
    all: seq<Record>, hash: Digest, kept: seq<Record>, cut: seq<Record>, dropped: seq<Digest>, valid: seq<Record>)
    requires HasHash(all, hash) && valid == kept + cut
    requires forall k :: k in all ==> k in valid || k.txHash in dropped
    ensures HasHash(kept, hash) || HasHash(cut, hash) || hash in dropped
  {
    var i :| 0 <= i < |all| && all[i].txHash == hash;
    assert all[i] in all;
    if hash !in dropped {
      var j :| 0 <= j < |valid| && valid[j] == all[i];
      if j < |kept| { assert kept[j] == all[i]; } else { assert cut[j - |kept|] == all[i]; }
    }
  }
}
