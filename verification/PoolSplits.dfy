/** Splitting a block reward between miners by proven share work, largest remainder first
    (vireon-mining-pool, store.rs). */
module PoolSplits {
  import opened Prelude
  import opened Sorting

  datatype Share = Share(id: u64, miner: Str, hash: Str, bits: u8, acceptedAt: u64)

  // ----- work per miner

  /** Shifting a 128-bit one by 128 or more is refused and read as the maximum. */
  function ShareWork(bits: u8): (r: nat)
    ensures r >= 1
  {
    if bits < 128 then Pow2(bits) else U128_MAX
  }

  function WorkOf(works: map<Str, nat>, a: Str): nat { if a in works then works[a] else 0 }

  function WorkBy(shares: seq<Share>): map<Str, nat> {
    if shares == [] then map[] else
      var before, s := WorkBy(DropLast(shares)), Last(shares);
      before[s.miner := Min(WorkOf(before, s.miner) + ShareWork(s.bits), U128_MAX)]
  }

  ghost function Worked(shares: seq<Share>, a: Str): nat {
    if shares == [] then 0 else Worked(DropLast(shares), a) + if Last(shares).miner ==
        a then ShareWork(Last(shares).bits) else 0
  }

  lemma {:induction false} WorkByMeaning(shares: seq<Share>)
    ensures forall a :: a in WorkBy(shares) <==> Worked(shares, a) > 0
    ensures forall a :: WorkOf(WorkBy(shares), a) == Min(Worked(shares, a), U128_MAX)
    decreases |shares|
  {
    hide ShareWork;
    if shares != [] {
      WorkByMeaning(DropLast(shares));
    }
  }

  lemma {:induction false} WorkedConcat(x: seq<Share>, y: seq<Share>, a: Str)
    ensures Worked(x + y, a) == Worked(x, a) + Worked(y, a)
    decreases |y|
  {
    hide ShareWork;
    if y == [] {
      assert x + y == x;
    } else {
      WorkedConcat(x, DropLast(y), a);
      assert DropLast(x + y) == x + DropLast(y);
    }
  }

  lemma {:induction false} WorkedPermutes(x: seq<Share>, y: seq<Share>, a: Str)
    requires multiset(x) == multiset(y)
    ensures Worked(x, a) == Worked(y, a)
    decreases |x|
  {
    hide ShareWork;
    if x == [] {
      SameElements(x, y);
    } else {
      var last := Last(x);
      SharedElement(x, y, last);
      var j :| 0 <= j < |y| && y[j] == last;
      var rest := y[..j] + y[j + 1..];
      assert y == y[..j] + [last] + y[j + 1..];
      assert x == DropLast(x) + [last];
      assert multiset(rest) == multiset(y) - multiset{last};
      assert multiset(DropLast(x)) == multiset(x) - multiset{last};
      WorkedPermutes(DropLast(x), rest, a);
      WorkedConcat(y[..j], y[j + 1..], a);
      WorkedConcat(y[..j] + [last], y[j + 1..], a);
      WorkedConcat(y[..j], [last], a);
      WorkedConcat(DropLast(x), [last], a);
    }
  }

  /** The order in which shares arrived does not matter. */
  lemma {:induction false} WorkIgnoresOrder(x: seq<Share>, y: seq<Share>)
    requires multiset(x) == multiset(y)
    ensures WorkBy(x) == WorkBy(y)
  {
    hide WorkBy;
    WorkByMeaning(x);
    WorkByMeaning(y);
    forall a ensures Worked(x, a) == Worked(y, a) {
      WorkedPermutes(x, y, a);
    }
    forall a ensures a in WorkBy(x) <==> a in WorkBy(y) {
    }
    forall a | a in WorkBy(x) ensures WorkBy(x)[a] == WorkBy(y)[a] {
      assert WorkOf(WorkBy(x), a) == WorkOf(WorkBy(y), a);
    }
  }

  // ----- quotas

  /** The product is a plain 128-bit multiplication. */
  function Product(works: map<Str, nat>, d: u64, a: Str): nat {
    (d * WorkOf(works, a)) % 0x1_0000_0000_0000_0000_0000_0000_0000_0000
  }

  function Quota(works: map<Str, nat>, d: u64, total: nat, a: Str): u64
    requires total > 0
  {
    (Product(works, d, a) / total) % 0x1_0000_0000_0000_0000
  }

  function Remainder(works: map<Str, nat>, d: u64, total: nat, a: Str): nat
    requires total > 0
  {
    Product(works, d, a) % total
  }

  function Quotas(works: map<Str, nat>, d: u64, total: nat): map<Str, u64>
    requires total > 0
  {
    map a | a in works :: Quota(works, d, total, a)
  }

  // ----- rankings

  /** Largest remainder first, then by address. */
  function ByRemainder(works: map<Str, nat>, d: u64, total: nat): Str -> seq<int>
    requires total > 0
  {
    (a: Str) => [0 - Remainder(works, d, total, a)] + a
  }

  function ByWork(works: map<Str, nat>): Str -> seq<int> {
    (a: Str) => [WorkOf(works, a)] + a
  }

  /** A key whose order leaves no two addresses tied. */
  ghost predicate Strict(key: Str -> seq<int>) {
    forall a, b :: key(a) == key(b) ==> a == b
  }

  lemma {:induction false} KeysAreStrict(works: map<Str, nat>, d: u64, total: nat)
    requires total > 0
    ensures Strict(ByRemainder(works, d, total)) && Strict(ByWork(works))
  {
    hide Remainder;
    forall a: Str, b: Str | ByRemainder(works, d, total)(a) == ByRemainder(works, d, total)(b) ensures a == b {
      assert a == ByRemainder(works, d, total)(a)[1..] && b == ByRemainder(works, d, total)(b)[1..];
    }
    forall a: Str, b: Str | ByWork(works)(a) == ByWork(works)(b) ensures a == b {
      assert a == ByWork(works)(a)[1..] && b == ByWork(works)(b)[1..];
    }
  }

  ghost predicate Enumerates(s: seq<Str>, keys: set<Str>) {
    Distinct(s) && (forall i :: 0 <= i < |s| ==> s[i] in keys) && forall a :: a in keys ==> a in s
  }

  ghost predicate IsOrdering(s: seq<Str>, keys: set<Str>, key: Str -> seq<int>) {
    Enumerates(s, keys) && SortedBy(key, s)
  }

  lemma {:induction false} EnumerationSize(s: seq<Str>, keys: set<Str>)
    requires Enumerates(s, keys)
    ensures |s| == |keys|
    decreases |s|
  {
    if s == [] {
      assert keys == {};
    } else {
      var rest := keys - {Last(s)};
      forall a | a in rest ensures a in DropLast(s) {
        var i :| 0 <= i < |s| && s[i] == a;
        assert DropLast(s)[i] == a;
      }
      EnumerationSize(DropLast(s), rest);
      assert keys == rest + {Last(s)};
    }
  }

  lemma {:induction false} SomeEnumeration(keys: set<Str>) returns (s: seq<Str>)
    ensures Enumerates(s, keys)
    decreases |keys|
  {
    s := [];
    if keys != {} {
      var k :| k in keys;
      var rest := SomeEnumeration(keys - {k});
      s := rest + [k];
      assert k in s;
      forall a | a in keys ensures a in s {
        if a != k {
          assert a in keys - {k};
          var i :| 0 <= i < |rest| && rest[i] == a;
          assert s[i] == a;
        }
      }
    }
  }

  lemma {:induction false} SortedEnumeration(s: seq<Str>, keys: set<Str>, key: Str -> seq<int>)
    requires Enumerates(s, keys)
    ensures IsOrdering(SortBy(key, s), keys, key)
  {
    hide SortBy, SortedBy;
    SortByPermutes(key, s);
    SortBySorts(key, s);
    SameElements(SortBy(key, s), s);
    PermutationStaysDistinct(s, SortBy(key, s));
    var sorted := SortBy(key, s);
    forall i | 0 <= i < |sorted| ensures sorted[i] in keys {
      assert sorted[i] in sorted;
    }
  }

  /** Under a strict key there is only one way to order a set. */
  lemma {:induction false} OrderingUnique(x: seq<Str>, y: seq<Str>, keys: set<Str>, key: Str -> seq<int>)
    requires Strict(key) && IsOrdering(x, keys, key) && IsOrdering(y, keys, key)
    ensures x == y
    decreases |x|
  {
    hide KeyLe, Strict;
    EnumerationSize(x, keys);
    EnumerationSize(y, keys);
    if x != [] {
      assert x[0] in y && y[0] in x;
      var i :| 0 <= i < |y| && y[i] == x[0];
      var j :| 0 <= j < |x| && x[j] == y[0];
      SameHead(x, y, key, i, j);
      OrderingTail(x, keys, key);
      OrderingTail(y, keys, key);
      OrderingUnique(x[1..], y[1..], keys - {x[0]}, key);
      assert x == [x[0]] + x[1..] && y == [y[0]] + y[1..];
    }
  }

  lemma {:induction false} SameHead(x: seq<Str>, y: seq<Str>, key: Str -> seq<int>, i: nat, j: nat)
    requires Strict(key) && SortedBy(key, x) && SortedBy(key, y)
    requires i < |y| && j < |x| && y[i] == x[0] && x[j] == y[0]
    ensures x[0] == y[0]
  {
    hide KeyLe;
    KeyReflexive(key(x[0]));
    KeyAntisymmetric(key(x[0]), key(y[0]));
  }

  lemma {:induction false} OrderingTail(x: seq<Str>, keys: set<Str>, key: Str -> seq<int>)
    requires x != [] && IsOrdering(x, keys, key)
    ensures IsOrdering(x[1..], keys - {x[0]}, key)
  {
    forall a | a in keys - {x[0]} ensures a in x[1..] {
      var i :| 0 <= i < |x| && x[i] == a;
      assert x[1..][i - 1] == a;
    }
  }

  ghost function Ordered(keys: set<Str>, key: Str -> seq<int>): (s: seq<Str>)
    ensures IsOrdering(s, keys, key)
  {
    assert exists s :: IsOrdering(s, keys, key) by {
      var s := SomeEnumeration(keys);
      SortedEnumeration(s, keys, key);
    }
    var s :| IsOrdering(s, keys, key); s
  }

  // ----- the split

  /** One extra unit for each of the first `count` in the ranking. */
  function Bonused(quotas: map<Str, u64>, ranking: seq<Str>, count: nat): (r: map<Str, u64>)
    requires count <= |ranking| && forall i :: 0 <= i < |ranking| ==> ranking[i] in quotas
    ensures r.Keys == quotas.Keys
  {
    if count == 0 then quotas else
      var before := Bonused(quotas, ranking, count - 1);
      before[ranking[count - 1] := SaturatingAdd(before[ranking[count - 1]], 1)]
  }

  ghost function Whole(works: map<Str, nat>): nat { Min(Total(works), U128_MAX) }

  ghost function Dust(works: map<Str, nat>, d: u64): u64
    requires Whole(works) > 0
  {
    SaturatingSub(d, Min(Total(Quotas(works, d, Whole(works))), U64_MAX))
  }

  ghost function Split(works: map<Str, nat>, d: u64): map<Str, u64>
    requires Whole(works) > 0
  {
    var total, dust := Whole(works), Dust(works, d);
    var ranking := Ordered(works.Keys, ByRemainder(works, d, total));
    var shared := Bonused(Quotas(works, d, total), ranking, Min(dust, |ranking|));
    if dust <= |ranking| || works == map[] then shared else
      var top := Last(Ordered(works.Keys, ByWork(works)));
      shared[top := SaturatingAdd(shared[top], dust - |ranking|)]
  }

  // ----- the imperative form

  method KeysOf(m: map<Str, nat>) returns (s: seq<Str>)
    ensures Enumerates(s, m.Keys)
  {
    s := [];
    var todo := m.Keys;
    while todo != {}
      invariant todo <= m.Keys && Distinct(s)
      invariant forall i :: 0 <= i < |s| ==> s[i] in m.Keys - todo
      invariant forall a :: a in m.Keys - todo ==> a in s
      decreases |todo|
    {
      var a :| a in todo;
      s := s + [a];
      todo := todo - {a};
    }
  }

  ghost function SumOver(keys: seq<Str>, m: map<Str, nat>): nat
    requires forall i :: 0 <= i < |keys| ==> keys[i] in m
  {
    if keys == [] then 0 else SumOver(DropLast(keys), m) + m[Last(keys)]
  }

  lemma {:induction false} SumIsTotal(keys: seq<Str>, m: map<Str, nat>)
    requires Enumerates(keys, m.Keys)
    ensures SumOver(keys, m) == Total(m)
    decreases |keys|
  {
    hide Total;
    if keys == [] {
      assert m.Keys == {};
      assert m == map[];
      TotalOfNothing<Str>();
    } else {
      var k := Last(keys);
      var rest := Without(m, k);
      forall a | a in rest ensures a in DropLast(keys) {
        var i :| 0 <= i < |keys| && keys[i] == a;
        assert DropLast(keys)[i] == a;
      }
      SumIsTotal(DropLast(keys), rest);
      SumAgrees(DropLast(keys), rest, m);
      TotalRemove(m, k);
    }
  }

  lemma {:induction false} TotalOfNothing<K>()
    ensures Total<K>(map[]) == 0
  {
  }

  lemma {:induction false} SumAgrees(keys: seq<Str>, x: map<Str, nat>, y: map<Str, nat>)
    requires forall i :: 0 <= i < |keys| ==> keys[i] in x && keys[i] in y && x[keys[i]] == y[keys[i]]
    ensures SumOver(keys, x) == SumOver(keys, y)
    decreases |keys|
  {
    if keys != [] {
      SumAgrees(DropLast(keys), x, y);
    }
  }

  // ----- allocation as the source runs it

  method SumWorks(keys: seq<Str>, works: map<Str, nat>) returns (total: nat)
    requires Enumerates(keys, works.Keys)
    ensures total == Whole(works)
  {
    total := 0;
    for i := 0 to |keys|
      invariant total == Min(SumOver(keys[..i], works), U128_MAX)
    {
      assert DropLast(keys[..i + 1]) == keys[..i];
      total := Min(total + works[keys[i]], U128_MAX);
    }
    assert keys[..|keys|] == keys;
    SumIsTotal(keys, works);
  }

  method FloorAmounts(
    keys: seq<Str>, works: map<Str, nat>, d: u64, total: nat) returns (amounts: map<Str, u64>, handedOut: u64)
    requires Enumerates(keys, works.Keys) && total > 0
    ensures amounts == Quotas(works, d, total)
    ensures handedOut == Min(Total(Quotas(works, d, total)), U64_MAX)
  {
    hide Quota, Total;
    amounts, handedOut := map[], 0;
    ghost var quotas := Quotas(works, d, total);
    for i := 0 to |keys|
      invariant amounts == Restricted(quotas, keys, i)
      invariant handedOut == Min(SumOver(keys[..i], quotas), U64_MAX)
    {
      RestrictedStep(quotas, keys, i);
      assert DropLast(keys[..i + 1]) == keys[..i];
      var amount := Quota(works, d, total, keys[i]);
      amounts := amounts[keys[i] := amount];
      handedOut := SaturatingAdd(handedOut, amount);
    }
    assert keys[..|keys|] == keys;
    SumIsTotal(keys, quotas);
    RestrictedAll(quotas, keys);
  }

  ghost function Restricted(m: map<Str, u64>, keys: seq<Str>, n: nat): map<Str, u64>
    requires n <= |keys|
  {
    map a | a in m && a in keys[..n] :: m[a]
  }

  lemma {:induction false} RestrictedStep(m: map<Str, u64>, keys: seq<Str>, n: nat)
    requires n < |keys| && keys[n] in m
    ensures Restricted(m, keys, n + 1) == Restricted(m, keys, n)[keys[n] := m[keys[n]]]
  {
    assert keys[..n + 1] == keys[..n] + [keys[n]];
  }

  lemma {:induction false} RestrictedAll(m: map<Str, u64>, keys: seq<Str>)
    requires Enumerates(keys, m.Keys)
    ensures Restricted(m, keys, |keys|) == m
  {
    assert keys[..|keys|] == keys;
  }

  /** Counts the dust down along the ranking. */
  method HandOutDust(quotas: map<Str, u64>, ranking: seq<Str>, all: u64) returns (amounts: map<Str, u64>, dust: u64)
    requires forall i :: 0 <= i < |ranking| ==> ranking[i] in quotas
    ensures amounts == Bonused(quotas, ranking, Min(all, |ranking|))
    ensures dust == all - Min(all, |ranking|)
  {
    amounts, dust := quotas, all;
    for i := 0 to |ranking|
      invariant i <= all && dust == all - i
      invariant amounts == Bonused(quotas, ranking, i)
    {
      if dust == 0 {
        break;
      }
      amounts := amounts[ranking[i] := SaturatingAdd(amounts[ranking[i]], 1)];
      dust := dust - 1;
    }
  }

  /** The largest key seen so far, as a running maximum. */
  method LargestBy(keys: seq<Str>, all: set<Str>, key: Str -> seq<int>) returns (top: Str)
    requires keys != [] && Enumerates(keys, all) && Strict(key)
    ensures Ordered(all, key) != [] && top == Last(Ordered(all, key))
  {
    hide KeyLe;
    top := keys[0];
    KeyReflexive(key(top));
    for i := 1 to |keys|
      invariant top in keys
      invariant forall k :: 0 <= k < i ==> KeyLe(key(keys[k]), key(top))
    {
      KeyTotal(key(top), key(keys[i]));
      KeyReflexive(key(keys[i]));
      if KeyLe(key(top), key(keys[i])) {
        forall k | 0 <= k < i ensures KeyLe(key(keys[k]), key(keys[i])) {
          KeyTransitive(key(keys[k]), key(top), key(keys[i]));
        }
        top := keys[i];
      }
    }
    LargestIsLast(keys, all, key, top);
  }

  lemma {:induction false} LargestIsLast(keys: seq<Str>, all: set<Str>, key: Str -> seq<int>, top: Str)
    requires keys != [] && Enumerates(keys, all) && Strict(key) && top in keys
    requires forall k :: 0 <= k < |keys| ==> KeyLe(key(keys[k]), key(top))
    ensures Ordered(all, key) != [] && top == Last(Ordered(all, key))
  {
    hide KeyLe;
    var s := Ordered(all, key);
    assert top in all;
    assert top in s;
    var i :| 0 <= i < |s| && s[i] == top;
    var last := Last(s);
    assert last in all;
    assert last in keys;
    KeyReflexive(key(top));
    KeyAntisymmetric(key(top), key(last));
  }

  method GatherWork(shares: seq<Share>) returns (works: map<Str, nat>)
    ensures works == WorkBy(shares)
  {
    hide ShareWork;
    works := map[];
    for i := 0 to |shares|
      invariant works == WorkBy(shares[..i])
    {
      var s := shares[i];
      assert DropLast(shares[..i + 1]) == shares[..i];
      works := works[s.miner := Min(WorkOf(works, s.miner) + ShareWork(s.bits), U128_MAX)];
    }
    assert shares[..|shares|] == shares;
  }

  method RankByRemainder(keys: seq<Str>, works: map<Str, nat>, d: u64, total: nat) returns (ranking: seq<Str>)
    requires Enumerates(keys, works.Keys) && total > 0
    ensures ranking == Ordered(works.Keys, ByRemainder(works, d, total))
  {
    hide SortBy, ByRemainder, ByWork, SortedBy;
    ghost var key := ByRemainder(works, d, total);
    ranking := SortBy(ByRemainder(works, d, total), keys);
    SortedEnumeration(keys, works.Keys, key);
    KeysAreStrict(works, d, total);
    OrderingUnique(ranking, Ordered(works.Keys, key), works.Keys, key);
  }

  method ShareOut(keys: seq<Str>, works: map<Str, nat>, d: u64, total: nat) returns (amounts: map<Str, u64>)
    requires Enumerates(keys, works.Keys) && keys != [] && total == Whole(works) > 0
    ensures amounts == Split(works, d)
  {
    hide Total, Quotas, Bonused, ByRemainder, ByWork, SortedBy;
    var quotas, handedOut := FloorAmounts(keys, works, d, total);
    var dust := SaturatingSub(d, handedOut);
    var ranking := RankByRemainder(keys, works, d, total);
    QuotaKeys(works, d, total);
    var left: u64;
    amounts, left := HandOutDust(quotas, ranking, dust);
    if left > 0 {
      KeysAreStrict(works, d, total);
      var top := LargestBy(keys, works.Keys, ByWork(works));
      amounts := amounts[top := SaturatingAdd(amounts[top], left)];
    }
  }

  /** The reward split; fails only without shares. */
  method AllocateByShareWork(shares: seq<Share>, d: u64) returns (r: Result<map<Str, u64>>)
    ensures r.Err? <==> shares == []
    ensures shares != [] ==> Whole(WorkBy(shares)) > 0 && r == Ok(Split(WorkBy(shares), d))
  {
    hide Total, WorkBy, Split;
    var works := GatherWork(shares);
    WorkIsPositive(shares);
    var keys := KeysOf(works);
    EnumerationSize(keys, works.Keys);
    var total := SumWorks(keys, works);
    if total == 0 {
      return Err(InvalidInput);
    }
    var amounts := ShareOut(keys, works, d, total);
    r := Ok(amounts);
  }

  lemma {:induction false} WorkByNothing()
    ensures WorkBy([]) == map[]
  {
  }

  lemma {:induction false} WorkByStep(shares: seq<Share>)
    requires shares != []
    ensures WorkBy(shares) == (var before, s := WorkBy(DropLast(shares)), Last(shares);
                               before[s.miner := Min(WorkOf(before, s.miner) + ShareWork(s.bits), U128_MAX)])
  {
  }

  lemma {:induction false} QuotaKeys(works: map<Str, nat>, d: u64, total: nat)
    requires total > 0
    ensures Quotas(works, d, total).Keys == works.Keys
  {
  }

  lemma {:induction false} WorkIsPositive(shares: seq<Share>)
    ensures shares == [] <==> Whole(WorkBy(shares)) == 0
    ensures if shares == [] then WorkBy(shares) == map[] else Last(shares).miner in WorkBy(shares)
    ensures forall a :: a in WorkBy(shares) ==> 1 <= WorkBy(shares)[a] <= U128_MAX
  {
    hide WorkBy, Total, ShareWork;
    WorkByMeaning(shares);
    WorkByNothing();
    TotalOfNothing<Str>();
    forall a | a in WorkBy(shares) ensures 1 <= WorkBy(shares)[a] <= U128_MAX {
      assert WorkOf(WorkBy(shares), a) == WorkBy(shares)[a];
    }
    if shares != [] {
      WorkByStep(shares);
      TotalEntry(WorkBy(shares), Last(shares).miner);
    }
  }
}
