/** The reward split is exact, fair and order-independent while its products fit in 128 bits
    (vireon-mining-pool, store.rs). */
module PoolFairness {
  import opened Prelude
  import opened Sorting
  import opened PoolSplits

  /** Every miner did some work; no product wraps and the total does not stick. */
  ghost predicate Fits(works: map<Str, nat>, d: u64) {
    && works != map[] && (forall a :: a in works ==> works[a] >= 1)
    && Total(works) <= U128_MAX
    && forall a :: a in works ==> d * works[a] <= U128_MAX
  }

  lemma {:induction false} FitsWhenTotalFits(works: map<Str, nat>, d: u64)
    requires works != map[] && (forall a :: a in works ==> works[a] >= 1)
    requires d > 0 && d * Total(works) <= U128_MAX
    ensures Fits(works, d)
  {
    hide Total;
    forall a | a in works ensures d * works[a] <= U128_MAX {
      TotalEntry(works, a);
      MultiplyMonotone(works[a], Total(works), d);
    }
    MultiplyMonotone(1, d, Total(works));
  }

  lemma {:induction false} WholeIsTotal(works: map<Str, nat>, d: u64)
    requires Fits(works, d)
    ensures Whole(works) == Total(works) > 0
  {
    hide Total;
    var a :| a in works;
    TotalEntry(works, a);
  }

  /** The exact share of a miner, rounded down. */
  ghost function FairShare(works: map<Str, nat>, d: u64, a: Str): nat
    requires a in works && Total(works) > 0
  {
    Quotient(d * works[a], Total(works))
  }

  function Quotient(n: nat, d: nat): nat
    requires d > 0
  {
    n / d
  }

  lemma {:induction false} QuotientBound(d: nat, w: nat, total: nat)
    requires w <= total && total > 0
    ensures d * w / total <= d
  {
    MultiplyMonotone(w, total, d);
    var q := d * w / total;
    assert d * w == q * total + d * w % total;
    ProductGap(d, q, total);
  }

  lemma {:induction false} ProductGap(a: nat, b: nat, d: nat)
    ensures a < b ==> a * d + d <= b * d
  {
    if a < b {
      MultiplyMonotone(a + 1, b, d);
    }
  }

  lemma {:induction false} QuotaIsFairShare(works: map<Str, nat>, d: u64, a: Str)
    requires Fits(works, d) && a in works
    ensures Whole(works) == Total(works) > 0
    ensures Quota(works, d, Whole(works), a) == FairShare(works, d, a) <= d
    ensures Remainder(works, d, Whole(works), a) == d * works[a] % Total(works)
  {
    hide Total;
    WholeIsTotal(works, d);
    TotalEntry(works, a);
    QuotientBound(d, works[a], Total(works));
  }

  // ----- the dust is smaller than the number of miners

  ghost predicate PlainQuotas(q: map<Str, nat>, works: map<Str, nat>, d: nat, total: nat)
    requires total > 0
  {
    q.Keys == works.Keys && forall a :: a in works ==> q[a] == d * works[a] / total
  }

  lemma {:induction false} QuotaSum(q: map<Str, nat>, works: map<Str, nat>, d: nat, total: nat) returns (rest: nat)
    requires total > 0 && PlainQuotas(q, works, d, total)
    ensures Total(q) * total + rest == d * Total(works)
    ensures rest <= |works| * (total - 1)
    decreases |works|
  {
    hide Total;
    if works == map[] {
      assert q == map[];
      TotalOfNothing<Str>();
      rest := 0;
    } else {
      var k := AnyKey(works);
      var more := QuotaSum(Without(q, k), Without(works, k), d, total);
      TotalRemove(q, k);
      TotalRemove(works, k);
      rest := more + d * works[k] % total;
      SumStep(Total(Without(q, k)), q[k], total, more, d, works[k], Total(Without(works, k)));
      OneMore(|works|, total - 1);
    }
  }

  lemma {:induction false} OneMore(n: nat, x: nat)
    requires n > 0
    ensures n * x == (n - 1) * x + x
  {
  }

  lemma {:induction false} SumStep(q: nat, k: nat, total: nat, more: nat, d: nat, w: nat, rest: nat)
    requires total > 0 && q * total + more == d * rest && k == d * w / total
    ensures (k + q) * total + (more + d * w % total) == d * (w + rest)
  {
    assert d * w == k * total + d * w % total;
    assert (k + q) * total == k * total + q * total;
    assert d * (w + rest) == d * w + d * rest;
  }

  lemma {:induction false} ProductOrder(a: nat, b: nat, d: nat)
    ensures a <= b ==> a * d <= b * d
  {
  }

  lemma {:induction false} DustBound(q: nat, total: nat, rest: nat, d: nat, n: nat)
    requires total > 0 && n > 0 && q * total + rest == d * total && rest <= n * (total - 1)
    ensures q <= d < q + n
  {
    ProductGap(d, q, total);
    assert (q + n) * total == q * total + n * total;
    assert n * (total - 1) == n * total - n;
    ProductOrder(q + n, d, total);
  }

  lemma {:induction false} DustIsSmall(works: map<Str, nat>, d: u64)
    requires Fits(works, d)
    ensures Whole(works) == Total(works) > 0
    ensures Dust(works, d) < |works|
    ensures Total(Quotas(works, d, Whole(works))) + Dust(works, d) == d
  {
    hide Total, Quota;
    WholeIsTotal(works, d);
    var quotas := Quotas(works, d, Total(works));
    forall a | a in works ensures quotas[a] == d * works[a] / Total(works) {
      QuotaIsFairShare(works, d, a);
    }
    var rest := QuotaSum(quotas, works, d, Total(works));
    DustBound(Total(quotas), Total(works), rest, d, |works|);
  }

  // ----- who gets the dust

  lemma {:induction false} BonusedAt(quotas: map<Str, u64>, ranking: seq<Str>, count: nat)
    requires count <= |ranking| && Distinct(ranking) && forall i :: 0 <= i < |ranking| ==> ranking[i] in quotas
    requires count > 0 ==> forall a :: a in quotas ==> quotas[a] < U64_MAX
    ensures forall i :: 0 <= i < |ranking| ==>
            Bonused(quotas, ranking, count)[ranking[i]] == quotas[ranking[i]] + if i < count then 1 else 0
    decreases count
  {
    if count > 0 {
      BonusedAt(quotas, ranking, count - 1);
    }
  }

  lemma {:induction false} BonusedTotal(quotas: map<Str, u64>, ranking: seq<Str>, count: nat)
    requires count <= |ranking| && Distinct(ranking) && forall i :: 0 <= i < |ranking| ==> ranking[i] in quotas
    requires count > 0 ==> forall a :: a in quotas ==> quotas[a] < U64_MAX
    ensures Total(Bonused(quotas, ranking, count)) == Total(quotas) + count
    decreases count
  {
    hide Total;
    if count > 0 {
      BonusedTotal(quotas, ranking, count - 1);
      BonusedAt(quotas, ranking, count - 1);
      var before := Bonused(quotas, ranking, count - 1);
      TotalUpdate(before, ranking[count - 1], before[ranking[count - 1]] + 1);
    }
  }

  /** An extra unit never goes to `b` while someone with a larger remainder goes without. */
  ghost predicate FairDust(works: map<Str, nat>, d: u64, split: map<Str, u64>)
    requires split.Keys == works.Keys && Total(works) > 0
  {
    forall a, b | a in works && b in works && split[b] > FairShare(works, d, b)
                  && d * works[a] % Total(works) > d * works[b] % Total(works)
      :: split[a] > FairShare(works, d, a)
  }

  ghost predicate Rounded(works: map<Str, nat>, d: u64, split: map<Str, u64>)
    requires split.Keys == works.Keys && Total(works) > 0
  {
    forall a :: a in works ==> split[a] == FairShare(works, d, a) || split[a] == FairShare(works, d, a) + 1
  }

  lemma {:induction false} RankingIsFair(
    works: map<Str, nat>, d: u64, ranking: seq<Str>, count: nat, split: map<Str, u64>)
    requires Fits(works, d) && Total(works) > 0 && count <= |ranking|
    requires IsOrdering(ranking, works.Keys, ByRemainder(works, d, Total(works))) && split.Keys == works.Keys
    requires forall i :: 0 <= i < |ranking| ==>
             split[ranking[i]] == FairShare(works, d, ranking[i]) + if i < count then 1 else 0
    ensures Rounded(works, d, split) && FairDust(works, d, split)
  {
    hide Total, Remainder, FairShare, Whole;
    WholeIsTotal(works, d);
    forall a | a in works ensures split[a] == FairShare(works, d, a) || split[a] == FairShare(works, d, a) + 1 {
      var i :| 0 <= i < |ranking| && ranking[i] == a;
    }
    forall a, b | a in works && b in works && split[b] > FairShare(works, d, b) &&
        d * works[a] % Total(works) > d * works[b] % Total(works)
      ensures split[a] > FairShare(works, d, a) {
      var i :| 0 <= i < |ranking| && ranking[i] == a;
      var j :| 0 <= j < |ranking| && ranking[j] == b;
      QuotaIsFairShare(works, d, a);
      QuotaIsFairShare(works, d, b);
      assert j < i ==> KeyLe(ByRemainder(works, d, Total(works))(b), ByRemainder(works, d, Total(works))(a));
    }
  }

  // ----- nothing is lost or invented

  lemma {:induction false} TotalMonotone(x: map<Str, nat>, y: map<Str, nat>)
    requires x.Keys == y.Keys && forall a :: a in x ==> x[a] <= y[a]
    ensures Total(x) <= Total(y)
    decreases |x|
  {
    hide Total;
    if x == map[] {
      assert y == map[];
    } else {
      var k := AnyKey(x);
      TotalMonotone(Without(x, k), Without(y, k));
      TotalRemove(x, k);
      TotalRemove(y, k);
    }
  }

  lemma {:induction false} ModuloLowers(n: nat, m: nat)
    requires m > 0
    ensures n % m <= n
  {
    if n < m {
      QuotientUnique(n, m, 0, n);
    }
  }

  lemma {:induction false} WrappedQuotient(n: nat, total: nat, wide: nat, narrow: nat)
    requires total > 0 && wide > 0 && narrow > 0
    ensures (n % wide / total) % narrow <= Quotient(n, total)
  {
    ModuloLowers(n, wide);
    QuotientOrder(n % wide, n, total);
    ModuloLowers(n % wide / total, narrow);
  }

  lemma {:induction false} QuotientOrder(x: nat, y: nat, total: nat)
    requires x <= y && total > 0
    ensures x / total <= y / total
  {
    if x < y {
      QuotientMonotone(y, x, total);
    }
  }

  /** A wrapped product only lowers a quota, so the quotas never add up to more than `d`. */
  lemma {:induction false} QuotasWithin(works: map<Str, nat>, d: u64)
    requires 0 < Total(works) <= U128_MAX
    ensures Total(Quotas(works, d, Total(works))) <= d
  {
    hide Total, Product;
    var total := Total(works);
    var quotas := Quotas(works, d, total);
    var plain := map a | a in works :: Quotient(d * works[a], total);
    forall a | a in works ensures quotas[a] <= plain[a] {
      TotalEntry(works, a);
      QuotaIsWrapped(works, d, total, a);
      WrappedQuotient(d * works[a], total, 0x1_0000_0000_0000_0000_0000_0000_0000_0000, 0x1_0000_0000_0000_0000);
    }
    TotalMonotone(quotas, plain);
    var rest := QuotaSum(plain, works, d, total);
    ProductGap(d, Total(plain), total);
  }

  lemma {:induction false} QuotaIsWrapped(works: map<Str, nat>, d: u64, total: nat, a: Str)
    requires a in works && total > 0
    ensures var product := (d * works[a]) % 0x1_0000_0000_0000_0000_0000_0000_0000_0000;
            Quota(works, d, total, a) == (product / total) % 0x1_0000_0000_0000_0000
  {
  }

  /** As long as the total of the work does not stick, the split hands out exactly the
      distributable amount, even where a product wraps: what the quotas miss goes out as
      dust, and what exceeds one unit each goes to the top miner. */
  lemma {:induction false} SplitIsComplete(works: map<Str, nat>, d: u64)
    requires 0 < Total(works) <= U128_MAX
    ensures Whole(works) == Total(works)
    ensures Split(works, d).Keys == works.Keys && Total(Split(works, d)) == d
  {
    hide Total, Quotas, Bonused, IsOrdering, ByRemainder, ByWork;
    var total, dust := Whole(works), Dust(works, d);
    QuotasWithin(works, d);
    QuotaKeys(works, d, total);
    var quotas := Quotas(works, d, total);
    var ranking, order := Ordered(works.Keys, ByRemainder(works, d, total)), Ordered(works.Keys, ByWork(works));
    OrderingFacts(ranking, works.Keys, ByRemainder(works, d, total));
    OrderingFacts(order, works.Keys, ByWork(works));
    var count := Min(dust, |ranking|);
    SharedTotal(quotas, ranking, count, d);
    if dust > |ranking| && works != map[] {
      LeftoverTotal(Bonused(quotas, ranking, count), Last(order), dust - |ranking|);
    } else {
      TotalOfNothing<Str>();
    }
  }

  lemma {:induction false} OrderingFacts(s: seq<Str>, keys: set<Str>, key: Str -> seq<int>)
    requires IsOrdering(s, keys, key)
    ensures |s| == |keys| && Distinct(s) && forall i :: 0 <= i < |s| ==> s[i] in keys
  {
    hide SortedBy;
    EnumerationSize(s, keys);
  }

  lemma {:induction false} SharedTotal(quotas: map<Str, u64>, ranking: seq<Str>, count: nat, d: u64)
    requires count <= |ranking| && Distinct(ranking) && forall i :: 0 <= i < |ranking| ==> ranking[i] in quotas
    requires Total(quotas) + count <= d
    ensures Total(Bonused(quotas, ranking, count)) == Total(quotas) + count
  {
    hide Total, Bonused;
    if count > 0 {
      forall a | a in quotas ensures quotas[a] < U64_MAX { TotalEntry(quotas, a); }
    }
    BonusedTotal(quotas, ranking, count);
  }

  lemma {:induction false} LeftoverTotal(shared: map<Str, u64>, top: Str, left: nat)
    requires top in shared && Total(shared) + left <= U64_MAX
    ensures left <= U64_MAX && Total(shared[top := SaturatingAdd(shared[top], left)]) == Total(shared) + left
  {
    hide Total;
    TotalEntry(shared, top);
    TotalUpdate(shared, top, shared[top] + left);
  }

  /** While the products fit, the split hands out exactly the distributable amount, gives
      each miner the exact share rounded down or one unit more, larger remainders first, and
      never reaches the branch for leftover dust. */
  lemma {:induction false} SplitIsExact(works: map<Str, nat>, d: u64)
    requires Fits(works, d)
    ensures Whole(works) == Total(works) > 0
    ensures Split(works, d).Keys == works.Keys && Total(Split(works, d)) == d
    ensures Rounded(works, d, Split(works, d)) && FairDust(works, d, Split(works, d))
    ensures Dust(works, d) < |works|
  {
    hide Total, Quota, Remainder, FairShare, Whole, Dust, Bonused, SortedBy, FairDust, Rounded;
    DustIsSmall(works, d);
    var total, dust := Whole(works), Dust(works, d);
    var key := ByRemainder(works, d, total);
    var ranking, quotas := Ordered(works.Keys, key), Quotas(works, d, total);
    EnumerationSize(ranking, works.Keys);
    assert |works| == |works.Keys|;
    forall a | a in works ensures quotas[a] == FairShare(works, d, a) {
      QuotaIsFairShare(works, d, a);
    }
    if dust > 0 {
      forall a | a in quotas ensures quotas[a] < U64_MAX { TotalEntry(quotas, a); }
    }
    BonusedAt(quotas, ranking, dust);
    BonusedTotal(quotas, ranking, dust);
    RankingIsFair(works, d, ranking, dust, Bonused(quotas, ranking, dust));
  }

  /** Strictly more work never earns strictly less. */
  lemma {:induction false} MoreWorkNeverEarnsLess(works: map<Str, nat>, d: u64, a: Str, b: Str)
    requires Fits(works, d) && a in works && b in works && works[a] > works[b]
    ensures Whole(works) > 0 && Split(works, d).Keys == works.Keys
    ensures Split(works, d)[a] >= Split(works, d)[b]
  {
    hide Total, Split, Dust;
    SplitIsExact(works, d);
    var split := Split(works, d);
    if d == 0 {
      ZeroShared(works, d, split, b);
    } else {
      LargerProduct(d, works[a], works[b]);
      QuotientMonotone(d * works[a], d * works[b], Total(works));
    }
  }

  lemma {:induction false} LargerProduct(d: nat, x: nat, y: nat)
    requires d > 0 && x > y
    ensures d * x > d * y
  {
    ProductGap(y, x, d);
  }

  lemma {:induction false} QuotientMonotone(x: nat, y: nat, total: nat)
    requires x > y && total > 0
    ensures x / total >= y / total
    ensures x / total == y / total ==> x % total > y % total
  {
    assert x == (x / total) * total + x % total && y == (y / total) * total + y % total;
    ProductGap(x / total, y / total, total);
  }

  lemma {:induction false} ZeroShared(works: map<Str, nat>, d: u64, split: map<Str, u64>, b: Str)
    requires d == 0 && Total(split) == 0 && b in split
    ensures split[b] == 0
  {
    hide Total;
    TotalEntry(split, b);
  }

  /** Shares of the same round in any order lead to the same split. */
  lemma {:induction false} SplitIgnoresOrder(x: seq<Share>, y: seq<Share>, d: u64)
    requires multiset(x) == multiset(y) && x != []
    ensures Whole(WorkBy(x)) > 0 && Whole(WorkBy(y)) > 0 && Split(WorkBy(x), d) == Split(WorkBy(y), d)
  {
    hide WorkBy, Split, Total;
    WorkIsPositive(x);
    WorkIgnoresOrder(x, y);
  }

  // ----- outside that range

  lemma {:induction false} TwoMiners(a: Str, b: Str, x: nat, y: nat)
    requires a != b
    ensures Total(map[a := x, b := y]) == x + y
  {
    hide Total;
    TotalOfNothing<Str>();
    TotalUpdate(map[], a, x);
    TotalUpdate(map[a := x], b, y);
    assert map[a := x][b := y] == map[a := x, b := y];
  }

  /** Once the total of the work sticks at its 128-bit maximum, more can be handed out than
      there is: two miners with shares of 128 bits or more both receive the one unit. */
  lemma {:induction false} StuckTotalOverpays(a: Str, b: Str)
    requires a != b
    ensures var works: map<Str, nat> := map[a := U128_MAX, b := U128_MAX];
            Whole(works) > 0 && Total(Split(works, 1)) == 2
  {
    hide Total;
    var works: map<Str, nat> := map[a := U128_MAX, b := U128_MAX];
    TwoMiners(a, b, U128_MAX, U128_MAX);
    TwoMiners(a, b, 1, 1);
    var quotas := Quotas(works, 1, Whole(works));
    assert quotas == map[a := 1, b := 1];
  }

  /** When every quota comes out as zero, all but the top miner are left with the dust. */
  lemma {:induction false} OnlyDust(works: map<Str, nat>, d: u64, m: Str)
    requires Whole(works) > 0 && m in works && (forall a :: a in works ==> Quota(works, d, Whole(works), a) == 0)
    requires Dust(works, d) > |works|
    ensures Split(works, d).Keys == works.Keys
    ensures Ordered(works.Keys, ByWork(works)) != []
    ensures m != Last(Ordered(works.Keys, ByWork(works))) ==> Split(works, d)[m] == 1
  {
    hide Total, SortedBy, Quota, Dust, ByWork, ByRemainder, Whole;
    var total := Whole(works);
    var quotas := Quotas(works, d, total);
    var ranking := Ordered(works.Keys, ByRemainder(works, d, total));
    EnumerationSize(ranking, works.Keys);
    assert |works| == |works.Keys|;
    BonusedAt(quotas, ranking, |ranking|);
    assert m in ranking;
    assert m in Ordered(works.Keys, ByWork(works));
    var i :| 0 <= i < |ranking| && ranking[i] == m;
  }

  lemma {:induction false} WrappedQuotas(a: Str, b: Str)
    requires a != b
    ensures var half := 0x4000_0000_0000_0000_0000_0000_0000_0000;
            var works: map<Str, nat> := map[a := half, b := half];
            && |works| == 2 && Whole(works) == Total(works) == 2 * half
            && (forall m :: m in works ==> Quota(works, 8, Whole(works), m) == 0)
            && Dust(works, 8) == 8
  {
    hide Total;
    var half := 0x4000_0000_0000_0000_0000_0000_0000_0000;
    var works: map<Str, nat> := map[a := half, b := half];
    TwoMiners(a, b, half, half);
    TwoMiners(a, b, 0, 0);
    assert Quotas(works, 8, Whole(works)) == map[a := 0, b := 0];
    assert works.Keys == {a, b} && |works| == |works.Keys|;
  }

  /** Once products wrap, the split is no longer proportional: of two miners with equal
      126-bit shares one receives 1 of 8 units, although its fair share is 4. */
  lemma {:induction false} WrappedProductsAreUnfair(a: Str, b: Str)
    requires a != b
    ensures var half := 0x4000_0000_0000_0000_0000_0000_0000_0000;
            var works: map<Str, nat> := map[a := half, b := half];
            && Whole(works) == Total(works) == 2 * half
            && Split(works, 8).Keys == works.Keys
            && exists m :: m in works && Split(works, 8)[m] == 1 && FairShare(works, 8, m) == 4
  {
    hide Total, Split, Quota, Dust, Whole, Ordered;
    var half := 0x4000_0000_0000_0000_0000_0000_0000_0000;
    var works: map<Str, nat> := map[a := half, b := half];
    WrappedQuotas(a, b);
    OnlyDust(works, 8, a);
    OnlyDust(works, 8, b);
    assert FairShare(works, 8, a) == 4 && FairShare(works, 8, b) == 4;
  }
}
