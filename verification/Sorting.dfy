/** Stable sorting by an integer-list key, compared lexicographically; the library sorts of
    the mempool and of the pool are instances. */
module Sorting {
  import opened Prelude

  predicate KeyLe(a: seq<int>, b: seq<int>) {
    if a == [] then true
    else if b == [] then false
    else if a[0] != b[0] then a[0] < b[0]
    else KeyLe(a[1..], b[1..])
  }

  lemma {:induction false} KeyTotal(a: seq<int>, b: seq<int>)
    ensures KeyLe(a, b) || KeyLe(b, a)
  {
    if a != [] && b != [] && a[0] == b[0] {
      KeyTotal(a[1..], b[1..]);
    }
  }

  lemma {:induction false} KeyTransitive(a: seq<int>, b: seq<int>, d: seq<int>)
    requires KeyLe(a, b) && KeyLe(b, d)
    ensures KeyLe(a, d)
  {
    if a != [] && a[0] == b[0] == d[0] {
      KeyTransitive(a[1..], b[1..], d[1..]);
    }
  }

  lemma {:induction false} KeyAntisymmetric(a: seq<int>, b: seq<int>)
    requires KeyLe(a, b) && KeyLe(b, a)
    ensures a == b
  {
    if a != [] && b != [] {
      KeyAntisymmetric(a[1..], b[1..]);
      assert a == [a[0]] + a[1..] && b == [b[0]] + b[1..];
    }
  }

  lemma {:induction false} KeyReflexive(a: seq<int>)
    ensures KeyLe(a, a)
  {
    if a != [] {
      KeyReflexive(a[1..]);
    }
  }

  lemma {:induction false} KeyLePrefix(p: seq<int>, a: seq<int>, b: seq<int>)
    ensures KeyLe(p + a, p + b) == KeyLe(a, b)
  {
    if p == [] {
      assert p + a == a && p + b == b;
    } else {
      KeyLePrefix(p[1..], a, b);
      assert (p + a)[1..] == p[1..] + a && (p + b)[1..] == p[1..] + b;
    }
  }

  lemma {:induction false} KeyLeHead(a: int, b: int, x: seq<int>, y: seq<int>)
    ensures KeyLe([a] + x, [b] + y) <==> a < b || (a == b && KeyLe(x, y))
  {
    assert ([a] + x)[1..] == x && ([b] + y)[1..] == y;
  }

  /** Lexicographic comparison, for keys that start with three numbers. */
  lemma {:induction false} KeyLeByParts(
    a: int, b: int, d: int, x: seq<int>, a': int, b': int, d': int, x': seq<int>)
    ensures KeyLe([a, b, d] + x, [a', b', d'] + x') <==>
            a < a' || (a == a' && (b < b' || (b == b' && (d < d' || (d == d' && KeyLe(x, x'))))))
  {
    hide KeyLe;
    assert [a, b, d] + x == [a] + ([b] + ([d] + x)) && [a', b', d'] + x' == [a'] + ([b'] + ([d'] + x'));
    KeyLeHead(a, a', [b] + ([d] + x), [b'] + ([d'] + x'));
    KeyLeHead(b, b', [d] + x, [d'] + x');
    KeyLeHead(d, d', x, x');
  }

  /** A text ended by -1 comes before any longer one, whatever follows. */
  lemma {:induction false} KeyLeText(a: Str, b: Str, x: seq<int>, y: seq<int>)
    requires a != b
    ensures KeyLe(a + [0 - 1] + x, b + [0 - 1] + y) == KeyLe(a, b)
  {
    var u, v := a + [0 - 1] + x, b + [0 - 1] + y;
    if a != [] && b != [] && a[0] == b[0] {
      assert a == [a[0]] + a[1..] && b == [b[0]] + b[1..];
      KeyLeText(a[1..], b[1..], x, y);
      assert u[1..] == a[1..] + [0 - 1] + x && v[1..] == b[1..] + [0 - 1] + y;
    }
  }

  /** Inserts before the first element that is not smaller, so equal keys keep their order. */
  function InsertBy<T>(key: T -> seq<int>, x: T, s: seq<T>): seq<T> {
    if s == [] || KeyLe(key(x), key(s[0])) then [x] + s else [s[0]] + InsertBy(key, x, s[1..])
  }

  function SortBy<T>(key: T -> seq<int>, s: seq<T>): seq<T> {
    if s == [] then [] else InsertBy(key, s[0], SortBy(key, s[1..]))
  }

  ghost predicate SortedBy<T>(key: T -> seq<int>, s: seq<T>) {
    forall i, j :: 0 <= i < j < |s| ==> KeyLe(key(s[i]), key(s[j]))
  }

  lemma {:induction false} InsertByElements<T>(key: T -> seq<int>, x: T, s: seq<T>)
    ensures multiset(InsertBy(key, x, s)) == multiset(s) + multiset{x}
  {
    if s != [] && !KeyLe(key(x), key(s[0])) {
      InsertByElements(key, x, s[1..]);
      assert s == [s[0]] + s[1..];
    }
  }

  lemma {:induction false} SortByPermutes<T>(key: T -> seq<int>, s: seq<T>)
    ensures multiset(SortBy(key, s)) == multiset(s)
  {
    if s != [] {
      SortByPermutes(key, s[1..]);
      InsertByElements(key, s[0], SortBy(key, s[1..]));
      assert s == [s[0]] + s[1..];
    }
  }

  lemma {:induction false} SameElements<T>(a: seq<T>, b: seq<T>)
    requires multiset(a) == multiset(b)
    ensures |a| == |b|
    ensures forall x :: x in a <==> x in b
  {
    assert |multiset(a)| == |a| && |multiset(b)| == |b|;
    forall x ensures x in a <==> x in b {
      assert x in a <==> x in multiset(a);
      assert x in b <==> x in multiset(b);
    }
  }

  lemma {:induction false} SharedElement<T>(a: seq<T>, b: seq<T>, x: T)
    requires multiset(a) == multiset(b) && x in a
    ensures x in b
  {
    assert x in multiset(a);
    assert x in multiset(b);
  }

  lemma {:induction false} CountOnce<T>(s: seq<T>)
    requires Distinct(s)
    ensures forall x :: multiset(s)[x] <= 1
    decreases |s|
  {
    if s != [] {
      CountOnce(DropLast(s));
      assert s == DropLast(s) + [Last(s)];
      assert Last(s) !in DropLast(s);
    }
  }

  lemma {:induction false} TwoOccurrences<T>(s: seq<T>, i: nat, j: nat)
    requires i < j < |s| && s[i] == s[j]
    ensures multiset(s)[s[i]] >= 2
  {
    assert s == s[..i] + [s[i]] + s[i + 1..j] + [s[j]] + s[j + 1..];
  }

  lemma {:induction false} PermutationStaysDistinct<T>(a: seq<T>, b: seq<T>)
    requires Distinct(a) && multiset(a) == multiset(b)
    ensures Distinct(b)
  {
    CountOnce(a);
    forall i, j | 0 <= i < j < |b| ensures b[i] != b[j] {
      if b[i] == b[j] {
        TwoOccurrences(b, i, j);
      }
    }
  }

  lemma {:induction false} InsertBySorted<T>(key: T -> seq<int>, x: T, s: seq<T>)
    requires SortedBy(key, s)
    ensures SortedBy(key, InsertBy(key, x, s))
  {
    if s == [] {
    } else if KeyLe(key(x), key(s[0])) {
      forall j | 0 <= j < |s| ensures KeyLe(key(x), key(s[j])) {
        if j > 0 { KeyTransitive(key(x), key(s[0]), key(s[j])); }
      }
    } else {
      KeyTotal(key(x), key(s[0]));
      InsertBySorted(key, x, s[1..]);
      InsertByElements(key, x, s[1..]);
      var tail := InsertBy(key, x, s[1..]);
      forall j | 0 <= j < |tail| ensures KeyLe(key(s[0]), key(tail[j])) {
        SharedElement(tail, s[1..] + [x], tail[j]);
        if tail[j] in s[1..] {
          var k :| 0 <= k < |s[1..]| && s[1..][k] == tail[j];
          assert s[k + 1] == tail[j];
        }
      }
    }
  }

  lemma {:induction false} SortBySorts<T>(key: T -> seq<int>, s: seq<T>)
    ensures SortedBy(key, SortBy(key, s))
  {
    if s != [] {
      SortBySorts(key, s[1..]);
      InsertBySorted(key, s[0], SortBy(key, s[1..]));
    }
  }

  /** A list that is already in order is left alone. */
  lemma {:induction false} SortedIsFixed<T>(key: T -> seq<int>, s: seq<T>)
    requires SortedBy(key, s)
    ensures SortBy(key, s) == s
  {
    if s != [] {
      SortedIsFixed(key, s[1..]);
    }
  }
}
