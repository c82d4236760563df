/** Stable sorting by a key under a total order, and exactly what its result depends on. */
module Sorting {
  import opened Prelude

  ghost predicate TotalOrder<K(!new)>(leq: (K, K) -> bool) {
    && (forall a, b :: leq(a, b) || leq(b, a))
    && (forall a, b :: leq(a, b) && leq(b, a) ==> a == b)
    && (forall a, b, c :: leq(a, b) && leq(b, c) ==> leq(a, c))
  }

  /** Puts x in front of the first element whose key is not smaller. */
  function Insert<T, K>(leq: (K, K) -> bool, key: T -> K, x: T, s: seq<T>): seq<T> {
    if s == [] || leq(key(x), key(s[0])) then [x] + s else [s[0]] + Insert(leq, key, x, s[1..])
  }

  /** `sorted(xs, key=key)`: stable, by insertion from the right. */
  function SortBy<T, K>(leq: (K, K) -> bool, key: T -> K, xs: seq<T>): seq<T> {
    if xs == [] then [] else Insert(leq, key, xs[0], SortBy(leq, key, xs[1..]))
  }

  ghost predicate SortedBy<T, K>(leq: (K, K) -> bool, key: T -> K, s: seq<T>) {
    forall i, j :: 0 <= i <= j < |s| ==> leq(key(s[i]), key(s[j]))
  }

  /** The elements of s whose key is k, in order. */
  function WithKey<T, K(==)>(key: T -> K, k: K, s: seq<T>): seq<T> {
    if s == [] then [] else (if key(s[0]) == k then [s[0]] else []) + WithKey(key, k, s[1..])
  }

  lemma ConsSorts<T, K(!new)>(leq: (K, K) -> bool, key: T -> K, x: T, s: seq<T>)
    requires TotalOrder(leq) && SortedBy(leq, key, s) && (s == [] || leq(key(x), key(s[0])))
    ensures SortedBy(leq, key, [x] + s) && multiset([x] + s) == multiset(s) + multiset{x}
  {
    forall j | 0 <= j < |s| ensures leq(key(x), key(s[j])) {
      assert leq(key(s[0]), key(s[j]));
    }
  }

  lemma {:induction false} InsertSorts<T, K(!new)>(leq: (K, K) -> bool, key: T -> K, x: T, s: seq<T>)
    requires TotalOrder(leq) && SortedBy(leq, key, s)
    ensures SortedBy(leq, key, Insert(leq, key, x, s))
    ensures multiset(Insert(leq, key, x, s)) == multiset(s) + multiset{x}
  {
    if s != [] && !leq(key(x), key(s[0])) {
      InsertSorts(leq, key, x, s[1..]);
      var rest := Insert(leq, key, x, s[1..]);
      assert s == [s[0]] + s[1..];
      forall j | 0 <= j < |rest| ensures leq(key(s[0]), key(rest[j])) {
        assert rest[j] in multiset(rest);
        assert rest[j] == x || rest[j] in s[1..];
      }
    } else {
      ConsSorts(leq, key, x, s);
    }
  }

  lemma {:induction false} SortByIsSorted<T, K(!new)>(leq: (K, K) -> bool, key: T -> K, xs: seq<T>)
    requires TotalOrder(leq)
    ensures SortedBy(leq, key, SortBy(leq, key, xs))
    ensures multiset(SortBy(leq, key, xs)) == multiset(xs)
  {
    if xs != [] {
      SortByIsSorted(leq, key, xs[1..]);
      InsertSorts(leq, key, xs[0], SortBy(leq, key, xs[1..]));
      assert xs == [xs[0]] + xs[1..];
    }
  }

  lemma WithKeyCons<T, K>(key: T -> K, k: K, x: T, s: seq<T>)
    ensures WithKey(key, k, [x] + s) == (if key(x) == k then [x] else []) + WithKey(key, k, s)
  {
    assert ([x] + s)[1..] == s;
  }

  lemma Reflexive<K(!new)>(leq: (K, K) -> bool, k: K)
    requires TotalOrder(leq)
    ensures leq(k, k)
  {
  }

  lemma {:induction false} InsertIsStable<T, K(!new)>(leq: (K, K) -> bool, key: T -> K, x: T, s: seq<T>, k: K)
    requires TotalOrder(leq)
    ensures WithKey(key, k, Insert(leq, key, x, s)) == (if key(x) == k then [x] else []) + WithKey(key, k, s)
  {
    hide TotalOrder;
    if s == [] || leq(key(x), key(s[0])) {
      WithKeyCons(key, k, x, s);
    } else {
      Reflexive(leq, key(x));
      InsertIsStable(leq, key, x, s[1..], k);
      WithKeyCons(key, k, s[0], Insert(leq, key, x, s[1..]));
      assert [] + WithKey(key, k, s[1..]) == WithKey(key, k, s[1..]);
      assert [] + WithKey(key, k, s) == WithKey(key, k, s);
      if key(s[0]) == k {
        assert key(x) != k;
      }
    }
  }

  /** Sorting keeps the order of elements with equal keys. */
  lemma {:induction false} SortByIsStable<T, K(!new)>(leq: (K, K) -> bool, key: T -> K, xs: seq<T>, k: K)
    requires TotalOrder(leq)
    ensures WithKey(key, k, SortBy(leq, key, xs)) == WithKey(key, k, xs)
  {
    if xs != [] {
      SortByIsStable(leq, key, xs[1..], k);
      InsertIsStable(leq, key, xs[0], SortBy(leq, key, xs[1..]), k);
    }
  }

  lemma {:induction false} WithKeyMember<T, K>(key: T -> K, k: K, s: seq<T>)
    ensures WithKey(key, k, s) != [] <==> exists i :: 0 <= i < |s| && key(s[i]) == k
    ensures forall x :: x in WithKey(key, k, s) ==> x in s && key(x) == k
    ensures forall x :: x in s && key(x) == k ==> x in WithKey(key, k, s)
  {
    if s != [] {
      WithKeyMember(key, k, s[1..]);
      assert s == [s[0]] + s[1..];
      if key(s[0]) == k {
        assert WithKey(key, k, s)[0] == s[0];
      } else if i :| 0 <= i < |s| && key(s[i]) == k {
        assert s[1..][i - 1] == s[i];
      }
      assert forall j :: 0 <= j < |s[1..]| ==> s[1..][j] == s[j + 1];
    }
  }

  lemma WithKeyTail<T, K>(key: T -> K, k: K, s: seq<T>)
    requires s != []
    ensures WithKey(key, k, s[1..]) == if key(s[0]) == k then WithKey(key, k, s)[1..] else WithKey(key, k, s)
  {
  }

  lemma NonemptyHasKey<T, K(!new)>(key: T -> K, s: seq<T>)
    ensures s != [] ==> exists k :: WithKey(key, k, s) != []
  {
    if s != [] {
      assert WithKey(key, key(s[0]), s) != [];
    }
  }

  /** A sorted sequence is determined by its elements of each key. */
  lemma {:induction false} SortedDetermined<T, K(!new)>(leq: (K, K) -> bool, key: T -> K, a: seq<T>, b: seq<T>)
    requires TotalOrder(leq) && SortedBy(leq, key, a) && SortedBy(leq, key, b)
    requires forall k :: WithKey(key, k, a) == WithKey(key, k, b)
    ensures a == b
    decreases |a|
  {
    if a == [] {
      NonemptyHasKey(key, b);
    } else {
      var k := key(a[0]);
      WithKeyMember(key, k, b);
      assert WithKey(key, k, a) == WithKey(key, k, b);
      var l := key(b[0]);
      WithKeyMember(key, l, a);
      assert WithKey(key, l, a) == WithKey(key, l, b);
      assert leq(k, l) && leq(l, k);
      assert a[0] == WithKey(key, k, a)[0] == WithKey(key, k, b)[0] == b[0];
      forall m ensures WithKey(key, m, a[1..]) == WithKey(key, m, b[1..]) {
        assert WithKey(key, m, a) == WithKey(key, m, b);
        WithKeyTail(key, m, a);
        WithKeyTail(key, m, b);
      }
      SortedDetermined(leq, key, a[1..], b[1..]);
    }
  }

  /** The same elements under each key, in the same order. */
  ghost predicate SameByKey<T, K(!new)>(key: T -> K, xs: seq<T>, ys: seq<T>) {
    forall k :: WithKey(key, k, xs) == WithKey(key, k, ys)
  }

  /** Two sequences sort alike exactly when, key by key, they list the same elements in the same order. */
  lemma SortByDependsOn<T, K(!new)>(leq: (K, K) -> bool, key: T -> K, xs: seq<T>, ys: seq<T>)
    requires TotalOrder(leq)
    ensures SortBy(leq, key, xs) == SortBy(leq, key, ys) <==> SameByKey(key, xs, ys)
  {
    SortByIsSorted(leq, key, xs);
    SortByIsSorted(leq, key, ys);
    if SameByKey(key, xs, ys) {
      forall k ensures WithKey(key, k, SortBy(leq, key, xs)) == WithKey(key, k, SortBy(leq, key, ys)) {
        assert WithKey(key, k, xs) == WithKey(key, k, ys);
        SortByIsStable(leq, key, xs, k);
        SortByIsStable(leq, key, ys, k);
      }
      SortedDetermined(leq, key, SortBy(leq, key, xs), SortBy(leq, key, ys));
    } else {
      var k :| WithKey(key, k, xs) != WithKey(key, k, ys);
      SortByIsStable(leq, key, xs, k);
      SortByIsStable(leq, key, ys, k);
    }
  }

  ghost predicate DistinctKeys<T, K>(key: T -> K, s: seq<T>) {
    forall i, j :: 0 <= i < j < |s| ==> key(s[i]) != key(s[j])
  }

  lemma {:induction false} DistinctWithKey<T, K>(key: T -> K, k: K, s: seq<T>)
    requires DistinctKeys(key, s)
    ensures |WithKey(key, k, s)| <= 1
  {
    if s != [] {
      DistinctWithKey(key, k, s[1..]);
      WithKeyMember(key, k, s[1..]);
      assert forall i :: 0 <= i < |s[1..]| ==> s[1..][i] == s[i + 1];
    }
  }

  /** With distinct keys a permutation sorts alike. */
  lemma DistinctPermutationsSortAlike<T, K(!new)>(leq: (K, K) -> bool, key: T -> K, xs: seq<T>, ys: seq<T>)
    requires TotalOrder(leq) && multiset(xs) == multiset(ys) && DistinctKeys(key, xs) && DistinctKeys(key, ys)
    ensures SortBy(leq, key, xs) == SortBy(leq, key, ys)
  {
    forall k ensures WithKey(key, k, xs) == WithKey(key, k, ys) {
      DistinctWithKey(key, k, xs);
      DistinctWithKey(key, k, ys);
      WithKeyMember(key, k, xs);
      WithKeyMember(key, k, ys);
      assert forall x :: x in xs <==> x in multiset(xs);
      assert forall x :: x in ys <==> x in multiset(ys);
      SameShortSequence(WithKey(key, k, xs), WithKey(key, k, ys));
    }
    SortByDependsOn(leq, key, xs, ys);
  }

  lemma SameShortSequence<T>(a: seq<T>, b: seq<T>)
    requires |a| <= 1 && |b| <= 1 && forall x :: x in a <==> x in b
    ensures a == b
  {
    assert a != [] ==> a[0] in b;
    assert b != [] ==> b[0] in a;
  }

  lemma {:induction false} TieCopies<T, K>(key: T -> K, x: T, s: seq<T>)
    requires forall y :: y in s && key(y) == key(x) ==> y == x
    ensures WithKey(key, key(x), s) == seq(multiset(s)[x], _ => x)
  {
    if s != [] {
      TieCopies(key, x, s[1..]);
      assert s == [s[0]] + s[1..];
    }
  }

  /** When elements with equal keys are equal, any permutation sorts alike. */
  lemma TiedPermutationsSortAlike<T(!new), K(!new)>(leq: (K, K) -> bool, key: T -> K, xs: seq<T>, ys: seq<T>)
    requires TotalOrder(leq) && multiset(xs) == multiset(ys)
    requires forall x, y :: x in xs && y in xs && key(x) == key(y) ==> x == y
    ensures SortBy(leq, key, xs) == SortBy(leq, key, ys)
  {
    hide TotalOrder, SortBy;
    forall x ensures x in xs <==> x in ys {
      assert x in multiset(xs) <==> x in multiset(ys);
    }
    forall k ensures WithKey(key, k, xs) == WithKey(key, k, ys) {
      WithKeyMember(key, k, xs);
      WithKeyMember(key, k, ys);
      if x :| x in xs && key(x) == k {
        TieCopies(key, x, xs);
        TieCopies(key, x, ys);
      } else {
        assert WithKey(key, k, xs) == [];
        assert WithKey(key, k, ys) == [];
      }
    }
    SortByDependsOn(leq, key, xs, ys);
  }

  /** Sorting whole values depends only on the multiset of values. */
  lemma PermutationsSortAlike<T(!new)>(leq: (T, T) -> bool, key: T -> T, xs: seq<T>, ys: seq<T>)
    requires TotalOrder(leq) && multiset(xs) == multiset(ys) && forall x :: key(x) == x
    ensures SortBy(leq, key, xs) == SortBy(leq, key, ys)
  {
    forall k ensures WithKey(key, k, xs) == WithKey(key, k, ys) {
      CopiesOfKey(key, k, xs);
      CopiesOfKey(key, k, ys);
    }
    SortByDependsOn(leq, key, xs, ys);
  }

  lemma {:induction false} CopiesOfKey<T(!new)>(key: T -> T, k: T, s: seq<T>)
    requires forall x :: key(x) == x
    ensures WithKey(key, k, s) == seq(multiset(s)[k], _ => k)
  {
    if s != [] {
      CopiesOfKey(key, k, s[1..]);
      assert s == [s[0]] + s[1..];
    }
  }

  lemma CountsNoDuplicates<T(!new)>(s: seq<T>)
    requires forall x :: multiset(s)[x] <= 1
    ensures NoDuplicates(s)
  {
    forall i, j | 0 <= i < j < |s| ensures s[i] != s[j] {
      if s[i] == s[j] {
        TwoPlaces(s, i, j);
      }
    }
  }

  /** Sorting a listing lists the same elements. */
  lemma SortKeepsListing<T(!new), K(!new)>(leq: (K, K) -> bool, key: T -> K, s: seq<T>)
    requires TotalOrder(leq) && NoDuplicates(s)
    ensures NoDuplicates(SortBy(leq, key, s)) && Elements(SortBy(leq, key, s)) == Elements(s)
  {
    SortByIsSorted(leq, key, s);
    var r := SortBy(leq, key, s);
    forall x ensures multiset(r)[x] <= 1 && (x in r <==> x in s) {
      OccursOnce(s, x);
      assert x in multiset(r) <==> x in multiset(s);
    }
    CountsNoDuplicates(r);
  }

  // ---- Strings, compared by code point ----

  predicate StringLeq(a: string, b: string) {
    a == [] || (b != [] && (a[0] < b[0] || (a[0] == b[0] && StringLeq(a[1..], b[1..]))))
  }

  lemma StringLeqTotal(a: string, b: string)
    ensures StringLeq(a, b) || StringLeq(b, a)
    ensures StringLeq(a, b) && StringLeq(b, a) ==> a == b
  {
    if a != [] && b != [] && a[0] == b[0] {
      StringLeqTotal(a[1..], b[1..]);
      assert a == [a[0]] + a[1..] && b == [b[0]] + b[1..];
    }
  }

  lemma StringLeqTransitive(a: string, b: string, c: string)
    requires StringLeq(a, b) && StringLeq(b, c)
    ensures StringLeq(a, c)
  {
    if a != [] && a[0] == b[0] == c[0] {
      StringLeqTransitive(a[1..], b[1..], c[1..]);
    }
  }

  lemma StringOrder()
    ensures TotalOrder(StringLeq)
  {
    forall a, b ensures (StringLeq(a, b) || StringLeq(b, a)) && (StringLeq(a, b) && StringLeq(b, a) ==> a == b) {
      StringLeqTotal(a, b);
    }
    forall a, b, c | StringLeq(a, b) && StringLeq(b, c) ensures StringLeq(a, c) {
      StringLeqTransitive(a, b, c);
    }
  }
}
