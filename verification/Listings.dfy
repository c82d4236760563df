/** Sequences that list a set of strings, each of them once, and the sorted ones among them. */
module Listings {
  import opened Prelude
  import opened Sorting

  /** `s` lists every member of `e` exactly once. */
  ghost predicate Lists(s: seq<string>, e: set<string>) {
    NoDuplicates(s) && Elements(s) == e
  }

  function Self(s: string): string {
    s
  }

  /** `sorted(s)` for a list of strings. */
  function Sorted(s: seq<string>): seq<string> {
    SortBy(StringLeq, Self, s)
  }

  ghost predicate SortedListing(s: seq<string>, e: set<string>) {
    Lists(s, e) && SortedBy(StringLeq, Self, s)
  }

  lemma ListsAppend(s: seq<string>, e: set<string>, x: string)
    requires Lists(s, e) && x !in e
    ensures Lists(s + [x], e + {x})
  {
    forall y ensures y in Elements(s + [x]) <==> y in e + {x} {
      assert y in s + [x] <==> y in s || y == x;
    }
    assert forall i :: 0 <= i < |s| ==> s[i] in Elements(s);
  }

  lemma SortedLists(s: seq<string>, e: set<string>)
    requires Lists(s, e)
    ensures SortedListing(Sorted(s), e)
  {
    StringOrder();
    SortByIsSorted(StringLeq, Self, s);
    SortKeepsListing(StringLeq, Self, s);
  }

  /** A set of strings has one sorted listing. */
  lemma SortedListingUnique(s: seq<string>, t: seq<string>, e: set<string>)
    requires SortedListing(s, e) && SortedListing(t, e)
    ensures s == t
  {
    StringOrder();
    forall k ensures WithKey(Self, k, s) == WithKey(Self, k, t) {
      DistinctWithKey(Self, k, s);
      DistinctWithKey(Self, k, t);
      WithKeyMember(Self, k, s);
      WithKeyMember(Self, k, t);
      assert k in s <==> k in Elements(s);
      assert k in t <==> k in Elements(t);
      SameShortSequence(WithKey(Self, k, s), WithKey(Self, k, t));
    }
    SortedDetermined(StringLeq, Self, s, t);
  }

  lemma SortedIffPermuted(x: seq<string>, y: seq<string>)
    ensures Sorted(x) == Sorted(y) <==> multiset(x) == multiset(y)
  {
    StringOrder();
    SortByIsSorted(StringLeq, Self, x);
    SortByIsSorted(StringLeq, Self, y);
    if multiset(x) == multiset(y) {
      PermutationsSortAlike(StringLeq, Self, x, y);
    }
  }

  lemma {:induction false} InsertKeys<T>(key: T -> string, x: T, s: seq<T>)
    ensures Map(key, Insert(StringLeq, key, x, s)) == Insert(StringLeq, Self, key(x), Map(key, s))
  {
    if s != [] && !StringLeq(key(x), key(s[0])) {
      InsertKeys(key, x, s[1..]);
    }
    assert ([x] + s)[1..] == s;
  }

  /** The keys of a sequence sorted by key are its keys, sorted. */
  lemma {:induction false} SortedKeys<T>(key: T -> string, s: seq<T>)
    ensures Map(key, SortBy(StringLeq, key, s)) == Sorted(Map(key, s))
  {
    if s != [] {
      SortedKeys(key, s[1..]);
      InsertKeys(key, s[0], SortBy(StringLeq, key, s[1..]));
    }
  }
}
