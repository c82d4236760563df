/** Shared vocabulary: optional values, mapped sequences, sums over sets, and facts about finite sets. */
module Prelude {

  datatype Option<+T> = None | Some(value: T)

  /** No element occurs twice. */
  ghost predicate NoDuplicates<T>(s: seq<T>) {
    forall i, j :: 0 <= i < j < |s| ==> s[i] != s[j]
  }

  function Elements<T>(s: seq<T>): set<T> {
    set x | x in s
  }

  lemma {:induction false} NoDuplicatesCardinality<T>(s: seq<T>)
    requires NoDuplicates(s)
    ensures |Elements(s)| == |s|
  {
    if s == [] {
    } else {
      var t := s[..|s| - 1];
      NoDuplicatesCardinality(t);
      assert s == t + [s[|s| - 1]];
      assert Elements(s) == Elements(t) + {s[|s| - 1]};
    }
  }

  /** A finite set that contains 1, ..., n has at least n elements. */
  lemma {:induction false} Pigeonhole(used: set<nat>, n: nat)
    requires forall i: nat :: 1 <= i <= n ==> i in used
    ensures n <= |used|
    decreases n
  {
    if n > 0 {
      Pigeonhole(used - {n}, n - 1);
    }
  }

  lemma SubsetCardinality<T>(a: set<T>, b: set<T>)
    requires a <= b
    ensures |a| <= |b|
  {
    assert b == a + (b - a);
  }

  /** The image of a sequence, element by element. */
  function Map<A, B>(f: A -> B, s: seq<A>): (r: seq<B>)
    ensures |r| == |s| && forall i :: 0 <= i < |s| ==> r[i] == f(s[i])
  {
    if s == [] then [] else [f(s[0])] + Map(f, s[1..])
  }

  lemma {:induction false} MapMultiset<A, B>(f: A -> B, s: seq<A>, t: seq<A>)
    requires multiset(s) == multiset(t)
    ensures multiset(Map(f, s)) == multiset(Map(f, t))
    decreases |s|
  {
    if s == [] {
      assert |multiset(t)| == 0;
    } else {
      assert s[0] in multiset(t);
      var i :| 0 <= i < |t| && t[i] == s[0];
      assert s[..0] + s[1..] == s[1..];
      RemovedOne(s, 0);
      RemovedOne(t, i);
      WithoutOne(f, s, 0);
      WithoutOne(f, t, i);
      MapMultiset(f, s[1..], t[..i] + t[i + 1..]);
    }
  }

  lemma RemovedOne<T>(t: seq<T>, i: nat)
    requires i < |t|
    ensures multiset(t[..i] + t[i + 1..]) == multiset(t) - multiset{t[i]}
  {
    assert t == t[..i] + ([t[i]] + t[i + 1..]);
  }

  lemma WithoutOne<A, B>(f: A -> B, t: seq<A>, i: nat)
    requires i < |t|
    ensures multiset(Map(f, t)) == multiset(Map(f, t[..i] + t[i + 1..])) + multiset{f(t[i])}
  {
    hide Map;
    var before, after := t[..i], t[i + 1..];
    assert t == before + ([t[i]] + after);
    MapSplit(f, before, after);
    MapSplit(f, before, [t[i]] + after);
    MapSplit(f, [t[i]], after);
    assert Map(f, [t[i]]) == [f(t[i])];
  }

  lemma MapSplit<A, B>(f: A -> B, a: seq<A>, b: seq<A>)
    ensures Map(f, a + b) == Map(f, a) + Map(f, b)
  {
    hide Map;
    var x, y := Map(f, a + b), Map(f, a) + Map(f, b);
    assert forall i :: 0 <= i < |a + b| ==> x[i] == y[i];
  }

  lemma TwoPlaces<T>(s: seq<T>, i: nat, j: nat)
    requires i < j < |s| && s[i] == s[j]
    ensures multiset(s)[s[i]] >= 2
  {
    assert s == s[..j] + [s[j]] + s[j + 1..];
    assert s[i] in s[..j];
    assert multiset(s)[s[j]] == multiset(s[..j])[s[j]] + 1 + multiset(s[j + 1..])[s[j]];
  }

  lemma {:induction false} OccursOnce<T>(s: seq<T>, x: T)
    requires NoDuplicates(s)
    ensures multiset(s)[x] == if x in s then 1 else 0
  {
    if s != [] {
      var t := s[..|s| - 1];
      OccursOnce(t, x);
      assert s == t + [s[|s| - 1]];
      assert s[|s| - 1] !in t;
    }
  }

  /** Two listings of the same elements are permutations of each other. */
  lemma ListingsPermute<T(!new)>(a: seq<T>, b: seq<T>)
    requires NoDuplicates(a) && NoDuplicates(b) && Elements(a) == Elements(b)
    ensures multiset(a) == multiset(b)
  {
    forall x ensures multiset(a)[x] == multiset(b)[x] {
      OccursOnce(a, x);
      OccursOnce(b, x);
      assert x in a <==> x in Elements(a);
      assert x in b <==> x in Elements(b);
    }
  }

  // ---- Sums over finite sets ----

  ghost function SumOver<T>(w: T -> int, s: set<T>): int {
    if s == {} then 0
    else
      var x :| x in s;
      w(x) + SumOver(w, s - {x})
  }

  /** A sum does not depend on the order of its terms. */
  lemma {:induction false} SumWith<T>(w: T -> int, s: set<T>, x: T)
    requires x !in s
    ensures SumOver(w, s + {x}) == SumOver(w, s) + w(x)
    decreases |s|
  {
    var all := s + {x};
    var y :| y in all && SumOver(w, all) == w(y) + SumOver(w, all - {y});
    if y == x {
      assert all - {x} == s;
    } else {
      assert all - {y} == s - {y} + {x};
      SumWith(w, s - {y}, x);
      assert s - {y} + {y} == s;
      SumWith(w, s - {y}, y);
    }
  }

  lemma {:induction false} SumAlike<T>(v: T -> int, w: T -> int, s: set<T>)
    requires forall x :: x in s ==> v(x) == w(x)
    ensures SumOver(v, s) == SumOver(w, s)
    decreases |s|
  {
    if s != {} {
      var x :| x in s;
      SumAlike(v, w, s - {x});
      assert s - {x} + {x} == s;
      SumWith(v, s - {x}, x);
      SumWith(w, s - {x}, x);
    }
  }

  lemma {:induction false} SumMonotone<T>(w: T -> int, s: set<T>, u: set<T>)
    requires s <= u && forall x :: x in u ==> w(x) >= 0
    ensures 0 <= SumOver(w, s) <= SumOver(w, u)
    decreases |u|
  {
    if s != u {
      var x :| x in u && x !in s;
      assert u - {x} + {x} == u;
      SumMonotone(w, s, u - {x});
      SumWith(w, u - {x}, x);
    } else if u != {} {
      var x :| x in u;
      assert u - {x} + {x} == u;
      SumMonotone(w, u - {x}, u - {x});
      SumWith(w, u - {x}, x);
    }
  }
}
