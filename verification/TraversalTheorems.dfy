/** When the snapshot and the walk agree, and what neither depends on. */
module TraversalTheorems {
  import opened Prelude
  import opened Sorting
  import opened Listings
  import opened PathNames
  import opened Text
  import opened RepositoryTree
  import opened RepositoryTraversal
  import opened RepositorySnapshot

  // ---- Order of enumeration ----

  lemma ResolvedIsFile(t: Tree, rules: Rules, relative: string)
    requires IsTree(t) && Resolve(t, rules, relative).Some?
    ensures var q := Resolve(t, rules, relative).value; q in t && t[q].File? && IsNamePath(q) && q != []
  {
  }

  lemma RecordsWithOneName(t: Tree, rules: Rules, p: Path, p': Path)
    requires IsTree(t) && Resolve(t, rules, Join(p)).Some? && Resolve(t, rules, Join(p')).Some?
    requires NameOf(RecordOf(t, rules, p)) == NameOf(RecordOf(t, rules, p'))
    ensures RecordOf(t, rules, p) == RecordOf(t, rules, p')
  {
    hide Resolve, IsTree;
    ResolvedIsFile(t, rules, Join(p));
    ResolvedIsFile(t, rules, Join(p'));
    JoinInjective(Resolve(t, rules, Join(p)).value, Resolve(t, rules, Join(p')).value);
  }

  /** The sorted records do not depend on the order files were recorded in. */
  lemma SnapshotIsDetermined(t: Tree, rules: Rules, s: set<Path>, ps: seq<Path>, ps': seq<Path>)
    requires IsTree(t) && AllResolve(t, rules, s)
    requires NoDuplicates(ps) && Elements(ps) == s && NoDuplicates(ps') && Elements(ps') == s
    ensures SortBy(StringLeq, NameOf, MapRecords(t, rules, ps)) == SortBy(StringLeq, NameOf, MapRecords(t, rules, ps'))
  {
    hide SortBy, RecordOf, Resolve, IsTree, TotalOrder, Map;
    StringOrder();
    var f := p => RecordOf(t, rules, p);
    ListingsPermute(ps, ps');
    MapMultiset(f, ps, ps');
    assert Map(f, ps) == MapRecords(t, rules, ps);
    assert Map(f, ps') == MapRecords(t, rules, ps');
    var records := MapRecords(t, rules, ps);
    forall x, y | x in records && y in records && NameOf(x) == NameOf(y) ensures x == y {
      var i :| 0 <= i < |records| && records[i] == x;
      var j :| 0 <= j < |records| && records[j] == y;
      assert ps[i] in Elements(ps) && ps[j] in Elements(ps);
      RecordsWithOneName(t, rules, ps[i], ps[j]);
    }
    TiedPermutationsSortAlike(StringLeq, NameOf, records, MapRecords(t, rules, ps'));
  }

  /** Nor do the walk's files. */
  lemma WalkIsDetermined(t: Tree, rules: Rules, matches: string -> bool, s: set<Path>, found: seq<Path>, found': seq<Path>)
    requires IsTree(t) && s <= t.Keys
    requires IsAllowedPart(t, rules, matches, s, found) && IsAllowedPart(t, rules, matches, s, found')
    ensures SortBy(StringLeq, Join, found) == SortBy(StringLeq, Join, found')
  {
    hide SortBy, TotalOrder, Passes, Join;
    StringOrder();
    ListingsPermute(found, found');
    forall x, y | x in found && y in found && Join(x) == Join(y) ensures x == y {
      assert x in Elements(found) && y in Elements(found);
      JoinInjective(x, y);
    }
    TiedPermutationsSortAlike(StringLeq, Join, found, found');
  }

  // ---- Agreement ----

  lemma {:induction false} TotalWithout(s: seq<nat>, i: nat)
    requires i < |s|
    ensures Total(s) == s[i] + Total(s[..i] + s[i + 1..])
  {
    var last := |s| - 1;
    if i == last {
      assert s[..i] + s[i + 1..] == s[..last];
    } else {
      TotalWithout(s[..last], i);
      var rest := s[..i] + s[i + 1..];
      assert rest[..|rest| - 1] == s[..last][..i] + s[..last][i + 1..];
    }
  }

  function Total(s: seq<nat>): nat {
    if s == [] then 0 else Total(s[..|s| - 1]) + s[|s| - 1]
  }

  lemma {:induction false} TotalPermuted(a: seq<nat>, b: seq<nat>)
    requires multiset(a) == multiset(b)
    ensures Total(a) == Total(b)
    decreases |a|
  {
    hide Total;
    if a == [] {
      assert |multiset(b)| == 0;
      assert a == b;
    } else {
      assert a[0] in multiset(b);
      var i :| 0 <= i < |b| && b[i] == a[0];
      var restOfA, restOfB := a[..0] + a[1..], b[..i] + b[i + 1..];
      TotalWithout(a, 0);
      TotalWithout(b, i);
      RemovedOne(a, 0);
      RemovedOne(b, i);
      TotalPermuted(restOfA, restOfB);
    }
  }

  lemma {:induction false} TotalBelow(a: seq<nat>, b: seq<nat>)
    requires |a| == |b| && forall i :: 0 <= i < |a| ==> a[i] <= b[i]
    ensures Total(a) <= Total(b) && (Total(a) == Total(b) ==> a == b)
  {
    if a != [] {
      var last := |a| - 1;
      TotalBelow(a[..last], b[..last]);
      if Total(a) == Total(b) {
        assert a == a[..last] + [a[last]] && b == b[..last] + [b[last]];
      }
    }
  }

  /** Length, with every backslash counted twice. */
  function Weight(s: string): nat {
    |s| + multiset(s)['\\']
  }

  /** Resolving loses weight, except on normal paths, which resolve to themselves. */
  lemma ResolveWeighs(t: Tree, rules: Rules, p: Path)
    requires IsNamePath(p) && Resolve(t, rules, Join(p)).Some?
    ensures var q := Resolve(t, rules, Join(p)).value;
      && Weight(Join(q)) <= Weight(Join(p)) && (Weight(Join(q)) == Weight(Join(p)) ==> IsNormal(Join(p)))
      && (IsNormal(Join(p)) ==> q == p)
  {
    hide Join, Strip, IsNamePath;
    var s := Join(p);
    var q := Resolve(t, rules, s).value;
    assert Normalize(s) == Some(q);
    NormalizeShortens(s);
    assert '\\' in s <==> '\\' in multiset(s);
    assert '\\' in Join(q) <==> '\\' in multiset(Join(q));
    if IsNormal(s) {
      NormalizeNormal(p);
    }
  }

  /** The names a snapshot records, in its order. */
  function Names(records: seq<Record>): seq<string> {
    Map(NameOf, records)
  }

  /**
   * A successful snapshot names exactly the files the walk yields, each once and in the same order, if and only if
   * no yielded path has surrounding white space or a backslash.
   */
  lemma SnapshotAgreesWithWalk(t: Tree, rules: Rules, ps: seq<Path>, found: seq<Path>)
    requires IsTree(t) && AllResolve(t, rules, Evidence(t, rules, Entries(t, rules)))
    requires NoDuplicates(ps) && Elements(ps) == Evidence(t, rules, Entries(t, rules))
    requires IsAllowedPart(t, rules, IsEvidence, Entries(t, rules), found)
    ensures Names(SortBy(StringLeq, NameOf, MapRecords(t, rules, ps))) == Map(Join, SortBy(StringLeq, Join, found))
        <==> forall p :: p in found ==> IsNormal(Join(p))
  {
    hide SortBy, RecordOf, Resolve, IsTree, Map, Entries, Join, IsNormal, Passes, Sorted;
    var evidence := Evidence(t, rules, Entries(t, rules));
    assert Elements(found) == evidence;
    SnapshotIsDetermined(t, rules, evidence, ps, found);
    var records := MapRecords(t, rules, found);
    SortedKeys(NameOf, records);
    SortedKeys(Join, found);
    SortedIffPermuted(Names(records), Map(Join, found));
    FoundIsNamed(t, rules, found);
    NamesPermutedIffNormal(t, rules, found);
  }

  lemma FoundIsNamed(t: Tree, rules: Rules, found: seq<Path>)
    requires IsTree(t) && Elements(found) == Evidence(t, rules, Entries(t, rules))
    requires AllResolve(t, rules, Evidence(t, rules, Entries(t, rules)))
    ensures forall p :: p in found ==> IsNamePath(p) && Resolve(t, rules, Join(p)).Some?
  {
    hide Resolve, Passes, Join;
    forall p | p in found ensures IsNamePath(p) && Resolve(t, rules, Join(p)).Some? {
      assert p in Elements(found);
    }
  }

  lemma NamesPermutedIffNormal(t: Tree, rules: Rules, found: seq<Path>)
    requires forall p :: p in found ==> IsNamePath(p) && Resolve(t, rules, Join(p)).Some?
    ensures multiset(Names(MapRecords(t, rules, found))) == multiset(Map(Join, found))
        <==> forall p :: p in found ==> IsNormal(Join(p))
  {
    hide Resolve, Join, IsNormal, Map, IsNamePath, Weight;
    var a, b := Names(MapRecords(t, rules, found)), Map(Join, found);
    forall i | 0 <= i < |found|
      ensures Weight(a[i]) <= Weight(b[i]) && (Weight(a[i]) == Weight(b[i]) ==> IsNormal(Join(found[i])))
      ensures IsNormal(Join(found[i])) ==> a[i] == b[i] {
      assert found[i] in found;
      ResolveWeighs(t, rules, found[i]);
    }
    if multiset(a) == multiset(b) {
      MapMultiset(Weight, a, b);
      TotalPermuted(Map(Weight, a), Map(Weight, b));
      TotalBelow(Map(Weight, a), Map(Weight, b));
      forall p | p in found ensures IsNormal(Join(p)) {
        var i :| 0 <= i < |found| && found[i] == p;
        assert Map(Weight, a)[i] == Map(Weight, b)[i];
      }
    }
    if forall p :: p in found ==> IsNormal(Join(p)) {
      assert forall i :: 0 <= i < |found| ==> found[i] in found && a[i] == b[i];
      assert a == b;
    }
  }

  // ---- Nothing outside the allowed files ----

  lemma {:induction false} PrefixReached(t: Tree, rules: Rules, q: Path, i: nat)
    requires IsTree(t) && q in t && i < |q| && forall k :: 0 <= k < |q| - 1 ==> !rules.ignored(q[k])
    ensures Reached(t, rules, q[..i]) && (i > 0 ==> q[..i] in t && t[q[..i]].Directory?)
    decreases |q|
  {
    hide IsNamePath;
    if |q| > 1 {
      var up := Parent(q);
      if i < |up| {
        PrefixReached(t, rules, up, i);
        assert up[..i] == q[..i];
      } else {
        PrefixReached(t, rules, up, i - 1);
        assert up[..i - 1] == Parent(up) && q[..i] == up;
        assert Opens(t, rules, up);
      }
    }
  }

  /** Whatever a path resolves to, the walk yields: a snapshot names no file outside the evidence. */
  lemma ResolvesIntoEvidence(t: Tree, rules: Rules, p: Path)
    requires IsTree(t) && p in Evidence(t, rules, Entries(t, rules)) && Resolve(t, rules, Join(p)).Some?
    ensures Resolve(t, rules, Join(p)).value in Evidence(t, rules, Entries(t, rules))
  {
    hide Join, Reached, Normalize, IsEvidence, IsNamePath;
    var s := Join(p);
    var q := Resolve(t, rules, s).value;
    ResolvedIsFile(t, rules, s);
    PrefixReached(t, rules, q, |q| - 1);
    NormalizeEvidence(s);
  }

  lemma NormalizeEvidence(s: string)
    requires IsEvidence(s) && Normalize(s).Some?
    ensures IsEvidence(Join(Normalize(s).value))
  {
    hide Join, Normalize, HasSuffix;
    var i :| 0 <= i < |EVIDENCE_SUFFIXES| && HasSuffix(s, EVIDENCE_SUFFIXES[i]);
    SuffixIsSuffix(i);
    NormalizeSuffix(s, EVIDENCE_SUFFIXES[i]);
  }

  lemma SuffixIsSuffix(i: nat)
    requires i < |EVIDENCE_SUFFIXES|
    ensures IsSuffix(EVIDENCE_SUFFIXES[i])
  {
  }

  /** When the snapshot succeeds the walk cannot run into its own scan limit. */
  lemma SnapshotMeansWalk(t: Tree, rules: Rules, maxScannedFiles: nat)
    requires Fits(t, rules, maxScannedFiles)
    ensures |FileEntries(t, Entries(t, rules))| <= SNAPSHOT_MAX_ENTRIES
  {
    SubsetCardinality(FileEntries(t, Entries(t, rules)), Entries(t, rules));
  }

  /** Two files whose names differ in a leading space. */
  function SpacedTree(): Tree {
    map[["a.py"] := File(1, "x", false), [" a.py"] := File(1, "y", false)]
  }

  lemma SpacedTreeIsTree()
    ensures IsTree(SpacedTree()) && !UnsafeSummary(SpacedTree())
  {
    assert |PYPROJECT[0]| == 14;
  }

  lemma SpacedResolves(rules: Rules)
    requires forall s :: !rules.ignored(s) && !rules.sensitive(s)
    ensures Resolve(SpacedTree(), rules, Join(["a.py"])) == Resolve(SpacedTree(), rules, Join([" a.py"])) == Some(["a.py"])
  {
    NormalizesTo();
    assert Join(["a.py"]) == "a.py" && Join([" a.py"]) == " a.py";
  }

  lemma SpacedEvidence(rules: Rules)
    requires forall s :: !rules.ignored(s) && !rules.sensitive(s)
    ensures Entries(SpacedTree(), rules) == {["a.py"], [" a.py"]}
    ensures Evidence(SpacedTree(), rules, Entries(SpacedTree(), rules)) == {["a.py"], [" a.py"]}
  {
    hide HasSuffix;
    assert Join(["a.py"]) == "a.py" && Join([" a.py"]) == " a.py";
    assert IsEvidence("a.py") && IsEvidence(" a.py") by {
      assert HasSuffix("a.py", EVIDENCE_SUFFIXES[0]) && HasSuffix(" a.py", EVIDENCE_SUFFIXES[0]) by { Suffixes(); }
    }
    assert Entries(SpacedTree(), rules) == {["a.py"], [" a.py"]};
  }

  lemma Suffixes()
    ensures HasSuffix("a.py", EVIDENCE_SUFFIXES[0]) && HasSuffix(" a.py", EVIDENCE_SUFFIXES[0])
  {
  }

  lemma SpacedCost(rules: Rules)
    requires forall s :: !rules.ignored(s) && !rules.sensitive(s)
    ensures TotalCost(SpacedTree(), rules, {["a.py"], [" a.py"]}) == 2
  {
    hide Resolve;
    var p, q := ["a.py"], [" a.py"];
    SpacedResolves(rules);
    TotalCostWith(SpacedTree(), rules, {}, p);
    TotalCostWith(SpacedTree(), rules, {p}, q);
    assert {} + {p} == {p} && {p} + {q} == {p, q};
  }

  /** A leading space is enough: ` a.py` is recorded as `a.py`, so the snapshot names one file twice and misses one. */
  lemma SpaceIsLost(rules: Rules)
    requires forall s :: !rules.ignored(s) && !rules.sensitive(s)
    ensures IsTree(SpacedTree()) && Fits(SpacedTree(), rules, 10_000)
    ensures Evidence(SpacedTree(), rules, Entries(SpacedTree(), rules)) == {["a.py"], [" a.py"]}
    ensures MapRecords(SpacedTree(), rules, [[" a.py"], ["a.py"]]) ==
      [Record("a.py", "x", false), Record("a.py", "x", false)]
  {
    hide Resolve, TotalCost, Entries, Evidence, SpacedTree, IsTree, UnsafeSummary;
    SpacedTreeIsTree();
    SpacedEvidence(rules);
    SpacedResolves(rules);
    SpacedCost(rules);
    SpacedRecord();
    assert |{["a.py"], [" a.py"]}| <= 2;
  }

  lemma SpacedRecord()
    ensures ["a.py"] in SpacedTree() && SpacedTree()[["a.py"]] == File(1, "x", false)
    ensures RecordAt(SpacedTree(), ["a.py"]) == Record("a.py", "x", false)
  {
  }

  lemma NormalizesTo()
    ensures Normalize("a.py") == Some(["a.py"]) && Normalize(" a.py") == Some(["a.py"])
  {
    assert StripLeft(" a.py") == StripLeft("a.py") == "a.py";
    assert StripRight("a.py") == "a.py";
    assert Slashed("a.py") == "a.py";
    JoinParts(["a.py"]);
    assert Join(["a.py"]) == "a.py";
  }
}
