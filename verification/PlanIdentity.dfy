/** What a structure hash identifies. */
module PlanIdentity {
  // Equal hashes of compiled plans, in the fields of their specs.

  import opened Prelude
  import opened Sorting
  import opened PlanGraph
  import opened Listings
  import opened PlanHash
  import opened PlanCompiler
  import opened PlanTheorems

  /** Every agent of one listing has its id, role and version in the other. */
  ghost predicate AgentsWithin(s: seq<Agent>, t: seq<Agent>) {
    forall a :: a in s ==> exists b :: b in t && b.agentId == a.agentId && b.role == a.role && b.version == a.version
  }

  /** Every entry of one listing has its agent and dependencies in the other. */
  ghost predicate EntriesWithin(s: seq<Dependency>, t: seq<Dependency>) {
    forall d :: d in s ==> exists e :: e in t && e.agentId == d.agentId && multiset(e.dependsOn) == multiset(d.dependsOn)
  }

  /** Every agent's limits in one listing are its limits in the other. */
  ghost predicate LimitsWithin(s: seq<Constraints>, t: seq<Constraints>) {
    forall c :: c in s ==> exists d :: d in t && SameLimits(c, d)
  }

  predicate SameLimits(c: Constraints, d: Constraints) {
    && c.agentId == d.agentId && c.maxExecutionSeconds == d.maxExecutionSeconds
    && c.maxTokenBudget == d.maxTokenBudget && c.maxRevisionRounds == d.maxRevisionRounds
  }

  ghost predicate SamePolicy(p: RevisionPolicy, q: RevisionPolicy) {
    && p.maxTotalRounds == q.maxTotalRounds && p.finalAuthorityRole == q.finalAuthorityRole
    && multiset(p.revisableRoles) == multiset(q.revisableRoles)
  }

  /** Two specs agree on everything execution depends on; ids, descriptions, schemas and criticality are free. */
  ghost predicate SamePlan(s: Spec, t: Spec) {
    && AgentsWithin(s.agents, t.agents) && AgentsWithin(t.agents, s.agents)
    && EntriesWithin(s.dependencies, t.dependencies) && EntriesWithin(t.dependencies, s.dependencies)
    && LimitsWithin(s.constraints, t.constraints) && LimitsWithin(t.constraints, s.constraints)
    && SamePolicy(s.revisionPolicy, t.revisionPolicy)
  }

  /** Of two specs with distinct ids, both compiled, the structure hashes are equal exactly when the plans are the same. */
  lemma HashTellsPlans(s: Spec, t: Spec, r: Result<Plan>, r': Result<Plan>)
    requires Compiles(s, r) && Compiles(t, r') && r.Ok? && r'.Ok? && DistinctIds(s) && DistinctIds(t)
    ensures r.value.structureHash == r'.value.structureHash <==> SamePlan(s, t)
  {
    hide GoodEntries, Acyclic, LongestPathStages, GraphOf, DistinctKeys, AgentIds, SameByKey, AgentsWithin, EntriesWithin,
      LimitsWithin, SamePolicy, ComputeStructureHash, SameStages, Map;
    var x, y := HashInputOf(s, r.value.executionStages), HashInputOf(t, r'.value.executionStages);
    HashDependsOn(x, y);
    AgentsAlike(s.agents, t.agents);
    EntriesAlike(s.dependencies, t.dependencies);
    LimitsAlike(s.constraints, t.constraints);
    PoliciesAlike(s.revisionPolicy, t.revisionPolicy);
    if SamePlan(s, t) {
      StagesAlike(s, t, r.value.executionStages, r'.value.executionStages);
      SameStagesItself(r.value.executionStages);
    }
  }

  lemma SameStagesItself(x: seq<seq<string>>)
    ensures SameStages(x, x)
  {
  }

  // ---- Records and the fields behind them ----

  /** Listings with distinct keys agree key by key exactly when they have the same members. */
  lemma SameMembers<T(!new)>(key: T -> string, xs: seq<T>, ys: seq<T>)
    requires DistinctKeys(key, xs) && DistinctKeys(key, ys)
    ensures SameByKey(key, xs, ys) <==> Elements(xs) == Elements(ys)
  {
    hide DistinctKeys, WithKey;
    forall k
      ensures WithKey(key, k, xs) == WithKey(key, k, ys)
        <==> forall x :: x in WithKey(key, k, xs) <==> x in WithKey(key, k, ys) {
      DistinctWithKey(key, k, xs);
      DistinctWithKey(key, k, ys);
      AtMostOne(WithKey(key, k, xs), WithKey(key, k, ys));
    }
    forall k
      ensures forall x :: x in WithKey(key, k, xs) <==> x in xs && key(x) == k
      ensures forall x :: x in WithKey(key, k, ys) <==> x in ys && key(x) == k {
      WithKeyMember(key, k, xs);
      WithKeyMember(key, k, ys);
    }
    if SameByKey(key, xs, ys) {
      forall x ensures x in xs <==> x in ys {
        assert WithKey(key, key(x), xs) == WithKey(key, key(x), ys);
        assert x in WithKey(key, key(x), xs) <==> x in xs;
        assert x in WithKey(key, key(x), ys) <==> x in ys;
      }
    }
    if Elements(xs) == Elements(ys) {
      assert forall x :: x in xs <==> x in Elements(xs);
      assert forall x :: x in ys <==> x in Elements(ys);
    }
  }

  lemma AtMostOne<T>(u: seq<T>, v: seq<T>)
    requires |u| <= 1 && |v| <= 1
    ensures u == v <==> forall x :: x in u <==> x in v
  {
    if (forall x :: x in u <==> x in v) {
      assert u != [] ==> u[0] in v;
      assert v != [] ==> v[0] in u;
    }
  }

  lemma ImagesWithin<A, B>(f: A -> B, s: seq<A>, t: seq<A>)
    ensures Elements(Map(f, s)) <= Elements(Map(f, t)) <==> forall a :: a in s ==> exists b :: b in t && f(b) == f(a)
  {
    var m, n := Map(f, s), Map(f, t);
    if Elements(m) <= Elements(n) {
      forall a | a in s ensures exists b :: b in t && f(b) == f(a) {
        var i :| 0 <= i < |s| && s[i] == a;
        assert m[i] in Elements(n);
        var j :| 0 <= j < |n| && n[j] == m[i];
        assert t[j] in t && f(t[j]) == f(a);
      }
    }
    if forall a :: a in s ==> exists b :: b in t && f(b) == f(a) {
      forall x | x in Elements(m) ensures x in Elements(n) {
        var i :| 0 <= i < |m| && m[i] == x;
        assert s[i] in s;
        var b :| b in t && f(b) == f(s[i]);
        var j :| 0 <= j < |t| && t[j] == b;
        assert n[j] == x;
      }
    }
  }

  lemma MappedKeys<A, B>(f: A -> B, keyA: A -> string, keyB: B -> string, s: seq<A>)
    requires forall a :: a in s ==> keyB(f(a)) == keyA(a)
    requires DistinctKeys(keyA, s)
    ensures DistinctKeys(keyB, Map(f, s))
  {
    hide Map;
    forall i, j | 0 <= i < j < |s| ensures keyB(Map(f, s)[i]) != keyB(Map(f, s)[j]) {
      assert keyA(s[i]) != keyA(s[j]);
    }
  }

  lemma AgentsAlike(s: seq<Agent>, t: seq<Agent>)
    requires DistinctKeys(AgentIdOf, s) && DistinctKeys(AgentIdOf, t)
    ensures SameByKey(AgentKey, Map(AgentRecordOf, s), Map(AgentRecordOf, t)) <==>
      AgentsWithin(s, t) && AgentsWithin(t, s)
  {
    hide SameByKey, DistinctKeys, Map, Elements;
    MappedKeys(AgentRecordOf, AgentIdOf, AgentKey, s);
    MappedKeys(AgentRecordOf, AgentIdOf, AgentKey, t);
    SameMembers(AgentKey, Map(AgentRecordOf, s), Map(AgentRecordOf, t));
    AgentImages(s, t);
    AgentImages(t, s);
  }

  lemma AgentImages(s: seq<Agent>, t: seq<Agent>)
    ensures Elements(Map(AgentRecordOf, s)) <= Elements(Map(AgentRecordOf, t)) <==> AgentsWithin(s, t)
  {
    hide Map, Elements;
    ImagesWithin(AgentRecordOf, s, t);
  }

  lemma LimitsAlike(s: seq<Constraints>, t: seq<Constraints>)
    requires DistinctKeys(ConstraintIdOf, s) && DistinctKeys(ConstraintIdOf, t)
    ensures SameByKey(ConstraintKey, Map(ConstraintRecordOf, s), Map(ConstraintRecordOf, t)) <==>
      LimitsWithin(s, t) && LimitsWithin(t, s)
  {
    hide SameByKey, DistinctKeys, Map, Elements;
    MappedKeys(ConstraintRecordOf, ConstraintIdOf, ConstraintKey, s);
    MappedKeys(ConstraintRecordOf, ConstraintIdOf, ConstraintKey, t);
    SameMembers(ConstraintKey, Map(ConstraintRecordOf, s), Map(ConstraintRecordOf, t));
    LimitImages(s, t);
    LimitImages(t, s);
  }

  lemma LimitImages(s: seq<Constraints>, t: seq<Constraints>)
    ensures Elements(Map(ConstraintRecordOf, s)) <= Elements(Map(ConstraintRecordOf, t)) <==> LimitsWithin(s, t)
  {
    hide Map, Elements;
    ImagesWithin(ConstraintRecordOf, s, t);
  }

  function HashedEntry(d: Dependency): DependencyRecord {
    SortEntry(DependencyRecordOf(d))
  }

  lemma HashedEntries(s: seq<Dependency>)
    ensures Map(SortEntry, Map(DependencyRecordOf, s)) == Map(HashedEntry, s)
  {
    hide Map;
    var m, n := Map(SortEntry, Map(DependencyRecordOf, s)), Map(HashedEntry, s);
    assert forall i :: 0 <= i < |s| ==> m[i] == n[i];
  }

  lemma SameHashedEntry(d: Dependency, e: Dependency)
    ensures HashedEntry(d) == HashedEntry(e) <==> d.agentId == e.agentId && multiset(d.dependsOn) == multiset(e.dependsOn)
  {
    hide SortBy, TotalOrder;
    StringOrder();
    SortByIsSorted(StringLeq, Self, d.dependsOn);
    SortByIsSorted(StringLeq, Self, e.dependsOn);
    SortedIffPermuted(Sorted(d.dependsOn), Sorted(e.dependsOn));
  }

  lemma EntriesAlike(s: seq<Dependency>, t: seq<Dependency>)
    requires DistinctKeys(EntryKey, s) && DistinctKeys(EntryKey, t)
    ensures
      SameByKey(DependencyKey, Map(SortEntry, Map(DependencyRecordOf, s)), Map(SortEntry, Map(DependencyRecordOf, t)))
      <==> EntriesWithin(s, t) && EntriesWithin(t, s)
  {
    hide SameByKey, DistinctKeys, Map, Elements, Sorted;
    HashedEntries(s);
    HashedEntries(t);
    MappedKeys(HashedEntry, EntryKey, DependencyKey, s);
    MappedKeys(HashedEntry, EntryKey, DependencyKey, t);
    SameMembers(DependencyKey, Map(HashedEntry, s), Map(HashedEntry, t));
    EntryImages(s, t);
    EntryImages(t, s);
  }

  lemma EntryImages(s: seq<Dependency>, t: seq<Dependency>)
    ensures Elements(Map(HashedEntry, s)) <= Elements(Map(HashedEntry, t)) <==> EntriesWithin(s, t)
  {
    hide Map, Elements, HashedEntry;
    ImagesWithin(HashedEntry, s, t);
    forall d, e
      ensures HashedEntry(d) == HashedEntry(e) <==>
        d.agentId == e.agentId && multiset(d.dependsOn) == multiset(e.dependsOn) {
      SameHashedEntry(d, e);
    }
  }

  lemma PoliciesAlike(p: RevisionPolicy, q: RevisionPolicy)
    ensures PolicyRecordOf(p) == PolicyRecordOf(q) <==> SamePolicy(p, q)
  {
    SortedIffPermuted(p.revisableRoles, q.revisableRoles);
  }

  // ---- The stages follow ----

  lemma StagesAlike(s: Spec, t: Spec, x: seq<seq<string>>, y: seq<seq<string>>)
    requires SamePlan(s, t)
    requires GoodEntries(AgentIds(s.agents), s.dependencies) && GoodEntries(AgentIds(t.agents), t.dependencies)
    requires LongestPathStages(GraphOf(AgentIds(s.agents), s.dependencies), x)
    requires LongestPathStages(GraphOf(AgentIds(t.agents), t.dependencies), y)
    ensures x == y
  {
    hide GoodEntries, LongestPathStages, GraphOf, AgentIds, EntriesWithin, AgentsWithin, LimitsWithin;
    IdsWithin(s.agents, t.agents);
    IdsWithin(t.agents, s.agents);
    assert AgentIds(s.agents) == AgentIds(t.agents);
    SameGraph(AgentIds(s.agents), s.dependencies, t.dependencies);
    StagesAreDetermined(GraphOf(AgentIds(s.agents), s.dependencies), x, y);
  }

  lemma IdsWithin(s: seq<Agent>, t: seq<Agent>)
    requires AgentsWithin(s, t)
    ensures AgentIds(s) <= AgentIds(t)
  {
  }

  lemma SameGraph(ids: set<string>, s: seq<Dependency>, t: seq<Dependency>)
    requires GoodEntries(ids, s) && GoodEntries(ids, t) && EntriesWithin(s, t) && EntriesWithin(t, s)
    ensures GraphOf(ids, s) == GraphOf(ids, t)
  {
    hide GoodEntries, EntriesWithin, DependsOn;
    forall a | a in ids ensures DependsOn(s, a) == DependsOn(t, a) {
      SameDependencies(ids, s, t, a);
    }
  }

  lemma SameDependencies(ids: set<string>, s: seq<Dependency>, t: seq<Dependency>, a: string)
    requires GoodEntries(ids, s) && GoodEntries(ids, t) && EntriesWithin(s, t) && EntriesWithin(t, s) && a in ids
    ensures DependsOn(s, a) == DependsOn(t, a)
  {
    hide DependsOn, EntriesWithin, Elements;
    if i :| 0 <= i < |s| && s[i].agentId == a {
      var j := EntryWithin(s, t, i);
      SameElements(s[i].dependsOn, t[j].dependsOn);
      DependsOnEntry(s, i);
      DependsOnEntry(t, j);
    } else {
      forall j | 0 <= j < |t| ensures t[j].agentId != a {
        var i := EntryWithin(t, s, j);
      }
      DependsOnKnown(ids, s, a);
      DependsOnKnown(ids, t, a);
    }
  }

  lemma EntryWithin(s: seq<Dependency>, t: seq<Dependency>, i: nat) returns (j: nat)
    requires EntriesWithin(s, t) && i < |s|
    ensures j < |t| && t[j].agentId == s[i].agentId && multiset(t[j].dependsOn) == multiset(s[i].dependsOn)
  {
    assert s[i] in s;
    var e :| e in t && e.agentId == s[i].agentId && multiset(e.dependsOn) == multiset(s[i].dependsOn);
    j :| 0 <= j < |t| && t[j] == e;
  }

  lemma SameElements(u: seq<string>, v: seq<string>)
    requires multiset(u) == multiset(v)
    ensures Elements(u) == Elements(v)
  {
    forall x ensures x in u <==> x in v {
      assert x in multiset(u) <==> x in multiset(v);
    }
  }
}
