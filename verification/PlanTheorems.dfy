/** What compiled stages guarantee, and what they do not depend on. */
module PlanTheorems {
  import opened Prelude
  import opened PlanGraph
  import opened Sorting
  import opened Listings
  import opened PlanHash
  import opened PlanCompiler

  /** Each agent stands in exactly one stage: 0 without dependencies, else one after its latest dependency. */
  lemma StageOfAgent(g: Graph, stages: seq<seq<string>>, a: string) returns (i: nat)
    requires LongestPathStages(g, stages) && a in g
    ensures i < |stages| && a in stages[i] && forall j :: 0 <= j < |stages| && a in stages[j] ==> j == i
    ensures forall d, j :: d in g[a] && 0 <= j < |stages| && d in stages[j] ==> j < i
    ensures g[a] == {} ==> i == 0
    ensures g[a] != {} ==> i > 0 && exists d :: d in g[a] && d in stages[i - 1]
  {
    hide AtLevel, SortedListing, StagesFollow;
    var level :| IsLayering(g, level) && StagesFollow(stages, level);
    i := level[a];
    assert IsLevel(g, level, a);
    LevelsInRange(g, stages, level);
    forall b, j | 0 <= j < |stages| && b in g ensures b in stages[j] <==> level[b] == j {
      InStage(stages, level, b, j);
    }
    if g[a] != {} {
      var d :| d in g[a] && level[d] + 1 == i;
      assert d in stages[i - 1];
    }
  }

  lemma LevelsInRange(g: Graph, stages: seq<seq<string>>, level: map<string, nat>)
    requires IsLayering(g, level) && StagesFollow(stages, level)
    ensures level.Keys == g.Keys && forall b :: b in g ==> level[b] < |stages|
  {
    hide IsLevel, SortedListing;
  }

  lemma InStage(stages: seq<seq<string>>, level: map<string, nat>, a: string, i: nat)
    requires StagesFollow(stages, level) && a in level && i < |stages|
    ensures a in stages[i] <==> level[a] == i
  {
    assert a in stages[i] <==> a in Elements(stages[i]);
    assert SortedListing(stages[i], AtLevel(level, i));
  }

  lemma StageMembers(stages: seq<seq<string>>, level: map<string, nat>, i: nat)
    requires StagesFollow(stages, level) && i < |stages|
    ensures NoDuplicates(stages[i]) && Elements(stages[i]) == AtLevel(level, i)
  {
  }

  /** Every chain of dependencies from an agent of stage i has at most i steps, and one has i. */
  lemma StageIsLongestChain(g: Graph, stages: seq<seq<string>>, a: string, i: nat) returns (p: seq<string>)
    requires LongestPathStages(g, stages) && i < |stages| && a in stages[i]
    ensures a in g && IsChain(g, p) && p[0] == a && |p| - 1 == i
    ensures forall q :: IsChain(g, q) && q[0] == a ==> |q| - 1 <= i
  {
    hide IsChain;
    var level :| IsLayering(g, level) && StagesFollow(stages, level);
    StageMembers(stages, level, i);
    assert a in Elements(stages[i]);
    p := LevelIsLongestChain(g, level, a);
  }

  /** The stages are determined by the graph: neither set order nor queue order shows in them. */
  lemma StagesAreDetermined(g: Graph, s: seq<seq<string>>, t: seq<seq<string>>)
    requires LongestPathStages(g, s) && LongestPathStages(g, t)
    ensures s == t
  {
    hide SortedListing, IsLayering;
    var level :| IsLayering(g, level) && StagesFollow(s, level);
    var level' :| IsLayering(g, level') && StagesFollow(t, level');
    LayeringIsUnique(g, level, level');
    StagesNoLonger(s, t, level);
    StagesNoLonger(t, s, level);
    forall i | 0 <= i < |s| ensures s[i] == t[i] {
      SortedListingUnique(s[i], t[i], AtLevel(level, i));
    }
  }

  lemma StagesNoLonger(s: seq<seq<string>>, t: seq<seq<string>>, level: map<string, nat>)
    requires StagesFollow(s, level) && StagesFollow(t, level)
    ensures |s| <= |t|
  {
    if s != [] {
      var last := |s| - 1;
      assert s[last] != [] && SortedListing(s[last], AtLevel(level, last));
      assert s[last][0] in Elements(s[last]);
    }
  }

  /** A spec is refused for an entry only when some entry is bad. */
  lemma RefusalHasCause(ids: set<string>, deps: seq<Dependency>, e: Error)
    requires FirstRefusal(ids, deps, e)
    ensures !GoodEntries(ids, deps)
  {
    var i :| 0 <= i < |deps| && GoodEntries(ids, deps[..i]) && RefusedFor(ids, deps[..i], deps[i], e);
    if j :| 0 <= j < |deps[..i]| && deps[..i][j].agentId == deps[i].agentId {
      assert EntryKey(deps[j]) == EntryKey(deps[i]);
    } else if deps[i].agentId in ids {
      var k :| 0 <= k < |deps[i].dependsOn| && FirstUnknown(ids, deps[i], k) && e == UnknownDependency(deps[i].agentId, deps[i].dependsOn[k]);
      assert deps[i].dependsOn[k] in Elements(deps[i].dependsOn);
      assert !GoodEntry(ids, deps[i]);
    } else {
      assert !GoodEntry(ids, deps[i]);
    }
  }

  // ---- Order of the spec's collections ----

  function NormalEntry(d: Dependency): Dependency {
    d.(dependsOn := Sorted(d.dependsOn))
  }

  function AgentIdOf(a: Agent): string { a.agentId }

  function ConstraintIdOf(c: Constraints): string { c.agentId }

  ghost predicate DistinctIds(s: Spec) {
    && DistinctKeys(AgentIdOf, s.agents) && DistinctKeys(EntryKey, s.dependencies)
    && DistinctKeys(ConstraintIdOf, s.constraints)
  }

  /** The same spec with its agents, entries, constraints and frozensets listed in another order. */
  ghost predicate Reordered(s: Spec, t: Spec) {
    && multiset(s.agents) == multiset(t.agents)
    && multiset(Map(NormalEntry, s.dependencies)) == multiset(Map(NormalEntry, t.dependencies))
    && multiset(s.constraints) == multiset(t.constraints)
    && s.revisionPolicy.maxTotalRounds == t.revisionPolicy.maxTotalRounds
    && s.revisionPolicy.finalAuthorityRole == t.revisionPolicy.finalAuthorityRole
    && multiset(s.revisionPolicy.revisableRoles) == multiset(t.revisionPolicy.revisableRoles)
  }

  lemma SortedElements(s: seq<string>)
    ensures Elements(Sorted(s)) == Elements(s)
  {
    StringOrder();
    SortByIsSorted(StringLeq, Self, s);
    forall x ensures x in Sorted(s) <==> x in s {
      assert x in multiset(Sorted(s)) <==> x in multiset(s);
    }
  }

  lemma ReorderedIds(s: Spec, t: Spec)
    requires Reordered(s, t)
    ensures AgentIds(s.agents) == AgentIds(t.agents)
  {
    forall a ensures a in s.agents <==> a in t.agents {
      assert a in multiset(s.agents) <==> a in multiset(t.agents);
    }
  }

  /** Each entry of one spec has its counterpart in the other. */
  lemma Counterpart(s: seq<Dependency>, t: seq<Dependency>, i: nat) returns (j: nat)
    requires multiset(Map(NormalEntry, s)) == multiset(Map(NormalEntry, t)) && i < |s|
    ensures j < |t| && t[j].agentId == s[i].agentId && Elements(t[j].dependsOn) == Elements(s[i].dependsOn)
  {
    var m, n := Map(NormalEntry, s), Map(NormalEntry, t);
    assert m[i] in multiset(n);
    j :| 0 <= j < |n| && n[j] == m[i];
    SortedElements(s[i].dependsOn);
    SortedElements(t[j].dependsOn);
  }

  lemma ReorderedGraph(s: seq<Dependency>, t: seq<Dependency>, ids: set<string>)
    requires multiset(Map(NormalEntry, s)) == multiset(Map(NormalEntry, t))
    requires GoodEntries(ids, s) && GoodEntries(ids, t)
    ensures GraphOf(ids, s) == GraphOf(ids, t)
  {
    forall a | a in ids ensures DependsOn(s, a) == DependsOn(t, a) {
      if i :| 0 <= i < |s| && s[i].agentId == a {
        var j := Counterpart(s, t, i);
        DependsOnEntry(s, i);
        DependsOnEntry(t, j);
      } else {
        forall j | 0 <= j < |t| ensures t[j].agentId != a {
          var i := Counterpart(t, s, j);
        }
        DependsOnKnown(ids, s, a);
        DependsOnKnown(ids, t, a);
      }
    }
  }

  lemma ReorderedHash(s: Spec, t: Spec, stages: seq<seq<string>>)
    requires Reordered(s, t) && DistinctIds(s)
    ensures ComputeStructureHash(HashInputOf(s, stages)) == ComputeStructureHash(HashInputOf(t, stages))
  {
    var x, y := HashInputOf(s, stages), HashInputOf(t, stages);
    RecordsPermuted(s, t, stages);
    EntriesPermuted(s.dependencies, t.dependencies);
    SortedIffPermuted(s.revisionPolicy.revisableRoles, t.revisionPolicy.revisableRoles);
    HashDependsOn(x, y);
  }

  lemma RecordsPermuted(s: Spec, t: Spec, stages: seq<seq<string>>)
    requires Reordered(s, t) && DistinctIds(s)
    ensures SameByKey(AgentKey, Map(AgentRecordOf, s.agents), Map(AgentRecordOf, t.agents))
    ensures SameByKey(ConstraintKey, Map(ConstraintRecordOf, s.constraints), Map(ConstraintRecordOf, t.constraints))
  {
    hide SameByKey, Map;
    MapMultiset(AgentRecordOf, s.agents, t.agents);
    MapMultiset(ConstraintRecordOf, s.constraints, t.constraints);
    forall i, j | 0 <= i < j < |s.agents|
      ensures AgentKey(Map(AgentRecordOf, s.agents)[i]) != AgentKey(Map(AgentRecordOf, s.agents)[j]) {
      assert AgentIdOf(s.agents[i]) != AgentIdOf(s.agents[j]);
    }
    forall i, j | 0 <= i < j < |s.constraints|
      ensures ConstraintKey(Map(ConstraintRecordOf, s.constraints)[i])
           != ConstraintKey(Map(ConstraintRecordOf, s.constraints)[j]) {
      assert ConstraintIdOf(s.constraints[i]) != ConstraintIdOf(s.constraints[j]);
    }
    PermutedSameByKey(AgentKey, Map(AgentRecordOf, s.agents), Map(AgentRecordOf, t.agents));
    PermutedSameByKey(ConstraintKey, Map(ConstraintRecordOf, s.constraints), Map(ConstraintRecordOf, t.constraints));
  }

  lemma EntryRecords(s: seq<Dependency>)
    ensures Map(SortEntry, Map(DependencyRecordOf, s)) == Map(DependencyRecordOf, Map(NormalEntry, s))
  {
    var x, y := Map(SortEntry, Map(DependencyRecordOf, s)), Map(DependencyRecordOf, Map(NormalEntry, s));
    forall i | 0 <= i < |s| ensures x[i] == y[i] {
      assert x[i] == SortEntry(DependencyRecordOf(s[i]));
      assert y[i] == DependencyRecordOf(NormalEntry(s[i]));
    }
  }

  lemma EntriesPermuted(s: seq<Dependency>, t: seq<Dependency>)
    requires multiset(Map(NormalEntry, s)) == multiset(Map(NormalEntry, t)) && DistinctKeys(EntryKey, s)
    ensures SameByKey(DependencyKey, Map(SortEntry, Map(DependencyRecordOf, s)),
                      Map(SortEntry, Map(DependencyRecordOf, t)))
  {
    hide SameByKey, Map, Sorted;
    var x := Map(DependencyRecordOf, Map(NormalEntry, s));
    EntryRecords(s);
    EntryRecords(t);
    MapMultiset(DependencyRecordOf, Map(NormalEntry, s), Map(NormalEntry, t));
    forall i, j | 0 <= i < j < |x| ensures DependencyKey(x[i]) != DependencyKey(x[j]) {
      assert EntryKey(s[i]) != EntryKey(s[j]);
    }
    PermutedSameByKey(DependencyKey, x, Map(DependencyRecordOf, Map(NormalEntry, t)));
  }

  lemma ReorderedEntries(ids: set<string>, s: seq<Dependency>, t: seq<Dependency>)
    requires multiset(Map(NormalEntry, s)) == multiset(Map(NormalEntry, t)) && GoodEntries(ids, s)
    ensures GoodEntries(ids, t)
  {
    hide NormalEntry;
    var m, n := Map(NormalEntry, s), Map(NormalEntry, t);
    NormalKeys(s);
    NormalKeys(t);
    PermutedDistinct(EntryKey, m, n);
    forall j | 0 <= j < |t| ensures GoodEntry(ids, t[j]) {
      var i := Counterpart(t, s, j);
      assert GoodEntry(ids, s[i]);
    }
  }

  lemma NormalKeys(s: seq<Dependency>)
    ensures forall i :: 0 <= i < |s| ==> EntryKey(Map(NormalEntry, s)[i]) == EntryKey(s[i])
    ensures DistinctKeys(EntryKey, s) <==> DistinctKeys(EntryKey, Map(NormalEntry, s))
  {
    hide Map;
    var m := Map(NormalEntry, s);
    forall i | 0 <= i < |s| ensures EntryKey(m[i]) == EntryKey(s[i]) {
      assert m[i] == NormalEntry(s[i]);
    }
  }

  /** A result is an error of an entry, a cycle or a plan, as the entries and the graph are. */
  lemma OutcomeOf(s: Spec, r: Result<Plan>)
    requires Compiles(s, r)
    ensures r.Ok? <==>
      GoodEntries(AgentIds(s.agents), s.dependencies) && Acyclic(GraphOf(AgentIds(s.agents), s.dependencies))
    ensures r == Err(CycleDetected) <==>
      GoodEntries(AgentIds(s.agents), s.dependencies) && !Acyclic(GraphOf(AgentIds(s.agents), s.dependencies))
  {
    hide GoodEntries, FirstRefusal, Acyclic, GraphOf, LongestPathStages;
    if r.Err? && r.error != CycleDetected {
      RefusalHasCause(AgentIds(s.agents), s.dependencies, r.error);
    }
  }

  /**
   * Two specs that differ only in order both compile, both have a cycle or are both refused for an entry. Compiled,
   * they have the same stages and, with distinct ids, the same structure hash.
   */
  lemma CompileIgnoresOrder(s: Spec, t: Spec, r: Result<Plan>, r': Result<Plan>)
    requires Reordered(s, t) && Compiles(s, r) && Compiles(t, r')
    ensures r.Ok? <==> r'.Ok?
    ensures r == Err(CycleDetected) <==> r' == Err(CycleDetected)
    ensures r.Ok? ==> r.value.executionStages == r'.value.executionStages
    ensures r.Ok? && DistinctIds(s) ==> r.value.structureHash == r'.value.structureHash
  {
    hide GoodEntries, FirstRefusal, Acyclic, LongestPathStages, GraphOf, DistinctKeys, AgentIds;
    var ids := AgentIds(s.agents);
    ReorderedIds(s, t);
    OutcomeOf(s, r);
    OutcomeOf(t, r');
    if GoodEntries(ids, s.dependencies) {
      ReorderedEntries(ids, s.dependencies, t.dependencies);
    }
    if GoodEntries(ids, t.dependencies) {
      ReorderedEntries(ids, t.dependencies, s.dependencies);
      ReorderedGraph(s.dependencies, t.dependencies, ids);
    }
    if r.Ok? {
      StagesAreDetermined(GraphOf(ids, s.dependencies), r.value.executionStages, r'.value.executionStages);
      if DistinctIds(s) {
        ReorderedHash(s, t, r.value.executionStages);
      }
    }
  }
}
