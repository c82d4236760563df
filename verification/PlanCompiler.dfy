/** Compilation of a spec into stages. */
module PlanCompiler {
  // PlanCompiler.compile (src/specflow/plan/compiler.py:21-138).

  import opened Prelude
  import opened PlanGraph
  import opened Sorting
  import opened Listings
  import opened PlanStages
  import opened PlanHash

  datatype Agent = Agent(
    agentId: string, role: string, version: string, description: string, inputSchemaId: string, outputSchemaId: string)

  /** `dependsOn` lists a frozenset in its iteration order. */
  datatype Dependency = Dependency(agentId: string, dependsOn: seq<string>)

  datatype Constraints = Constraints(
    agentId: string, maxExecutionSeconds: int, maxTokenBudget: int, maxRevisionRounds: int, criticality: string)

  /** `revisableRoles` lists a frozenset in its iteration order. */
  datatype RevisionPolicy =
    RevisionPolicy(maxTotalRounds: nat, revisableRoles: seq<string>, finalAuthorityRole: string)

  datatype Spec = Spec(
    planId: string,
    agents: seq<Agent>,
    dependencies: seq<Dependency>,
    constraints: seq<Constraints>,
    revisionPolicy: RevisionPolicy)

  datatype Plan = Plan(
    planId: string,
    agents: seq<Agent>,
    dependencies: seq<Dependency>,
    executionStages: seq<seq<string>>,
    constraints: seq<Constraints>,
    revisionPolicy: RevisionPolicy,
    structureHash: Digest)

  datatype Error =
    | DuplicateEntry(agentId: string)
    | UnknownAgent(agentId: string)
    | UnknownDependency(agentId: string, dependencyId: string)
    | CycleDetected

  datatype Result<+T> = Ok(value: T) | Err(error: Error)

  function AgentIds(agents: seq<Agent>): set<string> {
    set a | a in agents :: a.agentId
  }

  // ---- The dependency map ----

  function EntryKey(d: Dependency): string { d.agentId }

  ghost predicate GoodEntry(ids: set<string>, d: Dependency) {
    d.agentId in ids && Elements(d.dependsOn) <= ids
  }

  /** One entry per agent, and every id known. */
  ghost predicate GoodEntries(ids: set<string>, deps: seq<Dependency>) {
    DistinctKeys(EntryKey, deps) && forall i :: 0 <= i < |deps| ==> GoodEntry(ids, deps[i])
  }

  ghost predicate FirstUnknown(ids: set<string>, d: Dependency, k: nat)
    requires k < |d.dependsOn|
  {
    Elements(d.dependsOn[..k]) <= ids && d.dependsOn[k] !in ids
  }

  /** What an entry following good entries is refused for. */
  ghost predicate RefusedFor(ids: set<string>, earlier: seq<Dependency>, d: Dependency, e: Error) {
    if exists i :: 0 <= i < |earlier| && earlier[i].agentId == d.agentId then e == DuplicateEntry(d.agentId)
    else if d.agentId !in ids then e == UnknownAgent(d.agentId)
    else
      exists k :: 0 <= k < |d.dependsOn| && FirstUnknown(ids, d, k) && e == UnknownDependency(d.agentId, d.dependsOn[k])
  }

  /** The error is that of the first entry that is not good. */
  ghost predicate FirstRefusal(ids: set<string>, deps: seq<Dependency>, e: Error) {
    exists i :: 0 <= i < |deps| && GoodEntries(ids, deps[..i]) && RefusedFor(ids, deps[..i], deps[i], e)
  }

  /** An agent's dependencies, by the entry it has, if any. */
  function DependsOn(deps: seq<Dependency>, a: string): set<string> {
    if deps == [] then {}
    else if deps[|deps| - 1].agentId == a then Elements(deps[|deps| - 1].dependsOn)
    else DependsOn(deps[..|deps| - 1], a)
  }

  function GraphOf(ids: set<string>, deps: seq<Dependency>): Graph {
    map a | a in ids :: DependsOn(deps, a)
  }

  lemma {:induction false} DependsOnEntry(deps: seq<Dependency>, i: nat)
    requires DistinctKeys(EntryKey, deps) && i < |deps|
    ensures DependsOn(deps, deps[i].agentId) == Elements(deps[i].dependsOn)
    decreases |deps|
  {
    var last := |deps| - 1;
    if i < last {
      assert EntryKey(deps[i]) != EntryKey(deps[last]);
      assert deps[..last][i] == deps[i];
      DependsOnEntry(deps[..last], i);
    }
  }

  lemma {:induction false} DependsOnKnown(ids: set<string>, deps: seq<Dependency>, a: string)
    requires forall i :: 0 <= i < |deps| ==> GoodEntry(ids, deps[i])
    ensures DependsOn(deps, a) <= ids
    ensures (forall i :: 0 <= i < |deps| ==> deps[i].agentId != a) ==> DependsOn(deps, a) == {}
  {
    if deps != [] {
      assert GoodEntry(ids, deps[|deps| - 1]);
      var rest := deps[..|deps| - 1];
      assert forall i :: 0 <= i < |rest| ==> rest[i] == deps[i];
      DependsOnKnown(ids, rest, a);
    }
  }

  lemma GoodEntriesClosed(ids: set<string>, deps: seq<Dependency>)
    requires GoodEntries(ids, deps)
    ensures Closed(GraphOf(ids, deps))
  {
    forall a | a in ids ensures DependsOn(deps, a) <= ids {
      DependsOnKnown(ids, deps, a);
    }
  }

  /** The ids named by the first `i` entries. */
  function Seen(deps: seq<Dependency>): set<string> {
    set d | d in deps :: d.agentId
  }

  lemma SeenMeaning(deps: seq<Dependency>, a: string)
    ensures a in Seen(deps) <==> exists i :: 0 <= i < |deps| && deps[i].agentId == a
  {
    if a in Seen(deps) {
      var d :| d in deps && d.agentId == a;
      var i :| 0 <= i < |deps| && deps[i] == d;
    }
    if i :| 0 <= i < |deps| && deps[i].agentId == a {
      assert deps[i] in deps;
    }
  }

  lemma OneMoreEntry(ids: set<string>, deps: seq<Dependency>, i: nat)
    requires i < |deps| && GoodEntries(ids, deps[..i]) && deps[i].agentId !in Seen(deps[..i])
    requires GoodEntry(ids, deps[i])
    ensures GoodEntries(ids, deps[..i + 1])
    ensures Seen(deps[..i + 1]) == Seen(deps[..i]) + {deps[i].agentId}
  {
    var before, after := deps[..i], deps[..i + 1];
    assert after == before + [deps[i]];
    forall j | 0 <= j < i ensures EntryKey(after[j]) != EntryKey(after[i]) {
      SeenMeaning(before, deps[i].agentId);
      assert before[j] == after[j];
    }
    assert forall j, k :: 0 <= j < k < i ==> EntryKey(before[j]) != EntryKey(before[k]);
    assert forall j :: 0 <= j < i ==> after[j] == before[j];
  }

  /** `dep_map` holds the entries so far. */
  ghost predicate IsDepMap(depMap: Graph, deps: seq<Dependency>) {
    depMap.Keys == Seen(deps) && forall a :: a in depMap ==> depMap[a] == DependsOn(deps, a)
  }

  method BuildGraph(ids: set<string>, deps: seq<Dependency>) returns (r: Result<Graph>)
    ensures r.Ok? ==> GoodEntries(ids, deps) && r.value == GraphOf(ids, deps)
    ensures r.Err? ==> FirstRefusal(ids, deps, r.error) && r.error != CycleDetected
  {
    hide GoodEntries, RefusedFor, IsDepMap, Seen, DependsOn;
    var depMap: Graph := map[];
    var seen: set<string> := {};
    NoEntries(ids, deps);
    var i := 0;
    while i < |deps|
      invariant i <= |deps| && GoodEntries(ids, deps[..i])
      invariant seen == Seen(deps[..i]) && IsDepMap(depMap, deps[..i])
    {
      var d := deps[i];
      if d.agentId in seen {
        RefusedAsDuplicate(ids, deps[..i], d);
        return Err(DuplicateEntry(d.agentId));
      }
      if d.agentId !in ids {
        RefusedAsUnknown(ids, deps[..i], d);
        return Err(UnknownAgent(d.agentId));
      }
      var k := 0;
      while k < |d.dependsOn|
        invariant k <= |d.dependsOn| && Elements(d.dependsOn[..k]) <= ids
      {
        if d.dependsOn[k] !in ids {
          RefusedForDependency(ids, deps[..i], d, k);
          return Err(UnknownDependency(d.agentId, d.dependsOn[k]));
        }
        k := k + 1;
      }
      assert d.dependsOn[..k] == d.dependsOn;
      OneMoreEntry(ids, deps, i);
      OneMoreInMap(depMap, deps, i);
      depMap := depMap[d.agentId := Elements(d.dependsOn)];
      seen := seen + {d.agentId};
      i := i + 1;
    }
    assert deps[..i] == deps;
    depMap := FillMissing(ids, deps, depMap);
    return Ok(depMap);
  }

  lemma NoEntries(ids: set<string>, deps: seq<Dependency>)
    ensures GoodEntries(ids, deps[..0]) && Seen(deps[..0]) == {} && IsDepMap(map[], deps[..0])
  {
  }

  lemma RefusedAsDuplicate(ids: set<string>, earlier: seq<Dependency>, d: Dependency)
    requires d.agentId in Seen(earlier)
    ensures RefusedFor(ids, earlier, d, DuplicateEntry(d.agentId))
  {
    SeenMeaning(earlier, d.agentId);
  }

  lemma RefusedAsUnknown(ids: set<string>, earlier: seq<Dependency>, d: Dependency)
    requires d.agentId !in Seen(earlier) && d.agentId !in ids
    ensures RefusedFor(ids, earlier, d, UnknownAgent(d.agentId))
  {
    SeenMeaning(earlier, d.agentId);
  }

  lemma RefusedForDependency(ids: set<string>, earlier: seq<Dependency>, d: Dependency, k: nat)
    requires d.agentId !in Seen(earlier) && d.agentId in ids
    requires k < |d.dependsOn| && Elements(d.dependsOn[..k]) <= ids && d.dependsOn[k] !in ids
    ensures RefusedFor(ids, earlier, d, UnknownDependency(d.agentId, d.dependsOn[k]))
  {
    SeenMeaning(earlier, d.agentId);
    assert FirstUnknown(ids, d, k);
  }

  lemma OneMoreInMap(depMap: Graph, deps: seq<Dependency>, i: nat)
    requires i < |deps| && IsDepMap(depMap, deps[..i]) && deps[i].agentId !in Seen(deps[..i])
    ensures IsDepMap(depMap[deps[i].agentId := Elements(deps[i].dependsOn)], deps[..i + 1])
  {
    assert deps[..i + 1] == deps[..i] + [deps[i]];
    assert deps[..i + 1][..i] == deps[..i];
  }

  /** Every agent gets an entry, empty where the spec gives none. */
  method FillMissing(ids: set<string>, deps: seq<Dependency>, depMap0: Graph) returns (depMap: Graph)
    requires GoodEntries(ids, deps) && IsDepMap(depMap0, deps)
    ensures depMap == GraphOf(ids, deps)
  {
    hide DependsOn, Seen;
    depMap := depMap0;
    SeenKnown(ids, deps);
    var agents := ids;
    while agents != {}
      invariant agents <= ids && depMap.Keys == Seen(deps) + (ids - agents)
      invariant forall a :: a in depMap ==> depMap[a] == DependsOn(deps, a)
    {
      var a :| a in agents;
      if a !in depMap {
        UnseenDependsOnNothing(ids, deps, a);
        depMap := depMap[a := {}];
      }
      agents := agents - {a};
    }
  }

  lemma SeenKnown(ids: set<string>, deps: seq<Dependency>)
    requires GoodEntries(ids, deps)
    ensures Seen(deps) <= ids
  {
  }

  lemma UnseenDependsOnNothing(ids: set<string>, deps: seq<Dependency>, a: string)
    requires GoodEntries(ids, deps) && a !in Seen(deps)
    ensures DependsOn(deps, a) == {}
  {
    SeenMeaning(deps, a);
    DependsOnKnown(ids, deps, a);
  }

  // ---- Stages that follow a layering ----

  ghost function AtLevel(level: map<string, nat>, i: nat): set<string> {
    set a | a in level && level[a] == i
  }

  /** Stage i lists exactly the agents of level i, sorted; no stage is empty and none is missing. */
  ghost predicate StagesFollow(stages: seq<seq<string>>, level: map<string, nat>) {
    && (forall i :: 0 <= i < |stages| ==> stages[i] != [] && SortedListing(stages[i], AtLevel(level, i)))
    && (forall a :: a in level ==> level[a] < |stages|)
  }

  /** The stages are the longest-path layering of the graph. */
  ghost predicate LongestPathStages(g: Graph, stages: seq<seq<string>>) {
    exists level :: IsLayering(g, level) && StagesFollow(stages, level)
  }

  lemma LayerIsLevel(g: Graph, i: nat)
    requires i < |Layers(g, {})|
    ensures AtLevel(LevelMap(Layers(g, {})), i) == Layers(g, {})[i]
  {
    var layers := Layers(g, {});
    forall a | a in layers[i] ensures a in LevelMap(layers) && LevelMap(layers)[a] == i {
      OnlyLayer(g, a, i);
    }
  }

  lemma LayerNonempty(g: Graph, i: nat, s: seq<string>)
    requires i < |Layers(g, {})| && SortedListing(s, Layers(g, {})[i])
    ensures s != []
  {
    LayersSpec(g, {}, i);
  }

  lemma KahnFollowsLayering(g: Graph, stages: seq<seq<string>>)
    requires Closed(g) && AreStages(stages, Layers(g, {})) && Union(Layers(g, {})) == g.Keys
    ensures LongestPathStages(g, stages)
  {
    hide Layers, Union, IsLayering, SortedListing;
    LayersAreTheLayering(g);
    var level := LevelMap(Layers(g, {}));
    forall i | 0 <= i < |stages| ensures stages[i] != [] && SortedListing(stages[i], AtLevel(level, i)) {
      LayerIsLevel(g, i);
      LayerNonempty(g, i, stages[i]);
    }
    assert StagesFollow(stages, level);
  }

  lemma VisitedAll(g: Graph)
    ensures |Union(Layers(g, {}))| == |g.Keys| <==> Union(Layers(g, {})) == g.Keys
  {
    LayersWithin(g);
    assert g.Keys == Union(Layers(g, {})) + (g.Keys - Union(Layers(g, {})));
  }

  // ---- Compilation ----

  function AgentRecordOf(a: Agent): AgentRecord {
    AgentRecord(a.agentId, a.role, a.version)
  }

  function DependencyRecordOf(d: Dependency): DependencyRecord {
    DependencyRecord(d.agentId, Sorted(d.dependsOn))
  }

  function ConstraintRecordOf(c: Constraints): ConstraintRecord {
    ConstraintRecord(c.agentId, c.maxExecutionSeconds, c.maxTokenBudget, c.maxRevisionRounds)
  }

  function PolicyRecordOf(p: RevisionPolicy): PolicyRecord {
    PolicyRecord(p.maxTotalRounds, Sorted(p.revisableRoles), p.finalAuthorityRole)
  }

  function HashInputOf(spec: Spec, stages: seq<seq<string>>): HashInput {
    HashInput(
      Map(AgentRecordOf, spec.agents),
      Map(DependencyRecordOf, spec.dependencies),
      stages,
      PolicyRecordOf(spec.revisionPolicy),
      Map(ConstraintRecordOf, spec.constraints))
  }

  /** What compiling a spec may return. */
  ghost predicate Compiles(spec: Spec, r: Result<Plan>) {
    var ids := AgentIds(spec.agents);
    var g := GraphOf(ids, spec.dependencies);
    match r
    case Ok(plan) =>
      && GoodEntries(ids, spec.dependencies) && Acyclic(g) && LongestPathStages(g, plan.executionStages)
      && plan.planId == spec.planId && plan.agents == spec.agents && plan.dependencies == spec.dependencies
      && plan.constraints == spec.constraints && plan.revisionPolicy == spec.revisionPolicy
      && plan.structureHash == ComputeStructureHash(HashInputOf(spec, plan.executionStages))
    case Err(CycleDetected) =>
      GoodEntries(ids, spec.dependencies) && !Acyclic(g)
    case Err(e) =>
      FirstRefusal(ids, spec.dependencies, e)
  }

  method Compile(spec: Spec) returns (r: Result<Plan>)
    ensures Compiles(spec, r)
  {
    hide FirstRefusal, GoodEntries, GraphOf, Acyclic, LongestPathStages, Layers, Union, ComputeStructureHash, AreStages;
    var ids := AgentIds(spec.agents);
    var built := BuildGraph(ids, spec.dependencies);
    if built.Err? {
      return Err(built.error);
    }
    var g := built.value;
    GoodEntriesClosed(ids, spec.dependencies);
    var stages, visitedCount := Stages(g);
    ExhaustedIffAcyclic(g);
    VisitedAll(g);
    GraphKeys(ids, spec.dependencies);
    if visitedCount != |ids| {
      return Err(CycleDetected);
    }
    KahnFollowsLayering(g, stages);
    var structureHash := ComputeStructureHash(HashInputOf(spec, stages));
    return Ok(Plan(spec.planId, spec.agents, spec.dependencies, stages, spec.constraints, spec.revisionPolicy,
                   structureHash));
  }

  lemma GraphKeys(ids: set<string>, deps: seq<Dependency>)
    ensures GraphOf(ids, deps).Keys == ids
  {
  }
}
