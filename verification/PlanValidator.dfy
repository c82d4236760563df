/** Static checks on compiled plans (src/specflow/plan/validator.py:34-135). */
module PlanValidator {
  import opened Prelude
  import opened PlanGraph
  import opened Listings
  import opened PlanCompiler
  import opened PlanTheorems

  datatype ValidationError =
    | MissingFromStages(agents: set<string>)
    | NotDeclared(agents: set<string>)
    | InSeveralStages(agentId: string)
    | IntraStageDependency(agentId: string, dependencyId: string)
    | UnknownInputSchema(agentId: string, schemaId: string)
    | UnknownOutputSchema(agentId: string, schemaId: string)

  function Flatten(stages: seq<seq<string>>): seq<string> {
    if stages == [] then [] else Flatten(stages[..|stages| - 1]) + stages[|stages| - 1]
  }

  lemma FlattenNext(stages: seq<seq<string>>, i: nat)
    requires i < |stages|
    ensures Flatten(stages[..i + 1]) == Flatten(stages[..i]) + stages[i]
  {
    assert stages[..i + 1][..i] == stages[..i];
  }

  // ---- What the checks decide ----

  ghost predicate SameAgents(plan: Plan) {
    Elements(Flatten(plan.executionStages)) == AgentIds(plan.agents)
  }

  /** No agent occurs twice, in one stage or in two. */
  ghost predicate NoRepeats(stages: seq<seq<string>>) {
    NoDuplicates(Flatten(stages))
  }

  /** The declared edges, from dependent to dependency. */
  function Pairs(deps: seq<Dependency>): set<(string, string)> {
    set d, x | d in deps && x in d.dependsOn :: (d.agentId, x)
  }

  ghost predicate NoInternalDependency(plan: Plan) {
    forall i, p :: 0 <= i < |plan.executionStages| && p in Pairs(plan.dependencies) ==>
      !(p.0 in plan.executionStages[i] && p.1 in plan.executionStages[i])
  }

  // ---- The checks ----

  method CheckAgentSetIdentity(plan: Plan) returns (e: Option<ValidationError>)
    ensures e.None? <==> SameAgents(plan)
    ensures e.Some? ==> match e.value
      case MissingFromStages(agents) =>
        agents != {} && agents == AgentIds(plan.agents) - Elements(Flatten(plan.executionStages))
      case NotDeclared(agents) =>
        agents == Elements(Flatten(plan.executionStages)) - AgentIds(plan.agents) != {}
        && AgentIds(plan.agents) <= Elements(Flatten(plan.executionStages))
      case _ => false
  {
    var planIds := AgentIds(plan.agents);
    var stageIds: set<string> := {};
    var i := 0;
    while i < |plan.executionStages|
      invariant i <= |plan.executionStages| && stageIds == Elements(Flatten(plan.executionStages[..i]))
    {
      FlattenNext(plan.executionStages, i);
      stageIds := stageIds + Elements(plan.executionStages[i]);
      i := i + 1;
    }
    assert plan.executionStages[..i] == plan.executionStages;
    if planIds - stageIds != {} {
      return Some(MissingFromStages(planIds - stageIds));
    }
    forall a | a in planIds ensures a in stageIds {
      assert a !in planIds - stageIds;
    }
    if stageIds - planIds != {} {
      return Some(NotDeclared(stageIds - planIds));
    }
    return None;
  }

  method CheckNoDuplicateAcrossStages(plan: Plan) returns (e: Option<ValidationError>)
    ensures e.None? <==> NoRepeats(plan.executionStages)
    ensures e.Some? ==> e.value.InSeveralStages? && multiset(Flatten(plan.executionStages))[e.value.agentId] >= 2
  {
    var stages := plan.executionStages;
    var seen: set<string> := {};
    var i := 0;
    while i < |stages|
      invariant i <= |stages| && seen == Elements(Flatten(stages[..i])) && NoDuplicates(Flatten(stages[..i]))
    {
      var k := 0;
      ghost var before := Flatten(stages[..i]);
      FlattenNext(stages, i);
      while k < |stages[i]|
        invariant k <= |stages[i]|
        invariant seen == Elements(before + stages[i][..k]) && NoDuplicates(before + stages[i][..k])
      {
        var agentId := stages[i][k];
        assert before + stages[i][..k + 1] == before + stages[i][..k] + [agentId];
        if agentId in seen {
          RepeatShows(stages, i, k);
          return Some(InSeveralStages(agentId));
        }
        seen := seen + {agentId};
        k := k + 1;
      }
      assert stages[i][..k] == stages[i];
      i := i + 1;
    }
    assert stages[..i] == stages;
    return None;
  }

  lemma {:induction false} FlattenPrefix(stages: seq<seq<string>>, i: nat)
    requires i <= |stages|
    ensures Flatten(stages[..i]) <= Flatten(stages)
    decreases |stages| - i
  {
    if i == |stages| {
      assert stages[..i] == stages;
    } else {
      FlattenNext(stages, i);
      FlattenPrefix(stages, i + 1);
    }
  }

  lemma RepeatShows(stages: seq<seq<string>>, i: nat, k: nat)
    requires i < |stages| && k < |stages[i]|
    requires stages[i][k] in Flatten(stages[..i]) + stages[i][..k]
    ensures multiset(Flatten(stages))[stages[i][k]] >= 2 && !NoDuplicates(Flatten(stages))
  {
    var all, before := Flatten(stages), Flatten(stages[..i]);
    FlattenNext(stages, i);
    FlattenPrefix(stages, i + 1);
    var at := |before| + k;
    assert (before + stages[i])[at] == stages[i][k] == all[at];
    var j :| 0 <= j < |before + stages[i][..k]| && (before + stages[i][..k])[j] == stages[i][k];
    assert (before + stages[i])[j] == stages[i][k] == all[j];
    TwoPlaces(all, j, at);
  }

  method CheckNoIntraStageDependencies(plan: Plan) returns (e: Option<ValidationError>)
    ensures e.None? <==> NoInternalDependency(plan)
    ensures e.Some? ==> e.value.IntraStageDependency?
    ensures e.Some? ==> (e.value.agentId, e.value.dependencyId) in Pairs(plan.dependencies)
    ensures e.Some? ==> exists i ::
      && 0 <= i < |plan.executionStages|
      && e.value.agentId in plan.executionStages[i] && e.value.dependencyId in plan.executionStages[i]
  {
    var pairs: set<(string, string)> := {};
    var i := 0;
    while i < |plan.dependencies|
      invariant i <= |plan.dependencies| && pairs == Pairs(plan.dependencies[..i])
    {
      var d := plan.dependencies[i];
      assert plan.dependencies[..i + 1] == plan.dependencies[..i] + [d];
      var k := 0;
      while k < |d.dependsOn|
        invariant k <= |d.dependsOn|
        invariant pairs == Pairs(plan.dependencies[..i]) + set x | x in d.dependsOn[..k] :: (d.agentId, x)
      {
        assert d.dependsOn[..k + 1] == d.dependsOn[..k] + [d.dependsOn[k]];
        pairs := pairs + {(d.agentId, d.dependsOn[k])};
        k := k + 1;
      }
      assert d.dependsOn[..k] == d.dependsOn;
      i := i + 1;
    }
    assert plan.dependencies[..i] == plan.dependencies;
    i := 0;
    while i < |plan.executionStages|
      invariant i <= |plan.executionStages|
      invariant forall j, p :: 0 <= j < i && p in pairs ==>
        !(p.0 in plan.executionStages[j] && p.1 in plan.executionStages[j])
    {
      var stage, left := plan.executionStages[i], pairs;
      while left != {}
        invariant left <= pairs
        invariant forall p :: p in pairs - left ==> !(p.0 in stage && p.1 in stage)
      {
        var p :| p in left;
        if p.0 in stage && p.1 in stage {
          assert p.0 in plan.executionStages[i] && p.1 in plan.executionStages[i];
          return Some(IntraStageDependency(p.0, p.1));
        }
        left := left - {p};
      }
      i := i + 1;
    }
    return None;
  }

  ghost predicate ValidPlan(plan: Plan) {
    SameAgents(plan) && NoRepeats(plan.executionStages) && NoInternalDependency(plan)
  }

  predicate SchemasKnown(agents: seq<Agent>, schemas: set<string>) {
    forall i :: 0 <= i < |agents| ==> agents[i].inputSchemaId in schemas && agents[i].outputSchemaId in schemas
  }

  /** Agent i is the first with an unknown schema; its input schema is named before its output schema. */
  ghost predicate FirstUnknownSchema(agents: seq<Agent>, schemas: set<string>, i: nat, e: ValidationError)
    requires i < |agents|
  {
    && SchemasKnown(agents[..i], schemas)
    && if agents[i].inputSchemaId !in schemas then e == UnknownInputSchema(agents[i].agentId, agents[i].inputSchemaId)
       else
         agents[i].outputSchemaId !in schemas && e == UnknownOutputSchema(agents[i].agentId, agents[i].outputSchemaId)
  }

  method CheckSchemaIds(plan: Plan, schemas: set<string>) returns (e: Option<ValidationError>)
    ensures e.None? <==> SchemasKnown(plan.agents, schemas)
    ensures e.Some? ==> exists i :: 0 <= i < |plan.agents| && FirstUnknownSchema(plan.agents, schemas, i, e.value)
  {
    for i := 0 to |plan.agents|
      invariant SchemasKnown(plan.agents[..i], schemas)
    {
      var agent := plan.agents[i];
      if agent.inputSchemaId !in schemas {
        e := Some(UnknownInputSchema(agent.agentId, agent.inputSchemaId));
        assert FirstUnknownSchema(plan.agents, schemas, i, e.value);
        return;
      }
      if agent.outputSchemaId !in schemas {
        e := Some(UnknownOutputSchema(agent.agentId, agent.outputSchemaId));
        assert FirstUnknownSchema(plan.agents, schemas, i, e.value);
        return;
      }
      assert plan.agents[..i + 1] == plan.agents[..i] + [agent];
    }
    assert plan.agents[..|plan.agents|] == plan.agents;
    return None;
  }

  /** The stages name exactly the declared agents. */
  ghost predicate StagesListAgents(plan: Plan) {
    && (forall i, id :: 0 <= i < |plan.executionStages| && id in plan.executionStages[i] ==>
          exists a :: a in plan.agents && a.agentId == id)
    && forall a :: a in plan.agents ==> exists i :: 0 <= i < |plan.executionStages| && a.agentId in plan.executionStages[i]
  }

  /** No agent stands twice in a stage, or in two stages. */
  ghost predicate EachListedOnce(stages: seq<seq<string>>) {
    && (forall i, k, l :: 0 <= i < |stages| && 0 <= k < l < |stages[i]| ==> stages[i][k] != stages[i][l])
    && forall i, j, id :: 0 <= i < j < |stages| && id in stages[i] ==> id !in stages[j]
  }

  /** No agent depends on another of its stage. */
  ghost predicate StagesIndependent(plan: Plan) {
    forall i, d, id ::
      (0 <= i < |plan.executionStages| && d in plan.dependencies && id in d.dependsOn
       && d.agentId in plan.executionStages[i]) ==> id !in plan.executionStages[i]
  }

  lemma {:induction false} FlattenHas(stages: seq<seq<string>>, id: string)
    ensures id in Flatten(stages) <==> exists i :: 0 <= i < |stages| && id in stages[i]
  {
    if stages != [] {
      var n := |stages| - 1;
      FlattenHas(stages[..n], id);
      if i :| 0 <= i < n && id in stages[i] {
        assert id in stages[..n][i];
      }
    }
  }

  lemma {:induction false} NoRepeatsMeans(stages: seq<seq<string>>)
    ensures NoRepeats(stages) <==> EachListedOnce(stages)
  {
    hide EachListedOnce;
    if stages == [] {
      NoneListed();
    } else {
      var n := |stages| - 1;
      var init, last := Flatten(stages[..n]), stages[n];
      NoRepeatsMeans(stages[..n]);
      ConcatIff(init, last);
      forall id ensures id in Elements(init) <==> exists i :: 0 <= i < n && id in stages[i] {
        FlattenHas(stages[..n], id);
        assert forall i :: 0 <= i < n ==> stages[..n][i] == stages[i];
      }
      OneMoreListed(stages);
      assert forall id :: id in last <==> id in Elements(last);
      assert forall i :: 0 <= i < n ==> stages[..n][i] == stages[i];
      assert Elements(init) !! Elements(last) <==> forall id :: id in last ==> id !in Elements(init);
    }
  }

  lemma NoneListed()
    ensures EachListedOnce([])
  {
  }

  lemma OneMoreListed(stages: seq<seq<string>>)
    requires stages != []
    ensures var n := |stages| - 1;
      EachListedOnce(stages) <==>
        && EachListedOnce(stages[..n]) && NoDuplicates(stages[n])
        && forall id :: id in stages[n] ==> !exists i :: 0 <= i < n && id in stages[i]
  {
    var n := |stages| - 1;
    var init := stages[..n];
    assert forall i :: 0 <= i < n ==> init[i] == stages[i];
    if EachListedOnce(init) && NoDuplicates(stages[n])
       && forall id :: id in stages[n] ==> !exists i :: 0 <= i < n && id in stages[i] {
      forall i, k, l | 0 <= i < |stages| && 0 <= k < l < |stages[i]| ensures stages[i][k] != stages[i][l] {
        assert i < n ==> init[i][k] != init[i][l];
      }
      forall i, j, id | 0 <= i < j < |stages| && id in stages[i] ensures id !in stages[j] {
        assert j < n ==> id in init[i] && id !in init[j];
      }
    }
  }

  lemma ConcatIff(a: seq<string>, b: seq<string>)
    ensures NoDuplicates(a + b) <==> NoDuplicates(a) && NoDuplicates(b) && Elements(a) !! Elements(b)
  {
    if NoDuplicates(a + b) {
      assert forall i :: 0 <= i < |a| ==> (a + b)[i] == a[i];
      assert forall i :: 0 <= i < |b| ==> (a + b)[|a| + i] == b[i];
      forall x | x in Elements(a) ensures x !in Elements(b) {
        var i :| 0 <= i < |a| && a[i] == x;
        assert (a + b)[i] == x;
      }
    }
    if NoDuplicates(a) && NoDuplicates(b) && Elements(a) !! Elements(b) {
      ConcatNoDuplicates(a, b);
    }
  }

  lemma ValidMeans(plan: Plan)
    ensures SameAgents(plan) <==> StagesListAgents(plan)
    ensures NoRepeats(plan.executionStages) <==> EachListedOnce(plan.executionStages)
    ensures NoInternalDependency(plan) <==> StagesIndependent(plan)
  {
    hide EachListedOnce, NoRepeats;
    NoRepeatsMeans(plan.executionStages);
    AgentsListed(plan);
    IndependentMeans(plan);
  }

  lemma AgentsListed(plan: Plan)
    ensures SameAgents(plan) <==> StagesListAgents(plan)
  {
    hide Flatten;
    var listed, ids := Elements(Flatten(plan.executionStages)), AgentIds(plan.agents);
    forall id ensures id in listed <==> exists i :: 0 <= i < |plan.executionStages| && id in plan.executionStages[i] {
      FlattenHas(plan.executionStages, id);
    }
    forall id ensures id in ids <==> exists a :: a in plan.agents && a.agentId == id {
    }
    if SameAgents(plan) {
      forall i, id | 0 <= i < |plan.executionStages| && id in plan.executionStages[i]
        ensures exists a :: a in plan.agents && a.agentId == id {
        assert id in listed;
      }
      forall a | a in plan.agents ensures exists i :: 0 <= i < |plan.executionStages| && a.agentId in plan.executionStages[i] {
        assert a.agentId in listed;
      }
    }
    if StagesListAgents(plan) {
      forall id ensures id in listed <==> id in ids {
        if id in listed {
          var i :| 0 <= i < |plan.executionStages| && id in plan.executionStages[i];
        }
      }
    }
  }

  lemma IndependentMeans(plan: Plan)
    ensures NoInternalDependency(plan) <==> StagesIndependent(plan)
  {
    var stages, pairs := plan.executionStages, Pairs(plan.dependencies);
    if NoInternalDependency(plan) {
      forall i, d, id | 0 <= i < |stages| && d in plan.dependencies && id in d.dependsOn && d.agentId in stages[i]
        ensures id !in stages[i] {
        assert (d.agentId, id) in pairs;
      }
    }
    if StagesIndependent(plan) {
      forall i, p | 0 <= i < |stages| && p in pairs ensures !(p.0 in stages[i] && p.1 in stages[i]) {
        var d, x :| d in plan.dependencies && x in d.dependsOn && p == (d.agentId, x);
      }
    }
  }

  lemma SchemasMean(agents: seq<Agent>, schemas: set<string>)
    ensures SchemasKnown(agents, schemas) <==>
      forall a :: a in agents ==> a.inputSchemaId in schemas && a.outputSchemaId in schemas
  {
    assert forall i :: 0 <= i < |agents| ==> agents[i] in agents;
    if SchemasKnown(agents, schemas) {
      forall a | a in agents ensures a.inputSchemaId in schemas && a.outputSchemaId in schemas {
        var i :| 0 <= i < |agents| && agents[i] == a;
      }
    }
  }

  lemma SameAsValid(plan: Plan)
    ensures ValidPlan(plan) <==>
      SameAgents(plan) && NoRepeats(plan.executionStages) && NoInternalDependency(plan)
  {
  }

  /** `validate`: the structural checks, and the schema check where a registry is given. */
  method Validate(plan: Plan, schemas: Option<set<string>>) returns (e: Option<ValidationError>)
    ensures e.None? <==>
      && StagesListAgents(plan) && EachListedOnce(plan.executionStages) && StagesIndependent(plan)
      && (schemas.Some? ==> forall a :: a in plan.agents ==>
            a.inputSchemaId in schemas.value && a.outputSchemaId in schemas.value)
    ensures e.None? <==> ValidPlan(plan) && (schemas.Some? ==> SchemasKnown(plan.agents, schemas.value))
  {
    hide ValidPlan, StagesListAgents, EachListedOnce, StagesIndependent;
    ValidMeans(plan);
    SameAsValid(plan);
    if schemas.Some? {
      SchemasMean(plan.agents, schemas.value);
    }
    e := CheckAgentSetIdentity(plan);
    if e.Some? {
      return;
    }
    e := CheckNoDuplicateAcrossStages(plan);
    if e.Some? {
      return;
    }
    e := CheckNoIntraStageDependencies(plan);
    if e.Some? || schemas.None? {
      return;
    }
    e := CheckSchemaIds(plan, schemas.value);
  }

  // ---- Compiled plans pass ----

  ghost function Below(level: map<string, nat>, i: nat): set<string> {
    set a | a in level && level[a] < i
  }

  lemma {:induction false} FlattenFollows(stages: seq<seq<string>>, level: map<string, nat>, i: nat)
    requires StagesFollow(stages, level) && i <= |stages|
    ensures NoDuplicates(Flatten(stages[..i])) && Elements(Flatten(stages[..i])) == Below(level, i)
  {
    hide StagesFollow;
    if i > 0 {
      var before, stage := Flatten(stages[..i - 1]), stages[i - 1];
      FlattenFollows(stages, level, i - 1);
      FlattenNext(stages, i - 1);
      StageMembers(stages, level, i - 1);
      ConcatNoDuplicates(before, stage);
      assert Below(level, i) == Below(level, i - 1) + AtLevel(level, i - 1);
    }
  }

  lemma ConcatNoDuplicates(a: seq<string>, b: seq<string>)
    requires NoDuplicates(a) && NoDuplicates(b) && Elements(a) !! Elements(b)
    ensures NoDuplicates(a + b) && Elements(a + b) == Elements(a) + Elements(b)
  {
    assert forall i :: 0 <= i < |a| ==> a[i] in Elements(a);
    assert forall i :: 0 <= i < |b| ==> b[i] in Elements(b);
  }

  lemma CompiledEdge(spec: Spec, p: (string, string))
    requires GoodEntries(AgentIds(spec.agents), spec.dependencies) && p in Pairs(spec.dependencies)
    ensures var g := GraphOf(AgentIds(spec.agents), spec.dependencies); p.0 in g && p.1 in g[p.0] && p.1 in g
  {
    var d, x :| d in spec.dependencies && x in d.dependsOn && p == (d.agentId, x);
    var i :| 0 <= i < |spec.dependencies| && spec.dependencies[i] == d;
    DependsOnEntry(spec.dependencies, i);
    assert GoodEntry(AgentIds(spec.agents), d);
  }

  /** Every plan the compiler returns passes all three structural checks. */
  lemma CompiledPlansAreValid(spec: Spec, plan: Plan)
    requires Compiles(spec, Ok(plan))
    ensures ValidPlan(plan)
  {
    hide GoodEntries, Acyclic, DependsOn, Pairs, SortedListing;
    var ids := AgentIds(spec.agents);
    var g, stages := GraphOf(ids, spec.dependencies), plan.executionStages;
    var level :| IsLayering(g, level) && StagesFollow(stages, level);
    FlattenFollows(stages, level, |stages|);
    assert stages[..|stages|] == stages;
    assert Below(level, |stages|) == ids;
    forall i, p | 0 <= i < |stages| && p in Pairs(plan.dependencies) ensures !(p.0 in stages[i] && p.1 in stages[i]) {
      CompiledEdge(spec, p);
      InStage(stages, level, p.0, i);
      InStage(stages, level, p.1, i);
      assert IsLevel(g, level, p.0);
    }
  }
}
