/** What compiling a spec comes to, in the spec's own entries. */
module PlanOutcomes {
  import opened Prelude
  import opened PlanGraph
  import opened PlanCompiler
  import opened PlanTheorems

  ghost predicate Declared(spec: Spec, id: string) {
    exists a :: a in spec.agents && a.agentId == id
  }

  /** An entry of the spec makes `a` depend on `b`. */
  ghost predicate Needs(spec: Spec, a: string, b: string) {
    exists d :: d in spec.dependencies && d.agentId == a && b in d.dependsOn
  }

  /** One entry per agent at most, and only declared agents in it. */
  ghost predicate EntriesAreGood(spec: Spec) {
    && (forall i, j :: 0 <= i < j < |spec.dependencies| ==> spec.dependencies[i].agentId != spec.dependencies[j].agentId)
    && forall d :: d in spec.dependencies ==>
         Declared(spec, d.agentId) && forall b :: b in d.dependsOn ==> Declared(spec, b)
  }

  /** Agents each of which needs the next, and the last of which needs the first. */
  ghost predicate IsCircle(spec: Spec, c: seq<string>) {
    && c != [] && (forall i :: 0 <= i < |c| - 1 ==> Needs(spec, c[i], c[i + 1]))
    && Needs(spec, c[|c| - 1], c[0])
  }

  /** A spec compiles exactly when its entries are good and no agents need each other in a circle. */
  lemma CompilesIff(spec: Spec, r: Result<Plan>)
    requires Compiles(spec, r)
    ensures r.Ok? <==> EntriesAreGood(spec) && !exists c :: IsCircle(spec, c)
    ensures r == Err(CycleDetected) <==> EntriesAreGood(spec) && exists c :: IsCircle(spec, c)
  {
    hide GoodEntries, FirstRefusal, Acyclic, GraphOf, LongestPathStages, EntriesAreGood, IsCircle;
    OutcomeOf(spec, r);
    GoodEntriesMean(spec);
    if EntriesAreGood(spec) {
      AcyclicMeans(spec);
    }
  }

  lemma GoodEntriesMean(spec: Spec)
    ensures GoodEntries(AgentIds(spec.agents), spec.dependencies) <==> EntriesAreGood(spec)
  {
    hide AgentIds, Declared;
    var ids, deps := AgentIds(spec.agents), spec.dependencies;
    forall id ensures id in ids <==> Declared(spec, id) {
      IdsAreDeclared(spec, id);
    }
    if GoodEntries(ids, deps) {
      forall i, j | 0 <= i < j < |deps| ensures deps[i].agentId != deps[j].agentId {
        assert EntryKey(deps[i]) != EntryKey(deps[j]);
      }
      forall d | d in deps ensures d.agentId in ids && forall b :: b in d.dependsOn ==> b in ids {
        var i :| 0 <= i < |deps| && deps[i] == d;
        assert GoodEntry(ids, deps[i]);
        assert forall b :: b in d.dependsOn ==> b in Elements(d.dependsOn);
      }
    }
    if EntriesAreGood(spec) {
      forall i | 0 <= i < |deps| ensures GoodEntry(ids, deps[i]) {
        assert deps[i] in deps;
      }
    }
  }

  lemma IdsAreDeclared(spec: Spec, id: string)
    ensures id in AgentIds(spec.agents) <==> Declared(spec, id)
  {
  }

  lemma EdgeMeans(spec: Spec, a: string, b: string)
    requires GoodEntries(AgentIds(spec.agents), spec.dependencies)
    ensures var g := GraphOf(AgentIds(spec.agents), spec.dependencies); a in g && b in g[a] <==> Needs(spec, a, b)
    ensures Needs(spec, a, b) ==> a in AgentIds(spec.agents) && b in AgentIds(spec.agents)
  {
    hide DependsOn, AgentIds;
    var ids, deps := AgentIds(spec.agents), spec.dependencies;
    if Needs(spec, a, b) {
      var d :| d in deps && d.agentId == a && b in d.dependsOn;
      var i :| 0 <= i < |deps| && deps[i] == d;
      DependsOnEntry(deps, i);
      assert GoodEntry(ids, deps[i]) && b in Elements(d.dependsOn);
    }
    if a in ids && b in DependsOn(deps, a) {
      DependsOnSome(deps, a, b);
    }
  }

  lemma {:induction false} DependsOnSome(deps: seq<Dependency>, a: string, b: string)
    requires b in DependsOn(deps, a)
    ensures exists d :: d in deps && d.agentId == a && b in d.dependsOn
  {
    var last := deps[|deps| - 1];
    if last.agentId == a {
      assert last in deps;
    } else {
      DependsOnSome(deps[..|deps| - 1], a, b);
    }
  }

  lemma AcyclicMeans(spec: Spec)
    requires GoodEntries(AgentIds(spec.agents), spec.dependencies)
    ensures Acyclic(GraphOf(AgentIds(spec.agents), spec.dependencies)) <==> !exists c :: IsCircle(spec, c)
  {
    hide GoodEntries, GraphOf, AgentIds, Needs, IsCircle, IsCycle;
    var g := GraphOf(AgentIds(spec.agents), spec.dependencies);
    forall c ensures IsCycle(g, c) <==> IsCircle(spec, c) {
      CycleMeans(spec, c);
    }
  }

  lemma CycleMeans(spec: Spec, c: seq<string>)
    requires GoodEntries(AgentIds(spec.agents), spec.dependencies)
    ensures IsCycle(GraphOf(AgentIds(spec.agents), spec.dependencies), c) <==> IsCircle(spec, c)
  {
    hide GoodEntries, GraphOf, AgentIds, Needs;
    var g := GraphOf(AgentIds(spec.agents), spec.dependencies);
    GraphKeys(AgentIds(spec.agents), spec.dependencies);
    forall a, b
      ensures a in g && b in g[a] <==> Needs(spec, a, b)
      ensures Needs(spec, a, b) ==> a in g && b in g {
      EdgeMeans(spec, a, b);
    }
    if IsCircle(spec, c) {
      forall i | 0 <= i < |c| ensures c[i] in g {
        if i < |c| - 1 {
          assert Needs(spec, c[i], c[i + 1]);
        }
      }
      forall i | 0 <= i < |c| - 1 ensures c[i + 1] in g[c[i]] {
        assert Needs(spec, c[i], c[i + 1]);
      }
    }
    if IsCycle(g, c) {
      forall i | 0 <= i < |c| - 1 ensures Needs(spec, c[i], c[i + 1]) {
        assert c[i] in g && c[i + 1] in g[c[i]];
      }
    }
  }

  /**
   * A compiled plan runs each declared agent in exactly one stage: after the stages of all it needs, right after one
   * of them, or in the first stage if it needs none.
   */
  lemma AgentRunsWhenReady(spec: Spec, plan: Plan, a: string) returns (i: nat)
    requires Compiles(spec, Ok(plan)) && Declared(spec, a)
    ensures var stages := plan.executionStages;
      && i < |stages| && a in stages[i]
      && (forall j :: 0 <= j < |stages| && a in stages[j] ==> j == i)
      && (forall b, j :: Needs(spec, a, b) && 0 <= j < |stages| && b in stages[j] ==> j < i)
      && (i > 0 <==> exists b :: Needs(spec, a, b))
      && (i > 0 ==> exists b :: Needs(spec, a, b) && b in stages[i - 1])
  {
    hide GoodEntries, GraphOf, Acyclic, LongestPathStages, AgentIds, Needs, Declared;
    var ids := AgentIds(spec.agents);
    var g := GraphOf(ids, spec.dependencies);
    IdsAreDeclared(spec, a);
    GraphKeys(ids, spec.dependencies);
    forall b ensures b in g[a] <==> Needs(spec, a, b) {
      EdgeMeans(spec, a, b);
    }
    i := StageOfAgent(g, plan.executionStages, a);
    if i == 0 {
      assert forall b :: b !in g[a];
    } else {
      var d :| d in g[a] && d in plan.executionStages[i - 1];
      assert Needs(spec, a, d);
    }
  }
}
