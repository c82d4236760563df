/** Handoff integrity against the artifacts of a completed run, and what the fixed topology amounts to. */
module RunTheorems {
  import opened Prelude
  import opened MultiAgentWorkflow
  import opened Handoffs
  import opened MultiAgentRun
  import opened RunHandoffs
  import opened MultiAgentRunner
  import G = PlanGraph
  import L = Listings
  import C = PlanCompiler
  import T = PlanTheorems
  import Sorting
  import EnvelopeReferences

  // ---- The artifact map ----

  /** `agent-outputs.json`: every result of every stage under its own key, and nothing else. */
  ghost predicate IsArtifactMap(outputs: map<string, Envelope>, stages: seq<StageRecord>) {
    && (forall i, a :: 0 <= i < |stages| && a in stages[i].results ==>
          OutputRef(stages[i].stageIndex, a) in outputs
          && outputs[OutputRef(stages[i].stageIndex, a)] == stages[i].results[a])
    && (forall key :: key in outputs ==> exists i :: 0 <= i < |stages| && NamedBy(key, stages[i]))
  }

  ghost predicate NamedBy(key: string, stage: StageRecord) {
    exists a :: a in stage.results && key == OutputRef(stage.stageIndex, a)
  }

  ghost predicate DistinctIndexes(stages: seq<StageRecord>) {
    forall i, j :: 0 <= i < j < |stages| ==> stages[i].stageIndex != stages[j].stageIndex
  }

  ghost predicate Added(outputs: map<string, Envelope>, before: map<string, Envelope>, stage: StageRecord,
                        part: set<string>)
  {
    && before.Keys <= outputs.Keys
    && (forall key :: key in before ==> outputs[key] == before[key])
    && (forall a :: a in part ==>
          a in stage.results && OutputRef(stage.stageIndex, a) in outputs
          && outputs[OutputRef(stage.stageIndex, a)] == stage.results[a])
    && (forall key :: key in outputs && key !in before ==> NamedBy(key, stage))
  }

  method AgentOutputs(stages: seq<StageRecord>) returns (outputs: map<string, Envelope>)
    requires DistinctIndexes(stages)
    ensures IsArtifactMap(outputs, stages)
  {
    hide OutputRef;
    outputs := map[];
    var i := 0;
    while i < |stages|
      invariant i <= |stages| && IsArtifactMap(outputs, stages[..i])
    {
      var left := stages[i].results.Keys;
      ghost var before := outputs;
      while left != {}
        invariant left <= stages[i].results.Keys
        invariant Added(outputs, before, stages[i], stages[i].results.Keys - left)
      {
        var a :| a in left;
        AddOne(outputs, before, stages, i, stages[i].results.Keys - left, a);
        outputs := outputs[OutputRef(stages[i].stageIndex, a) := stages[i].results[a]];
        left := left - {a};
        assert stages[i].results.Keys - left == stages[i].results.Keys - (left + {a}) + {a};
      }
      assert stages[i].results.Keys - left == stages[i].results.Keys;
      StageAdded(outputs, before, stages, i);
      i := i + 1;
    }
    assert stages[..i] == stages;
  }

  /** No result of an earlier stage has the key of this stage's result. */
  lemma KeyIsNew(before: map<string, Envelope>, stages: seq<StageRecord>, i: nat, a: string)
    requires i < |stages| && DistinctIndexes(stages) && IsArtifactMap(before, stages[..i])
    ensures OutputRef(stages[i].stageIndex, a) !in before
  {
    hide OutputRef;
    var key := OutputRef(stages[i].stageIndex, a);
    if key in before {
      var j :| 0 <= j < |stages[..i]| && NamedBy(key, stages[..i][j]);
      var b :| b in stages[j].results && key == OutputRef(stages[j].stageIndex, b);
      OutputRefInjective(stages[i].stageIndex, a, stages[j].stageIndex, b);
    }
  }

  lemma AddOne(outputs: map<string, Envelope>, before: map<string, Envelope>, stages: seq<StageRecord>, i: nat,
               part: set<string>, a: string)
    requires i < |stages| && DistinctIndexes(stages) && IsArtifactMap(before, stages[..i])
    requires Added(outputs, before, stages[i], part) && a in stages[i].results && a !in part
    ensures Added(outputs[OutputRef(stages[i].stageIndex, a) := stages[i].results[a]], before, stages[i], part + {a})
  {
    hide OutputRef, IsArtifactMap, DistinctIndexes;
    var key := OutputRef(stages[i].stageIndex, a);
    KeyIsNew(before, stages, i, a);
    forall b | b in part ensures OutputRef(stages[i].stageIndex, b) != key {
      if OutputRef(stages[i].stageIndex, b) == key {
        OutputRefInjective(stages[i].stageIndex, a, stages[i].stageIndex, b);
      }
    }
  }

  lemma StageAdded(outputs: map<string, Envelope>, before: map<string, Envelope>, stages: seq<StageRecord>, i: nat)
    requires i < |stages| && IsArtifactMap(before, stages[..i])
    requires Added(outputs, before, stages[i], stages[i].results.Keys)
    ensures IsArtifactMap(outputs, stages[..i + 1])
  {
    hide OutputRef;
    hide NamedBy;
    var after := stages[..i + 1];
    assert after == stages[..i] + [stages[i]];
    forall key | key in outputs ensures exists j :: 0 <= j < |after| && NamedBy(key, after[j]) {
      if key in before {
        var j :| 0 <= j < |stages[..i]| && NamedBy(key, stages[..i][j]);
        assert after[j] == stages[..i][j];
      } else {
        assert NamedBy(key, after[i]);
      }
    }
    forall j, a | 0 <= j < |after| && a in after[j].results
      ensures OutputRef(after[j].stageIndex, a) in outputs
      ensures outputs[OutputRef(after[j].stageIndex, a)] == after[j].results[a] {
      if j < i {
        assert stages[..i][j] == after[j];
      }
    }
  }

  lemma RunHasDistinctIndexes(behaviour: Behaviour, stages: seq<StageRecord>)
    requires WellRun(behaviour, stages)
    ensures DistinctIndexes(stages)
  {
    hide IsStage;
  }

  // ---- Integrity ----

  /**
   * The handoff refers to a key of the final artifact map, carries the hash of exactly the value there, still
   * validates against that map, and handed its receiver's stage that very value.
   */
  ghost predicate Intact(registry: map<string, Identity>, d: Delivery, h: Handoff, stages: seq<StageRecord>,
                         outputs: map<string, Envelope>)
  {
    && d.receiverStage < |stages| && h.fromAgentId == d.edge.sender && h.toAgentId == d.edge.receiver
    && h.fromAgentId in registry
    && h.toAgentId in stages[d.receiverStage].results && h.fromAgentId in stages[d.receiverStage].given
    && ValidatePayload(h, registry[h.fromAgentId], outputs) == None
    && exists key :: && key in outputs && h.payloadRef == PREFIX + key && h.outputHash == OfEnvelope(outputs[key])
                     && stages[d.receiverStage].given[h.fromAgentId] == outputs[key]
  }

  /** Every recorded handoff of a run is intact in the final artifact map. */
  lemma HandoffsMatchArtifacts(behaviour: Behaviour, registry: map<string, Identity>, requirement: string,
                               deliveries: seq<Delivery>, handoffs: seq<Handoff>, stages: seq<StageRecord>,
                               outputs: map<string, Envelope>, k: nat)
    requires WellRun(behaviour, stages) && IsRegistry(registry)
    requires LogResolves(registry, requirement, deliveries, handoffs, stages)
    requires IsArtifactMap(outputs, stages) && k < |handoffs|
    ensures Intact(registry, deliveries[k], handoffs[k], stages, outputs)
  {
    hide WellRun, OutputRef, ValidatePayload, AgentIds, IsArtifactMap;
    var h, d := handoffs[k], deliveries[k];
    assert Resolves(registry, requirement, d, h, stages);
    var i := d.edge.senderStage;
    var key := OutputRef(i, d.edge.sender);
    StageFacts(behaviour, stages, i, d.edge.sender);
    ArtifactAt(outputs, stages, i, d.edge.sender);
    ValidatePayloadAccepts(h, registry[h.fromAgentId], outputs);
    assert h.payloadRef == PREFIX + key;
  }

  lemma StageFacts(behaviour: Behaviour, stages: seq<StageRecord>, i: nat, a: string)
    requires WellRun(behaviour, stages) && i < |stages| && a in stages[i].results
    ensures stages[i].stageIndex == i && Accepted(a, stages[i].results[a])
  {
  }

  lemma ArtifactAt(outputs: map<string, Envelope>, stages: seq<StageRecord>, i: nat, a: string)
    requires IsArtifactMap(outputs, stages) && i < |stages| && a in stages[i].results
    ensures OutputRef(stages[i].stageIndex, a) in outputs
    ensures outputs[OutputRef(stages[i].stageIndex, a)] == stages[i].results[a]
  {
  }

  /** The whole run with its artifact map: a completed run's handoff log is exactly its deliveries, all intact. */
  method RunOwned(run: Run) returns (completed: bool, outputs: map<string, Envelope>, ghost target: Option<string>)
    requires run.Fresh() && !run.revisionExhausted
    modifies run`revisionExhausted, run.engine, run.controller
    modifies run.runner`stages, run.runner`priorOutputs, run.runner`handoffs, run.runner.guard
    ensures run.Valid() && run.engine.refusals == 0
    ensures completed ==> run.Finished(target) && IsArtifactMap(outputs, run.runner.stages)
    ensures completed ==>
      var deliveries := if target.Some? then RevisedDeliveries(target.value) else PassedDeliveries();
      && |run.runner.handoffs| == |deliveries|
      && run.runner.guard.llmCalls == (if target.Some? then 9 else 6)
      && forall k :: 0 <= k < |deliveries| ==>
           Intact(run.runner.registry, deliveries[k], run.runner.handoffs[k], run.runner.stages, outputs)
    ensures completed ==>
      EnvelopeReferences.IsValueRun(
        EnvelopeReferences.Setting(run.runner.registry, run.runner.requirement,
                                   if target.Some? then target.value else DesignId()),
        run.runner.behaviour, run.runner.stages, run.runner.handoffs)
    ensures !completed ==> run.engine.state == Failed
    ensures completed ==>
      Completes(run.runner.registry, run.runner.behaviour, run.runner.guard.policy, run.controller.policy)
    ensures !completed && !run.runner.guard.deadline ==>
      !Completes(run.runner.registry, run.runner.behaviour, run.runner.guard.policy, run.controller.policy)
  {
    hide Intact, Play, Completes, IsArtifactMap, WellRun, Deliveries, PassedDeliveries, RevisedDeliveries, CallsBy, HasShape, IsRegistry,
      LegalPath, Revisions, Verdict, Resolves;
    ghost var n;
    completed, n, target := run.Execute();
    outputs := map[];
    if completed {
      RunHasDistinctIndexes(run.runner.behaviour, run.runner.stages);
      outputs := AgentOutputs(run.runner.stages);
      ghost var t := if target.Some? then target.value else DesignId();
      DeliveriesOfRun(t);
      CallsOfRun(t);
      ghost var deliveries := Deliveries(|run.runner.stages|, t);
      forall k | 0 <= k < |run.runner.handoffs|
        ensures Intact(run.runner.registry, deliveries[k], run.runner.handoffs[k], run.runner.stages, outputs) {
        HandoffsMatchArtifacts(run.runner.behaviour, run.runner.registry, run.runner.requirement, deliveries,
                               run.runner.handoffs, run.runner.stages, outputs, k);
      }
    }
  }

  // ---- The log, spelled out ----

  function PassedDeliveries(): seq<Delivery> {
    [Delivery(Edge(AnalystId(), 0, DesignId()), 1), Delivery(Edge(AnalystId(), 0, RiskId()), 1),
     Delivery(Edge(AnalystId(), 0, TestId()), 1),
     Delivery(Edge(DesignId(), 1, SynthesisId()), 2), Delivery(Edge(RiskId(), 1, SynthesisId()), 2),
     Delivery(Edge(TestId(), 1, SynthesisId()), 2),
     Delivery(Edge(SynthesisId(), 2, ReviewId()), 3)]
  }

  /** The stage whose output a specialist contributes to the second synthesis. */
  function Latest(agentId: string, target: string): nat {
    if agentId == target then 4 else 1
  }

  function RevisedDeliveries(target: string): seq<Delivery> {
    PassedDeliveries() +
    [Delivery(Edge(ReviewId(), 3, target), 4),
     Delivery(Edge(DesignId(), Latest(DesignId(), target), SynthesisId()), 5),
     Delivery(Edge(RiskId(), Latest(RiskId(), target), SynthesisId()), 5),
     Delivery(Edge(TestId(), Latest(TestId(), target), SynthesisId()), 5),
     Delivery(Edge(SynthesisId(), 5, ReviewId()), 6)]
  }

  function SenderStage(sender: string, overrides: map<string, nat>): nat {
    if sender in overrides then overrides[sender] else TaskStage(sender)
  }

  lemma EdgesOfAll(receiver: string, senders: seq<string>, overrides: map<string, nat>)
    ensures var edges := EdgesOf(receiver, senders, overrides);
      forall k :: 0 <= k < |senders| ==> edges[k] == Edge(senders[k], SenderStage(senders[k], overrides), receiver)
  {
    hide EdgesOf, TaskStage;
    var edges := EdgesOf(receiver, senders, overrides);
    forall k | 0 <= k < |senders| ensures edges[k] == Edge(senders[k], SenderStage(senders[k], overrides), receiver) {
      EdgesOfMember(receiver, senders, overrides, k);
    }
  }

  lemma OneReceiver(a: string, overrides: map<string, nat>)
    ensures InputEdges([a], overrides) == EdgesOf(a, DependsOn(a), overrides)
  {
    hide EdgesOf, DependsOn;
    assert InputEdges([a][..0], overrides) == [];
  }

  lemma OneMoreReceiver(agents: seq<string>, a: string, overrides: map<string, nat>)
    ensures InputEdges(agents + [a], overrides) == InputEdges(agents, overrides) + EdgesOf(a, DependsOn(a), overrides)
  {
    hide EdgesOf, DependsOn;
    assert (agents + [a])[..|agents|] == agents;
  }

  lemma EdgesIntoSpecialists(target: string)
    ensures EdgesInto(1, target) ==
      [Edge(AnalystId(), 0, DesignId()), Edge(AnalystId(), 0, RiskId()), Edge(AnalystId(), 0, TestId())]
  {
    hide EdgesOf, InputEdges, AnalystId, DesignId, RiskId, TestId, SynthesisId, ReviewId;
    OneReceiver(DesignId(), map[]);
    OneMoreReceiver([DesignId()], RiskId(), map[]);
    OneMoreReceiver([DesignId(), RiskId()], TestId(), map[]);
    assert [DesignId()] + [RiskId()] == [DesignId(), RiskId()];
    assert [DesignId(), RiskId()] + [TestId()] == [DesignId(), RiskId(), TestId()];
    EdgesOfAll(DesignId(), [AnalystId()], map[]);
    EdgesOfAll(RiskId(), [AnalystId()], map[]);
    EdgesOfAll(TestId(), [AnalystId()], map[]);
  }

  lemma EdgesIntoSynthesis(target: string)
    ensures EdgesInto(2, target) ==
      [Edge(DesignId(), 1, SynthesisId()), Edge(RiskId(), 1, SynthesisId()), Edge(TestId(), 1, SynthesisId())]
    ensures EdgesInto(5, target) ==
      [Edge(DesignId(), Latest(DesignId(), target), SynthesisId()),
       Edge(RiskId(), Latest(RiskId(), target), SynthesisId()),
       Edge(TestId(), Latest(TestId(), target), SynthesisId())]
  {
    hide EdgesOf, InputEdges, AnalystId, DesignId, RiskId, TestId, SynthesisId, ReviewId;
    Distinct();
    OneReceiver(SynthesisId(), map[]);
    OneReceiver(SynthesisId(), map[target := 4]);
    EdgesOfAll(SynthesisId(), [DesignId(), RiskId(), TestId()], map[]);
    EdgesOfAll(SynthesisId(), [DesignId(), RiskId(), TestId()], map[target := 4]);
  }

  lemma EdgesIntoReview(target: string)
    ensures EdgesInto(3, target) == [Edge(SynthesisId(), 2, ReviewId())]
    ensures EdgesInto(6, target) == [Edge(SynthesisId(), 5, ReviewId())]
  {
    hide EdgesOf, InputEdges, AnalystId, DesignId, RiskId, TestId, SynthesisId, ReviewId;
    Distinct();
    OneReceiver(ReviewId(), map[]);
    OneReceiver(ReviewId(), map[SynthesisId() := 5]);
    EdgesOfAll(ReviewId(), [SynthesisId()], map[]);
    EdgesOfAll(ReviewId(), [SynthesisId()], map[SynthesisId() := 5]);
  }

  /** A run without a revision records seven handoffs; one with a revision, twelve. */
  lemma DeliveriesOfRun(target: string)
    ensures Deliveries(4, target) == PassedDeliveries()
    ensures Deliveries(7, target) == RevisedDeliveries(target)
  {
    hide InputEdges, EdgesInto, AnalystId, DesignId, RiskId, TestId, SynthesisId, ReviewId, Latest;
    EdgesIntoSpecialists(target);
    EdgesIntoSynthesis(target);
    EdgesIntoReview(target);
    assert EdgesInto(0, target) == [] && EdgesInto(4, target) == [Edge(ReviewId(), 3, target)] by { FixedEdges(target); }
    assert Deliveries(1, target) == [];
    assert Deliveries(2, target) == PassedDeliveries()[..3];
    assert Deliveries(3, target) == PassedDeliveries()[..6];
    assert Deliveries(4, target) == PassedDeliveries();
    assert Deliveries(5, target) == RevisedDeliveries(target)[..8];
    assert Deliveries(6, target) == RevisedDeliveries(target)[..11];
  }

  lemma FixedEdges(target: string)
    ensures EdgesInto(0, target) == [] && EdgesInto(4, target) == [Edge(ReviewId(), 3, target)]
  {
    hide InputEdges;
  }

  /** A run without a revision makes six executor calls; one with a revision, nine. */
  lemma CallsOfRun(target: string)
    ensures CallsBy(4, target) == 6 && CallsBy(7, target) == 9
  {
    hide AnalystId, DesignId, RiskId, TestId, SynthesisId, ReviewId;
    assert CallsBy(0, target) == 0;
    assert CallsBy(1, target) == 1;
    assert CallsBy(2, target) == 4;
    assert CallsBy(3, target) == 5;
    assert CallsBy(4, target) == 6;
    assert CallsBy(5, target) == 7;
    assert CallsBy(6, target) == 8;
  }

  // ---- The fixed topology, compiled ----

  /** The dependencies of the fixed topology, as the planner lists them. */
  function TopologyDependencies(): seq<C.Dependency> {
    [C.Dependency(DesignId(), [AnalystId()]), C.Dependency(TestId(), [AnalystId()]), C.Dependency(RiskId(), [AnalystId()]),
     C.Dependency(SynthesisId(), [DesignId(), TestId(), RiskId()]), C.Dependency(ReviewId(), [SynthesisId()]),
     C.Dependency(AnalystId(), [])]
  }

  function TopologyGraph(): G.Graph {
    C.GraphOf(AgentIds(), TopologyDependencies())
  }

  function TopologyLevel(): map<string, nat> {
    map a | a in AgentIds() :: TaskStage(a)
  }

  lemma TopologyEntries()
    ensures C.GoodEntries(AgentIds(), TopologyDependencies())
  {
    hide AnalystId, DesignId, RiskId, TestId, SynthesisId, ReviewId;
    Distinct();
    var deps := TopologyDependencies();
    forall i, j | 0 <= i < j < |deps| ensures C.EntryKey(deps[i]) != C.EntryKey(deps[j]) {
    }
  }

  /** The runner's dependency table is that of the compiled graph. */
  lemma TopologyEdges(a: string)
    requires a in AgentIds()
    ensures TopologyGraph()[a] == Elements(DependsOn(a))
  {
    hide AnalystId, DesignId, RiskId, TestId, SynthesisId, ReviewId, C.DependsOn;
    Distinct();
    TopologyEntries();
    var deps := TopologyDependencies();
    forall i: nat | i < |deps| ensures C.DependsOn(deps, deps[i].agentId) == Elements(deps[i].dependsOn) {
      C.DependsOnEntry(deps, i);
    }
    assert deps[0].agentId == DesignId() && deps[1].agentId == TestId() && deps[2].agentId == RiskId();
    assert deps[3].agentId == SynthesisId() && deps[4].agentId == ReviewId() && deps[5].agentId == AnalystId();
  }

  lemma TopologyLayering()
    ensures G.IsLayering(TopologyGraph(), TopologyLevel())
  {
    hide AnalystId, DesignId, RiskId, TestId, SynthesisId, ReviewId, C.GraphOf;
    Distinct();
    TopologyEntries();
    C.GoodEntriesClosed(AgentIds(), TopologyDependencies());
    C.GraphKeys(AgentIds(), TopologyDependencies());
    forall a | a in AgentIds() ensures G.IsLevel(TopologyGraph(), TopologyLevel(), a) {
      TopologyLevelOf(a);
    }
  }

  lemma TopologyLevelOf(a: string)
    requires TopologyLevel().Keys == TopologyGraph().Keys && G.Closed(TopologyGraph()) && a in TopologyGraph()
    ensures G.IsLevel(TopologyGraph(), TopologyLevel(), a)
  {
    hide AnalystId, DesignId, RiskId, TestId, SynthesisId, ReviewId, TopologyGraph, G.Closed;
    Distinct();
    TopologyEdges(a);
    if a in [DesignId(), RiskId(), TestId()] {
      assert AnalystId() in TopologyGraph()[a];
    } else if a == SynthesisId() {
      assert DesignId() in TopologyGraph()[a];
    } else if a == ReviewId() {
      assert SynthesisId() in TopologyGraph()[a];
    } else {
      assert TopologyGraph()[a] == {};
    }
  }

  lemma StageIsSorted(i: nat)
    requires i < 4
    ensures L.SortedListing(PlanStages()[i], C.AtLevel(TopologyLevel(), i))
  {
    Distinct();
    SpecialistsSorted();
    OneSorted(AnalystId());
    OneSorted(SynthesisId());
    OneSorted(ReviewId());
    StageListsLevel(i);
  }

  lemma StageListsLevel(i: nat)
    requires i < 4
    ensures L.Lists(PlanStages()[i], C.AtLevel(TopologyLevel(), i))
  {
    hide AnalystId, DesignId, RiskId, TestId, SynthesisId, ReviewId;
    Distinct();
  }

  lemma OneSorted(a: string)
    ensures Sorting.SortedBy(Sorting.StringLeq, L.Self, [a])
  {
    Sorting.StringOrder();
  }

  lemma SpecialistsSorted()
    ensures Sorting.SortedBy(Sorting.StringLeq, L.Self, [DesignId(), RiskId(), TestId()])
  {
    hide DesignId, RiskId, TestId, Sorting.StringLeq;
    SpecialistInitials();
    FirstDecides(DesignId(), RiskId());
    FirstDecides(RiskId(), TestId());
    FirstDecides(DesignId(), TestId());
    Sorting.StringLeqTotal(DesignId(), DesignId());
    Sorting.StringLeqTotal(RiskId(), RiskId());
    Sorting.StringLeqTotal(TestId(), TestId());
  }

  lemma SpecialistInitials()
    ensures DesignId() != [] && DesignId()[0] == 'd'
    ensures RiskId() != [] && RiskId()[0] == 'r'
    ensures TestId() != [] && TestId()[0] == 't'
  {
  }

  lemma FirstDecides(a: string, b: string)
    requires a != [] && b != [] && a[0] < b[0]
    ensures Sorting.StringLeq(a, b)
  {
  }

  /** The planner's topology compiles, and to exactly the stages the run goes through. */
  lemma TopologyCompiles(spec: C.Spec, r: C.Result<C.Plan>)
    requires C.AgentIds(spec.agents) == AgentIds() && spec.dependencies == TopologyDependencies()
    requires C.Compiles(spec, r)
    ensures r.Ok? && r.value.executionStages == PlanStages()
  {
    hide AgentIds, TopologyDependencies, PlanStages, G.Acyclic, G.IsLayering, C.FirstRefusal, C.GoodEntries,
      C.LongestPathStages, C.AgentIds;
    var g := C.GraphOf(C.AgentIds(spec.agents), spec.dependencies);
    TopologyEntries();
    TopologyStages();
    TopologyLayering();
    G.LayeringExcludesCycles(g, TopologyLevel());
    if r.Err? && r.error != C.CycleDetected {
      T.RefusalHasCause(AgentIds(), TopologyDependencies(), r.error);
    }
    if r.Ok? {
      T.StagesAreDetermined(g, r.value.executionStages, PlanStages());
    }
  }

  lemma TopologyStages()
    ensures C.LongestPathStages(TopologyGraph(), PlanStages())
  {
    hide AnalystId, DesignId, RiskId, TestId, SynthesisId, ReviewId, G.IsLayering, L.SortedListing;
    TopologyLayering();
    forall i: nat | i < 4 ensures L.SortedListing(PlanStages()[i], C.AtLevel(TopologyLevel(), i)) {
      StageIsSorted(i);
    }
    assert C.StagesFollow(PlanStages(), TopologyLevel());
  }
}
