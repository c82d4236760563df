/** What the handoff log of a run refers to. */
module RunHandoffs {
  import opened Prelude
  import opened MultiAgentWorkflow
  import opened Handoffs
  import opened MultiAgentRun

  // ---- The stages of a run ----

  /** The agents of stage i: the plan's stages, then the revision target and the plan's last two stages again. */
  function StageAgents(i: nat, target: string): seq<string> {
    if i == 0 then [AnalystId()]
    else if i == 1 then [DesignId(), RiskId(), TestId()]
    else if i == 2 || i == 5 then [SynthesisId()]
    else if i == 3 || i == 6 then [ReviewId()]
    else [target]
  }

  /** The senders whose latest output is not that of their task's stage. */
  function Overrides(i: nat, target: string): map<string, nat> {
    if i == 5 then map[target := 4] else if i == 6 then map[SynthesisId() := 5] else map[]
  }

  function EdgesInto(i: nat, target: string): seq<Edge> {
    if i == 0 then []
    else if i == 4 then [Edge(ReviewId(), 3, target)]
    else InputEdges(StageAgents(i, target), Overrides(i, target))
  }

  /** An edge and the stage that receives over it. */
  datatype Delivery = Delivery(edge: Edge, receiverStage: nat)

  function Deliver(edges: seq<Edge>, receiverStage: nat): (r: seq<Delivery>)
    ensures |r| == |edges| && forall k :: 0 <= k < |r| ==> r[k] == Delivery(edges[k], receiverStage)
  {
    seq(|edges|, k requires 0 <= k < |edges| => Delivery(edges[k], receiverStage))
  }

  /** The deliveries into the first `n` stages. */
  function Deliveries(n: nat, target: string): seq<Delivery> {
    if n == 0 then [] else Deliveries(n - 1, target) + Deliver(EdgesInto(n - 1, target), n - 1)
  }

  // ---- What a run comes to when time does not matter ----

  /** The stages run so far and what they used, or a stage that cannot be run. */
  datatype Played = Playing(stages: seq<StageRecord>, used: Budget) | Stuck

  /** Every handoff into the next stage can be made, and the stage can be run within the budgets. */
  ghost predicate CanPlay(policy: ExecutionPolicy, behaviour: Behaviour, target: string, stages: seq<StageRecord>,
                          used: Budget)
  {
    && AllTransferable(EdgesInto(|stages|, target), Overlay(stages))
    && StageFits(policy, used, behaviour, stages, StageAgents(|stages|, target))
  }

  ghost function PlayOne(policy: ExecutionPolicy, behaviour: Behaviour, target: string, stages: seq<StageRecord>,
                         used: Budget): (r: Played)
    ensures r.Playing? ==> |r.stages| == |stages| + 1
  {
    var agents := StageAgents(|stages|, target);
    if CanPlay(policy, behaviour, target, stages, used)
    then Playing(stages + [NextRecord(behaviour, stages, agents)],
                 UsedAfter(JobAt(policy, used, behaviour, stages, agents)))
    else Stuck
  }

  /** The first `n` stages, a function of the policy and the executors alone. */
  ghost function Play(policy: ExecutionPolicy, behaviour: Behaviour, target: string, n: nat): (r: Played)
    ensures r.Playing? ==> |r.stages| == n
  {
    if n == 0 then Playing([], Budget(0, 0, 0))
    else
      match Play(policy, behaviour, target, n - 1)
      case Stuck => Stuck
      case Playing(stages, used) => PlayOne(policy, behaviour, target, stages, used)
  }

  lemma PlayNext(policy: ExecutionPolicy, behaviour: Behaviour, target: string, stages: seq<StageRecord>, used: Budget)
    requires Play(policy, behaviour, target, |stages|) == Playing(stages, used)
    ensures var agents, next := StageAgents(|stages|, target), Play(policy, behaviour, target, |stages| + 1);
      && (next.Playing? <==>
            && AllTransferable(EdgesInto(|stages|, target), Overlay(stages))
            && StageFits(policy, used, behaviour, stages, agents))
      && (next.Playing? ==> next == Playing(stages + [NextRecord(behaviour, stages, agents)],
                                            UsedAfter(JobAt(policy, used, behaviour, stages, agents))))
  {
    hide StageAgents, EdgesInto, AllTransferable, StageFits, Overlay, UsedAfter, NextRecord, JobAt;
  }

  lemma NextStage(policy: ExecutionPolicy, behaviour: Behaviour, stages: seq<StageRecord>, used: Budget,
                  agents: seq<string>)
    requires NoDuplicates(agents) && StageFits(policy, used, behaviour, stages, agents)
    ensures UsedAfter(JobAt(policy, used, behaviour, stages, agents)).llmCalls == used.llmCalls + |agents|
    ensures NextRecord(behaviour, stages, agents).given == Overlay(stages)
    ensures NextRecord(behaviour, stages, agents).results.Keys == Elements(agents)
  {
    hide Overlay, CallResult, InputOf, OutputOf, CallsFit;
    NoDuplicatesCardinality(agents);
  }

  lemma {:induction false} StuckStays(policy: ExecutionPolicy, behaviour: Behaviour, target: string, m: nat, n: nat)
    requires m <= n
    ensures Play(policy, behaviour, target, m).Stuck? ==> Play(policy, behaviour, target, n).Stuck?
    ensures Play(policy, behaviour, target, n).Playing? ==>
      Play(policy, behaviour, target, n).stages[..m] == Play(policy, behaviour, target, m).stages
    decreases n - m
  {
    hide CanPlay, StageAgents, UsedAfter, NextRecord, JobAt;
    if m < n {
      StuckStays(policy, behaviour, target, m, n - 1);
      var before, after := Play(policy, behaviour, target, n - 1), Play(policy, behaviour, target, n);
      if after.Playing? {
        assert after.stages[..m] == before.stages[..m];
      }
    }
  }

  ghost predicate HasShape(stages: seq<StageRecord>, target: string) {
    forall i :: 0 <= i < |stages| ==> stages[i].results.Keys == Elements(StageAgents(i, target))
  }

  /**
   * The handoff names the sender's output in an earlier stage by key and hash, and that output is what the
   * receiver's stage was given.
   */
  ghost predicate Resolves(registry: map<string, Identity>, requirement: string, d: Delivery, h: Handoff,
                           stages: seq<StageRecord>)
  {
    && d.edge.senderStage < d.receiverStage < |stages|
    && d.edge.sender in registry && d.edge.receiver in registry
    && d.edge.sender in stages[d.edge.senderStage].results && d.edge.receiver in stages[d.receiverStage].results
    && d.edge.sender in stages[d.receiverStage].given
    && stages[d.receiverStage].given[d.edge.sender] == stages[d.edge.senderStage].results[d.edge.sender]
    && Transferable(stages[d.edge.senderStage].results[d.edge.sender])
    && h == HandoffFor(registry, requirement, d.edge, stages[d.edge.senderStage].results[d.edge.sender])
  }

  ghost predicate LogResolves(registry: map<string, Identity>, requirement: string, deliveries: seq<Delivery>,
                              handoffs: seq<Handoff>, stages: seq<StageRecord>)
  {
    |handoffs| == |deliveries|
    && forall k :: 0 <= k < |handoffs| ==> Resolves(registry, requirement, deliveries[k], handoffs[k], stages)
  }

  // ---- The latest output of an agent ----

  lemma {:induction false} OverlayLatest(stages: seq<StageRecord>, a: string, i: nat)
    requires i < |stages| && a in stages[i].results
    requires forall j :: i < j < |stages| ==> a !in stages[j].results
    ensures a in Overlay(stages) && Overlay(stages)[a] == stages[i].results[a]
    decreases |stages|
  {
    var last := |stages| - 1;
    if i < last {
      OverlayLatest(stages[..last], a, i);
    }
  }

  lemma {:induction false} OverlayKeys(stages: seq<StageRecord>, a: string)
    ensures a in Overlay(stages) <==> exists i :: 0 <= i < |stages| && a in stages[i].results
  {
    if stages != [] {
      var last := |stages| - 1;
      OverlayKeys(stages[..last], a);
      if i :| 0 <= i < last && a in stages[i].results {
        assert a in stages[..last][i].results;
      }
    }
  }

  lemma {:induction false} EdgesOfMember(receiver: string, senders: seq<string>, overrides: map<string, nat>, k: nat)
    requires k < |senders|
    ensures EdgesOf(receiver, senders, overrides)[k] ==
      Edge(senders[k], if senders[k] in overrides then overrides[senders[k]] else TaskStage(senders[k]), receiver)
    decreases |senders|
  {
    hide TaskStage;
    if k < |senders| - 1 {
      EdgesOfMember(receiver, senders[..|senders| - 1], overrides, k);
    }
  }

  ghost predicate IsInputEdge(e: Edge, agents: seq<string>, overrides: map<string, nat>) {
    && e.receiver in agents && e.sender in DependsOn(e.receiver)
    && e.senderStage == if e.sender in overrides then overrides[e.sender] else TaskStage(e.sender)
  }

  lemma {:induction false} InputEdgesMember(agents: seq<string>, overrides: map<string, nat>, k: nat)
    requires k < |InputEdges(agents, overrides)|
    ensures IsInputEdge(InputEdges(agents, overrides)[k], agents, overrides)
    decreases |agents|
  {
    hide TaskStage, DependsOn, EdgesOf;
    var n := |agents| - 1;
    var earlier := InputEdges(agents[..n], overrides);
    if k < |earlier| {
      InputEdgesMember(agents[..n], overrides, k);
    } else {
      EdgesOfMember(agents[n], DependsOn(agents[n]), overrides, k - |earlier|);
    }
  }

  /** The sender's stage is the last one before stage n that it ran in. */
  ghost predicate SentLatest(e: Edge, n: nat, target: string) {
    && e.senderStage < n && e.sender in StageAgents(e.senderStage, target)
    && forall j :: e.senderStage < j < n ==> e.sender !in StageAgents(j, target)
  }

  lemma SendersAreLatest(n: nat, target: string, e: Edge)
    requires n < 7 && e in EdgesInto(n, target)
    ensures SentLatest(e, n, target) && e.receiver in StageAgents(n, target)
  {
    hide InputEdges;
    if n != 0 && n != 4 {
      var edges := InputEdges(StageAgents(n, target), Overrides(n, target));
      var k :| 0 <= k < |edges| && edges[k] == e;
      InputEdgesMember(StageAgents(n, target), Overrides(n, target), k);
      InputsAreLatest(n, target, e);
    }
  }

  lemma InputsAreLatest(n: nat, target: string, e: Edge)
    requires n in {1, 2, 3, 5, 6} && IsInputEdge(e, StageAgents(n, target), Overrides(n, target))
    ensures SentLatest(e, n, target)
  {
    hide AnalystId, DesignId, RiskId, TestId, SynthesisId, ReviewId;
    Distinct();
    if n == 5 {
      SpecialistsAreLatest(target, e);
    }
  }

  lemma SpecialistsAreLatest(target: string, e: Edge)
    requires IsInputEdge(e, [SynthesisId()], map[target := 4])
    ensures SentLatest(e, 5, target)
  {
    hide AnalystId, DesignId, RiskId, TestId, SynthesisId, ReviewId;
    Distinct();
    assert e.sender in [DesignId(), RiskId(), TestId()];
    forall j | e.senderStage < j < 5 ensures e.sender !in StageAgents(j, target) {
      assert j == 2 || j == 3 || j == 4;
    }
  }

  lemma Distinct()
    ensures AnalystId() != DesignId() && AnalystId() != RiskId() && AnalystId() != TestId()
    ensures AnalystId() != SynthesisId() && AnalystId() != ReviewId()
    ensures DesignId() != RiskId() && DesignId() != TestId() && DesignId() != SynthesisId() && DesignId() != ReviewId()
    ensures RiskId() != TestId() && RiskId() != SynthesisId() && RiskId() != ReviewId()
    ensures TestId() != SynthesisId() && TestId() != ReviewId() && SynthesisId() != ReviewId()
  {
    AgentsDistinct();
    var all := [AnalystId(), DesignId(), RiskId(), TestId(), SynthesisId(), ReviewId()];
    assert forall i, j :: 0 <= i < j < 6 ==> all[i] != all[j];
    assert all[0] == AnalystId() && all[1] == DesignId() && all[2] == RiskId() && all[3] == TestId();
    assert all[4] == SynthesisId() && all[5] == ReviewId();
  }

  // ---- One more stage ----

  /** What an edge into stage n hands over is the sender's output in the stage the edge names. */
  lemma EdgeIsCurrent(stages: seq<StageRecord>, target: string, e: Edge)
    requires |stages| < 7 && HasShape(stages, target) && e in EdgesInto(|stages|, target)
    ensures e.senderStage < |stages| && e.sender in stages[e.senderStage].results
    ensures e.sender in Overlay(stages) && Overlay(stages)[e.sender] == stages[e.senderStage].results[e.sender]
  {
    hide EdgesInto, StageAgents, Overlay;
    SendersAreLatest(|stages|, target, e);
    assert e.sender in Elements(StageAgents(e.senderStage, target));
    forall j | e.senderStage < j < |stages| ensures e.sender !in stages[j].results {
      assert e.sender !in Elements(StageAgents(j, target));
    }
    OverlayLatest(stages, e.sender, e.senderStage);
  }

  lemma ResolvesLonger(registry: map<string, Identity>, requirement: string, d: Delivery, h: Handoff,
                       stages: seq<StageRecord>, record: StageRecord)
    requires Resolves(registry, requirement, d, h, stages)
    ensures Resolves(registry, requirement, d, h, stages + [record])
  {
  }

  lemma ResolvesNow(registry: map<string, Identity>, requirement: string, target: string, e: Edge, h: Handoff,
                    stages: seq<StageRecord>, record: StageRecord)
    requires |stages| < 7 && HasShape(stages, target) && e in EdgesInto(|stages|, target)
    requires record.given == Overlay(stages) && record.results.Keys == Elements(StageAgents(|stages|, target))
    requires e.sender in registry && e.receiver in registry && e.sender in Overlay(stages)
    requires Transferable(Overlay(stages)[e.sender])
    requires h == HandoffFor(registry, requirement, e, Overlay(stages)[e.sender])
    ensures Resolves(registry, requirement, Delivery(e, |stages|), h, stages + [record])
  {
    hide EdgesInto, StageAgents, Overlay, HandoffFor;
    EdgeIsCurrent(stages, target, e);
    SendersAreLatest(|stages|, target, e);
    assert e.receiver in Elements(StageAgents(|stages|, target));
  }

  /** Handing over and running one more stage keeps the log resolving. */
  lemma StageResolves(registry: map<string, Identity>, requirement: string, target: string, handoffs: seq<Handoff>,
                      built: seq<Handoff>, stages: seq<StageRecord>, record: StageRecord)
    requires |stages| < 7 && HasShape(stages, target)
    requires LogResolves(registry, requirement, Deliveries(|stages|, target), handoffs, stages)
    requires HandoffsFor(registry, requirement, EdgesInto(|stages|, target), Overlay(stages), built)
    requires record.given == Overlay(stages) && record.results.Keys == Elements(StageAgents(|stages|, target))
    ensures HasShape(stages + [record], target)
    ensures LogResolves(registry, requirement, Deliveries(|stages| + 1, target), handoffs + built, stages + [record])
  {
    hide EdgesInto, StageAgents, Overlay, HandoffFor, Resolves;
    var n := |stages|;
    var edges := EdgesInto(n, target);
    forall k | 0 <= k < |handoffs + built|
      ensures Resolves(registry, requirement, Deliveries(n + 1, target)[k], (handoffs + built)[k], stages + [record]) {
      if k < |handoffs| {
        ResolvesLonger(registry, requirement, Deliveries(n, target)[k], handoffs[k], stages, record);
      } else {
        var e := edges[k - |handoffs|];
        assert e in edges;
        ResolvesNow(registry, requirement, target, e, built[k - |handoffs|], stages, record);
      }
    }
  }

  lemma {:induction false} PlayRetarget(policy: ExecutionPolicy, behaviour: Behaviour, n: nat, t: string, u: string)
    requires n <= 4
    ensures Play(policy, behaviour, t, n) == Play(policy, behaviour, u, n)
  {
    hide PlayOne;
    if n > 0 {
      PlayRetarget(policy, behaviour, n - 1, t, u);
      var before := Play(policy, behaviour, t, n - 1);
      if before.Playing? {
        PlayOneRetarget(policy, behaviour, t, u, before.stages, before.used);
      }
    }
  }

  lemma PlayOneRetarget(policy: ExecutionPolicy, behaviour: Behaviour, t: string, u: string, stages: seq<StageRecord>,
                        used: Budget)
    requires |stages| < 4
    ensures PlayOne(policy, behaviour, t, stages, used) == PlayOne(policy, behaviour, u, stages, used)
  {
    hide InputEdges, AllTransferable, StageFits, NextRecord, UsedAfter, JobAt, Overlay;
    assert StageAgents(|stages|, t) == StageAgents(|stages|, u) && EdgesInto(|stages|, t) == EdgesInto(|stages|, u);
  }

  /** Up to the first review nothing depends on a revision target. */
  lemma {:induction false} BeforeRevision(n: nat, t: string, u: string)
    requires n <= 4
    ensures Deliveries(n, t) == Deliveries(n, u)
    ensures forall i :: 0 <= i < n ==> StageAgents(i, t) == StageAgents(i, u)
  {
    hide InputEdges;
    if n > 0 {
      BeforeRevision(n - 1, t, u);
    }
  }
}
