/** What decides a multi-agent run, in the executors' own answers. */
module RunOutcomes {
  import opened Prelude
  import opened Text
  import opened MultiAgentWorkflow
  import opened Handoffs
  import opened MultiAgentRun
  import opened RunHandoffs
  import opened MultiAgentRunner

  /** The answer of the review agent in a stage: what its executor returned, as its schema has it. */
  ghost predicate ReviewAnswers(behaviour: Behaviour, stages: seq<StageRecord>, i: nat, body: Body) {
    && i < |stages|
    && var outcome := behaviour.call(i, "review-agent-v1", stages[i].given);
       && outcome.Returned? && outcome.envelope.output.Object?
       && behaviour.acceptOutput("review-agent-v1", outcome.envelope.output.body) == Some(body)
  }

  lemma ReviewAnswered(behaviour: Behaviour, stages: seq<StageRecord>, target: string, i: nat) returns (body: Body)
    requires WellRun(behaviour, stages) && HasShape(stages, target) && i in {3, 6} && i < |stages|
    ensures ReviewAnswers(behaviour, stages, i, body) && Verdict(stages, i) == body.decision
    ensures ReviewId() in stages[i].results && stages[i].results[ReviewId()].output == Object(body)
  {
    hide WellRun, Overlay;
    assert ReviewId() in Elements(StageAgents(i, target));
    ResultsPassed(behaviour, stages, i, ReviewId());
    body := stages[i].results[ReviewId()].output.body;
  }

  lemma BlankIffAllSpace(s: string)
    ensures Strip(s) == "" <==> forall i :: 0 <= i < |s| ==> IsSpace(s[i])
  {
    var left, right := StripDropsSpace(s);
    StripTrims(s);
    if Strip(s) == "" {
      assert s == left + right;
    } else {
      assert s[|left|] == Strip(s)[0];
    }
  }

  /** The agent a review asks to revise: the one it names, as it stands, unless it names none or only white space. */
  function Named(body: Body): string {
    match body.targetAgentId
    case None => "design-agent-v1"
    case Some(name) => if forall i :: 0 <= i < |name| ==> IsSpace(name[i]) then "design-agent-v1" else name
  }

  lemma TargetNamed(behaviour: Behaviour, stages: seq<StageRecord>, target: string, body: Body)
    requires WellRun(behaviour, stages) && HasShape(stages, target) && |stages| >= 4
    requires ReviewAnswers(behaviour, stages, 3, body)
    ensures RequestedTarget(stages) == Named(body)
  {
    hide WellRun, Strip, IsSpace, StageAgents;
    var answer := ReviewAnswered(behaviour, stages, target, 3);
    OverlayLatest(stages[..4], ReviewId(), 3);
    if body.targetAgentId.Some? {
      BlankIffAllSpace(body.targetAgentId.value);
    }
  }

  // ---- When a run completes ----

  /** The first `n` stages of a run can be played, and the review that ends them answers `body`. */
  ghost predicate ReviewedWith(policy: ExecutionPolicy, behaviour: Behaviour, target: string, n: nat, body: Body) {
    && n > 0 && Play(policy, behaviour, target, n).Playing?
    && ReviewAnswers(behaviour, Play(policy, behaviour, target, n).stages, n - 1, body)
  }

  /** A rejection is answered by a revision: the named agent's role is revisable and a round is allowed. */
  predicate MayRevise(registry: map<string, Identity>, revisions: RevisionPolicy, name: string) {
    name in registry && revisions.maxTotalRounds >= 1 && registry[name].role in revisions.revisableRoles
  }

  /**
   * Without a deadline a run completes exactly when its first review passes; or rejects, naming a known agent while
   * the budget knows revisions, and that agent may not be revised, or its revision is reviewed with a decision.
   */
  lemma CompletesMeans(registry: map<string, Identity>, behaviour: Behaviour, policy: ExecutionPolicy,
                       revisions: RevisionPolicy)
    requires IsRegistry(registry)
    ensures Completes(registry, behaviour, policy, revisions) <==> exists first ::
      && ReviewedWith(policy, behaviour, "design-agent-v1", 4, first)
      && (|| first.decision == Pass
          || (&& first.decision == Reject && policy.maxRevisions >= 1 && Named(first) in registry
              && (|| !MayRevise(registry, revisions, Named(first))
                  || exists second ::
                       ReviewedWith(policy, behaviour, Named(first), 7, second) && second.decision in {Pass, Reject})))
  {
    hide Play, RevisionTarget, Named, ReviewAnswers, RequestedTarget, Revisable, RejectionCompletes, Verdict;
    var reviewed := Play(policy, behaviour, DesignId(), 4);
    if reviewed.Playing? {
      PlayedIsRun(policy, behaviour, DesignId(), 4);
      var first := ReviewAnswered(behaviour, reviewed.stages, DesignId(), 3);
      OneAnswer(behaviour, reviewed.stages, 3);
      TargetNamed(behaviour, reviewed.stages, DesignId(), first);
      RejectionMeans(registry, behaviour, policy, revisions, reviewed.stages, Named(first));
      assert ReviewedWith(policy, behaviour, "design-agent-v1", 4, first);
    }
  }

  lemma RejectionMeans(registry: map<string, Identity>, behaviour: Behaviour, policy: ExecutionPolicy,
                       revisions: RevisionPolicy, stages: seq<StageRecord>, name: string)
    requires IsRegistry(registry) && |stages| >= 4 && RequestedTarget(stages) == name
    ensures RejectionCompletes(registry, behaviour, policy, revisions, stages) <==>
      && policy.maxRevisions >= 1 && name in registry
      && (|| !MayRevise(registry, revisions, name)
          || exists second ::
               ReviewedWith(policy, behaviour, name, 7, second) && second.decision in {Pass, Reject})
  {
    hide Play, RevisionTarget, RequestedTarget, ReviewAnswers, Verdict;
    var revised := Play(policy, behaviour, name, 7);
    if revised.Playing? && name in registry {
      PlayedIsRun(policy, behaviour, name, 7);
      var second := ReviewAnswered(behaviour, revised.stages, name, 6);
      OneAnswer(behaviour, revised.stages, 6);
      assert ReviewedWith(policy, behaviour, name, 7, second);
    }
  }

  lemma OneAnswer(behaviour: Behaviour, stages: seq<StageRecord>, i: nat)
    ensures forall b, c :: ReviewAnswers(behaviour, stages, i, b) && ReviewAnswers(behaviour, stages, i, c) ==> b == c
  {
  }

  /** What is played is run stage by stage. */
  lemma {:induction false} PlayedIsRun(policy: ExecutionPolicy, behaviour: Behaviour, target: string, n: nat)
    requires n <= 7 && target in AgentIds() && Play(policy, behaviour, target, n).Playing?
    ensures var stages := Play(policy, behaviour, target, n).stages;
      |stages| == n && WellRun(behaviour, stages) && HasShape(stages, target)
  {
    hide WellRun, HasShape, AgentIds, CanPlay, StageAgents, UsedAfter, NextRecord, JobAt;
    if n == 0 {
      NothingRun(behaviour, target);
    } else {
      PlayedIsRun(policy, behaviour, target, n - 1);
      var before := Play(policy, behaviour, target, n - 1);
      StagePlayed(policy, behaviour, target, before.stages, before.used);
    }
  }

  lemma NothingRun(behaviour: Behaviour, target: string)
    ensures WellRun(behaviour, []) && HasShape([], target)
  {
  }

  lemma StagePlayed(policy: ExecutionPolicy, behaviour: Behaviour, target: string, stages: seq<StageRecord>, used: Budget)
    requires |stages| < 7 && target in AgentIds() && WellRun(behaviour, stages) && HasShape(stages, target)
    requires CanPlay(policy, behaviour, target, stages, used)
    ensures var after := stages + [NextRecord(behaviour, stages, StageAgents(|stages|, target))];
      WellRun(behaviour, after) && HasShape(after, target)
  {
    hide WellRun, AgentIds, StageAgents, UsedAfter, JobAt, CallsFit, DependenciesMet, Overlay, CallResult, EdgesInto,
      NoDuplicates;
    var agents := StageAgents(|stages|, target);
    StageAgentsKnown(|stages|, target);
    StageReady(behaviour, stages, target);
    NextStage(policy, behaviour, stages, used, agents);
    AppendStage(behaviour, stages, NextRecord(behaviour, stages, agents));
  }

  // ---- When a stage can be played ----

  /** The tokens an agent's call in stage `i` reports. */
  function TokensIn(behaviour: Behaviour, i: nat, prior: map<string, Envelope>): string -> int {
    a => match behaviour.call(i, a, prior)
         case Returned(_, Tokens(input, _)) => input
         case _ => 0
  }

  function TokensOut(behaviour: Behaviour, i: nat, prior: map<string, Envelope>): string -> int {
    a => match behaviour.call(i, a, prior)
         case Returned(_, Tokens(_, output)) => output
         case _ => 0
  }

  /** The call of agent `a` returns, reports no more tokens than one agent may use, and its result passes. */
  ghost predicate CallPasses(tokens: TokenPolicy, behaviour: Behaviour, i: nat, prior: map<string, Envelope>, a: string) {
    match behaviour.call(i, a, prior)
    case Returned(e, Tokens(input, output)) =>
      && 0 <= input <= tokens.maxAgentInput && 0 <= output <= tokens.maxAgentOutput
      && e.agentId == Some(a) && e.success && !e.schemaRefused && e.output.Object?
      && behaviour.acceptOutput(a, e.output.body).Some?
    case _ => false
  }

  /** Together with what was used before, the calls stay within the run's budgets; the retry reserve is not for them. */
  ghost predicate BudgetsHold(policy: ExecutionPolicy, used: Budget, behaviour: Behaviour, i: nat,
                              prior: map<string, Envelope>, agents: seq<string>)
  {
    var input := used.input + SumOver(TokensIn(behaviour, i, prior), Elements(agents));
    var output := used.output + SumOver(TokensOut(behaviour, i, prior), Elements(agents));
    && used.llmCalls + |agents| <= policy.maxLlmCalls
    && (agents != [] ==>
          && input <= policy.tokens.maxRunInput && output <= policy.tokens.maxRunOutput
          && input + output + policy.tokens.reservedRetry <= policy.tokens.maxRunTotal)
  }

  /**
   * The next stage can be played exactly when its inputs can be handed over and are accepted, its agents may run side
   * by side, every call passes, and the budgets hold.
   */
  lemma StagePlays(policy: ExecutionPolicy, behaviour: Behaviour, target: string, stages: seq<StageRecord>, used: Budget)
    requires NoDuplicates(StageAgents(|stages|, target))
    ensures var agents, prior := StageAgents(|stages|, target), Overlay(stages);
      CanPlay(policy, behaviour, target, stages, used) <==>
        && (forall e :: e in EdgesInto(|stages|, target) ==>
              e.sender in prior && prior[e.sender].canonical && prior[e.sender].hasRole)
        && |agents| <= policy.maxParallelAgents
        && (forall a :: a in agents ==>
              behaviour.acceptsInput(a, prior) && CallPasses(policy.tokens, behaviour, |stages|, prior, a))
        && BudgetsHold(policy, used, behaviour, |stages|, prior, agents)
  {
    hide Overlay, EdgesInto, StageAgents, CallsFit, AllAccepted, CallPasses, BudgetsHold, NoDuplicates;
    var agents, prior := StageAgents(|stages|, target), Overlay(stages);
    CallsMean(policy, used, behaviour, stages, agents);
    EdgesMean(EdgesInto(|stages|, target), prior);
    InputsMean(behaviour, prior, agents);
  }

  /** A stage that is played adds its results to the record, and exactly its calls and tokens to what was used. */
  lemma StageLeaves(policy: ExecutionPolicy, behaviour: Behaviour, target: string, stages: seq<StageRecord>, used: Budget)
    requires NoDuplicates(StageAgents(|stages|, target)) && CanPlay(policy, behaviour, target, stages, used)
    ensures var agents, prior := StageAgents(|stages|, target), Overlay(stages);
      var r := PlayOne(policy, behaviour, target, stages, used);
      && r.Playing? && |r.stages| == |stages| + 1 && r.stages[..|stages|] == stages
      && r.stages[|stages|].stageIndex == |stages| && r.stages[|stages|].given == prior
      && r.stages[|stages|].results.Keys == Elements(agents)
      && r.used == Budget(used.llmCalls + |agents|,
                          used.input + SumOver(TokensIn(behaviour, |stages|, prior), Elements(agents)),
                          used.output + SumOver(TokensOut(behaviour, |stages|, prior), Elements(agents)))
  {
    hide Overlay, EdgesInto, StageAgents, CallsFit, NoDuplicates, CallResult;
    var agents, prior := StageAgents(|stages|, target), Overlay(stages);
    var j := JobAt(policy, used, behaviour, stages, agents);
    NoDuplicatesCardinality(agents);
    forall a ensures InputOf(j)(a) == TokensIn(behaviour, |stages|, prior)(a)
      ensures OutputOf(j)(a) == TokensOut(behaviour, |stages|, prior)(a) {
      CallMeans(j, a);
    }
    SumAlike(InputOf(j), TokensIn(behaviour, |stages|, prior), j.agents);
    SumAlike(OutputOf(j), TokensOut(behaviour, |stages|, prior), j.agents);
  }

  lemma EdgesMean(edges: seq<Edge>, prior: map<string, Envelope>)
    ensures AllTransferable(edges, prior) <==>
      forall e :: e in edges ==> e.sender in prior && prior[e.sender].canonical && prior[e.sender].hasRole
  {
    assert forall k :: 0 <= k < |edges| ==> edges[k] in edges;
  }

  lemma InputsMean(behaviour: Behaviour, prior: map<string, Envelope>, agents: seq<string>)
    ensures (forall i :: 0 <= i < |agents| ==> behaviour.acceptsInput(agents[i], prior)) <==>
      forall a :: a in agents ==> behaviour.acceptsInput(a, prior)
  {
    assert forall i :: 0 <= i < |agents| ==> agents[i] in agents;
  }

  lemma CallsMean(policy: ExecutionPolicy, used: Budget, behaviour: Behaviour, stages: seq<StageRecord>,
                  agents: seq<string>)
    requires NoDuplicates(agents)
    ensures
      CallsFit(JobAt(policy, used, behaviour, stages, agents)) && AllAccepted(behaviour, stages, agents) <==>
      && (forall a :: a in agents ==> CallPasses(policy.tokens, behaviour, |stages|, Overlay(stages), a))
      && BudgetsHold(policy, used, behaviour, |stages|, Overlay(stages), agents)
  {
    hide Overlay, NoDuplicates, AllAccepted, CallPasses;
    var j, prior := JobAt(policy, used, behaviour, stages, agents), Overlay(stages);
    NoDuplicatesCardinality(agents);
    AllAcceptedMeans(behaviour, stages, agents);
    forall a ensures InputOf(j)(a) == TokensIn(behaviour, |stages|, prior)(a)
      ensures OutputOf(j)(a) == TokensOut(behaviour, |stages|, prior)(a)
      ensures CallFits(j, a) && CallResult(behaviour, |stages|, a, prior).Some?
        <==> CallPasses(policy.tokens, behaviour, |stages|, prior, a) {
      CallMeans(j, a);
    }
    SumAlike(InputOf(j), TokensIn(behaviour, |stages|, prior), j.agents);
    SumAlike(OutputOf(j), TokensOut(behaviour, |stages|, prior), j.agents);
    AgentsOf(agents);
    AcceptedAll(behaviour, stages, agents);
  }

  lemma AgentsOf(agents: seq<string>)
    ensures Elements(agents) != {} <==> agents != []
    ensures forall a :: a in Elements(agents) <==> a in agents
  {
    assert agents != [] ==> agents[0] in Elements(agents);
  }

  lemma AcceptedAll(behaviour: Behaviour, stages: seq<StageRecord>, agents: seq<string>)
    ensures AllAccepted(behaviour, stages, agents) <==>
      forall a :: a in agents ==> CallResult(behaviour, |stages|, a, Overlay(stages)).Some?
  {
  }

  lemma CallMeans(j: StageJob, a: string)
    ensures InputOf(j)(a) == TokensIn(j.behaviour, j.stageIndex, j.prior)(a)
    ensures OutputOf(j)(a) == TokensOut(j.behaviour, j.stageIndex, j.prior)(a)
    ensures CallFits(j, a) && CallResult(j.behaviour, j.stageIndex, a, j.prior).Some?
      <==> CallPasses(j.policy.tokens, j.behaviour, j.stageIndex, j.prior, a)
  {
  }

  // ---- What a handoff says ----

  /** Each field of a recorded handoff, in terms of the delivery it records. */
  lemma HandoffSays(registry: map<string, Identity>, requirement: string, d: Delivery, h: Handoff,
                    stages: seq<StageRecord>)
    requires IsRegistry(registry) && Resolves(registry, requirement, d, h, stages) && d.edge.senderStage < 7
    ensures var sender, receiver := d.edge.sender, d.edge.receiver;
      && h.fromAgentId == sender && h.toAgentId == receiver
      && h.sourceOutputSchemaId == registry[sender].outputSchemaId
      && h.targetInputSchemaId == registry[receiver].inputSchemaId
      && h.payloadRef == "agent-outputs.json#stage-" + ["0123456"[d.edge.senderStage]] + "/" + sender
      && h.inputHash == OfText(requirement)
      && h.outputHash == OfEnvelope(stages[d.edge.senderStage].results[sender])
  {
    hide AgentIds, OutputRef, Transferable;
    KeyOf(d.edge.senderStage, d.edge.sender);
  }

  lemma KeyOf(i: nat, a: string)
    requires i < 7
    ensures PREFIX + OutputRef(i, a) == "agent-outputs.json#stage-" + ["0123456"[i]] + "/" + a
  {
    assert Decimal(i) == [Digit(i)] == ["0123456"[i]];
    assert "agent-outputs.json#" + ("stage-" + Decimal(i) + "/" + a)
        == "agent-outputs.json#stage-" + Decimal(i) + "/" + a;
  }

  /** The reason recorded for a completion. */
  lemma ReasonsAre()
    ensures CompletionReason(Pass) == "review passed" && CompletionReason(Reject) == "revision limit reached"
  {
  }
}
