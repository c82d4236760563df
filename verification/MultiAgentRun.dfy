/** The stages of a multi-agent run. */
module MultiAgentRun {
  // Over the fixed topology (src/specflow/runner_multi.py:275-438, 677-903).

  import opened Prelude
  import opened Text
  import opened MultiAgentWorkflow
  import opened Handoffs

  // ---- The plan ----

  function AnalystId(): string { "repository-analyst-agent-v1" }

  function DesignId(): string { "design-agent-v1" }

  function RiskId(): string { "risk-review-agent-v1" }

  function TestId(): string { "test-strategy-agent-v1" }

  function SynthesisId(): string { "synthesis-agent-v1" }

  function ReviewId(): string { "review-agent-v1" }

  function AgentIds(): set<string> {
    {AnalystId(), DesignId(), RiskId(), TestId(), SynthesisId(), ReviewId()}
  }

  lemma AgentsDistinct()
    ensures NoDuplicates([AnalystId(), DesignId(), RiskId(), TestId(), SynthesisId(), ReviewId()])
    ensures |AgentIds()| == 6
  {
    var a, d, r, t, s, v := AnalystId(), DesignId(), RiskId(), TestId(), SynthesisId(), ReviewId();
    assert |a| == 27 && |d| == 15 && |r| == 20 && |t| == 22 && |s| == 18 && |v| == 15;
    assert d[0] == 'd' && v[0] == 'r';
    var all := [a, d, r, t, s, v];
    NoDuplicatesCardinality(all);
    assert Elements(all) == AgentIds();
  }

  /** The compiled stages. */
  function PlanStages(): seq<seq<string>> {
    [[AnalystId()], [DesignId(), RiskId(), TestId()], [SynthesisId()], [ReviewId()]]
  }

  /** `sorted(task.depends_on)` */
  function DependsOn(agentId: string): seq<string> {
    if agentId in [DesignId(), RiskId(), TestId()] then [AnalystId()]
    else if agentId == SynthesisId() then [DesignId(), RiskId(), TestId()]
    else if agentId == ReviewId() then [SynthesisId()]
    else []
  }

  /** The stage of an agent's task. */
  function TaskStage(agentId: string): nat {
    if agentId == AnalystId() then 0
    else if agentId in [DesignId(), RiskId(), TestId()] then 1
    else if agentId == SynthesisId() then 2
    else 3
  }

  // ---- Executors and schemas ----

  datatype CallOutcome = Returned(envelope: Envelope, usage: Usage) | Raised

  /** What executors and schemas do: arbitrary, by stage, agent and prior outputs. */
  datatype Behaviour = Behaviour(
    call: (nat, string, map<string, Envelope>) -> CallOutcome,
    acceptsInput: (string, map<string, Envelope>) -> bool,
    acceptOutput: (string, Body) -> Option<Body>)

  /** `_validate_stage_results` for one result: what replaces it, if it passes. */
  function ValidatedResult(behaviour: Behaviour, agentId: string, e: Envelope): (r: Option<Envelope>)
    ensures r.Some? ==> Accepted(agentId, r.value)
  {
    if e.agentId != Some(agentId) || !e.success || e.schemaRefused || !e.output.Object? then None
    else
      match behaviour.acceptOutput(agentId, e.output.body)
      case None => None
      case Some(body) => Some(e.(output := Object(body)))
  }

  /** A call's result as it enters the run, if the call succeeds and its result passes. */
  function CallResult(behaviour: Behaviour, stageIndex: nat, agentId: string, prior: map<string, Envelope>)
    : (r: Option<Envelope>)
    ensures r.Some? ==> Accepted(agentId, r.value)
  {
    match behaviour.call(stageIndex, agentId, prior)
    case Raised => None
    case Returned(envelope, _) => ValidatedResult(behaviour, agentId, envelope)
  }

  /** What the runner asks of an envelope, and what it makes of it: the schema's form of the output, in place. */
  ghost predicate PassesAs(behaviour: Behaviour, agentId: string, e: Envelope, result: Envelope) {
    && e.agentId == Some(agentId) && e.success && !e.schemaRefused && e.output.Object?
    && behaviour.acceptOutput(agentId, e.output.body).Some?
    && result == e.(output := Object(behaviour.acceptOutput(agentId, e.output.body).value))
  }

  lemma ValidatedMeans(behaviour: Behaviour, agentId: string, e: Envelope)
    ensures ValidatedResult(behaviour, agentId, e).Some? <==>
      && e.agentId == Some(agentId) && e.success && !e.schemaRefused && e.output.Object?
      && behaviour.acceptOutput(agentId, e.output.body).Some?
    ensures ValidatedResult(behaviour, agentId, e).Some? ==>
      PassesAs(behaviour, agentId, e, ValidatedResult(behaviour, agentId, e).value)
  {
  }

  // ---- Records of a run ----

  /** A finished stage: the prior outputs its agents were given, and their accepted outputs. */
  datatype StageRecord = StageRecord(stageIndex: nat, given: map<string, Envelope>, results: map<string, Envelope>)

  /** The prior outputs after some stages. */
  function Overlay(stages: seq<StageRecord>): map<string, Envelope> {
    if stages == [] then map[] else Overlay(stages[..|stages| - 1]) + stages[|stages| - 1].results
  }

  /** Every declared dependency of `agents` has an accepted output in `prior`. */
  ghost predicate DependenciesMet(agents: set<string>, prior: map<string, Envelope>) {
    forall a, d :: a in agents && d in DependsOn(a) ==> d in prior && Accepted(d, prior[d])
  }

  /** Every result is what the agent's executor returned on the outputs given to the stage, as validated. */
  ghost predicate IsStage(behaviour: Behaviour, r: StageRecord) {
    && DependenciesMet(r.results.Keys, r.given)
    && forall a :: a in r.results ==>
         Accepted(a, r.results[a]) && CallResult(behaviour, r.stageIndex, a, r.given) == Some(r.results[a])
  }

  /** Stage p ran with its dependencies met, on exactly the outputs of the stages before it. */
  ghost predicate WellRun(behaviour: Behaviour, stages: seq<StageRecord>) {
    forall p :: 0 <= p < |stages| ==>
      stages[p].stageIndex == p && stages[p].given == Overlay(stages[..p]) && IsStage(behaviour, stages[p])
  }

  // ---- When a stage succeeds ----

  /** The calls of one stage: its agents and prior outputs, and what the run has used before it. */
  datatype StageJob = StageJob(policy: ExecutionPolicy, before: Budget, behaviour: Behaviour, stageIndex: nat,
                               prior: map<string, Envelope>, agents: set<string>)

  function UsageOf(j: StageJob, a: string): Usage {
    match j.behaviour.call(j.stageIndex, a, j.prior)
    case Raised => NotIntegers
    case Returned(_, usage) => usage
  }

  function InputOf(j: StageJob): string -> int {
    a => if UsageOf(j, a).Tokens? then UsageOf(j, a).input else 0
  }

  function OutputOf(j: StageJob): string -> int {
    a => if UsageOf(j, a).Tokens? then UsageOf(j, a).output else 0
  }

  /** The agent's call returns, and its own usage is acceptable. */
  predicate CallFits(j: StageJob, a: string) {
    UsageFits(j.policy.tokens, UsageOf(j, a))
  }

  /** What has been used once an acceptable call is counted as well. */
  function Counted(j: StageJob, now: Budget, a: string): Budget
    requires CallFits(j, a)
  {
    now.(input := now.input + UsageOf(j, a).input, output := now.output + UsageOf(j, a).output)
  }

  predicate RoomFor(j: StageJob, now: Budget, a: string)
    requires CallFits(j, a)
  {
    WithinRun(j.policy.tokens, Counted(j, now, a).input, Counted(j, now, a).output, false)
  }

  /** The calls fit the budgets, whatever their order: usage is never negative. */
  ghost predicate CallsFit(j: StageJob) {
    && j.before.llmCalls + |j.agents| <= j.policy.maxLlmCalls
    && (forall a :: a in j.agents ==> CallFits(j, a))
    && (j.agents != {} ==> WithinRun(j.policy.tokens, j.before.input + SumOver(InputOf(j), j.agents),
                                     j.before.output + SumOver(OutputOf(j), j.agents), false))
  }

  /** What the run has used once the calls were all counted. */
  ghost function UsedAfter(j: StageJob): Budget {
    Budget(j.before.llmCalls + |j.agents|, j.before.input + SumOver(InputOf(j), j.agents),
           j.before.output + SumOver(OutputOf(j), j.agents))
  }

  ghost function JobAt(policy: ExecutionPolicy, before: Budget, behaviour: Behaviour, stages: seq<StageRecord>,
                       agents: seq<string>): StageJob
  {
    StageJob(policy, before, behaviour, |stages|, Overlay(stages), Elements(agents))
  }

  ghost predicate AllAccepted(behaviour: Behaviour, stages: seq<StageRecord>, agents: seq<string>) {
    forall a :: a in agents ==> CallResult(behaviour, |stages|, a, Overlay(stages)).Some?
  }

  /** Everything a stage needs apart from time. */
  ghost predicate StageFits(policy: ExecutionPolicy, before: Budget, behaviour: Behaviour, stages: seq<StageRecord>,
                            agents: seq<string>)
  {
    && |agents| <= policy.maxParallelAgents
    && (forall i :: 0 <= i < |agents| ==> behaviour.acceptsInput(agents[i], Overlay(stages)))
    && CallsFit(JobAt(policy, before, behaviour, stages, agents)) && AllAccepted(behaviour, stages, agents)
  }

  /** A stage's results are accepted when every call returns, and every schema accepts what was returned. */
  lemma AllAcceptedMeans(behaviour: Behaviour, stages: seq<StageRecord>, agents: seq<string>)
    ensures AllAccepted(behaviour, stages, agents) <==> forall a :: a in agents ==>
      var outcome := behaviour.call(|stages|, a, Overlay(stages));
      && outcome.Returned?
      && outcome.envelope.agentId == Some(a) && outcome.envelope.success && !outcome.envelope.schemaRefused
      && outcome.envelope.output.Object? && behaviour.acceptOutput(a, outcome.envelope.output.body).Some?
  {
    hide Overlay;
    forall a ensures CallResult(behaviour, |stages|, a, Overlay(stages)).Some? <==>
      && behaviour.call(|stages|, a, Overlay(stages)).Returned?
      && ValidatedResult(behaviour, a, behaviour.call(|stages|, a, Overlay(stages)).envelope).Some? {
    }
  }

  /** The record a successful stage leaves. */
  ghost function NextRecord(behaviour: Behaviour, stages: seq<StageRecord>, agents: seq<string>): StageRecord
    requires AllAccepted(behaviour, stages, agents)
  {
    StageRecord(|stages|, Overlay(stages),
                map a | a in agents :: CallResult(behaviour, |stages|, a, Overlay(stages)).value)
  }

  /** A dependency edge of a run: the output of `sender` in one stage goes to `receiver` in another. */
  datatype Edge = Edge(sender: string, senderStage: nat, receiver: string)

  /** The edges recorded for a stage: per receiver, per dependency. */
  function EdgesOf(receiver: string, senders: seq<string>, overrides: map<string, nat>): (r: seq<Edge>)
    ensures |r| == |senders|
  {
    if senders == [] then []
    else
      var s := senders[|senders| - 1];
      EdgesOf(receiver, senders[..|senders| - 1], overrides)
      + [Edge(s, if s in overrides then overrides[s] else TaskStage(s), receiver)]
  }

  function InputEdges(agents: seq<string>, overrides: map<string, nat>): seq<Edge> {
    if agents == [] then []
    else
      var a := agents[|agents| - 1];
      InputEdges(agents[..|agents| - 1], overrides) + EdgesOf(a, DependsOn(a), overrides)
  }

  ghost predicate IsRegistry(registry: map<string, Identity>) {
    registry.Keys == AgentIds() && forall a :: a in registry ==> registry[a].agentId == a
  }

  /** The handoff for an edge, given the payload it hands over. */
  function HandoffFor(registry: map<string, Identity>, requirement: string, e: Edge, payload: Envelope): Handoff
    requires e.sender in registry && e.receiver in registry
  {
    MakeHandoff(registry[e.sender], registry[e.receiver], OutputRef(e.senderStage, e.sender), requirement, payload)
  }

  /** One handoff per edge, each for the sender's current output. */
  ghost predicate HandoffsFor(registry: map<string, Identity>, requirement: string, edges: seq<Edge>,
                              prior: map<string, Envelope>, handoffs: seq<Handoff>)
  {
    |handoffs| == |edges| && forall k :: 0 <= k < |edges| ==>
      && edges[k].sender in registry && edges[k].receiver in registry && edges[k].sender in prior
      && Transferable(prior[edges[k].sender])
      && handoffs[k] == HandoffFor(registry, requirement, edges[k], prior[edges[k].sender])
  }

  /** Every sender's current output exists and can be handed over. */
  ghost predicate AllTransferable(edges: seq<Edge>, prior: map<string, Envelope>) {
    forall k :: 0 <= k < |edges| ==> edges[k].sender in prior && Transferable(prior[edges[k].sender])
  }

  /** `_review_decision` */
  function ReviewDecision(prior: map<string, Envelope>): Decision {
    if ReviewId() in prior && prior[ReviewId()].output.Object? then prior[ReviewId()].output.body.decision
    else NoDecision
  }

  /** `_revision_target` */
  function RevisionTarget(prior: map<string, Envelope>): string {
    if ReviewId() in prior && prior[ReviewId()].output.Object? then
      match prior[ReviewId()].output.body.targetAgentId
      case Some(target) => if Strip(target) == "" then DesignId() else target
      case None => DesignId()
    else DesignId()
  }

  ghost predicate ReturnedBy(outcome: CallOutcome, e: Envelope) {
    outcome.Returned? && outcome.envelope == e
  }

  /** Calls under way: those in `done` have results and were counted, those outside `queued` were started. */
  datatype Turn = Turn(now: Budget, pending: set<string>, queued: set<string>, done: set<string>)

  ghost predicate Pool(j: StageJob, t: Turn) {
    && t.done == j.agents - t.pending && t.queued <= t.pending <= j.agents
    && t.now.llmCalls == j.before.llmCalls + |j.agents| - |t.queued|
    && t.now.input == j.before.input + SumOver(InputOf(j), t.done)
    && t.now.output == j.before.output + SumOver(OutputOf(j), t.done)
    && (forall a :: a in t.done ==> CallFits(j, a))
    && (t.done != {} ==> WithinRun(j.policy.tokens, t.now.input, t.now.output, false))
  }

  lemma PoolBegins(j: StageJob)
    ensures Pool(j, Turn(j.before, j.agents, j.agents, {}))
  {
  }

  lemma PoolStarts(j: StageJob, t: Turn, a: string)
    requires Pool(j, t) && a in t.queued
    ensures Pool(j, t.(now := t.now.(llmCalls := t.now.llmCalls + 1), queued := t.queued - {a}))
    ensures CallsFit(j) ==> t.now.llmCalls < j.policy.maxLlmCalls
  {
    hide InputOf, OutputOf, CallFits;
    SubsetCardinality(t.queued, j.agents);
  }

  lemma PoolFinishes(j: StageJob, t: Turn, a: string)
    requires Pool(j, t) && a in t.pending && a !in t.queued && CallFits(j, a) && RoomFor(j, t.now, a)
    ensures Pool(j, Turn(Counted(j, t.now, a), t.pending - {a}, t.queued, t.done + {a}))
  {
    assert j.agents - (t.pending - {a}) == t.done + {a};
    SumWith(InputOf(j), t.done, a);
    SumWith(OutputOf(j), t.done, a);
  }

  /** While a stage fits as a whole, no call of it is refused on the way. */
  lemma PoolHasRoom(j: StageJob, t: Turn, a: string)
    requires Pool(j, t) && a in t.pending && CallsFit(j)
    ensures CallFits(j, a) && RoomFor(j, t.now, a)
  {
    assert CallFits(j, a);
    SumWith(InputOf(j), t.done, a);
    SumWith(OutputOf(j), t.done, a);
    forall x | x in j.agents ensures InputOf(j)(x) >= 0 && OutputOf(j)(x) >= 0 {
      assert CallFits(j, x);
    }
    SumMonotone(InputOf(j), t.done + {a}, j.agents);
    SumMonotone(OutputOf(j), t.done + {a}, j.agents);
  }

  lemma PoolEnds(j: StageJob, t: Turn)
    requires Pool(j, t) && t.pending == {} && t.now.llmCalls <= j.policy.maxLlmCalls
    ensures t.done == j.agents && CallsFit(j) && t.now == UsedAfter(j)
  {
    assert t.queued == {};
  }

  /** Every result is what its executor returned. */
  ghost predicate AllReturned(behaviour: Behaviour, stageIndex: nat, prior: map<string, Envelope>,
                              results: map<string, Envelope>)
  {
    forall a :: a in results ==> ReturnedBy(behaviour.call(stageIndex, a, prior), results[a])
  }

  lemma NoneReturned(behaviour: Behaviour, stageIndex: nat, prior: map<string, Envelope>)
    ensures AllReturned(behaviour, stageIndex, prior, map[])
  {
  }

  lemma OneMoreReturned(behaviour: Behaviour, stageIndex: nat, prior: map<string, Envelope>,
                        results: map<string, Envelope>, a: string, e: Envelope)
    requires AllReturned(behaviour, stageIndex, prior, results) && ReturnedBy(behaviour.call(stageIndex, a, prior), e)
    ensures AllReturned(behaviour, stageIndex, prior, results[a := e])
    ensures results[a := e].Keys == results.Keys + {a}
  {
  }

  class StageRunner {
    const registry: map<string, Identity>
    const requirement: string
    const behaviour: Behaviour
    const guard: RuntimeGuard
    var stages: seq<StageRecord>
    var priorOutputs: map<string, Envelope>
    var handoffs: seq<Handoff>

    ghost predicate Valid()
      reads this, guard`llmCalls, guard`totalInputTokens, guard`totalOutputTokens
    {
      guard.Valid() && IsRegistry(registry) && WellRun(behaviour, stages) && priorOutputs == Overlay(stages)
    }

    constructor (registry: map<string, Identity>, requirement: string, behaviour: Behaviour, guard: RuntimeGuard)
      requires guard.Valid() && IsRegistry(registry)
      ensures Valid() && stages == [] && handoffs == []
      ensures this.registry == registry && this.requirement == requirement
      ensures this.behaviour == behaviour && this.guard == guard
    {
      this.registry, this.requirement, this.behaviour, this.guard := registry, requirement, behaviour, guard;
      stages, priorOutputs, handoffs := [], map[], [];
    }

    /** Runs a stage and appends its record, or leaves the records alone. */
    method RunAndAccumulate(agentIds: seq<string>, stageIndex: nat) returns (ok: bool)
      requires Valid() && NoDuplicates(agentIds) && stageIndex == |stages|
      requires Elements(agentIds) <= AgentIds() && DependenciesMet(Elements(agentIds), priorOutputs)
      modifies this`stages, this`priorOutputs, guard
      ensures Valid() && guard.revisionCount == old(guard.revisionCount)
      ensures !ok ==> stages == old(stages) && priorOutputs == old(priorOutputs)
      ensures ok ==> StageFits(guard.policy, old(guard.Used()), behaviour, old(stages), agentIds)
      ensures ok ==> stages == old(stages) + [NextRecord(behaviour, old(stages), agentIds)]
      ensures ok ==> guard.Used() == UsedAfter(JobAt(guard.policy, old(guard.Used()), behaviour, old(stages), agentIds))
      ensures !guard.deadline ==> (ok <==> StageFits(guard.policy, old(guard.Used()), behaviour, old(stages), agentIds))
    {
      hide DependsOn, AgentIds, Accepted, DependenciesMet, WellRun, IsRegistry, CallResult, CallsFit, UsedAfter, AllAccepted;
      ghost var j := JobAt(guard.policy, guard.Used(), behaviour, stages, agentIds);
      var late: bool := *;
      if (guard.deadline && late) || |agentIds| > guard.policy.maxParallelAgents {
        return false;
      }
      var i := 0;
      while i < |agentIds|
        invariant i <= |agentIds| && forall k :: 0 <= k < i ==> behaviour.acceptsInput(agentIds[k], priorOutputs)
      {
        if !behaviour.acceptsInput(agentIds[i], priorOutputs) {
          return false;
        }
        i := i + 1;
      }
      var done, results := RunPool(agentIds, stageIndex);
      if !done {
        return false;
      }
      var valid, validated := ValidateResults(results);
      AcceptedIffValidated(behaviour, stages, agentIds, results, valid, validated);
      if !valid {
        return false;
      }
      var record := StageRecord(stageIndex, priorOutputs, validated);
      AppendStage(behaviour, stages, record);
      stages := stages + [record];
      priorOutputs := priorOutputs + validated;
      return true;
    }

    /**
     * The stage's calls, interleaved at their budget checks. After a failure no queued call need start, and
     * those already running finish. Without a deadline the calls succeed exactly when they fit the budgets.
     */
    method RunPool(agentIds: seq<string>, stageIndex: nat) returns (ok: bool, results: map<string, Envelope>)
      requires guard.Valid() && NoDuplicates(agentIds)
      modifies guard`llmCalls, guard`totalInputTokens, guard`totalOutputTokens
      ensures guard.Valid()
      ensures ok ==> results.Keys == Elements(agentIds)
      ensures AllReturned(behaviour, stageIndex, priorOutputs, results)
      ensures var j := StageJob(guard.policy, old(guard.Used()), behaviour, stageIndex, priorOutputs, Elements(agentIds));
        && (ok ==> CallsFit(j) && guard.Used() == UsedAfter(j))
        && (!guard.deadline ==> (ok <==> CallsFit(j)))
    {
      hide ReturnedBy, AllReturned, Elements, NoDuplicates, Pool, CallsFit, UsedAfter, CallFits, Counted, RoomFor;
      ghost var j := StageJob(guard.policy, guard.Used(), behaviour, stageIndex, priorOutputs, Elements(agentIds));
      ghost var must := !guard.deadline && CallsFit(j);
      // The calls not yet finished, and those among them not yet started.
      var pending, queued := Elements(agentIds), Elements(agentIds);
      results := map[];
      ok := true;
      ghost var t := Turn(j.before, pending, queued, {});
      PoolBegins(j);
      NoneReturned(behaviour, stageIndex, priorOutputs);
      while pending != {}
        invariant guard.Valid() && queued <= pending && (must ==> ok)
        invariant ok ==> Pool(j, t) && t == Turn(guard.Used(), pending, queued, results.Keys)
        invariant AllReturned(behaviour, stageIndex, priorOutputs, results)
        decreases |pending| + |queued|
      {
        var expired: bool := *;
        ok := ok && !(guard.deadline && expired);
        var agentId :| agentId in pending;
        if agentId in queued {
          var cancel: bool := *;
          var started := false;
          if ok { PoolStarts(j, t, agentId); }
          if ok || !cancel {
            started := StartCall();
          }
          pending := if started then pending else pending - {agentId};
          queued := queued - {agentId};
          ok := ok && started;
          t := t.(now := t.now.(llmCalls := t.now.llmCalls + 1), queued := t.queued - {agentId});
        } else {
          if ok && CallsFit(j) { PoolHasRoom(j, t, agentId); }
          var result := FinishCall(agentId, stageIndex, j);
          if ok && result.Some? { PoolFinishes(j, t, agentId); }
          pending := pending - {agentId};
          ok := ok && result.Some?;
          if result.Some? {
            OneMoreReturned(behaviour, stageIndex, priorOutputs, results, agentId, result.value);
            results := results[agentId := result.value];
          }
          t := Turn(guard.Used(), t.pending - {agentId}, t.queued, t.done + {agentId});
        }
      }
      if ok { PoolEnds(j, t); }
    }

    /** A guarded call up to the executor: the call is counted, then the clock is checked. */
    method StartCall() returns (started: bool)
      requires guard.Valid()
      modifies guard`llmCalls
      ensures guard.Valid()
      ensures started ==> guard.llmCalls == old(guard.llmCalls) + 1
      ensures !guard.deadline ==> (started <==> old(guard.llmCalls) < guard.policy.maxLlmCalls)
    {
      var counted := guard.ConsumeLlmCall();
      var late: bool := *;
      return counted && !(guard.deadline && late);
    }

    /** The executor and the token count after it. */
    method FinishCall(agentId: string, stageIndex: nat, ghost j: StageJob) returns (result: Option<Envelope>)
      requires guard.Valid() && j.policy == guard.policy
      requires j.behaviour == behaviour && j.stageIndex == stageIndex && j.prior == priorOutputs
      modifies guard`totalInputTokens, guard`totalOutputTokens
      ensures guard.Valid()
      ensures result.Some? <==> CallFits(j, agentId) && RoomFor(j, old(guard.Used()), agentId)
      ensures result.Some? ==> ReturnedBy(behaviour.call(stageIndex, agentId, priorOutputs), result.value)
      ensures result.Some? ==> guard.Used() == Counted(j, old(guard.Used()), agentId)
    {
      match behaviour.call(stageIndex, agentId, priorOutputs) {
        case Raised => return None;
        case Returned(envelope, usage) =>
          var counted := guard.ConsumeTokens(usage, false);
          return if counted then Some(envelope) else None;
      }
    }

    /** The handoffs into a stage, each built for and checked against the sender's current output. */
    method ValidateStageInputs(agentIds: seq<string>, overrides: map<string, nat>)
      returns (ok: bool, built: seq<Handoff>)
      requires Valid() && Elements(agentIds) <= AgentIds()
      ensures ok ==> HandoffsFor(registry, requirement, InputEdges(agentIds, overrides), priorOutputs, built)
      ensures ok <==> AllTransferable(InputEdges(agentIds, overrides), priorOutputs)
    {
      hide AllTransferable, HandoffsFor, DependsOn, AgentIds, EdgesOf, InputEdges, Elements;
      built := [];
      var i := 0;
      assert HandoffsFor(registry, requirement, InputEdges(agentIds[..0], overrides), priorOutputs, []) by {
        NoEdges(registry, requirement, agentIds[..0], overrides, priorOutputs);
      }
      while i < |agentIds|
        invariant i <= |agentIds|
        invariant HandoffsFor(registry, requirement, InputEdges(agentIds[..i], overrides), priorOutputs, built)
      {
        MemberOf(agentIds, i);
        var done, more := ReceiverHandoffs(agentIds[i], overrides);
        if !done {
          SomeNotTransferable(agentIds, i, overrides, priorOutputs);
          return false, built;
        }
        MoreEdges(registry, requirement, agentIds, i, overrides, priorOutputs, built, more);
        built := built + more;
        i := i + 1;
      }
      assert agentIds[..i] == agentIds;
      HandedOver(registry, requirement, InputEdges(agentIds, overrides), priorOutputs, built);
      return true, built;
    }

    method ReceiverHandoffs(agentId: string, overrides: map<string, nat>) returns (ok: bool, built: seq<Handoff>)
      requires Valid() && agentId in AgentIds()
      ensures ok ==> HandoffsFor(registry, requirement, EdgesOf(agentId, DependsOn(agentId), overrides), priorOutputs, built)
      ensures !ok ==> !AllTransferable(EdgesOf(agentId, DependsOn(agentId), overrides), priorOutputs)
    {
      hide AllTransferable, DependsOn, AgentIds, Overlay, WellRun;
      built := [];
      var senders := DependsOn(agentId);
      DependenciesKnown(agentId);
      var k := 0;
      while k < |senders|
        invariant k <= |senders|
        invariant HandoffsFor(registry, requirement, EdgesOf(agentId, senders[..k], overrides), priorOutputs, built)
      {
        var sender := senders[k];
        var senderStage := if sender in overrides then overrides[sender] else TaskStage(sender);
        var done, handoff := BuildHandoff(Edge(sender, senderStage, agentId));
        if !done {
          SenderNotTransferable(agentId, senders, overrides, priorOutputs, k);
          return false, built;
        }
        assert senders[..k + 1][..k] == senders[..k];
        built := built + [handoff];
        k := k + 1;
      }
      assert senders[..k] == senders;
      return true, built;
    }

    /** One handoff, refused exactly when the sender's output is missing or cannot be handed over. */
    method BuildHandoff(e: Edge) returns (ok: bool, handoff: Handoff)
      requires Valid() && e.sender in AgentIds() && e.receiver in AgentIds()
      ensures ok <==> e.sender in priorOutputs && Transferable(priorOutputs[e.sender])
      ensures ok ==> handoff == HandoffFor(registry, requirement, e, priorOutputs[e.sender])
    {
      var sender, receiver := registry[e.sender], registry[e.receiver];
      var payloadRef := OutputRef(e.senderStage, e.sender);
      if e.sender !in priorOutputs || !priorOutputs[e.sender].canonical {
        var none: Handoff := *;
        return false, none;
      }
      var payload := priorOutputs[e.sender];
      OverlayAccepted(behaviour, stages, e.sender);
      MadeHandoffsVerify(sender, receiver, payloadRef, requirement, payload);
      handoff := MakeHandoff(sender, receiver, payloadRef, requirement, payload);
      if Validate(handoff, sender, receiver).Some? {
        return false, handoff;
      }
      if ValidatePayload(handoff, sender, map[payloadRef := payload]).Some? {
        return false, handoff;
      }
      return true, handoff;
    }

    method ValidateResults(results: map<string, Envelope>) returns (ok: bool, validated: map<string, Envelope>)
      ensures ok <==> forall a :: a in results ==>
        && results[a].agentId == Some(a) && results[a].success && !results[a].schemaRefused && results[a].output.Object?
        && behaviour.acceptOutput(a, results[a].output.body).Some?
      ensures ok ==> validated.Keys == results.Keys
      ensures ok ==> forall a :: a in validated ==> PassesAs(behaviour, a, results[a], validated[a])
      ensures ok <==> forall a :: a in results ==> ValidatedResult(behaviour, a, results[a]).Some?
      ensures ok ==> forall a :: a in validated ==> Some(validated[a]) == ValidatedResult(behaviour, a, results[a])
    {
      hide ValidatedResult;
      validated := map[];
      var left := results.Keys;
      while left != {}
        invariant left <= results.Keys && validated.Keys == results.Keys - left
        invariant forall a :: a in validated ==> Some(validated[a]) == ValidatedResult(behaviour, a, results[a])
        invariant forall a :: a in validated ==> PassesAs(behaviour, a, results[a], validated[a])
      {
        var agentId :| agentId in left;
        ValidatedMeans(behaviour, agentId, results[agentId]);
        var r := ValidatedResult(behaviour, agentId, results[agentId]);
        if r.None? {
          return false, validated;
        }
        validated := validated[agentId := r.value];
        left := left - {agentId};
      }
      return true, validated;
    }
  }

  /**
   * Every result of a run is what the agent's call returned on exactly the outputs of the stages before, with the
   * output in the form that the agent's schema gives it; nothing that a schema refuses is in it.
   */
  lemma ResultsPassed(behaviour: Behaviour, stages: seq<StageRecord>, i: nat, a: string)
    requires WellRun(behaviour, stages) && i < |stages| && a in stages[i].results
    ensures stages[i].given == Overlay(stages[..i])
    ensures var outcome := behaviour.call(i, a, stages[i].given);
      && outcome.Returned?
      && outcome.envelope.agentId == Some(a) && outcome.envelope.success && !outcome.envelope.schemaRefused
      && outcome.envelope.output.Object?
      && var accepted := behaviour.acceptOutput(a, outcome.envelope.output.body);
         accepted.Some? && stages[i].results[a] == outcome.envelope.(output := Object(accepted.value))
  {
    hide Overlay, DependenciesMet;
    assert IsStage(behaviour, stages[i]);
  }

  lemma {:induction false} OverlayAccepted(behaviour: Behaviour, stages: seq<StageRecord>, a: string)
    requires WellRun(behaviour, stages) && a in Overlay(stages)
    ensures Accepted(a, Overlay(stages)[a])
    decreases |stages|
  {
    hide Accepted, DependenciesMet;
    var last := |stages| - 1;
    if a in stages[last].results {
      assert IsStage(behaviour, stages[last]);
    } else {
      WellRunPrefix(behaviour, stages);
      OverlayAccepted(behaviour, stages[..last], a);
    }
  }

  lemma WellRunPrefix(behaviour: Behaviour, stages: seq<StageRecord>)
    requires WellRun(behaviour, stages) && stages != []
    ensures WellRun(behaviour, stages[..|stages| - 1])
  {
    hide IsStage;
    var init := stages[..|stages| - 1];
    forall p | 0 <= p < |init| ensures init[p] == stages[p] && init[..p] == stages[..p] {
    }
  }

  /** The results of a stage pass validation exactly when every call's result is accepted. */
  lemma AcceptedIffValidated(behaviour: Behaviour, stages: seq<StageRecord>, agents: seq<string>,
                             results: map<string, Envelope>, valid: bool, validated: map<string, Envelope>)
    requires results.Keys == Elements(agents) && AllReturned(behaviour, |stages|, Overlay(stages), results)
    requires valid <==> forall a :: a in results ==> ValidatedResult(behaviour, a, results[a]).Some?
    requires valid ==> validated.Keys == results.Keys
    requires valid ==> forall a :: a in validated ==> Some(validated[a]) == ValidatedResult(behaviour, a, results[a])
    ensures valid <==> AllAccepted(behaviour, stages, agents)
    ensures valid ==>
      NextRecord(behaviour, stages, agents) == StageRecord(|stages|, Overlay(stages), validated)
    ensures valid ==> forall a :: a in validated ==>
      CallResult(behaviour, |stages|, a, Overlay(stages)) == Some(validated[a])
  {
    hide ValidatedResult, Overlay;
    forall a | a in results
      ensures CallResult(behaviour, |stages|, a, Overlay(stages)) == ValidatedResult(behaviour, a, results[a]) {
      assert ReturnedBy(behaviour.call(|stages|, a, Overlay(stages)), results[a]);
    }
    assert forall a :: a in agents <==> a in results;
  }

  lemma MemberOf(s: seq<string>, i: nat)
    requires i < |s|
    ensures s[i] in Elements(s)
  {
  }

  lemma DependenciesKnown(agentId: string)
    ensures forall i :: 0 <= i < |DependsOn(agentId)| ==> DependsOn(agentId)[i] in AgentIds()
  {
  }

  lemma HandedOver(registry: map<string, Identity>, requirement: string, edges: seq<Edge>,
                   prior: map<string, Envelope>, built: seq<Handoff>)
    requires HandoffsFor(registry, requirement, edges, prior, built)
    ensures AllTransferable(edges, prior)
  {
  }

  lemma {:induction false} SenderNotTransferable(receiver: string, senders: seq<string>, overrides: map<string, nat>,
                                                 prior: map<string, Envelope>, k: nat)
    requires k < |senders| && !(senders[k] in prior && Transferable(prior[senders[k]]))
    ensures !AllTransferable(EdgesOf(receiver, senders, overrides), prior)
    decreases |senders|
  {
    hide TaskStage, Transferable;
    var edges, n := EdgesOf(receiver, senders, overrides), |senders| - 1;
    if k < n {
      var init := EdgesOf(receiver, senders[..n], overrides);
      SenderNotTransferable(receiver, senders[..n], overrides, prior, k);
      assert forall i :: 0 <= i < |init| ==> edges[i] == init[i];
    } else {
      assert edges[n].sender == senders[k];
    }
  }

  lemma {:induction false} SomeNotTransferable(agentIds: seq<string>, i: nat, overrides: map<string, nat>,
                                               prior: map<string, Envelope>)
    requires i < |agentIds| && !AllTransferable(EdgesOf(agentIds[i], DependsOn(agentIds[i]), overrides), prior)
    ensures !AllTransferable(InputEdges(agentIds, overrides), prior)
    decreases |agentIds|
  {
    hide EdgesOf, DependsOn, Transferable;
    var n := |agentIds| - 1;
    var init, last := InputEdges(agentIds[..n], overrides), EdgesOf(agentIds[n], DependsOn(agentIds[n]), overrides);
    if i < n {
      SomeNotTransferable(agentIds[..n], i, overrides, prior);
    }
    assert forall k :: 0 <= k < |init| ==> (init + last)[k] == init[k];
    assert forall k :: 0 <= k < |last| ==> (init + last)[|init| + k] == last[k];
  }

  lemma NoEdges(registry: map<string, Identity>, requirement: string, agentIds: seq<string>, overrides: map<string, nat>,
                prior: map<string, Envelope>)
    requires agentIds == []
    ensures HandoffsFor(registry, requirement, InputEdges(agentIds, overrides), prior, [])
  {
  }

  lemma MoreEdges(registry: map<string, Identity>, requirement: string, agentIds: seq<string>, i: nat,
                  overrides: map<string, nat>, prior: map<string, Envelope>, built: seq<Handoff>, more: seq<Handoff>)
    requires i < |agentIds|
    requires HandoffsFor(registry, requirement, InputEdges(agentIds[..i], overrides), prior, built)
    requires HandoffsFor(registry, requirement, EdgesOf(agentIds[i], DependsOn(agentIds[i]), overrides), prior, more)
    ensures HandoffsFor(registry, requirement, InputEdges(agentIds[..i + 1], overrides), prior, built + more)
  {
    hide DependsOn, EdgesOf;
    assert agentIds[..i + 1][..i] == agentIds[..i];
  }

  lemma AppendStage(behaviour: Behaviour, stages: seq<StageRecord>, record: StageRecord)
    requires WellRun(behaviour, stages) && record.stageIndex == |stages| && record.given == Overlay(stages)
    requires DependenciesMet(record.results.Keys, record.given)
    requires forall a :: a in record.results ==>
      CallResult(behaviour, record.stageIndex, a, record.given) == Some(record.results[a])
    ensures WellRun(behaviour, stages + [record])
    ensures Overlay(stages + [record]) == Overlay(stages) + record.results
  {
    hide Overlay, DependenciesMet, Accepted, CallResult;
    var after := stages + [record];
    assert after[..|stages|] == stages;
    OverlayNext(stages, record);
    forall p | 0 <= p < |stages| ensures after[..p] == stages[..p] && after[p] == stages[p] {
    }
  }

  lemma OverlayNext(stages: seq<StageRecord>, record: StageRecord)
    ensures Overlay(stages + [record]) == Overlay(stages) + record.results
  {
    assert (stages + [record])[..|stages|] == stages;
  }
}
