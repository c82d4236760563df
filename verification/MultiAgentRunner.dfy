/** The owned run from planning to its final state (src/specflow/runner_multi.py:281-438, 1113-1120). */
module MultiAgentRunner {
  import opened Prelude
  import opened MultiAgentWorkflow
  import opened Handoffs
  import opened MultiAgentRun
  import opened RunHandoffs

  /** The states of a run that needs a revision, up to its second review. */
  function FullTrail(): seq<State> {
    [Planning, Analyzing, ExecutingSpecialists, Synthesizing, Reviewing, Revising, Synthesizing, Reviewing]
  }

  /** How many executor calls the first `n` stages make. */
  function CallsBy(n: nat, target: string): nat {
    if n == 0 then 0 else CallsBy(n - 1, target) + |StageAgents(n - 1, target)|
  }

  /** The decision of the review in stage i. */
  function Verdict(stages: seq<StageRecord>, i: nat): Decision {
    if i < |stages| && ReviewId() in stages[i].results && stages[i].results[ReviewId()].output.Object?
    then stages[i].results[ReviewId()].output.body.decision
    else NoDecision
  }

  /** The target the first review names, or the default. */
  function RequestedTarget(stages: seq<StageRecord>): string
    requires |stages| >= 4
  {
    RevisionTarget(Overlay(stages[..4]))
  }

  /** Whether the policy allows revising the target the first review names. */
  predicate Revisable(registry: map<string, Identity>, policy: RevisionPolicy, stages: seq<StageRecord>)
    requires |stages| >= 4
  {
    var target := RequestedTarget(stages);
    target in registry && policy.maxTotalRounds > 0 && registry[target].role in policy.revisableRoles
  }

  /** What a rejecting first review needs for the run to complete all the same, apart from time. */
  ghost predicate RejectionCompletes(registry: map<string, Identity>, behaviour: Behaviour, policy: ExecutionPolicy,
                                     revisions: RevisionPolicy, stages: seq<StageRecord>)
    requires |stages| >= 4
  {
    && policy.maxRevisions > 0 && RequestedTarget(stages) in registry
    && (Revisable(registry, revisions, stages) ==>
          var revised := Play(policy, behaviour, RequestedTarget(stages), 7);
          revised.Playing? && Verdict(revised.stages, 6) != NoDecision)
  }

  /** What a run needs to complete, apart from time. */
  ghost predicate Completes(registry: map<string, Identity>, behaviour: Behaviour, policy: ExecutionPolicy,
                            revisions: RevisionPolicy)
  {
    var reviewed := Play(policy, behaviour, DesignId(), 4);
    && reviewed.Playing? && Verdict(reviewed.stages, 3) != NoDecision
    && (Verdict(reviewed.stages, 3) == Reject ==>
          RejectionCompletes(registry, behaviour, policy, revisions, reviewed.stages))
  }

  /** Whether the first review, if there was one, leads to a revision. */
  predicate LeadsToRevision(registry: map<string, Identity>, policy: ExecutionPolicy, revisions: RevisionPolicy,
                            stages: seq<StageRecord>)
  {
    Verdict(stages, 3) == Reject && policy.maxRevisions > 0 && Revisable(registry, revisions, stages)
  }

  function CompletionReason(decision: Decision): string {
    if decision == Pass then "review passed" else "revision limit reached"
  }

  function LastReason(history: seq<Entry>): string {
    if history == [] then "" else history[|history| - 1].reason
  }

  class Run {
    const engine: WorkflowEngine
    const controller: RevisionController
    const runner: StageRunner
    var revisionExhausted: bool

    ghost predicate Valid()
      reads this, engine, controller, runner, runner.guard
    {
      engine.Valid() && controller.Valid() && runner.Valid()
    }

    /** `n` states of the full trail were entered, and no illegal transition was attempted. */
    ghost predicate OnTrack(n: nat)
      reads this, engine, controller
    {
      && n <= 8 && engine.Valid() && controller.Valid() && engine.refusals == 0
      && Trail(engine.history) == FullTrail()[..n] && engine.state == (if n == 0 then Created else FullTrail()[n - 1])
    }

    /** Without a deadline the first `n` stages can be run. */
    ghost predicate CanReach(n: nat, target: string) {
      Play(runner.guard.policy, runner.behaviour, target, n).Playing?
    }

    /**
     * The first `n` stages ran and came out as they do without a deadline, every handoff into them resolves, and
     * each of their calls was counted.
     */
    ghost predicate Progress(n: nat, target: string)
      reads runner, runner.guard`llmCalls, runner.guard`totalInputTokens, runner.guard`totalOutputTokens
    {
      && runner.Valid() && |runner.stages| == n && HasShape(runner.stages, target)
      && LogResolves(runner.registry, runner.requirement, Deliveries(n, target), runner.handoffs, runner.stages)
      && runner.guard.llmCalls == CallsBy(n, target)
      && Play(runner.guard.policy, runner.behaviour, target, n) == Playing(runner.stages, runner.guard.Used())
    }

    constructor (registry: map<string, Identity>, requirement: string, behaviour: Behaviour,
                 policy: ExecutionPolicy, revisions: RevisionPolicy, deadline: bool)
      requires IsRegistry(registry) && IsTokenPolicy(policy.tokens)
      ensures runner.registry == registry && runner.requirement == requirement && runner.behaviour == behaviour
      ensures runner.guard.policy == policy && controller.policy == revisions && runner.guard.deadline == deadline
      ensures !revisionExhausted && Fresh() && fresh(engine) && fresh(controller) && fresh(runner) && fresh(runner.guard)
    {
      engine := new WorkflowEngine();
      controller := new RevisionController(revisions);
      var guard := new RuntimeGuard(policy, deadline);
      runner := new StageRunner(registry, requirement, behaviour, guard);
      revisionExhausted := false;
    }

    /** Nothing has happened yet. */
    ghost predicate Fresh()
      reads this, engine, controller, runner, runner.guard
    {
      && Valid() && OnTrack(0) && controller.tasks == []
      && (forall target :: Progress(0, target)) && runner.guard.revisionCount == 0
    }

    /** A transition of the run; it is always the next one on the trail. */
    method Enter(toState: State, reason: string, ghost n: nat)
      requires OnTrack(n) && n < 8 && toState == FullTrail()[n]
      modifies engine
      ensures OnTrack(n + 1)
    {
      hide LegalPath, Revisions;
      assert FullTrail()[..n + 1] == FullTrail()[..n] + [toState];
      NextIsLegal(n);
      var ok := engine.Transition(toState, reason);
    }

    /** Handoffs into a stage of the plan, then the stage. */
    method HandOffAndRun(agentIds: seq<string>, stageIndex: nat, overrides: map<string, nat>, ghost target: string)
      returns (ok: bool)
      requires Progress(stageIndex, target) && stageIndex in {0, 1, 2, 3, 5, 6} && target in MultiAgentRun.AgentIds()
      requires agentIds == StageAgents(stageIndex, target) && overrides == Overrides(stageIndex, target)
      modifies runner`stages, runner`priorOutputs, runner`handoffs, runner.guard
      ensures runner.Valid() && runner.guard.revisionCount == old(runner.guard.revisionCount)
      ensures ok ==> Progress(stageIndex + 1, target)
      ensures ok ==> |runner.stages| == stageIndex + 1 && runner.stages[..stageIndex] == old(runner.stages)
      ensures !ok ==> |runner.stages| == stageIndex && runner.stages == old(runner.stages)
      ensures CanReach(stageIndex + 1, target) ==> ok || runner.guard.deadline
    {
      hide LogResolves, HasShape, HandoffsFor, WellRun, Overlay, IsRegistry, InputEdges, DependenciesMet, Deliveries,
        Play, StageFits, AllTransferable, NextRecord, UsedAfter, JobAt, StageAgents, Overrides, CallsBy;
      StageAgentsKnown(stageIndex, target);
      StageReady(runner.behaviour, runner.stages, target);
      PlayNext(runner.guard.policy, runner.behaviour, target, runner.stages, runner.guard.Used());
      var built := [];
      if stageIndex != 0 {
        ok, built := runner.ValidateStageInputs(agentIds, overrides);
        if !ok {
          return;
        }
      } else {
        NoInputs(runner.registry, runner.requirement, target, runner.priorOutputs);
      }
      ok := RunLast(agentIds, stageIndex, built, target);
    }

    /** Records the handoffs and runs the stage they feed. */
    method RunLast(agentIds: seq<string>, stageIndex: nat, built: seq<Handoff>, ghost target: string) returns (ok: bool)
      requires Progress(stageIndex, target) && stageIndex < 7
      requires agentIds == StageAgents(stageIndex, target) && NoDuplicates(agentIds)
      requires Elements(agentIds) <= MultiAgentRun.AgentIds()
      requires DependenciesMet(Elements(agentIds), runner.priorOutputs)
      requires HandoffsFor(runner.registry, runner.requirement, EdgesInto(stageIndex, target), runner.priorOutputs, built)
      modifies runner`stages, runner`priorOutputs, runner`handoffs, runner.guard
      ensures runner.Valid() && runner.guard.revisionCount == old(runner.guard.revisionCount)
      ensures ok ==> Progress(stageIndex + 1, target)
      ensures ok ==> |runner.stages| == stageIndex + 1 && runner.stages[..stageIndex] == old(runner.stages)
      ensures !ok ==> |runner.stages| == stageIndex && runner.stages == old(runner.stages)
      ensures CanReach(stageIndex + 1, target) ==> ok || runner.guard.deadline
    {
      hide LogResolves, HasShape, HandoffsFor, WellRun, Overlay, IsRegistry, StageAgents, EdgesInto, DependenciesMet,
        Deliveries, Play, StageFits, AllTransferable, NextRecord, UsedAfter, JobAt, NoDuplicates;
      ghost var before, log, used := runner.stages, runner.handoffs, runner.guard.Used();
      PlayNext(runner.guard.policy, runner.behaviour, target, before, used);
      HandedOver(runner.registry, runner.requirement, EdgesInto(stageIndex, target), runner.priorOutputs, built);
      runner.handoffs := runner.handoffs + built;
      ok := runner.RunAndAccumulate(agentIds, stageIndex);
      if ok {
        var record := runner.stages[stageIndex];
        assert runner.stages == before + [record];
        NextStage(runner.guard.policy, runner.behaviour, before, used, agentIds);
        StageResolves(runner.registry, runner.requirement, target, log, built, before, record);
      }
    }

    /** From the compiled plan to the first review. */
    method InitialPass() returns (ok: bool, ghost n: nat)
      requires Fresh()
      modifies engine, runner`stages, runner`priorOutputs, runner`handoffs, runner.guard
      ensures runner.Valid() && runner.guard.revisionCount == old(runner.guard.revisionCount)
      ensures 2 <= n <= 5 && OnTrack(n)
      ensures ok ==> n == 5 && Progress(4, DesignId())
      ensures !ok ==> |runner.stages| < 4
      ensures CanReach(4, DesignId()) ==> ok || runner.guard.deadline
    {
      hide Progress, CanReach, OnTrack, Valid, StageRunner.Valid, StageAgents, Overrides, MultiAgentRun.AgentIds, LegalPath,
        AnalystId, DesignId, RiskId, TestId, SynthesisId, ReviewId;
      ghost var target := DesignId();
      StageLiterals(target);
      ReachedBefore(4, target);
      Enter(Planning, "plan compiled", 0);
      Enter(Analyzing, "repository analysis", 1);
      n := 2;
      ok := HandOffAndRun([AnalystId()], 0, map[], target);
      if !ok {
        return;
      }
      Enter(ExecutingSpecialists, "specialists", 2);
      n := 3;
      ok := HandOffAndRun([DesignId(), RiskId(), TestId()], 1, map[], target);
      if !ok {
        return;
      }
      Enter(Synthesizing, "synthesis", 3);
      n := 4;
      ok := HandOffAndRun([SynthesisId()], 2, map[], target);
      if !ok {
        return;
      }
      Enter(Reviewing, "review", 4);
      n := 5;
      ok := HandOffAndRun([ReviewId()], 3, map[], target);
    }

    lemma ProgressFacts(n: nat, target: string)
      requires Progress(n, target)
      ensures |runner.stages| == n && runner.Valid() && HasShape(runner.stages, target)
      ensures Play(runner.guard.policy, runner.behaviour, target, n) == Playing(runner.stages, runner.guard.Used())
    {
      hide Play, Deliveries, CallsBy, LogResolves, HasShape;
    }

    lemma ReachedBefore(n: nat, target: string)
      ensures CanReach(n, target) ==> forall m: nat :: m <= n ==> CanReach(m, target)
    {
      forall m: nat | m <= n ensures CanReach(n, target) ==> CanReach(m, target) {
        StuckStays(runner.guard.policy, runner.behaviour, target, m, n);
      }
    }

    /** What was done up to the first review reads the same for any revision target. */
    lemma Retarget(t: string, u: string)
      requires Progress(4, t)
      ensures Progress(4, u)
    {
      hide LogResolves, HasShape, Deliveries, WellRun, Overlay, IsRegistry;
      BeforeRevision(4, t, u);
      ShapeRetarget(runner.stages, t, u);
      CallsRetarget(4, t, u);
      PlayRetarget(runner.guard.policy, runner.behaviour, 4, t, u);
    }

    /** The review's handoff to the target, and the target's new stage. */
    method RunTarget(target: string) returns (ok: bool)
      requires Progress(4, target) && target in MultiAgentRun.AgentIds()
      modifies runner`stages, runner`priorOutputs, runner`handoffs, runner.guard
      ensures runner.Valid() && runner.guard.revisionCount == old(runner.guard.revisionCount)
      ensures ok ==> Progress(5, target) && |runner.stages| == 5 && runner.stages[..4] == old(runner.stages)
      ensures !ok ==> runner.stages == old(runner.stages)
      ensures CanReach(5, target) ==> ok || runner.guard.deadline
    {
      hide LogResolves, HasShape, WellRun, Overlay, IsRegistry, Deliveries, CallsBy, HandoffsFor, DependenciesMet,
        DependsOn, StageAgents, MultiAgentRun.AgentIds, EdgesInto, HandoffFor, Transferable,
        AnalystId, DesignId, RiskId, TestId, SynthesisId, ReviewId;
      StageLiterals(target);
      PlayNext(runner.guard.policy, runner.behaviour, target, runner.stages, runner.guard.Used());
      ReviewTransferable(target, runner.priorOutputs);
      var handoff;
      ok, handoff := runner.BuildHandoff(Edge(ReviewId(), 3, target));
      if !ok {
        return;
      }
      OneHandoff(runner.registry, runner.requirement, target, runner.priorOutputs, handoff);
      StageReady(runner.behaviour, runner.stages, target);
      StageAgentsKnown(4, target);
      ok := RunLast([target], 4, [handoff], target);
    }

    /** The revision: the target again, then synthesis and review on what it left. */
    method ReviseOnce(target: string) returns (ok: bool, ghost n: nat)
      requires OnTrack(5) && Progress(4, target) && target in MultiAgentRun.AgentIds()
      modifies engine, runner`stages, runner`priorOutputs, runner`handoffs, runner.guard
      ensures runner.Valid() && runner.guard.revisionCount == old(runner.guard.revisionCount)
      ensures 6 <= n <= 8 && OnTrack(n)
      ensures |runner.stages| >= 4 && runner.stages[..4] == old(runner.stages)
      ensures ok ==> n == 8 && Progress(7, target)
      ensures CanReach(7, target) ==> ok || runner.guard.deadline
    {
      hide Progress, CanReach, OnTrack, Valid, StageRunner.Valid, RuntimeGuard.Valid, StageAgents, Overrides, Play, HasShape,
        MultiAgentRun.AgentIds, AnalystId, DesignId, RiskId, TestId, SynthesisId, ReviewId, DependsOn;
      StageLiterals(target);
      ReachedBefore(7, target);
      ghost var before := runner.stages;
      ProgressFacts(4, target);
      Enter(Revising, "review rejected", 5);
      n := 6;
      ok := RunTarget(target);
      if !ok {
        return;
      }
      Enter(Synthesizing, "revision complete", 6);
      n := 7;
      ghost var revised := runner.stages;
      ok := HandOffAndRun([SynthesisId()], 5, map[target := 4], target);
      if !ok {
        return;
      }
      Enter(Reviewing, "re-review", 7);
      n := 8;
      ghost var synthesized := runner.stages;
      PrefixOfPrefix(synthesized, revised, 4);
      ok := HandOffAndRun([ReviewId()], 6, map[SynthesisId() := 5], target);
      if ok {
        PrefixOfPrefix(runner.stages, synthesized, 4);
      }
    }

    /** The run completed: without a revision, or after revising `target`. */
    ghost predicate Finished(target: Option<string>)
      reads this, engine, controller, runner, runner.guard
    {
      match target
      case None =>
        && Trail(engine.history) == FullTrail()[..5] + [Completed]
        && LastReason(engine.history) == CompletionReason(Verdict(runner.stages, 3)) && Progress(4, DesignId()) && controller.tasks == []
        && Verdict(runner.stages, 3) != NoDecision
        && (revisionExhausted <==> Verdict(runner.stages, 3) == Reject)
        && (Verdict(runner.stages, 3) == Reject ==> !Revisable(runner.registry, controller.policy, runner.stages))
      case Some(t) =>
        && Trail(engine.history) == FullTrail() + [Completed]
        && LastReason(engine.history) == CompletionReason(Verdict(runner.stages, 6)) && Progress(7, t)
        && |controller.tasks| == 1 && controller.tasks[0].targetAgentId == t == RequestedTarget(runner.stages)
        && Revisable(runner.registry, controller.policy, runner.stages)
        && Verdict(runner.stages, 3) == Reject && Verdict(runner.stages, 6) != NoDecision
        && (revisionExhausted <==> Verdict(runner.stages, 6) == Reject && controller.policy.maxTotalRounds <= 1)
    }

    /** What a rejecting first review leads to: a failure, no revision at all, or one revision. */
    method Respond() returns (ok: bool, decision: Decision, ghost n: nat, ghost target: Option<string>)
      requires OnTrack(5) && Progress(4, DesignId()) && controller.tasks == []
      requires !revisionExhausted && runner.guard.revisionCount == 0
      modifies this`revisionExhausted, engine, controller, runner`stages, runner`priorOutputs, runner`handoffs, runner.guard
      ensures Valid() && OnTrack(n) && n >= 5
      ensures |runner.stages| >= 4 && runner.stages[..4] == old(runner.stages)
      ensures runner.guard.revisionCount == 1 && |controller.tasks| == (if n >= 6 then 1 else 0)
      ensures n >= 6 <==>
        runner.guard.policy.maxRevisions > 0 && Revisable(runner.registry, controller.policy, runner.stages)
      ensures ok ==> RejectionCompletes(runner.registry, runner.behaviour, runner.guard.policy, controller.policy,
                                        runner.stages)
      ensures !ok && !runner.guard.deadline ==>
        !RejectionCompletes(runner.registry, runner.behaviour, runner.guard.policy, controller.policy, runner.stages)
      ensures ok && target.None? ==>
        && n == 5 && decision == Reject && revisionExhausted && runner.stages == old(runner.stages)
        && Progress(4, DesignId()) && !Revisable(runner.registry, controller.policy, runner.stages)
      ensures ok && target.Some? ==>
        && n == 8 && Progress(7, target.value) && controller.tasks[0].targetAgentId == target.value
        && target.value == RequestedTarget(runner.stages) && Revisable(runner.registry, controller.policy, runner.stages)
        && runner.stages[..4] == old(runner.stages) && decision == Verdict(runner.stages, 6) != NoDecision
        && (revisionExhausted <==> decision == Reject && controller.policy.maxTotalRounds <= 1)
    {
      hide Progress, HasShape, WellRun, Overlay, Play, IsRegistry, RevisionTarget, Verdict, ReviewDecision, FullTrail,
        Trail, DesignId, LegalPath, Revisions;
      n, target, decision := 5, None, Reject;
      ProgressFacts(4, DesignId());
      assert runner.stages[..4] == runner.stages;
      var counted := runner.guard.ConsumeRevision();
      if !counted {
        return false, decision, n, target;
      }
      var targetId := RevisionTarget(runner.priorOutputs);
      if targetId !in runner.registry {
        return false, decision, n, target;
      }
      Retarget(DesignId(), targetId);
      var task := controller.CreateRevisionTask(targetId, runner.registry[targetId].role);
      if task.None? {
        revisionExhausted := true;
        return true, decision, n, target;
      }
      target := Some(targetId);
      RegistryAgents(runner.registry);
      ok, n := ReviseOnce(targetId);
      if !ok {
        return;
      }
      ProgressFacts(7, targetId);
      ReviewVerdict(runner.behaviour, runner.stages, targetId);
      decision := ReviewDecision(runner.priorOutputs);
      if decision == NoDecision {
        return false, decision, n, target;
      }
      revisionExhausted := decision == Reject && controller.Exhausted();
    }

    /** The stages up to the first review are those played, and only a deadline can prevent them. */
    ghost predicate ReviewedAsPlayed()
      reads runner
    {
      var reviewed := Play(runner.guard.policy, runner.behaviour, DesignId(), 4);
      && (|runner.stages| >= 4 ==> reviewed.Playing? && runner.stages[..4] == reviewed.stages)
      && (reviewed.Playing? ==> |runner.stages| >= 4 || runner.guard.deadline)
    }

    /** The body of the run; `n` states were entered before it failed or completed. */
    method Attempt() returns (ok: bool, ghost n: nat, ghost target: Option<string>)
      requires Fresh() && !revisionExhausted
      modifies this`revisionExhausted, engine, controller, runner`stages, runner`priorOutputs, runner`handoffs, runner.guard
      ensures Valid() && engine.refusals == 0 && 2 <= n <= 8
      ensures |controller.tasks| == (if n >= 6 then 1 else 0)
      ensures n >= 6 <==>
        LeadsToRevision(runner.registry, runner.guard.policy, controller.policy, runner.stages)
      ensures runner.guard.revisionCount == if Verdict(runner.stages, 3) == Reject then 1 else 0
      ensures ReviewedAsPlayed()
      ensures ok ==> Completes(runner.registry, runner.behaviour, runner.guard.policy, controller.policy)
      ensures !ok && !runner.guard.deadline ==>
        !Completes(runner.registry, runner.behaviour, runner.guard.policy, controller.policy)
      ensures !ok ==> OnTrack(n)
      ensures ok ==> engine.state == Completed && Finished(target) && n == if target.Some? then 8 else 5
    {
      hide HasShape, WellRun, Overlay, Play, IsRegistry, Deliveries, CallsBy, LogResolves, LegalPath, Revisions, Verdict,
        ReviewDecision, DesignId, CompletionReason, Revisable, RequestedTarget, RejectionCompletes, LeadsToRevision;
      target := None;
      ok, n := InitialPass();
      ReviewOnly(runner.registry, runner.behaviour, runner.guard.policy, controller.policy, runner.stages);
      if !ok {
        return;
      }
      ProgressFacts(4, DesignId());
      ReviewVerdict(runner.behaviour, runner.stages, DesignId());
      var decision := ReviewDecision(runner.priorOutputs);
      assert runner.stages[..4] == runner.stages;
      if decision == NoDecision {
        return false, n, target;
      }
      if decision == Reject {
        ok, decision, n, target := Respond();
        ReviewOnly(runner.registry, runner.behaviour, runner.guard.policy, controller.policy, runner.stages);
        if !ok {
          return;
        }
      }
      assert FullTrail()[..8] == FullTrail();
      CompletionIsLegal(n);
      var entered := engine.Transition(Completed, CompletionReason(decision));
      return true, n, target;
    }

    /**
     * The owned run. Whatever the executors do, it completes or fails by legal transitions alone, and without a
     * deadline it completes exactly when it can. The engine, its history and the controller count the revision
     * that is made; the guard counts a rejection, and so one more when the policy allows no revision for it.
     */
    method Execute() returns (completed: bool, ghost n: nat, ghost target: Option<string>)
      requires Fresh() && !revisionExhausted
      modifies this`revisionExhausted, engine, controller, runner`stages, runner`priorOutputs, runner`handoffs, runner.guard
      ensures Valid() && engine.refusals == 0 && LegalPath(engine.history, engine.state)
      ensures completed ==> engine.state == Completed && Finished(target)
      ensures !completed ==> engine.state == Failed && 2 <= n <= 8 && Trail(engine.history) == FullTrail()[..n] + [Failed]
      ensures engine.revisionCount == Revisions(Trail(engine.history)) == |controller.tasks|
      ensures engine.revisionCount ==
        if LeadsToRevision(runner.registry, runner.guard.policy, controller.policy, runner.stages) then 1 else 0
      ensures engine.revisionCount <= runner.guard.policy.maxRevisions
      ensures engine.revisionCount <= controller.policy.maxTotalRounds
      ensures runner.guard.revisionCount == if Verdict(runner.stages, 3) == Reject then 1 else 0
      ensures runner.guard.revisionCount == engine.revisionCount <==>
        !(Verdict(runner.stages, 3) == Reject &&
          (runner.guard.policy.maxRevisions == 0 ||
           RequestedTarget(runner.stages) !in runner.registry ||
           !Revisable(runner.registry, controller.policy, runner.stages)))
      ensures ReviewedAsPlayed()
      ensures completed ==> Completes(runner.registry, runner.behaviour, runner.guard.policy, controller.policy)
      ensures !completed && !runner.guard.deadline ==>
        !Completes(runner.registry, runner.behaviour, runner.guard.policy, controller.policy)
    {
      hide LogResolves, HasShape, WellRun, Overlay, IsRegistry, Deliveries, CallsBy, LegalPath, Revisions, Progress,
        Play, Completes, RejectionCompletes, Verdict, RequestedTarget;
      completed, n, target := Attempt();
      RevisionsOnTrail(n);
      assert FullTrail()[..8] == FullTrail();
      if !completed {
        if engine.state !in {Completed, Failed} {
          EveryStateCanFail(n);
          var entered := engine.Transition(Failed, "runtime failure");
        }
      }
    }
  }

  lemma NextIsLegal(n: nat)
    requires n < 8
    ensures FullTrail()[n] in Successors(if n == 0 then Created else FullTrail()[n - 1])
  {
  }

  lemma {:induction false} RevisionsOnTrail(n: nat)
    requires n <= 8
    ensures Revisions(FullTrail()[..n]) == if n >= 6 then 1 else 0
    ensures Revisions(FullTrail()[..n] + [Completed]) == Revisions(FullTrail()[..n])
    ensures Revisions(FullTrail()[..n] + [Failed]) == Revisions(FullTrail()[..n])
  {
    var trail := FullTrail()[..n];
    assert (trail + [Completed])[..n] == trail && (trail + [Failed])[..n] == trail;
    if n > 0 {
      RevisionsOnTrail(n - 1);
      assert trail[..n - 1] == FullTrail()[..n - 1];
    }
  }

  lemma EveryStateCanFail(n: nat)
    requires 2 <= n <= 8
    ensures Failed in Successors(FullTrail()[n - 1]) && FullTrail()[n - 1] !in {Completed, Failed}
  {
  }

  lemma CompletionIsLegal(n: nat)
    requires n in {5, 8}
    ensures Completed in Successors(FullTrail()[n - 1])
  {
  }

  /** The literal stages of the plan, and the overrides that go with them. */
  lemma StageLiterals(target: string)
    ensures StageAgents(0, target) == [AnalystId()] && StageAgents(1, target) == [DesignId(), RiskId(), TestId()]
    ensures StageAgents(2, target) == [SynthesisId()] && StageAgents(3, target) == [ReviewId()]
    ensures StageAgents(4, target) == [target]
    ensures StageAgents(5, target) == [SynthesisId()] && StageAgents(6, target) == [ReviewId()]
    ensures forall i: nat :: i < 5 ==> Overrides(i, target) == map[]
    ensures Overrides(5, target) == map[target := 4] && Overrides(6, target) == map[SynthesisId() := 5]
    ensures DesignId() in MultiAgentRun.AgentIds() && ReviewId() in MultiAgentRun.AgentIds()
  {
    hide AnalystId, DesignId, RiskId, TestId, SynthesisId, ReviewId;
  }

  lemma PrefixOfPrefix<T>(s: seq<T>, prefix: seq<T>, n: nat)
    requires n <= |prefix| <= |s| && s[..|prefix|] == prefix
    ensures s[..n] == prefix[..n]
  {
  }

  /** What follows from the first review depends on the stages up to it alone. */
  lemma ReviewOnly(registry: map<string, Identity>, behaviour: Behaviour, policy: ExecutionPolicy,
                   revisions: RevisionPolicy, stages: seq<StageRecord>)
    ensures |stages| < 4 ==> Verdict(stages, 3) == NoDecision
    ensures LeadsToRevision(registry, policy, revisions, stages) <==>
      |stages| >= 4 && Verdict(stages, 3) == Reject && policy.maxRevisions > 0 && Revisable(registry, revisions, stages)
    ensures |stages| >= 4 ==>
      && Verdict(stages[..4], 3) == Verdict(stages, 3)
      && RequestedTarget(stages[..4]) == RequestedTarget(stages)
      && (Revisable(registry, revisions, stages[..4]) <==> Revisable(registry, revisions, stages))
      && (RejectionCompletes(registry, behaviour, policy, revisions, stages[..4]) <==>
            RejectionCompletes(registry, behaviour, policy, revisions, stages))
  {
    hide Overlay, RevisionTarget, Play;
    if |stages| >= 4 {
      assert stages[..4][..4] == stages[..4];
    }
  }

  lemma ShapeRetarget(stages: seq<StageRecord>, t: string, u: string)
    requires |stages| <= 4 && HasShape(stages, t)
    ensures HasShape(stages, u)
  {
    hide AnalystId, DesignId, RiskId, TestId, SynthesisId, ReviewId;
  }

  lemma {:induction false} CallsRetarget(n: nat, t: string, u: string)
    requires n <= 4
    ensures CallsBy(n, t) == CallsBy(n, u)
  {
    if n > 0 {
      CallsRetarget(n - 1, t, u);
    }
  }

  lemma ReviewTransferable(target: string, prior: map<string, Envelope>)
    ensures AllTransferable(EdgesInto(4, target), prior) <==> ReviewId() in prior && Transferable(prior[ReviewId()])
  {
    hide Transferable, ReviewId;
    var edges := EdgesInto(4, target);
    assert edges[0] == Edge(ReviewId(), 3, target);
  }

  lemma OneHandoff(registry: map<string, Identity>, requirement: string, target: string, prior: map<string, Envelope>,
                   h: Handoff)
    requires IsRegistry(registry) && target in MultiAgentRun.AgentIds() && ReviewId() in prior && Transferable(prior[ReviewId()])
    requires h == HandoffFor(registry, requirement, Edge(ReviewId(), 3, target), prior[ReviewId()])
    ensures HandoffsFor(registry, requirement, EdgesInto(4, target), prior, [h])
  {
  }

  lemma RegistryAgents(registry: map<string, Identity>)
    requires IsRegistry(registry)
    ensures registry.Keys == MultiAgentRun.AgentIds()
  {
  }

  /** The decision the runner reads is that of the last stage, a review. */
  lemma ReviewVerdict(behaviour: Behaviour, stages: seq<StageRecord>, target: string)
    requires WellRun(behaviour, stages) && HasShape(stages, target) && |stages| in {4, 7}
    ensures ReviewDecision(Overlay(stages)) == Verdict(stages, |stages| - 1)
  {
    hide Overlay, WellRun, ReviewId;
    var last := |stages| - 1;
    assert ReviewId() in Elements(StageAgents(last, target));
    OverlayLatest(stages, ReviewId(), last);
  }

  lemma StageAgentsKnown(i: nat, target: string)
    requires target in MultiAgentRun.AgentIds()
    ensures NoDuplicates(StageAgents(i, target)) && Elements(StageAgents(i, target)) <= MultiAgentRun.AgentIds()
  {
    hide AnalystId, DesignId, RiskId, TestId, SynthesisId, ReviewId;
    Distinct();
  }

  lemma NoInputs(registry: map<string, Identity>, requirement: string, target: string, prior: map<string, Envelope>)
    ensures HandoffsFor(registry, requirement, EdgesInto(0, target), prior, [])
  {
  }

  /** A stage that has run before stage n leaves its agents' outputs, accepted, among the prior outputs. */
  lemma RanBefore(behaviour: Behaviour, stages: seq<StageRecord>, target: string, i: nat, a: string)
    requires WellRun(behaviour, stages) && HasShape(stages, target) && i < |stages| && a in StageAgents(i, target)
    ensures a in Overlay(stages) && Accepted(a, Overlay(stages)[a])
  {
    hide Accepted, StageAgents;
    assert a in Elements(StageAgents(i, target));
    OverlayKeys(stages, a);
    OverlayAccepted(behaviour, stages, a);
  }

  /** When it is the turn of stage n, all dependencies of its agents have accepted outputs. */
  lemma StageReady(behaviour: Behaviour, stages: seq<StageRecord>, target: string)
    requires |stages| < 7 && WellRun(behaviour, stages) && HasShape(stages, target)
    requires target in MultiAgentRun.AgentIds()
    ensures DependenciesMet(Elements(StageAgents(|stages|, target)), Overlay(stages))
  {
    hide WellRun, HasShape, Overlay, Accepted, DependsOn, StageAgents;
    var n := |stages|;
    forall a, d | a in Elements(StageAgents(n, target)) && d in DependsOn(a)
      ensures d in Overlay(stages) && Accepted(d, Overlay(stages)[d]) {
      var i := DependencyRan(n, target, a, d);
      RanBefore(behaviour, stages, target, i, d);
    }
  }

  lemma DependencyRan(n: nat, target: string, a: string, d: string) returns (i: nat)
    requires n < 7 && target in MultiAgentRun.AgentIds() && a in StageAgents(n, target) && d in DependsOn(a)
    ensures i < n && d in StageAgents(i, target)
  {
    hide AnalystId, DesignId, RiskId, TestId, SynthesisId, ReviewId;
    Distinct();
    i := if d == AnalystId() then 0 else if d == SynthesisId() then 2 else 1;
  }
}
