/** Rejected runs that are not revised: the guard counts a revision that the engine never enters. */
module RevisionCounts {
  import opened Prelude
  import opened Text
  import opened MultiAgentWorkflow
  import opened Handoffs
  import opened MultiAgentRun
  import opened RunHandoffs
  import opened MultiAgentRunner

  /** The answer of an agent that reports no usage; the review agent's decision and target are in it. */
  function Answer(a: string, decision: Decision, target: string): Envelope {
    Envelope(Some(a), true, true, false, Object(Body(decision, Some(target), "")), true)
  }

  /** Executors and schemas that accept and answer everything. */
  function Obliging(decision: Decision, target: string): Behaviour {
    Behaviour((i, a, prior) => Returned(Answer(a, decision, target), Tokens(0, 0)),
              (a, prior) => true,
              (a, body) => Some(body))
  }

  /** Room for the six calls up to the first review. */
  predicate Roomy(policy: ExecutionPolicy) {
    IsTokenPolicy(policy.tokens) && policy.maxParallelAgents >= 3 && policy.maxLlmCalls >= 6
  }

  ghost predicate AllAnswers(stages: seq<StageRecord>, decision: Decision, target: string) {
    forall i, a :: 0 <= i < |stages| && a in stages[i].results ==> stages[i].results[a] == Answer(a, decision, target)
  }

  lemma {:induction false} NoUsage(w: string -> int, s: set<string>)
    requires forall a :: w(a) == 0
    ensures SumOver(w, s) == 0
    decreases |s|
  {
    if s != {} {
      var x :| x in s && SumOver(w, s) == w(x) + SumOver(w, s - {x});
      NoUsage(w, s - {x});
    }
  }

  lemma ObligingCallsFit(policy: ExecutionPolicy, decision: Decision, target: string, stages: seq<StageRecord>,
                         calls: nat, agents: seq<string>)
    requires Roomy(policy) && calls + |Elements(agents)| <= policy.maxLlmCalls
    ensures var j := JobAt(policy, Budget(calls, 0, 0), Obliging(decision, target), stages, agents);
      CallsFit(j) && UsedAfter(j) == Budget(calls + |Elements(agents)|, 0, 0)
  {
    hide Elements, Overlay;
    var j := JobAt(policy, Budget(calls, 0, 0), Obliging(decision, target), stages, agents);
    NoUsage(InputOf(j), j.agents);
    NoUsage(OutputOf(j), j.agents);
  }

  lemma ObligingAccepted(decision: Decision, target: string, stages: seq<StageRecord>, agents: seq<string>)
    ensures AllAccepted(Obliging(decision, target), stages, agents)
    ensures var record := NextRecord(Obliging(decision, target), stages, agents);
      record.results.Keys == Elements(agents) && forall a :: a in record.results ==> record.results[a] == Answer(a, decision, target)
  {
    hide Overlay;
  }

  lemma ObligingTransferable(decision: Decision, target: string, revised: string, stages: seq<StageRecord>)
    requires |stages| < 7 && HasShape(stages, revised) && AllAnswers(stages, decision, target)
    ensures AllTransferable(EdgesInto(|stages|, revised), Overlay(stages))
  {
    hide EdgesInto, Overlay, HasShape;
    var edges := EdgesInto(|stages|, revised);
    forall k | 0 <= k < |edges|
      ensures edges[k].sender in Overlay(stages) && Transferable(Overlay(stages)[edges[k].sender]) {
      var e := edges[k];
      assert e in edges;
      EdgeIsCurrent(stages, revised, e);
      assert stages[e.senderStage].results[e.sender] == Answer(e.sender, decision, target);
    }
  }

  /** Obliging executors get every run of a roomy policy to its first review. */
  lemma {:induction false} ObligingPlays(policy: ExecutionPolicy, decision: Decision, target: string, n: nat)
    requires Roomy(policy) && n <= 4
    ensures var r := Play(policy, Obliging(decision, target), DesignId(), n);
      && r.Playing? && HasShape(r.stages, DesignId()) && AllAnswers(r.stages, decision, target)
      && r.used == Budget(CallsBy(n, DesignId()), 0, 0)
  {
    hide EdgesInto, Overlay, AllTransferable, CallsFit, AllAccepted, UsedAfter, NextRecord, JobAt, StageAgents, DesignId;
    if n > 0 {
      ObligingPlays(policy, decision, target, n - 1);
      var before := Play(policy, Obliging(decision, target), DesignId(), n - 1);
      var agents := StageAgents(n - 1, DesignId());
      FewCalls(n - 1);
      ObligingTransferable(decision, target, DesignId(), before.stages);
      ObligingCallsFit(policy, decision, target, before.stages, CallsBy(n - 1, DesignId()), agents);
      ObligingAccepted(decision, target, before.stages, agents);
    }
  }

  lemma FewCalls(n: nat)
    requires n < 4
    ensures var agents := StageAgents(n, DesignId());
      |agents| <= 3 && |Elements(agents)| == |agents| && CallsBy(n, DesignId()) + |agents| <= 6
  {
    hide AnalystId, DesignId, RiskId, TestId, SynthesisId, ReviewId;
    Distinct();
    NoDuplicatesCardinality(StageAgents(n, DesignId()));
    assert CallsBy(0, DesignId()) == 0;
    assert CallsBy(1, DesignId()) == 1;
    assert CallsBy(2, DesignId()) == 4;
    assert CallsBy(3, DesignId()) == 5;
  }

  /** The first review of an obliging run is what its review agent says. */
  lemma ObligingReview(policy: ExecutionPolicy, decision: Decision, target: string)
    requires Roomy(policy) && Strip(target) != ""
    ensures var r := Play(policy, Obliging(decision, target), DesignId(), 4);
      r.Playing? && Verdict(r.stages, 3) == decision && RequestedTarget(r.stages) == target
  {
    hide Play, DesignId, Overlay, ReviewId;
    ObligingPlays(policy, decision, target, 4);
    var stages := Play(policy, Obliging(decision, target), DesignId(), 4).stages;
    assert stages[..4] == stages;
    assert ReviewId() in Elements(StageAgents(3, DesignId()));
    assert stages[3].results[ReviewId()] == Answer(ReviewId(), decision, target);
    OverlayLatest(stages, ReviewId(), 3);
  }

  /** A rejection for which no revision is allowed counts with the guard alone, whether the run completes or not. */
  method RejectUnrevised(registry: map<string, Identity>, requirement: string, policy: ExecutionPolicy,
                         revisions: RevisionPolicy, target: string)
    returns (run: Run, completed: bool)
    requires IsRegistry(registry) && Roomy(policy) && Strip(target) != ""
    requires policy.maxRevisions == 0 || target !in registry || revisions.maxTotalRounds == 0
             || registry[target].role !in revisions.revisableRoles
    ensures run.Valid() && run.runner.guard.revisionCount == 1 && run.engine.revisionCount == 0
    ensures completed <==> policy.maxRevisions > 0 && target in registry
  {
    hide Play, IsRegistry, HasShape, WellRun, Overlay, Verdict, Run.Finished, Run.Fresh, DesignId, LegalPath, Revisions,
      RequestedTarget, Strip, IsTokenPolicy;
    run := new Run(registry, requirement, Obliging(Reject, target), policy, revisions, false);
    ObligingReview(policy, Reject, target);
    ghost var n, revised;
    completed, n, revised := run.Execute();
    ReviewOnly(registry, run.runner.behaviour, policy, revisions, run.runner.stages);
  }
}
