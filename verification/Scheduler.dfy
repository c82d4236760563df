/** Staged parallel execution (src/specflow/coordinator/scheduler.py:108-183). */
module Scheduler {
  import opened Prelude

  /** What one executor call does. */
  datatype Outcome<+V> = Output(value: V) | Failure

  datatype ScheduleError = MissingExecutor(agentId: string) | AgentFailed(agentId: string) | TimeBudgetExceeded

  datatype StageResult<+V> = StageResult(stageIndex: nat, agentResults: map<string, V>)

  datatype Result<+V> = Ok(results: seq<StageResult<V>>) | Err(error: ScheduleError)

  /** One call handed to the pool: the agent and the prior outputs in its context. */
  datatype Submission<V> = Submission(stageIndex: nat, agentId: string, prior: map<string, V>)

  /** Deterministic executors: an agent's outcome is fixed by the prior outputs it sees. */
  type Executors<!V> = (string, map<string, V>) -> Outcome<V>

  // ---- Running the stages one agent after the other ----

  ghost predicate StageSucceeds<V>(run: Executors<V>, stage: seq<string>, prior: map<string, V>) {
    forall a :: a in stage ==> run(a, prior).Output?
  }

  ghost function StageOutputs<V>(run: Executors<V>, stage: seq<string>, prior: map<string, V>): map<string, V>
    requires StageSucceeds(run, stage, prior)
  {
    map a | a in stage :: run(a, prior).value
  }

  /** The prior outputs that stage `k` sees: those supplied, overlaid with the stages before it in turn. */
  ghost function PriorAt<V>(run: Executors<V>, stages: seq<seq<string>>, supplied: map<string, V>, k: nat)
    : map<string, V>
    requires k <= |stages| && Succeeds(run, stages, supplied, k)
    decreases k, 1
  {
    if k == 0 then supplied
    else
      var prior := PriorAt(run, stages, supplied, k - 1);
      prior + StageOutputs(run, stages[k - 1], prior)
  }

  /** The first `k` stages succeed. */
  ghost predicate Succeeds<V>(run: Executors<V>, stages: seq<seq<string>>, supplied: map<string, V>, k: nat)
    requires k <= |stages|
    decreases k, 0
  {
    k > 0 ==>
      && Succeeds(run, stages, supplied, k - 1)
      && StageSucceeds(run, stages[k - 1], PriorAt(run, stages, supplied, k - 1))
  }

  ghost function Sequential<V>(run: Executors<V>, stages: seq<seq<string>>, supplied: map<string, V>, k: nat)
    : seq<StageResult<V>>
    requires k <= |stages| && Succeeds(run, stages, supplied, k)
  {
    if k == 0 then []
    else
      var prior := PriorAt(run, stages, supplied, k - 1);
      Sequential(run, stages, supplied, k - 1) + [StageResult(k - 1, StageOutputs(run, stages[k - 1], prior))]
  }

  ghost function StageCalls<V>(k: nat, stage: seq<string>, prior: map<string, V>): (s: seq<Submission<V>>)
    ensures |s| == |stage| && forall i :: 0 <= i < |stage| ==> s[i] == Submission(k, stage[i], prior)
  {
    seq(|stage|, i requires 0 <= i < |stage| => Submission(k, stage[i], prior))
  }

  /** Every call of the first `k` stages. */
  ghost function Calls<V>(run: Executors<V>, stages: seq<seq<string>>, supplied: map<string, V>, k: nat)
    : seq<Submission<V>>
    requires k <= |stages| && Succeeds(run, stages, supplied, k)
  {
    if k == 0 then []
    else
      Calls(run, stages, supplied, k - 1)
      + StageCalls(k - 1, stages[k - 1], PriorAt(run, stages, supplied, k - 1))
  }

  ghost predicate Registered(registered: set<string>, stages: seq<seq<string>>, k: nat)
    requires k <= |stages|
  {
    forall i, a :: 0 <= i < k && a in stages[i] ==> a in registered
  }

  /** Why and where a run stopped, and what had been handed to the pool by then. */
  ghost predicate StoppedAt<V>(run: Executors<V>, registered: set<string>, stages: seq<seq<string>>,
                               supplied: map<string, V>, deadline: bool, error: ScheduleError,
                               calls: seq<Submission<V>>, k: nat)
  {
    && k < |stages| && Registered(registered, stages, k) && Succeeds(run, stages, supplied, k)
    && var before := Calls(run, stages, supplied, k);
       var prior := PriorAt(run, stages, supplied, k);
       match error
       case MissingExecutor(a) => a in stages[k] && a !in registered && calls == before
       case AgentFailed(a) =>
         && a in stages[k] && Registered(registered, stages, k + 1)
         && run(a, prior).Failure? && calls == before + StageCalls(k, stages[k], prior)
       case TimeBudgetExceeded =>
         && deadline && Registered(registered, stages, k + 1)
         && (calls == before || calls == before + StageCalls(k, stages[k], prior))
  }

  // ---- The scheduler ----

  /**
   * `calls` records what is handed to the pool. The order in which calls of a stage complete and the
   * moment a deadline passes are arbitrary.
   */
  method Execute<V>(stages: seq<seq<string>>, registered: set<string>, run: Executors<V>, supplied: map<string, V>,
                    deadline: bool)
    returns (r: Result<V>, ghost calls: seq<Submission<V>>)
    ensures r.Ok? ==>
      && Registered(registered, stages, |stages|) && Succeeds(run, stages, supplied, |stages|)
      && r.results == Sequential(run, stages, supplied, |stages|)
    ensures r.Ok? ==> calls == Calls(run, stages, supplied, |stages|)
    ensures r.Err? && !deadline ==>
      !(Registered(registered, stages, |stages|) && Succeeds(run, stages, supplied, |stages|))
    ensures r.Err? ==> exists k :: StoppedAt(run, registered, stages, supplied, deadline, r.error, calls, k)
  {
    hide StageSucceeds, StageOutputs;
    var results: seq<StageResult<V>> := [];
    var prior := supplied;
    calls := [];
    var k := 0;
    while k < |stages|
      invariant k <= |stages| && Registered(registered, stages, k) && Succeeds(run, stages, supplied, k)
      invariant prior == PriorAt(run, stages, supplied, k) && results == Sequential(run, stages, supplied, k)
      invariant calls == Calls(run, stages, supplied, k)
    {
      var missing := FirstMissing(stages[k], registered);
      if missing.Some? {
        r := Err(MissingExecutor(missing.value));
        assert StoppedAt(run, registered, stages, supplied, deadline, r.error, calls, k);
        if !deadline { FailsOnlyForCause(run, registered, stages, supplied, r.error, calls, k); }
        return;
      }
      var expired: bool := *;
      if deadline && expired {
        r := Err(TimeBudgetExceeded);
        assert StoppedAt(run, registered, stages, supplied, deadline, r.error, calls, k);
        return;
      }
      calls := calls + StageCalls(k, stages[k], prior);
      var agentResults, failure := RunStage(stages[k], run, prior, deadline);
      if failure.Some? {
        r := Err(failure.value);
        assert StoppedAt(run, registered, stages, supplied, deadline, r.error, calls, k);
        if !deadline { FailsOnlyForCause(run, registered, stages, supplied, r.error, calls, k); }
        return;
      }
      prior := prior + agentResults;
      results := results + [StageResult(k, agentResults)];
      k := k + 1;
    }
    r := Ok(results);
  }

  method FirstMissing(stage: seq<string>, registered: set<string>) returns (missing: Option<string>)
    ensures missing.None? <==> forall a :: a in stage ==> a in registered
    ensures missing.Some? ==> missing.value in stage && missing.value !in registered
  {
    var i := 0;
    while i < |stage|
      invariant i <= |stage| && forall j :: 0 <= j < i ==> stage[j] in registered
    {
      if stage[i] !in registered {
        return Some(stage[i]);
      }
      i := i + 1;
    }
    return None;
  }

  /** Submits every call of a stage, then collects them as they complete. */
  method RunStage<V>(stage: seq<string>, run: Executors<V>, prior: map<string, V>, deadline: bool)
    returns (agentResults: map<string, V>, failure: Option<ScheduleError>)
    ensures failure.None? ==> StageSucceeds(run, stage, prior) && agentResults == StageOutputs(run, stage, prior)
    ensures failure.Some? ==> match failure.value
      case AgentFailed(a) => a in stage && run(a, prior).Failure?
      case TimeBudgetExceeded => deadline
      case MissingExecutor(_) => false
  {
    var futureMap: map<nat, string> := map[];
    var i := 0;
    while i < |stage|
      invariant i <= |stage|
      invariant forall f :: f in futureMap <==> 0 <= f < i
      invariant forall f :: 0 <= f < i ==> futureMap[f] == stage[f]
    {
      futureMap := futureMap[i := stage[i]];
      i := i + 1;
    }
    agentResults := map[];
    var pending := futureMap.Keys;
    while pending != {}
      invariant pending <= futureMap.Keys
      invariant forall f :: f in futureMap && f !in pending ==> stage[f] in agentResults
      invariant forall a :: a in agentResults ==>
        a in stage && run(a, prior).Output? && agentResults[a] == run(a, prior).value
    {
      var expired: bool := *;
      if deadline && expired {
        return agentResults, Some(TimeBudgetExceeded);
      }
      var future :| future in pending;
      var agentId := futureMap[future];
      match run(agentId, prior) {
        case Output(value) => agentResults := agentResults[agentId := value];
        case Failure => return agentResults, Some(AgentFailed(agentId));
      }
      pending := pending - {future};
    }
    AllCollected(stage, run, prior, agentResults);
    return agentResults, None;
  }

  lemma AllCollected<V>(stage: seq<string>, run: Executors<V>, prior: map<string, V>, agentResults: map<string, V>)
    requires forall f :: 0 <= f < |stage| ==> stage[f] in agentResults
    requires forall a :: a in agentResults ==>
      a in stage && run(a, prior).Output? && agentResults[a] == run(a, prior).value
    ensures StageSucceeds(run, stage, prior) && agentResults == StageOutputs(run, stage, prior)
  {
  }

  // ---- What a run shows, whatever the completion order ----

  lemma {:induction false} SucceedsEarlier<V>(run: Executors<V>, stages: seq<seq<string>>, supplied: map<string, V>,
                                              j: nat, k: nat)
    requires j <= k <= |stages| && Succeeds(run, stages, supplied, k)
    ensures Succeeds(run, stages, supplied, j)
    decreases k - j
  {
    if j < k {
      SucceedsEarlier(run, stages, supplied, j, k - 1);
    }
  }

  lemma SucceedsStage<V>(run: Executors<V>, stages: seq<seq<string>>, supplied: map<string, V>, j: nat, k: nat)
    requires j < k <= |stages| && Succeeds(run, stages, supplied, k)
    ensures Succeeds(run, stages, supplied, j) && StageSucceeds(run, stages[j], PriorAt(run, stages, supplied, j))
  {
    SucceedsEarlier(run, stages, supplied, j + 1, k);
  }

  /** Stage i is the last one before stage k in which `a` runs. */
  ghost predicate LastRan(stages: seq<seq<string>>, k: nat, a: string, i: nat)
    requires k <= |stages|
  {
    i < k && a in stages[i] && forall j :: i < j < k ==> a !in stages[j]
  }

  /** `a` ran before stage k, and the value is what it put out the last time. */
  ghost predicate LatestOutput<V>(run: Executors<V>, stages: seq<seq<string>>, supplied: map<string, V>, k: nat,
                                  a: string, value: V)
    requires k <= |stages|
  {
    exists i: nat ::
      && LastRan(stages, k, a, i) && Succeeds(run, stages, supplied, i)
      && run(a, PriorAt(run, stages, supplied, i)) == Output(value)
  }

  /** A stage sees an agent's latest output before it, or else what was supplied for that agent. */
  lemma {:induction false} PriorIsLatest<V>(run: Executors<V>, stages: seq<seq<string>>, supplied: map<string, V>,
                                            k: nat, a: string)
    requires k <= |stages| && Succeeds(run, stages, supplied, k)
    ensures var prior := PriorAt(run, stages, supplied, k);
      if exists i :: 0 <= i < k && a in stages[i] then a in prior && LatestOutput(run, stages, supplied, k, a, prior[a])
      else if a in supplied then a in prior && prior[a] == supplied[a]
      else a !in prior
  {
    hide LatestOutput;
    if k > 0 {
      var prior := PriorAt(run, stages, supplied, k - 1);
      var outputs := StageOutputs(run, stages[k - 1], prior);
      PriorIsLatest(run, stages, supplied, k - 1, a);
      if a in stages[k - 1] {
        OutputNow(run, stages, supplied, k - 1, a);
        assert a in outputs && outputs[a] == run(a, prior).value;
      } else {
        assert a !in outputs;
        if a in prior && LatestOutput(run, stages, supplied, k - 1, a, prior[a]) {
          OutputEarlier(run, stages, supplied, k - 1, a, prior[a]);
        }
      }
    }
  }

  lemma OutputNow<V>(run: Executors<V>, stages: seq<seq<string>>, supplied: map<string, V>, k: nat, a: string)
    requires k < |stages| && Succeeds(run, stages, supplied, k + 1) && a in stages[k]
    ensures LatestOutput(run, stages, supplied, k + 1, a, run(a, PriorAt(run, stages, supplied, k)).value)
  {
    hide PriorAt;
    assert LastRan(stages, k + 1, a, k);
  }

  lemma OutputEarlier<V>(run: Executors<V>, stages: seq<seq<string>>, supplied: map<string, V>, k: nat, a: string,
                         value: V)
    requires k < |stages| && LatestOutput(run, stages, supplied, k, a, value) && a !in stages[k]
    ensures LatestOutput(run, stages, supplied, k + 1, a, value)
  {
    hide Succeeds, PriorAt;
    var i: nat :| && LastRan(stages, k, a, i) && Succeeds(run, stages, supplied, i)
                  && run(a, PriorAt(run, stages, supplied, i)) == Output(value);
    assert LastRan(stages, k + 1, a, i);
  }

  /** Each call is for an agent of its stage, sees exactly that stage's prior outputs, and follows all earlier calls. */
  lemma {:induction false} EachCallSees<V>(run: Executors<V>, stages: seq<seq<string>>, supplied: map<string, V>,
                                           k: nat, i: nat)
    requires k <= |stages| && Succeeds(run, stages, supplied, k) && i < |Calls(run, stages, supplied, k)|
    ensures var c := Calls(run, stages, supplied, k)[i];
      && c.stageIndex < k && c.agentId in stages[c.stageIndex] && Succeeds(run, stages, supplied, c.stageIndex)
      && c.prior == PriorAt(run, stages, supplied, c.stageIndex)
      && forall j :: 0 <= j < i ==> Calls(run, stages, supplied, k)[j].stageIndex <= c.stageIndex
    decreases k
  {
    hide StageOutputs, StageSucceeds;
    var earlier := Calls(run, stages, supplied, k - 1);
    if i < |earlier| {
      EachCallSees(run, stages, supplied, k - 1, i);
    } else {
      forall j | 0 <= j < |earlier| ensures earlier[j].stageIndex < k - 1 {
        EachCallSees(run, stages, supplied, k - 1, j);
      }
    }
  }

  /** One result per stage and agent, in order: what the agent's executor puts out on the results before its stage. */
  lemma {:induction false} ResultsAre<V>(run: Executors<V>, stages: seq<seq<string>>, supplied: map<string, V>, k: nat)
    requires k <= |stages| && Succeeds(run, stages, supplied, k)
    ensures var results := Sequential(run, stages, supplied, k);
      && |results| == k
      && forall i :: 0 <= i < k ==>
           && results[i].stageIndex == i && results[i].agentResults.Keys == Elements(stages[i])
           && Succeeds(run, stages, supplied, i)
           && forall a :: a in stages[i] ==>
                run(a, PriorAt(run, stages, supplied, i)) == Output(results[i].agentResults[a])
  {
    if k > 0 {
      ResultsAre(run, stages, supplied, k - 1);
      var before, results := Sequential(run, stages, supplied, k - 1), Sequential(run, stages, supplied, k);
      assert forall i :: 0 <= i < k - 1 ==> results[i] == before[i];
    }
  }

  /** After a failure at stage k nothing of a later stage was ever started. */
  lemma NothingStartsAfterFailure<V>(run: Executors<V>, registered: set<string>, stages: seq<seq<string>>,
                                     supplied: map<string, V>, deadline: bool, error: ScheduleError,
                                     calls: seq<Submission<V>>, k: nat)
    requires StoppedAt(run, registered, stages, supplied, deadline, error, calls, k)
    ensures forall c :: c in calls ==> c.stageIndex <= k
    ensures forall c :: c in calls && c.stageIndex == k ==> c.agentId in stages[k] && !error.MissingExecutor?
  {
    hide StageOutputs, StageSucceeds, Calls, PriorAt;
    var before := Calls(run, stages, supplied, k);
    forall i | 0 <= i < |before| ensures before[i].stageIndex < k {
      EachCallSees(run, stages, supplied, k, i);
    }
  }

  /** Without a deadline a run fails exactly when some executor is missing or some agent fails. */
  lemma FailsOnlyForCause<V>(run: Executors<V>, registered: set<string>, stages: seq<seq<string>>,
                             supplied: map<string, V>, error: ScheduleError, calls: seq<Submission<V>>, k: nat)
    requires StoppedAt(run, registered, stages, supplied, false, error, calls, k)
    ensures !(Registered(registered, stages, |stages|) && Succeeds(run, stages, supplied, |stages|))
  {
    if Succeeds(run, stages, supplied, |stages|) {
      SucceedsStage(run, stages, supplied, k, |stages|);
    }
  }

  /** Without a deadline, which of several failing agents is named may vary; the stage, its cause and the calls do not. */
  lemma FailureStageIsFixed<V>(run: Executors<V>, registered: set<string>, stages: seq<seq<string>>,
                               supplied: map<string, V>, e: ScheduleError, c: seq<Submission<V>>, k: nat,
                               e': ScheduleError, c': seq<Submission<V>>, k': nat)
    requires StoppedAt(run, registered, stages, supplied, false, e, c, k)
    requires StoppedAt(run, registered, stages, supplied, false, e', c', k')
    ensures k == k' && c == c' && (e.MissingExecutor? <==> e'.MissingExecutor?)
  {
    hide StageOutputs, Calls, PriorAt;
    if k < k' {
      StopsRunBefore(run, registered, stages, supplied, e, c, k, k');
    } else if k' < k {
      StopsRunBefore(run, registered, stages, supplied, e', c', k', k);
    }
  }

  lemma StopsRunBefore<V>(run: Executors<V>, registered: set<string>, stages: seq<seq<string>>,
                          supplied: map<string, V>, e: ScheduleError, c: seq<Submission<V>>, k: nat, later: nat)
    requires StoppedAt(run, registered, stages, supplied, false, e, c, k) && k < later <= |stages|
    ensures !(Registered(registered, stages, later) && Succeeds(run, stages, supplied, later))
  {
    if Succeeds(run, stages, supplied, later) {
      SucceedsStage(run, stages, supplied, k, later);
    }
  }
}
