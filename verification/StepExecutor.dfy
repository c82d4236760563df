/** The single-agent step executor. */
module StepExecutor {
  // AgentExecutor over the workflow engine (src/specflow/executor/engine.py).

  import opened Prelude
  import opened Text
  import opened LegacyWorkflow

  datatype Step = Start | Analyze | Generate | Review

  /** `STEP_FOR_STATE`; terminal states have no step. */
  function StepForState(s: State): Step
    requires !IsTerminal(s)
  {
    match s
    case Created => Start
    case Analyzing => Analyze
    case Generating => Generate
    case Reviewing => Review
  }

  function StepName(step: Step): string {
    match step
    case Start => "start"
    case Analyze => "analyze"
    case Generate => "generate"
    case Review => "review"
  }

  /** The reason recorded when a step succeeds. */
  function SuccessReason(step: Step): string {
    if step == Start then "executor start" else StepName(step) + " succeeded"
  }

  /** The reasons a history records: of a step's success, and of its failure. */
  lemma ReasonsAre()
    ensures SuccessReason(Start) == "executor start" && SuccessReason(Analyze) == "analyze succeeded"
    ensures SuccessReason(Generate) == "generate succeeded" && SuccessReason(Review) == "review succeeded"
    ensures StepName(Analyze) + " failed" == "analyze failed" && StepName(Generate) + " failed" == "generate failed"
    ensures StepName(Review) + " failed" == "review failed"
  {
  }

  /** `NEXT_STATE_FOR_STEP` */
  function NextState(step: Step): State {
    match step
    case Start => Analyzing
    case Analyze => Generating
    case Generate => Reviewing
    case Review => State.Completed
  }

  /** `STEP_FOR_TRANSITION` */
  function StepForTransition(t: StateTransition): Option<Step> {
    if !IsTerminal(t.fromState) && t.toState == NextState(StepForState(t.fromState)) then Some(StepForState(t.fromState))
    else None
  }

  /** `_completed_steps_from_history` */
  function CompletedSteps(history: seq<StateTransition>): set<Step> {
    if history == [] then {}
    else
      var last := history[|history| - 1];
      CompletedSteps(history[..|history| - 1]) + match StepForTransition(last) case Some(s) => {s} case None => {}
  }

  datatype StepResult = StepResult(metadata: map<string, string>)

  /** The context a handler sees: the completed steps as a set. */
  datatype ExecutionContext =
    ExecutionContext(currentState: State, completedSteps: set<Step>, stepResults: map<Step, StepResult>)

  /** An exception that is not an `Exception` passes through the executor: the handler is interrupted. */
  datatype HandlerOutcome = Returned(result: StepResult) | Raised(errorType: string, message: string) | Interrupted

  /** What a handler does may depend on how many handler calls there were before, so on the moment. */
  type Handler = (nat, ExecutionContext) -> HandlerOutcome

  datatype ExecutionError = TerminalState | AlreadyExecuted | MissingHandler(step: Step)

  datatype Execution =
    | Success(step: Step, previousState: State, currentState: State, metadata: map<string, string>,
              history: seq<StateTransition>)
    | Failure(step: Step, previousState: State, errorType: string, errorMessage: string, history: seq<StateTransition>)
    | Refused(error: ExecutionError)
    | Interruption(step: Step)

  const START_METADATA := map["state" := "analyzing"]

  // ---- Handler calls ----

  datatype HandlerCall = HandlerCall(step: Step, interrupted: bool)

  function Steps(calls: seq<HandlerCall>): (r: seq<Step>)
    ensures |r| == |calls| && forall i :: 0 <= i < |r| ==> r[i] == calls[i].step
  {
    seq(|calls|, i requires 0 <= i < |calls| => calls[i].step)
  }

  /** The calls since `before` are for `steps`, in order, and only the last of them may be interrupted. */
  ghost predicate RanFrom(before: seq<HandlerCall>, calls: seq<HandlerCall>, steps: seq<Step>, interrupted: bool) {
    && before <= calls && Steps(calls[|before|..]) == steps
    && forall i :: |before| <= i < |calls| ==> (calls[i].interrupted <==> interrupted && i == |calls| - 1)
  }

  lemma NothingRan(calls: seq<HandlerCall>)
    ensures RanFrom(calls, calls, [], false)
  {
  }

  lemma RanOneMore(before: seq<HandlerCall>, calls: seq<HandlerCall>, steps: seq<Step>, c: HandlerCall)
    requires RanFrom(before, calls, steps, false)
    ensures RanFrom(before, calls + [c], steps + [c.step], c.interrupted)
  {
    assert (calls + [c])[|before|..] == calls[|before|..] + [c];
  }

  /** Only interrupted calls are repeated, and each of them by the very next call, if there is one. */
  ghost predicate InTurn(calls: seq<HandlerCall>) {
    && (forall i, j :: 0 <= i < j < |calls| && calls[i].step == calls[j].step ==> calls[i].interrupted)
    && (forall i :: 0 <= i < |calls| - 1 && calls[i].interrupted ==> calls[i + 1].step == calls[i].step)
  }

  lemma OneMoreCall(calls: seq<HandlerCall>, c: HandlerCall)
    requires InTurn(calls)
    requires forall i :: 0 <= i < |calls| && calls[i].step == c.step ==> calls[i].interrupted
    requires calls != [] && calls[|calls| - 1].interrupted ==> calls[|calls| - 1].step == c.step
    ensures InTurn(calls + [c])
  {
  }

  /** No handler runs twice if and only if no interrupted call was followed by another call. */
  lemma RunsAtMostOnceIff(calls: seq<HandlerCall>)
    requires InTurn(calls)
    ensures NoDuplicates(Steps(calls)) <==> forall i :: 0 <= i < |calls| - 1 ==> !calls[i].interrupted
  {
    var steps := Steps(calls);
    forall i | 0 <= i < |calls| - 1 && calls[i].interrupted ensures !NoDuplicates(steps) {
      assert steps[i] == steps[i + 1];
    }
  }

  /** How far a state is from the end. */
  function Distance(s: State): nat {
    match s
    case Created => 4
    case Analyzing => 3
    case Generating => 2
    case Reviewing => 1
    case Completed => 0
    case Failed => 0
  }

  /** The handlers still to run from a state. */
  function RemainingHandlers(s: State): seq<Step> {
    match s
    case Created => [Analyze, Generate, Review]
    case Analyzing => [Analyze, Generate, Review]
    case Generating => [Generate, Review]
    case Reviewing => [Review]
    case _ => []
  }

  lemma {:induction false} StepsAreBehind(history: seq<StateTransition>)
    requires forall i :: 0 <= i < |history| ==> Continues(history, i)
    ensures var s := Expected(history, |history|);
      !IsTerminal(s) ==> CompletedSteps(history) == set step | step in {Start, Analyze, Generate, Review} && Before(step, s)
  {
    if history != [] {
      var n := |history| - 1;
      var init := history[..n];
      forall i | 0 <= i < n ensures Continues(init, i) {
        assert Continues(history, i);
      }
      assert Continues(history, n);
      StepsAreBehind(init);
    }
  }

  lemma NextIsNotDone(s: Snapshot)
    requires Accepts(s) && !IsTerminal(s.currentState)
    ensures StepForState(s.currentState) !in CompletedSteps(s.history)
  {
    StepsAreBehind(s.history);
  }

  lemma CompletedAfter(s: Snapshot, r: Request)
    requires r.toState in Successors(s.currentState)
    ensures !IsTerminal(s.currentState)
    ensures CompletedSteps(Advance(s, r).history) == CompletedSteps(s.history)
      + if r.toState == NextState(StepForState(s.currentState)) then {StepForState(s.currentState)} else {}
  {
    hide Strip;
    assert Advance(s, r).history[..|s.history|] == s.history;
  }

  lemma StepIsLegal(s: State)
    requires !IsTerminal(s)
    ensures NextState(StepForState(s)) in Successors(s) && (s != Created ==> Failed in Successors(s))
    ensures NextState(StepForState(s)) != Failed && Distance(NextState(StepForState(s))) < Distance(s)
    ensures RemainingHandlers(s) ==
      (if s == Created then [] else [StepForState(s)]) + RemainingHandlers(NextState(StepForState(s)))
  {
  }

  /** A step whose state comes before `s`. */
  predicate Before(step: Step, s: State) {
    Distance(NextState(step)) >= Distance(s)
  }

  lemma FirstStep()
    ensures NextState(Start) == Analyzing && Analyzing in Successors(Created)
  {
  }

  ghost predicate CallsSettled(calls: seq<HandlerCall>, completedSteps: set<Step>, s: State) {
    && (forall i :: 0 <= i < |calls| ==> calls[i].step != Start)
    && (forall i :: 0 <= i < |calls| && !calls[i].interrupted ==> calls[i].step in completedSteps || s == Failed)
    && (calls != [] && calls[|calls| - 1].interrupted ==> !IsTerminal(s) && calls[|calls| - 1].step == StepForState(s))
  }

  /** The next call is for a step that no earlier call finished. */
  lemma CallInTurn(calls: seq<HandlerCall>, completedSteps: set<Step>, s: State, interrupted: bool)
    requires InTurn(calls) && CallsSettled(calls, completedSteps, s)
    requires !IsTerminal(s) && StepForState(s) !in completedSteps && StepForState(s) != Start
    ensures var step := StepForState(s);
      var after := calls + [HandlerCall(step, interrupted)];
      && InTurn(after)
      && (interrupted ==> CallsSettled(after, completedSteps, s))
      && (!interrupted ==> CallsSettled(after, completedSteps, Failed))
      && (!interrupted ==> CallsSettled(after, completedSteps + {step}, NextState(step)))
  {
    hide InTurn, StepForState, NextState;
    OneMoreCall(calls, HandlerCall(StepForState(s), interrupted));
  }

  lemma SettledFromStart(calls: seq<HandlerCall>, completedSteps: set<Step>)
    requires CallsSettled(calls, completedSteps, Created)
    ensures CallsSettled(calls, completedSteps + {Start}, Analyzing)
  {
  }

  class AgentExecutor {
    const handlers: map<Step, Handler>
    const workflow: WorkflowEngine
    /** `_safe_error_message` */
    const redact: string -> string
    var completedSteps: set<Step>
    var stepResults: map<Step, StepResult>
    /** The handler calls made through this executor, as a history. */
    var calls: seq<HandlerCall>

    /** A finished call is done for good unless the workflow failed at it; an interrupted one is still due. */
    ghost predicate Valid()
      reads this, workflow
    {
      && workflow.Valid() && completedSteps == CompletedSteps(workflow.history)
      && InTurn(calls) && CallsSettled(calls, completedSteps, workflow.currentState)
    }

    /** However it is driven, an executor runs no handler twice unless it is asked to go on after an interruption. */
    lemma HandlersRunOnceIff()
      requires Valid()
      ensures NoDuplicates(Steps(calls)) <==> forall i :: 0 <= i < |calls| - 1 ==> !calls[i].interrupted
    {
      hide InTurn, Steps;
      RunsAtMostOnceIff(calls);
    }

    constructor (handlers: map<Step, Handler>, workflow: WorkflowEngine, redact: string -> string)
      requires workflow.Valid()
      ensures Valid() && this.workflow == workflow && calls == [] && stepResults == map[]
      ensures this.handlers == handlers && this.redact == redact
    {
      this.handlers, this.workflow, this.redact := handlers, workflow, redact;
      completedSteps := CompletedSteps(workflow.history);
      stepResults := map[];
      calls := [];
    }

    /**
     * Exactly one step: nothing already done is done again, a refusal changes nothing, and an interruption leaves
     * the step to be done.
     */
    method ExecuteNext() returns (r: Execution)
      requires Valid()
      modifies this, workflow
      ensures Valid()
      ensures IsTerminal(old(workflow.currentState)) <==> r == Refused(TerminalState)
      ensures r.Refused? ==> r.error != AlreadyExecuted && calls == old(calls)
      ensures r.Refused? || r.Interruption? ==>
        && workflow.TakeSnapshot() == old(workflow.TakeSnapshot())
        && stepResults == old(stepResults) && completedSteps == old(completedSteps)
      ensures r.Refused? && r.error.MissingHandler? ==>
        && !IsTerminal(old(workflow.currentState)) && r.error.step == StepForState(old(workflow.currentState)) != Start
        && r.error.step !in handlers
      ensures !r.Refused? ==>
        && !IsTerminal(old(workflow.currentState)) && r.step == StepForState(old(workflow.currentState))
        && r.step !in old(completedSteps) && (r.step in handlers || r.step == Start)
        && calls == old(calls) + if r.step == Start then [] else [HandlerCall(r.step, r.Interruption?)]
      ensures r.Failure? || r.Interruption? ==> r.step != Start
      ensures r.Success? ==>
        && workflow.TakeSnapshot() ==
             Advance(old(workflow.TakeSnapshot()), Request(NextState(r.step), SuccessReason(r.step)))
        && workflow.currentState == NextState(r.step) == r.currentState
        && r.previousState == old(workflow.currentState) && r.history == workflow.history
      ensures r.Success? && r.step == Start ==> r.metadata == START_METADATA && stepResults == old(stepResults)
      ensures r.Failure? ==>
        && workflow.TakeSnapshot() ==
             Advance(old(workflow.TakeSnapshot()), Request(Failed, StepName(r.step) + " failed"))
        && workflow.currentState == Failed && stepResults == old(stepResults)
        && r.previousState == old(workflow.currentState) && r.history == workflow.history
      ensures !r.Refused? && (r.Success? ==> r.step != Start) ==>
        && r.step in handlers
        && match handlers[r.step](|old(calls)|, ExecutionContext(old(workflow.currentState), old(completedSteps),
                                                                 old(stepResults)))
           case Returned(result) =>
             r.Success? && r.metadata == result.metadata && stepResults == old(stepResults)[r.step := result]
           case Raised(errorType, message) =>
             r.Failure? && r.errorType == errorType && r.errorMessage == redact(message)
           case Interrupted => r.Interruption?
    {
      hide Accepts, CompletedSteps, NextState, Successors, Distance, RemainingHandlers, Strip, StepName, SuccessReason,
        InTurn, CallsSettled, StepForState;
      var previousState := workflow.currentState;
      if IsTerminal(previousState) {
        return Refused(TerminalState);
      }
      var step := StepForState(previousState);
      NextIsNotDone(workflow.TakeSnapshot());
      StepIsLegal(previousState);
      StartsFirst(previousState);
      if step in completedSteps {
        return Refused(AlreadyExecuted);
      }
      if previousState == Created {
        FirstStep();
        SettledFromStart(calls, completedSteps);
        CompletedAfter(workflow.TakeSnapshot(), Request(Analyzing, SuccessReason(Start)));
        var error := workflow.Transition(Analyzing, SuccessReason(Start));
        completedSteps := completedSteps + {step};
        return Success(step, previousState, workflow.currentState, START_METADATA, workflow.history);
      }
      if step !in handlers {
        return Refused(MissingHandler(step));
      }
      var outcome := handlers[step](|calls|, ExecutionContext(workflow.currentState, completedSteps, stepResults));
      CallInTurn(calls, completedSteps, previousState, outcome.Interrupted?);
      calls := calls + [HandlerCall(step, outcome.Interrupted?)];
      match outcome {
        case Interrupted =>
          return Interruption(step);
        case Raised(errorType, message) =>
          CompletedAfter(workflow.TakeSnapshot(), Request(Failed, StepName(step) + " failed"));
          var error := workflow.Transition(Failed, StepName(step) + " failed");
          return Failure(step, previousState, errorType, redact(message), workflow.history);
        case Returned(result) =>
          completedSteps := completedSteps + {step};
          stepResults := stepResults[step := result];
          CompletedAfter(workflow.TakeSnapshot(), Request(NextState(step), SuccessReason(step)));
          var error := workflow.Transition(NextState(step), SuccessReason(step));
          return Success(step, previousState, workflow.currentState, result.metadata, workflow.history);
      }
    }

    /**
     * Runs to a terminal state, to a step without a handler, or to an interruption. The handlers called are those
     * that remain from the first state, each once and in order; all of them when the workflow completes.
     */
    method ExecuteUntilComplete()
      returns (results: seq<Execution>, stop: Option<Execution>, ghost called: seq<Step>)
      requires Valid()
      modifies this, workflow
      ensures Valid()
      ensures stop.None? ==> IsTerminal(workflow.currentState)
      ensures stop.Some? ==>
        && !IsTerminal(workflow.currentState)
        && var step := StepForState(workflow.currentState);
           (stop.value == Refused(MissingHandler(step)) && step !in handlers) || stop.value == Interruption(step)
      ensures RanFrom(old(calls), calls, called, stop.Some? && stop.value.Interruption?)
      ensures called <= RemainingHandlers(old(workflow.currentState))
      ensures workflow.currentState == State.Completed ==> called == RemainingHandlers(old(workflow.currentState))
      ensures |results| <= 4 && forall i :: 0 <= i < |results| - 1 ==> results[i].Success?
    {
      hide Accepts, CompletedSteps, NextState, Successors, Distance, RemainingHandlers, Strip, InTurn, CallsSettled, RanFrom;
      results, stop, called := [], None, [];
      ghost var first := workflow.currentState;
      NothingRan(calls);
      DistanceBound(first);
      while !IsTerminal(workflow.currentState)
        invariant Valid() && RanFrom(old(calls), calls, called, false)
        invariant called + RemainingHandlers(workflow.currentState) == RemainingHandlers(first)
        invariant |results| + Distance(workflow.currentState) <= Distance(first) <= 4
        invariant forall i :: 0 <= i < |results| ==> results[i].Success?
        decreases Distance(workflow.currentState)
      {
        StepIsLegal(workflow.currentState);
        ghost var state := workflow.currentState;
        ghost var next := if state == Created then [] else [StepForState(state)];
        assert called + (next + RemainingHandlers(NextState(StepForState(state)))) ==
          called + next + RemainingHandlers(NextState(StepForState(state)));
        StartsFirst(state);
        ghost var before := calls;
        var result := ExecuteNext();
        if result.Refused? {
          stop := Some(result);
          return;
        }
        if state != Created {
          RanOneMore(old(calls), before, called, HandlerCall(result.step, result.Interruption?));
        }
        assert called + [] == called && before + [] == before;
        called := called + next;
        if result.Interruption? {
          stop := Some(result);
          return;
        }
        results := results + [result];
        if result.Failure? {
          return;
        }
      }
      NothingRemains(workflow.currentState);
    }
  }

  lemma StartsFirst(s: State)
    requires !IsTerminal(s)
    ensures StepForState(s) == Start <==> s == Created
  {
  }

  lemma DistanceBound(s: State)
    ensures Distance(s) <= 4
  {
  }

  lemma NothingRemains(s: State)
    requires IsTerminal(s)
    ensures RemainingHandlers(s) == []
  {
  }

  lemma RemainingIsNotDone(s: Snapshot, step: Step)
    requires Accepts(s) && step in RemainingHandlers(s.currentState)
    ensures step !in CompletedSteps(s.history)
  {
    StepsAreBehind(s.history);
  }

  /** Restored from a snapshot, an executor never repeats a step that the snapshot's history completed. */
  method RestoreAndExecute(snapshot: Snapshot, handlers: map<Step, Handler>, redact: string -> string)
    returns (executor: AgentExecutor?)
    ensures executor != null <==> Accepts(snapshot)
    ensures executor != null ==>
      && NoDuplicates(Steps(executor.calls)) && Steps(executor.calls) <= RemainingHandlers(snapshot.currentState)
      && forall step :: step in Steps(executor.calls) ==> step !in CompletedSteps(snapshot.history)
  {
    hide CompletedSteps, RemainingHandlers, Accepts, InTurn, Steps;
    var workflow := WorkflowEngine.Restore(snapshot);
    if workflow == null {
      return null;
    }
    var created := new AgentExecutor(handlers, workflow, redact);
    ghost var called;
    var results, stop;
    results, stop, called := created.ExecuteUntilComplete();
    assert created.calls[0..] == created.calls;
    RunsAtMostOnceIff(created.calls);
    forall step | step in Steps(created.calls) ensures step !in CompletedSteps(snapshot.history) {
      RemainingIsNotDone(snapshot, step);
    }
    executor := created;
  }

  /** Asked to go on after an interruption, an executor does run the handler again. */
  method GoOnAfterInterruption() returns (executor: AgentExecutor)
    ensures executor.Valid() && !NoDuplicates(Steps(executor.calls))
  {
    hide InTurn, CallsSettled, Accepts, CompletedSteps, Strip;
    var analyze: Handler := (n, c) => if n == 0 then Interrupted else Returned(StepResult(map[]));
    EmptyIsAccepted();
    var workflow := new WorkflowEngine(Created, []);
    executor := new AgentExecutor(map[Analyze := analyze], workflow, message => message);
    var started := executor.ExecuteNext();
    var interrupted := executor.ExecuteNext();
    assert executor.calls == [HandlerCall(Analyze, true)];
    var again := executor.ExecuteNext();
    assert executor.calls[0].interrupted && |executor.calls| == 2;
    executor.HandlersRunOnceIff();
  }
}
