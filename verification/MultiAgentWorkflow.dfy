/** The parts that a multi-agent run drives. */
module MultiAgentWorkflow {
  // The state machine (src/specflow/coordinator/state_machine.py), the revision controller
  // (src/specflow/coordinator/revision.py) and the budget guard (src/specflow/policy/runtime_guard.py).

  import opened Prelude

  // ---- The state machine ----

  datatype State =
    | Created | Planning | Analyzing | ExecutingSpecialists | Synthesizing | Reviewing | Revising | Completed | Failed

  function Successors(s: State): set<State> {
    match s
    case Created => {Planning}
    case Planning => {Analyzing, Failed}
    case Analyzing => {ExecutingSpecialists, Failed}
    case ExecutingSpecialists => {Synthesizing, Failed}
    case Synthesizing => {Reviewing, Failed}
    case Reviewing => {Completed, Revising, Failed}
    case Revising => {Synthesizing, Failed}
    case Completed => {}
    case Failed => {}
  }

  datatype Entry = Entry(origin: State, target: State, reason: string)

  /** A chain of legal transitions from `created` to `s`. */
  ghost predicate LegalPath(history: seq<Entry>, s: State) {
    && (forall i :: 0 <= i < |history| ==> history[i].target in Successors(history[i].origin))
    && (forall i :: 0 < i < |history| ==> history[i].origin == history[i - 1].target)
    && (if history == [] then s == Created else history[0].origin == Created && history[|history| - 1].target == s)
  }

  /** The states entered, in order. */
  function Trail(history: seq<Entry>): (t: seq<State>)
    ensures |t| == |history| && forall i :: 0 <= i < |t| ==> t[i] == history[i].target
  {
    seq(|history|, i requires 0 <= i < |history| => history[i].target)
  }

  function Revisions(trail: seq<State>): nat {
    if trail == [] then 0
    else Revisions(trail[..|trail| - 1]) + if trail[|trail| - 1] == Revising then 1 else 0
  }

  class WorkflowEngine {
    var state: State
    var revisionCount: nat
    var history: seq<Entry>
    /** How many illegal transitions were attempted. */
    ghost var refusals: nat

    ghost predicate Valid()
      reads this
    {
      LegalPath(history, state) && revisionCount == Revisions(Trail(history))
    }

    constructor ()
      ensures Valid() && state == Created && history == [] && revisionCount == 0 && refusals == 0
    {
      state, revisionCount, history, refusals := Created, 0, [], 0;
    }

    method Transition(toState: State, reason: string) returns (ok: bool)
      requires Valid()
      modifies this
      ensures Valid()
      ensures ok <==> toState in Successors(old(state))
      ensures ok ==> state == toState && history == old(history) + [Entry(old(state), toState, reason)]
      ensures ok ==> Trail(history) == old(Trail(history)) + [toState] && refusals == old(refusals)
      ensures !ok ==> state == old(state) && history == old(history) && refusals == old(refusals) + 1
    {
      hide LegalPath, Trail, Revisions, Successors;
      if toState !in Successors(state) {
        refusals := refusals + 1;
        return false;
      }
      ExtendPath(history, state, Entry(state, toState, reason));
      var fromState := state;
      if toState == Revising {
        revisionCount := revisionCount + 1;
      }
      state := toState;
      history := history + [Entry(fromState, toState, reason)];
      return true;
    }
  }

  lemma ExtendPath(history: seq<Entry>, s: State, e: Entry)
    requires LegalPath(history, s) && e.origin == s && e.target in Successors(s)
    ensures LegalPath(history + [e], e.target)
    ensures Trail(history + [e]) == Trail(history) + [e.target]
    ensures Revisions(Trail(history + [e])) == Revisions(Trail(history)) + if e.target == Revising then 1 else 0
  {
    hide Successors;
    assert (Trail(history) + [e.target])[..|history|] == Trail(history);
  }

  /** The state entered at step `i`: planning, analysis, the specialists, then synthesis, review and revision in turn. */
  function OnCourse(i: nat): State {
    if i == 0 then Planning
    else if i == 1 then Analyzing
    else if i == 2 then ExecutingSpecialists
    else if i % 3 == 0 then Synthesizing
    else if i % 3 == 1 then Reviewing
    else Revising
  }

  /** Entry `i` stays on course; or it is the last: a failure once planning began, or the completion after a review. */
  predicate StaysOnCourse(history: seq<Entry>, i: nat)
    requires i < |history|
  {
    && history[i].origin == (if i == 0 then Created else OnCourse(i - 1))
    && (|| history[i].target == OnCourse(i)
        || (i == |history| - 1 && i >= 1 && history[i].target == Failed)
        || (i == |history| - 1 && i >= 5 && i % 3 == 2 && history[i].target == Completed))
  }

  /** The legal histories are those that stay on course. */
  lemma LegalPathsAre(history: seq<Entry>, s: State)
    ensures LegalPath(history, s) <==>
      && (forall i :: 0 <= i < |history| ==> StaysOnCourse(history, i))
      && s == if history == [] then Created else history[|history| - 1].target
  {
    hide StaysOnCourse;
    if LegalPath(history, s) {
      forall i | 0 <= i < |history| ensures StaysOnCourse(history, i) {
        LegalStaysOnCourse(history, s, i);
      }
    }
    if forall i :: 0 <= i < |history| ==> StaysOnCourse(history, i) {
      forall i | 0 <= i < |history|
        ensures history[i].target in Successors(history[i].origin)
        ensures i > 0 ==> history[i].origin == history[i - 1].target
        ensures i == 0 ==> history[i].origin == Created {
        OnCourseIsLegal(history, i);
      }
    }
  }

  lemma {:induction false} LegalStaysOnCourse(history: seq<Entry>, s: State, i: nat)
    requires LegalPath(history, s) && i < |history|
    ensures StaysOnCourse(history, i)
  {
    if i > 0 {
      LegalStaysOnCourse(history, s, i - 1);
    }
    if i + 1 < |history| {
      assert history[i + 1].target in Successors(history[i + 1].origin);
    }
  }

  lemma OnCourseIsLegal(history: seq<Entry>, i: nat)
    requires (forall j :: 0 <= j < |history| ==> StaysOnCourse(history, j)) && i < |history|
    ensures history[i].target in Successors(history[i].origin)
    ensures history[i].origin == if i == 0 then Created else history[i - 1].target
  {
    assert StaysOnCourse(history, i);
    if i > 0 {
      assert StaysOnCourse(history, i - 1);
    }
  }

  // ---- The revision controller ----

  datatype Role = RepositoryAnalyst | Design | TestStrategy | RiskReview | Synthesis | Review

  datatype RevisionPolicy = RevisionPolicy(maxTotalRounds: nat, revisableRoles: set<Role>)

  datatype RevisionTask = RevisionTask(targetAgentId: string, targetRole: Role, roundNumber: nat)

  class RevisionController {
    const policy: RevisionPolicy
    var round: nat
    var tasks: seq<RevisionTask>

    ghost predicate Valid()
      reads this
    {
      && round == |tasks| <= policy.maxTotalRounds
      && forall i :: 0 <= i < |tasks| ==> tasks[i].roundNumber == i + 1 && tasks[i].targetRole in policy.revisableRoles
    }

    constructor (policy: RevisionPolicy)
      ensures Valid() && this.policy == policy && tasks == []
    {
      this.policy := policy;
      round, tasks := 0, [];
    }

    predicate Exhausted()
      reads this
    {
      round >= policy.maxTotalRounds
    }

    /** A task for a revisable role while rounds remain, and nothing otherwise. */
    method CreateRevisionTask(targetAgentId: string, targetRole: Role) returns (task: Option<RevisionTask>)
      requires Valid()
      modifies this
      ensures Valid()
      ensures task.Some? <==> |old(tasks)| < policy.maxTotalRounds && targetRole in policy.revisableRoles
      ensures task.Some? ==>
        && tasks == old(tasks) + [task.value]
        && task.value == RevisionTask(targetAgentId, targetRole, |old(tasks)| + 1)
      ensures task.None? ==> tasks == old(tasks)
    {
      if Exhausted() {
        return None;
      }
      if targetRole !in policy.revisableRoles {
        return None;
      }
      round := round + 1;
      var created := RevisionTask(targetAgentId, targetRole, round);
      tasks := tasks + [created];
      return Some(created);
    }
  }

  // ---- The budget guard ----

  datatype TokenPolicy = TokenPolicy(
    maxAgentInput: int, maxAgentOutput: int, maxRunInput: int, maxRunOutput: int, maxRunTotal: int, reservedRetry: int)

  datatype ExecutionPolicy = ExecutionPolicy(
    maxLlmCalls: nat, maxRevisions: nat, maxParallelAgents: nat, tokens: TokenPolicy)

  /** What one agent reports: token counts, or something that is not a pair of integers. */
  datatype Usage = Tokens(input: int, output: int) | NotIntegers

  /** What a run has used of its call and token budgets. */
  datatype Budget = Budget(llmCalls: int, input: int, output: int)

  /** What the field checks of a policy let through. */
  predicate IsTokenPolicy(p: TokenPolicy) {
    && p.maxAgentInput > 0 && p.maxAgentOutput > 0 && p.maxRunInput > 0 && p.maxRunOutput > 0
    && 0 <= p.reservedRetry < p.maxRunTotal
  }

  predicate UsageFits(p: TokenPolicy, u: Usage) {
    u.Tokens? && 0 <= u.input <= p.maxAgentInput && 0 <= u.output <= p.maxAgentOutput
  }

  /** The run-wide boundaries; normal calls may not use what is reserved for retries. */
  predicate WithinRun(p: TokenPolicy, input: int, output: int, isRetry: bool) {
    && input <= p.maxRunInput && output <= p.maxRunOutput
    && input + output <= p.maxRunTotal - if isRetry then 0 else p.reservedRetry
  }

  class RuntimeGuard {
    const policy: ExecutionPolicy
    /** Whether the wall clock can run out during the run. */
    const deadline: bool
    var llmCalls: nat
    var totalInputTokens: nat
    var totalOutputTokens: nat
    var revisionCount: nat

    /** No budget is ever overdrawn. */
    ghost predicate Valid()
      reads this`llmCalls, this`totalInputTokens, this`totalOutputTokens
    {
      && IsTokenPolicy(policy.tokens) && llmCalls <= policy.maxLlmCalls
      && WithinRun(policy.tokens, totalInputTokens, totalOutputTokens, true)
    }

    function Used(): Budget
      reads this`llmCalls, this`totalInputTokens, this`totalOutputTokens
    {
      Budget(llmCalls, totalInputTokens, totalOutputTokens)
    }

    constructor (policy: ExecutionPolicy, deadline: bool)
      requires IsTokenPolicy(policy.tokens)
      ensures Valid() && this.policy == policy && this.deadline == deadline
      ensures Used() == Budget(0, 0, 0) && revisionCount == 0
    {
      this.policy, this.deadline := policy, deadline;
      llmCalls, totalInputTokens, totalOutputTokens, revisionCount := 0, 0, 0, 0;
    }

    method ConsumeLlmCall() returns (ok: bool)
      requires Valid()
      modifies this`llmCalls
      ensures Valid()
      ensures ok <==> old(llmCalls) < policy.maxLlmCalls
      ensures llmCalls == old(llmCalls) + if ok then 1 else 0
    {
      var nextValue := llmCalls + 1;
      if nextValue > policy.maxLlmCalls {
        return false;
      }
      llmCalls := nextValue;
      return true;
    }

    /** Counts one agent's usage exactly when every boundary holds with it, and otherwise counts nothing. */
    method ConsumeTokens(usage: Usage, isRetry: bool) returns (ok: bool)
      requires Valid()
      modifies this`totalInputTokens, this`totalOutputTokens
      ensures Valid()
      ensures ok <==>
        && usage.Tokens? && 0 <= usage.input <= policy.tokens.maxAgentInput
        && 0 <= usage.output <= policy.tokens.maxAgentOutput
        && old(totalInputTokens) + usage.input <= policy.tokens.maxRunInput
        && old(totalOutputTokens) + usage.output <= policy.tokens.maxRunOutput
        && old(totalInputTokens) + usage.input + old(totalOutputTokens) + usage.output
             + (if isRetry then 0 else policy.tokens.reservedRetry) <= policy.tokens.maxRunTotal
      ensures ok ==>
        && totalInputTokens == old(totalInputTokens) + usage.input
        && totalOutputTokens == old(totalOutputTokens) + usage.output
      ensures !ok ==> totalInputTokens == old(totalInputTokens) && totalOutputTokens == old(totalOutputTokens)
    {
      if usage.NotIntegers? {
        return false;
      }
      if usage.input < 0 || usage.output < 0 {
        return false;
      }
      var tokenPolicy := policy.tokens;
      if usage.input > tokenPolicy.maxAgentInput {
        return false;
      }
      if usage.output > tokenPolicy.maxAgentOutput {
        return false;
      }
      var nextInput := totalInputTokens + usage.input;
      var nextOutput := totalOutputTokens + usage.output;
      if nextInput > tokenPolicy.maxRunInput {
        return false;
      }
      if nextOutput > tokenPolicy.maxRunOutput {
        return false;
      }
      var normalLimit := tokenPolicy.maxRunTotal;
      if !isRetry {
        normalLimit := normalLimit - tokenPolicy.reservedRetry;
      }
      if nextInput + nextOutput > normalLimit {
        return false;
      }
      totalInputTokens, totalOutputTokens := nextInput, nextOutput;
      return true;
    }

    /** The count goes up even when the revision is refused. */
    method ConsumeRevision() returns (ok: bool)
      requires Valid()
      modifies this`revisionCount
      ensures Valid()
      ensures revisionCount == old(revisionCount) + 1 && (ok <==> revisionCount <= policy.maxRevisions)
    {
      revisionCount := revisionCount + 1;
      return revisionCount <= policy.maxRevisions;
    }
  }
}
