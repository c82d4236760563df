/** The single-agent workflow engine (src/specflow/workflow/engine.py). */
module LegacyWorkflow {
  import opened Prelude
  import opened Text

  datatype State = Created | Analyzing | Generating | Reviewing | Completed | Failed

  function Successors(s: State): set<State> {
    match s
    case Created => {Analyzing}
    case Analyzing => {Generating, Failed}
    case Generating => {Reviewing, Failed}
    case Reviewing => {State.Completed, Failed}
    case Completed => {}
    case Failed => {}
  }

  predicate IsTerminal(s: State) {
    s in {State.Completed, Failed}
  }

  datatype StateTransition = StateTransition(fromState: State, toState: State, sequence: int, reason: string)

  datatype Snapshot = Snapshot(currentState: State, history: seq<StateTransition>)

  // ---- What is reachable ----

  datatype Request = Request(toState: State, reason: string)

  /** One request: a legal one is recorded, any other is refused and changes nothing. */
  function Advance(s: Snapshot, r: Request): Snapshot {
    if r.toState in Successors(s.currentState) then
      Snapshot(r.toState,
               s.history + [StateTransition(s.currentState, r.toState, |s.history| + 1, Strip(r.reason))])
    else s
  }

  function Run(requests: seq<Request>): Snapshot {
    if requests == [] then Snapshot(Created, [])
    else Advance(Run(requests[..|requests| - 1]), requests[|requests| - 1])
  }

  ghost predicate Reachable(s: Snapshot) {
    exists requests :: Run(requests) == s
  }

  // ---- What restoring accepts ----

  /** Where the first `i` entries of a history lead. */
  function Expected(history: seq<StateTransition>, i: nat): State
    requires i <= |history|
  {
    if i == 0 then Created else history[i - 1].toState
  }

  /** Entry `i` continues the history in front of it legally. */
  predicate Continues(history: seq<StateTransition>, i: nat)
    requires i < |history|
  {
    && history[i].sequence == i + 1 && history[i].fromState == Expected(history, i)
    && history[i].toState in Successors(history[i].fromState)
  }

  predicate Accepts(s: Snapshot) {
    && (forall i :: 0 <= i < |s.history| ==> Continues(s.history, i))
    && s.currentState == Expected(s.history, |s.history|)
  }

  ghost predicate StrippedReasons(history: seq<StateTransition>) {
    forall i :: 0 <= i < |history| ==> Strip(history[i].reason) == history[i].reason
  }

  method ValidateHistory(currentState: State, history: seq<StateTransition>) returns (ok: bool)
    ensures ok <==> Accepts(Snapshot(currentState, history))
  {
    if history == [] {
      return currentState == Created;
    }
    var expectedFrom := Created;
    var i := 0;
    while i < |history|
      invariant i <= |history| && expectedFrom == Expected(history, i)
      invariant forall j :: 0 <= j < i ==> Continues(history, j)
    {
      if history[i].sequence != i + 1 {
        assert !Continues(history, i);
        return false;
      }
      if history[i].fromState != expectedFrom {
        assert !Continues(history, i);
        return false;
      }
      if history[i].toState !in Successors(history[i].fromState) {
        assert !Continues(history, i);
        return false;
      }
      expectedFrom := history[i].toState;
      i := i + 1;
    }
    return currentState == expectedFrom;
  }

  lemma StripTwice(s: string)
    ensures Strip(Strip(s)) == Strip(s)
  {
    StripTrims(s);
    StripTrims(Strip(s));
    assert Strip("") == "";
  }

  lemma AdvanceKeepsAccepted(s: Snapshot, r: Request)
    requires Accepts(s) && StrippedReasons(s.history)
    ensures Accepts(Advance(s, r)) && StrippedReasons(Advance(s, r).history)
  {
    hide Strip, Successors;
    StripTwice(r.reason);
    var after := Advance(s, r);
    assert forall i :: 0 <= i < |s.history| ==> after.history[i] == s.history[i];
    forall i | 0 <= i < |after.history| ensures Continues(after.history, i) {
      assert i < |s.history| ==> Continues(s.history, i);
    }
  }

  lemma {:induction false} RunIsAccepted(requests: seq<Request>)
    ensures Accepts(Run(requests)) && StrippedReasons(Run(requests).history)
  {
    hide Accepts, StrippedReasons, Advance;
    if requests == [] {
      EmptyIsAccepted();
    } else {
      var init := requests[..|requests| - 1];
      RunIsAccepted(init);
      AdvanceKeepsAccepted(Run(init), requests[|requests| - 1]);
    }
  }

  lemma EmptyIsAccepted()
    ensures Accepts(Snapshot(Created, [])) && StrippedReasons([])
  {
  }

  /** The snapshot before the last entry of a history. */
  function Before(s: Snapshot): Snapshot
    requires s.history != []
  {
    Snapshot(s.history[|s.history| - 1].fromState, s.history[..|s.history| - 1])
  }

  /** The last entry was a transition from the snapshot before it, which is accepted too. */
  lemma LastEntry(s: Snapshot)
    requires Accepts(s) && StrippedReasons(s.history) && s.history != []
    ensures var last := s.history[|s.history| - 1];
      && Accepts(Before(s)) && StrippedReasons(Before(s).history)
      && Advance(Before(s), Request(last.toState, last.reason)) == s
  {
    hide Strip, Successors;
    var n := |s.history| - 1;
    var last, init := s.history[n], s.history[..n];
    assert Continues(s.history, n);
    forall i | 0 <= i < n ensures Continues(init, i) {
      assert Continues(s.history, i);
    }
    assert s.history == init + [last];
  }

  lemma {:induction false} AcceptedIsRun(s: Snapshot) returns (requests: seq<Request>)
    requires Accepts(s) && StrippedReasons(s.history)
    ensures Run(requests) == s
    decreases |s.history|
  {
    hide StrippedReasons, Advance, Successors;
    if s.history == [] {
      requests := [];
    } else {
      hide Accepts;
      var last := s.history[|s.history| - 1];
      LastEntry(s);
      var earlier := AcceptedIsRun(Before(s));
      requests := earlier + [Request(last.toState, last.reason)];
      assert requests[..|requests| - 1] == earlier;
    }
  }

  /** Restoring accepts exactly the reachable snapshots, but for one thing it does not look at: stripped reasons. */
  lemma AcceptsIffReachable(s: Snapshot)
    ensures Reachable(s) <==> Accepts(s) && StrippedReasons(s.history)
  {
    if Reachable(s) {
      var requests :| Run(requests) == s;
      RunIsAccepted(requests);
    }
    if Accepts(s) && StrippedReasons(s.history) {
      var requests := AcceptedIsRun(s);
    }
  }

  /** A restored history whose reason has surrounding white space is accepted, though no run produces it. */
  lemma UnstrippedReasonIsAccepted()
    ensures var s := Snapshot(Analyzing, [StateTransition(Created, Analyzing, 1, " ")]);
      Accepts(s) && !Reachable(s)
  {
    var s := Snapshot(Analyzing, [StateTransition(Created, Analyzing, 1, " ")]);
    assert Strip(" ") == "" by { assert StripLeft(" ") == ""; }
    assert Continues(s.history, 0);
    AcceptsIffReachable(s);
  }

  /** Apart from reasons, restoring accepts nothing a run could not have produced. */
  lemma AcceptedUpToReasons(s: Snapshot) returns (t: Snapshot)
    requires Accepts(s)
    ensures Reachable(t) && t.currentState == s.currentState && |t.history| == |s.history|
    ensures forall i :: 0 <= i < |s.history| ==> t.history[i] == s.history[i].(reason := Strip(s.history[i].reason))
  {
    hide Strip;
    var history := seq(|s.history|, i requires 0 <= i < |s.history| => s.history[i].(reason := Strip(s.history[i].reason)));
    t := Snapshot(s.currentState, history);
    forall i | 0 <= i < |history| ensures Continues(history, i) && Strip(history[i].reason) == history[i].reason {
      assert Continues(s.history, i);
      StripTwice(s.history[i].reason);
    }
    AcceptsIffReachable(t);
  }

  // ---- The shape of every history ----

  const CHAIN := [Created, Analyzing, Generating, Reviewing, State.Completed]

  /** Entry `i` takes the next step of the chain; or, once the chain has begun, the last entry fails. */
  predicate FollowsChain(history: seq<StateTransition>, i: nat)
    requires i < |history|
  {
    && i <= 3 && history[i].sequence == i + 1 && history[i].fromState == CHAIN[i]
    && (history[i].toState == CHAIN[i + 1] || (history[i].toState == Failed && i >= 1 && i == |history| - 1))
  }

  /** The accepted snapshots are those whose history goes down the chain, with at most a last step to failure. */
  lemma HistoriesAre(s: Snapshot)
    ensures Accepts(s) <==>
      && (forall i :: 0 <= i < |s.history| ==> FollowsChain(s.history, i))
      && s.currentState == if s.history == [] then Created else s.history[|s.history| - 1].toState
  {
    hide FollowsChain, Continues;
    if forall i :: 0 <= i < |s.history| ==> Continues(s.history, i) {
      forall i | 0 <= i < |s.history| ensures FollowsChain(s.history, i) {
        ContinuesChain(s.history, i);
      }
    }
    if forall i :: 0 <= i < |s.history| ==> FollowsChain(s.history, i) {
      forall i | 0 <= i < |s.history| ensures Continues(s.history, i) {
        ChainContinues(s.history, i);
      }
    }
  }

  lemma {:induction false} ContinuesChain(history: seq<StateTransition>, i: nat)
    requires (forall j :: 0 <= j < |history| ==> Continues(history, j)) && i < |history|
    ensures FollowsChain(history, i)
  {
    assert Continues(history, i);
    if i > 0 {
      ContinuesChain(history, i - 1);
    }
    if i + 1 < |history| {
      assert Continues(history, i + 1);
    }
  }

  lemma ChainContinues(history: seq<StateTransition>, i: nat)
    requires (forall j :: 0 <= j < |history| ==> FollowsChain(history, j)) && i < |history|
    ensures Continues(history, i)
  {
    assert FollowsChain(history, i);
    assert i > 0 ==> FollowsChain(history, i - 1);
  }

  // ---- The engine ----

  datatype TransitionError = Terminal | Illegal

  class WorkflowEngine {
    var currentState: State
    var history: seq<StateTransition>

    ghost predicate Valid()
      reads this
    {
      Accepts(Snapshot(currentState, history))
    }

    constructor (currentState: State, history: seq<StateTransition>)
      requires Accepts(Snapshot(currentState, history))
      ensures Valid() && this.currentState == currentState && this.history == history
    {
      this.currentState, this.history := currentState, history;
    }

    /** A new engine in the snapshot's state, or none when its history does not check out. */
    static method Restore(snapshot: Snapshot) returns (engine: WorkflowEngine?)
      ensures engine != null <==> Accepts(snapshot)
      ensures engine != null ==>
        fresh(engine) && engine.Valid() && engine.currentState == snapshot.currentState && engine.history == snapshot.history
    {
      var ok := ValidateHistory(snapshot.currentState, snapshot.history);
      if !ok {
        return null;
      }
      engine := new WorkflowEngine(snapshot.currentState, snapshot.history);
    }

    function TakeSnapshot(): Snapshot
      reads this
    {
      Snapshot(currentState, history)
    }

    method Transition(toState: State, reason: string) returns (error: Option<TransitionError>)
      requires Valid()
      modifies this
      ensures Valid() && TakeSnapshot() == Advance(old(TakeSnapshot()), Request(toState, reason))
      ensures error.None? <==> toState in Successors(old(currentState))
      ensures error == Some(Terminal) <==> IsTerminal(old(currentState))
    {
      if IsTerminal(currentState) {
        return Some(Terminal);
      }
      if toState !in Successors(currentState) {
        return Some(Illegal);
      }
      AppendAccepted(TakeSnapshot(), toState, Strip(reason));
      history := history + [StateTransition(currentState, toState, |history| + 1, Strip(reason))];
      currentState := toState;
      return None;
    }
  }

  lemma AppendAccepted(s: Snapshot, toState: State, reason: string)
    requires Accepts(s) && toState in Successors(s.currentState)
    ensures Accepts(Snapshot(toState, s.history + [StateTransition(s.currentState, toState, |s.history| + 1, reason)]))
  {
    hide Successors;
    var after := s.history + [StateTransition(s.currentState, toState, |s.history| + 1, reason)];
    forall i | 0 <= i < |after| ensures Continues(after, i) {
      assert i < |s.history| ==> Continues(s.history, i);
    }
  }

  /** Restoring a snapshot gives back the engine it was taken from. */
  method RestoreAfterSnapshot(engine: WorkflowEngine) returns (copy: WorkflowEngine?)
    requires engine.Valid()
    ensures copy != null && fresh(copy) && copy.TakeSnapshot() == engine.TakeSnapshot()
  {
    copy := WorkflowEngine.Restore(engine.TakeSnapshot());
  }
}
