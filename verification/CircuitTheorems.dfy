/** What the circuit breaker promises over whole histories. */
module CircuitTheorems {
  import opened Prelude
  import opened CircuitModel
  import opened CircuitInvariants

  /** The same circuit apart from the counters that every completion may move. */
  ghost predicate SameHealth(c: Circuit, d: Circuit) {
    && c.alias == d.alias && c.state == d.state && c.generation == d.generation
    && c.openedAt == d.openedAt && c.consecutiveFailures == d.consecutiveFailures
    && c.transitionCount == d.transitionCount && c.rejectionCount == d.rejectionCount
  }

  /** In every reachable world the counters are exact, counting stale attempts too. */
  lemma CountersAreExact(s: Settings, w: World, key: ResourceIdentity)
    requires s.Valid() && Reachable(s, w) && key in w.registry.entries
    ensures var c := w.registry.entries[key];
      && c.activeCalls == |Calls(w.inFlight, key)|
      && c.activeProbes == |Probes(w.inFlight, key)| <= s.halfOpenMaxProbes
      && c.generation == c.transitionCount
      && |w.registry.entries| <= s.maxEntries
  {
    ReachableInv(s, w);
  }

  lemma GenerationDiscipline(s: Settings, w: World, t: nat)
    requires s.Valid() && Reachable(s, w) && t in w.inFlight
    ensures w.inFlight[t].key in w.registry.entries
    ensures Disciplined(w.registry.entries[w.inFlight[t].key], w.inFlight[t])
  {
    ReachableInv(s, w);
    assert t in Calls(w.inFlight, w.inFlight[t].key);
  }

  /** A stale completion, and any completion on an OPEN circuit, only releases its slots. */
  lemma StaleCompletionIsInert(s: Settings, w: World, e: Event)
    requires s.Valid() && Reachable(s, w) && Enabled(w, e) && e.End?
    requires var a := w.inFlight[e.token]; a.key in w.registry.entries ==>
      var c := w.registry.entries[a.key]; a.generation != c.generation || c.state == Open
    ensures var key := w.inFlight[e.token].key;
      && key in w.registry.entries && key in Step(s, w, e).registry.entries
      && SameHealth(w.registry.entries[key], Step(s, w, e).registry.entries[key])
      && Step(s, w, e).registry.entries[key].activeCalls == w.registry.entries[key].activeCalls - 1
  {
    GenerationDiscipline(s, w, e.token);
  }

  lemma InFlightCircuit(s: Settings, w: World, t: nat)
    requires Inv(s, w) && t in w.inFlight
    ensures var key := w.inFlight[t].key;
      && key in w.registry.entries && !Recyclable(w.registry.entries[key])
      && CircuitInv(s, w.registry.entries[key], w.inFlight, key)
  {
    assert t in Calls(w.inFlight, w.inFlight[t].key);
  }

  /** No step evicts, replaces or ages a circuit that has an attempt in flight. */
  lemma InFlightIsNeverEvicted(s: Settings, w: World, e: Event, t: nat)
    requires s.Valid() && Reachable(s, w) && Enabled(w, e) && t in w.inFlight
    ensures var key, w' := w.inFlight[t].key, Step(s, w, e);
      && key in w.registry.entries && key in w'.registry.entries
      && w'.registry.entries[key].alias == w.registry.entries[key].alias
      && w.registry.entries[key].generation <= w'.registry.entries[key].generation
  {
    hide Step, Verdict, Inv, Reachable, CircuitInv;
    ReachableInv(s, w);
    var key := w.inFlight[t].key;
    InFlightCircuit(s, w, t);
    StepViews(s, w, e, key);
  }

  // ---- Trip exactness ----

  /** Index of the last success in a log, or -1. */
  function LastSuccess(log: seq<Outcome>): (i: int)
    ensures -1 <= i < |log|
    ensures i >= 0 ==> log[i].Succeeded?
    ensures forall j :: i < j < |log| ==> !log[j].Succeeded?
  {
    if log == [] then -1
    else if log[|log| - 1].Succeeded? then |log| - 1
    else LastSuccess(log[..|log| - 1])
  }

  /** Positions of the availability failures since the last success. */
  function Streak(log: seq<Outcome>): set<int> {
    set i | LastSuccess(log) < i < |log| && log[i].Counted()
  }

  lemma StreakStep(log: seq<Outcome>, o: Outcome)
    ensures |Streak(log + [o])| == if o.Succeeded? then 0 else if o.Counted() then |Streak(log)| + 1 else |Streak(log)|
  {
    var log' := log + [o];
    assert log'[..|log|] == log;
    if o.Succeeded? {
      assert Streak(log') == {};
    } else if o.Counted() {
      assert Streak(log') == Streak(log) + {|log|};
    } else {
      assert Streak(log') == Streak(log);
    }
  }

  lemma StreakOfNothing()
    ensures Streak([]) == {}
  {
  }

  /** Does `e` complete an attempt of the current generation of the circuit of `key`? */
  predicate CurrentCompletion(w: World, e: Event, key: ResourceIdentity) {
    && e.End? && e.token in w.inFlight && w.inFlight[e.token].key == key
    && key in w.registry.entries && w.inFlight[e.token].generation == w.registry.entries[key].generation
  }

  predicate SameGeneration(w: World, w': World, key: ResourceIdentity) {
    && key in w.registry.entries && key in w'.registry.entries
    && w.registry.entries[key].generation == w'.registry.entries[key].generation
  }

  /** The completions of the current generation of `key`, in order, after a history. */
  ghost function GenerationLog(s: Settings, es: seq<Event>, key: ResourceIdentity): seq<Outcome>
    requires s.Valid() && Replay(s, es).Some?
    decreases |es|
  {
    if es == [] then []
    else
      var past, e := es[..|es| - 1], es[|es| - 1];
      var w := Replay(s, past).value;
      if !SameGeneration(w, Step(s, w, e), key) then []
      else if CurrentCompletion(w, e, key) then GenerationLog(s, past, key) + [e.outcome]
      else GenerationLog(s, past, key)
  }

  /** A CLOSED circuit's failure count is the streak of its generation's log, below the threshold. */
  lemma {:induction false} ClosedCountsTheStreak(s: Settings, es: seq<Event>, key: ResourceIdentity)
    requires s.Valid() && Replay(s, es).Some? && key in Replay(s, es).value.registry.entries
    ensures var c := Replay(s, es).value.registry.entries[key];
      c.state == Closed ==> c.consecutiveFailures == |Streak(GenerationLog(s, es, key))| < s.failureThreshold
    decreases |es|
  {
    hide Step, Verdict, Inv, Streak, LastSuccess;
    if es != [] {
      var past, e := es[..|es| - 1], es[|es| - 1];
      var w := Replay(s, past).value;
      ReplayInv(s, past);
      StepViews(s, w, e, key);
      if key in w.registry.entries {
        ClosedCountsTheStreak(s, past, key);
        if e.End? {
          StreakStep(GenerationLog(s, past, key), e.outcome);
        }
      }
      StreakOfNothing();
    }
  }

  /** CLOSED becomes OPEN exactly when the streak of the current generation reaches the threshold. */
  lemma TripsExactlyAtThreshold(s: Settings, es: seq<Event>, e: Event, key: ResourceIdentity)
    requires s.Valid() && Replay(s, es).Some? && Enabled(Replay(s, es).value, e)
    requires key in Replay(s, es).value.registry.entries && Replay(s, es).value.registry.entries[key].state == Closed
    ensures var w, w' := Replay(s, es).value, Step(s, Replay(s, es).value, e);
      (key in w'.registry.entries && w'.registry.entries[key].state == Open)
      <==> CurrentCompletion(w, e, key) && e.outcome.Counted()
           && |Streak(GenerationLog(s, es, key) + [e.outcome])| == s.failureThreshold
  {
    hide Step, Verdict, Inv, Streak, LastSuccess, GenerationLog, Replay;
    var w := Replay(s, es).value;
    ReplayInv(s, es);
    ClosedCountsTheStreak(s, es, key);
    StepViews(s, w, e, key);
    if e.End? {
      StreakStep(GenerationLog(s, es, key), e.outcome);
    }
  }

  // ---- The open window ----

  ghost predicate ClockNeverGoesBack(es: seq<Event>) {
    forall i, j :: 0 <= i <= j < |es| ==> es[i].now <= es[j].now
  }

  ghost predicate IsOpen(w: World, key: ResourceIdentity) {
    key in w.registry.entries && w.registry.entries[key].state == Open
  }

  lemma {:induction false} ReplayPrefix(s: Settings, es: seq<Event>, n: nat)
    requires s.Valid() && Replay(s, es).Some? && n <= |es|
    ensures Replay(s, es[..n]).Some?
    ensures n < |es| ==> && Enabled(Replay(s, es[..n]).value, es[n])
                         && Replay(s, es[..n + 1]) == Some(Step(s, Replay(s, es[..n]).value, es[n]))
    decreases |es| - n
  {
    hide Step, Enabled;
    if n == |es| {
      assert es[..n] == es;
    } else {
      ReplayPrefix(s, es, n + 1);
      assert es[..n + 1][..n] == es[..n];
    }
  }

  /** Since an opening at index i, either the circuit is still OPEN from then, or the window has passed. */
  lemma {:induction false} OpenUntilWindowPasses(s: Settings, es: seq<Event>, i: nat, n: nat, key: ResourceIdentity)
    requires s.Valid() && Replay(s, es).Some? && ClockNeverGoesBack(es) && i < n <= |es|
    requires Replay(s, es[..i]).Some? && Replay(s, es[..i + 1]).Some?
    requires !IsOpen(Replay(s, es[..i]).value, key) && IsOpen(Replay(s, es[..i + 1]).value, key)
    ensures Replay(s, es[..n]).Some?
    ensures es[n - 1].now - es[i].now >= s.openSeconds
      || (IsOpen(Replay(s, es[..n]).value, key) && Replay(s, es[..n]).value.registry.entries[key].openedAt == es[i].now)
    decreases n
  {
    hide Step, Enabled, Inv, Replay;
    ReplayPrefix(s, es, n);
    ReplayPrefix(s, es, n - 1);
    ReplayInv(s, es[..n - 1]);
    var w, e := Replay(s, es[..n - 1]).value, es[n - 1];
    if n == i + 1 {
      OpeningIsStamped(s, w, e, key);
    } else {
      OpenUntilWindowPasses(s, es, i, n - 1, key);
      if IsOpen(w, key) {
        OpenStays(s, w, e, key);
      }
    }
  }

  lemma OpeningIsStamped(s: Settings, w: World, e: Event, key: ResourceIdentity)
    requires s.Valid() && Inv(s, w) && Enabled(w, e)
    requires !IsOpen(w, key) && IsOpen(Step(s, w, e), key)
    ensures e.End? && Step(s, w, e).registry.entries[key].openedAt == e.now
  {
    hide Step, Verdict, Inv;
    StepViews(s, w, e, key);
  }

  lemma OpenStays(s: Settings, w: World, e: Event, key: ResourceIdentity)
    requires s.Valid() && Inv(s, w) && Enabled(w, e) && IsOpen(w, key)
    ensures (IsOpen(Step(s, w, e), key) && Step(s, w, e).registry.entries[key].openedAt == w.registry.entries[key].openedAt)
      || e.now - w.registry.entries[key].openedAt >= s.openSeconds
  {
    hide Step, Verdict, Inv;
    StepViews(s, w, e, key);
  }

  /** After an opening at event i, no later event admits an attempt before the window has passed. */
  lemma NoAdmissionInsideTheWindow(s: Settings, es: seq<Event>, i: nat, j: nat, key: ResourceIdentity)
    requires s.Valid() && Replay(s, es).Some? && ClockNeverGoesBack(es) && i < j < |es|
    requires Replay(s, es[..i]).Some? && Replay(s, es[..i + 1]).Some? && Replay(s, es[..j]).Some?
    requires !IsOpen(Replay(s, es[..i]).value, key) && IsOpen(Replay(s, es[..i + 1]).value, key)
    requires es[j].Begin? && es[j].key == key && Verdict(s, Replay(s, es[..j]).value, es[j]).Admitted?
    ensures es[j].now - es[i].now >= s.openSeconds
  {
    OpenUntilWindowPasses(s, es, i, j, key);
    assert es[j - 1].now <= es[j].now;
  }

  /** Once the window has passed an OPEN circuit admits the next attempt, as a probe: stale probes never fill every slot. */
  lemma ExpiredWindowAlwaysAdmits(s: Settings, w: World, token: nat, key: ResourceIdentity, now: real)
    requires s.Valid() && Reachable(s, w) && IsOpen(w, key)
    ensures Verdict(s, w, Begin(token, key, now)) ==
      if now - w.registry.entries[key].openedAt >= s.openSeconds then Admitted(true) else Refused(StillOpen)
  {
    ReachableInv(s, w);
    assert CircuitInv(s, w.registry.entries[key], w.inFlight, key);
  }

  /** A probe_limit refusal never moves a circuit out of OPEN: it only counts one more rejection. */
  lemma ProbeLimitOnlyCountsARejection(s: Settings, w: World, e: Event)
    requires s.Valid() && Reachable(s, w) && Enabled(w, e) && e.Begin? && Verdict(s, w, e) == Refused(ProbeLimit)
    ensures e.key in w.registry.entries && w.registry.entries[e.key].state == HalfOpen
    ensures var c := w.registry.entries[e.key];
      Step(s, w, e) == w.(registry := w.registry.(entries :=
        w.registry.entries[e.key := c.(rejectionCount := c.rejectionCount + 1)]))
  {
    hide Inv, Reachable, Insert;
    ReachableInv(s, w);
    PreparedKeepsInv(s, w, e.key);
    if IsOpen(w, e.key) {
      ExpiredWindowAlwaysAdmits(s, w, e.token, e.key, e.now);
    }
  }

  // ---- Recovery ----

  /** An event on another key leaves a circuit alone unless it is recyclable. */
  lemma OtherKeysDoNotInterfere(s: Settings, w: World, e: Event, key: ResourceIdentity)
    requires s.Valid() && Inv(s, w) && Enabled(w, e) && !Concerns(w, e, key)
    requires key in w.registry.entries && !Recyclable(w.registry.entries[key])
    ensures key in Step(s, w, e).registry.entries
    ensures Step(s, w, e).registry.entries[key] == w.registry.entries[key]
    ensures Calls(Step(s, w, e).inFlight, key) == Calls(w.inFlight, key)
  {
    StepViews(s, w, e, key);
    hide Inv, Verdict;
  }

  /** The worlds that events not concerning `key` and not touching `token` can lead to. */
  ghost predicate QuietPath(s: Settings, ws: seq<World>, es: seq<Event>, key: ResourceIdentity, token: nat)
    requires s.Valid()
  {
    && |ws| == |es| + 1
    && (forall i :: 0 <= i < |es| ==>
          && ws[i].registry.WellFormed() && Enabled(ws[i], es[i]) && !Concerns(ws[i], es[i], key)
          && es[i].token != token && ws[i + 1] == Step(s, ws[i], es[i]))
  }

  lemma OtherTokensStay(s: Settings, w: World, e: Event, token: nat)
    requires s.Valid() && w.registry.WellFormed() && Enabled(w, e) && token in w.inFlight && token != e.token
    ensures token in Step(s, w, e).inFlight && Step(s, w, e).inFlight[token] == w.inFlight[token]
  {
  }

  lemma {:induction false} QuietPathKeeps(s: Settings, ws: seq<World>, es: seq<Event>, key: ResourceIdentity, token: nat, n: nat)
    requires s.Valid() && QuietPath(s, ws, es, key, token) && n < |ws|
    requires Inv(s, ws[0]) && token in ws[0].inFlight && ws[0].inFlight[token].key == key
    ensures Inv(s, ws[n]) && token in ws[n].inFlight && ws[n].inFlight[token] == ws[0].inFlight[token]
    ensures key in ws[n].registry.entries && ws[n].registry.entries[key] == ws[0].registry.entries[key]
    decreases n
  {
    hide Inv, Verdict, Step;
    InFlightCircuit(s, ws[0], token);
    if n > 0 {
      QuietPathKeeps(s, ws, es, key, token, n - 1);
      InFlightCircuit(s, ws[n - 1], token);
      OtherKeysDoNotInterfere(s, ws[n - 1], es[n - 1], key);
      StepKeepsInv(s, ws[n - 1], es[n - 1]);
      OtherTokensStay(s, ws[n - 1], es[n - 1], token);
    }
  }

  /**
   From any reachable resident circuit with nothing in flight, one admitted attempt after the
   window, ended by a success, leaves it CLOSED and healthy, whatever happens to other keys meanwhile.
   */
  lemma OneSuccessRecovers(s: Settings, w: World, key: ResourceIdentity, token: nat, now: real,
                           ws: seq<World>, es: seq<Event>, later: real)
    requires s.Valid() && Reachable(s, w) && key in w.registry.entries
    requires token !in w.inFlight && Calls(w.inFlight, key) == {}
    requires IsOpen(w, key) ==> now - w.registry.entries[key].openedAt >= s.openSeconds
    requires QuietPath(s, ws, es, key, token) && ws[0] == Step(s, w, Begin(token, key, now))
    ensures Verdict(s, w, Begin(token, key, now)).Admitted?
    ensures var last := ws[|es|];
      && last.registry.WellFormed() && Enabled(last, End(token, Succeeded, later))
      && var done := Step(s, last, End(token, Succeeded, later));
         && key in done.registry.entries
         && done.registry.entries[key].state == Closed && done.registry.entries[key].consecutiveFailures == 0
  {
    hide Inv, Verdict, Step, QuietPath, Reachable;
    ReachableInv(s, w);
    WellFormedNow(s, w);
    IdleCircuit(s, w, key);
    var e := Begin(token, key, now);
    StepViews(s, w, e, key);
    StepKeepsInv(s, w, e);
    AdmittedIsInFlight(s, w, e);
    QuietPathStarts(s, ws, es, key, token);
    QuietPathKeeps(s, ws, es, key, token, |es|);
    WellFormedNow(s, ws[|es|]);
    StepViews(s, ws[|es|], End(token, Succeeded, later), key);
  }

  lemma IdleCircuit(s: Settings, w: World, key: ResourceIdentity)
    requires Inv(s, w) && key in w.registry.entries && Calls(w.inFlight, key) == {}
    ensures w.registry.entries[key].activeProbes == 0 && w.registry.entries[key].activeCalls == 0
  {
    assert Probes(w.inFlight, key) <= Calls(w.inFlight, key);
  }

  lemma AdmittedIsInFlight(s: Settings, w: World, e: Event)
    requires s.Valid() && w.registry.WellFormed() && Enabled(w, e) && e.Begin? && Verdict(s, w, e).Admitted?
    ensures var w' := Step(s, w, e);
      && e.key in w'.registry.entries
      && w'.inFlight == w.inFlight[e.token := Attempt(e.key, w'.registry.entries[e.key].generation, Verdict(s, w, e).probe)]
  {
    AdmitWellFormed(s, w.registry, e.key, e.now);
  }

  lemma QuietPathStarts(s: Settings, ws: seq<World>, es: seq<Event>, key: ResourceIdentity, token: nat)
    requires s.Valid() && QuietPath(s, ws, es, key, token)
    ensures |ws| == |es| + 1
  {
  }

  // ---- What every attempt is told ----

  /** A circuit that may be recycled: CLOSED, with no attempt in flight and no failure since its last success. */
  predicate Idle(w: World, key: ResourceIdentity)
    requires key in w.registry.entries
  {
    && w.registry.entries[key].state == Closed && Calls(w.inFlight, key) == {}
    && w.registry.entries[key].consecutiveFailures == 0
  }

  lemma IdleIsRecyclable(s: Settings, w: World, key: ResourceIdentity)
    requires Inv(s, w) && key in w.registry.entries
    ensures Idle(w, key) <==> Recyclable(w.registry.entries[key])
  {
    assert CircuitInv(s, w.registry.entries[key], w.inFlight, key);
  }

  /**
   * The answer to an attempt, from the circuit's state, the attempts in flight and the clock: CLOSED always admits,
   * HALF_OPEN admits a probe while a slot is free, OPEN admits a probe once the window has passed, and an unknown key
   * is admitted unless the registry is full of circuits none of which may be recycled.
   */
  lemma VerdictIs(s: Settings, w: World, token: nat, key: ResourceIdentity, now: real)
    requires s.Valid() && Reachable(s, w)
    ensures w.registry.WellFormed()
    ensures var m, d := w.registry.entries, Verdict(s, w, Begin(token, key, now));
      if key in m then
        match m[key].state
        case Closed => d == Admitted(false)
        case HalfOpen =>
          d == if |Probes(w.inFlight, key)| < s.halfOpenMaxProbes then Admitted(true) else Refused(ProbeLimit)
        case Open =>
          d == if now - m[key].openedAt < s.openSeconds then Refused(StillOpen) else Admitted(true)
      else
        d == if |m| >= s.maxEntries && forall k :: k in m ==> !Idle(w, k) then Refused(RegistryCapacity)
             else Admitted(false)
  {
    hide Reachable;
    ReachableInv(s, w);
    if key in w.registry.entries {
      ResidentVerdict(s, w, token, key, now);
    } else {
      UnknownVerdict(s, w, token, key, now);
    }
  }

  lemma ResidentVerdict(s: Settings, w: World, token: nat, key: ResourceIdentity, now: real)
    requires s.Valid() && Inv(s, w) && key in w.registry.entries
    ensures var m, d := w.registry.entries, Verdict(s, w, Begin(token, key, now));
      match m[key].state
      case Closed => d == Admitted(false)
      case HalfOpen =>
        d == if |Probes(w.inFlight, key)| < s.halfOpenMaxProbes then Admitted(true) else Refused(ProbeLimit)
      case Open =>
        d == if now - m[key].openedAt < s.openSeconds then Refused(StillOpen) else Admitted(true)
  {
    hide RegistryInv, Insert, Calls, Probes;
    assert CircuitInv(s, w.registry.entries[key], w.inFlight, key);
  }

  lemma UnknownVerdict(s: Settings, w: World, token: nat, key: ResourceIdentity, now: real)
    requires s.Valid() && Inv(s, w) && key !in w.registry.entries
    ensures w.registry.WellFormed()
    ensures var m, d := w.registry.entries, Verdict(s, w, Begin(token, key, now));
      d == if |m| >= s.maxEntries && forall k :: k in m ==> !Idle(w, k) then Refused(RegistryCapacity)
           else Admitted(false)
  {
    hide Idle, Vacated, FirstRecyclable, FirstAlias, UsedAliases, Recyclable;
    var g := w.registry;
    WellFormedNow(s, w);
    InsertUnfolded(s, g, key);
    assert RegistryInv(s, g);
    NoneRecyclable(g);
    forall k | k in g.entries ensures Idle(w, k) <==> Recyclable(g.entries[k]) {
      IdleIsRecyclable(s, w, k);
    }
  }

  lemma NoneRecyclable(g: Registry)
    requires g.WellFormed()
    ensures FirstRecyclable(g, 0) == |g.order| <==> forall k :: k in g.entries ==> !Recyclable(g.entries[k])
  {
    hide Recyclable;
    forall k | k in g.entries ensures exists i :: 0 <= i < |g.order| && g.order[i] == k {
      assert k in Elements(g.order);
    }
    forall i | 0 <= i < |g.order| ensures g.order[i] in g.entries {
      assert g.order[i] in Elements(g.order);
    }
  }
}
