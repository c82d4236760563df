/** Everything a circuit shows, told by the history of attempts alone. */
module CircuitObservations {
  import opened Prelude
  import opened CircuitModel
  import opened CircuitInvariants
  import opened CircuitTheorems

  /** The failures that count against a provider. */
  predicate IsOutage(o: Outcome) {
    && o.Raised? && o.code.Some?
    && o.code.value in {ProviderTimeout, ProviderRateLimited, ProviderServerError, ProviderConnectionError}
  }

  // ---- How a circuit moves ----

  /** Where the circuit of `key` stands after an event, from where it stood and the attempts in flight. */
  ghost predicate MovesAs(s: Settings, w: World, e: Event, key: ResourceIdentity, c: Circuit, c': Circuit)
    requires w.registry.WellFormed() && Enabled(w, e)
  {
    if e.Begin? && e.key == key && c.state == Open && Verdict(s, w, e).Admitted? then c'.state == HalfOpen
    else if CurrentCompletion(w, e, key) && IsOutage(e.outcome)
            && (c.state == HalfOpen || c.consecutiveFailures + 1 >= s.failureThreshold) then
      c'.state == Open && c'.openedAt == e.now
    else if CurrentCompletion(w, e, key) && e.outcome.Succeeded? && c.state == HalfOpen
            && Probes(w.inFlight, key) == {e.token} then
      c'.state == Closed
    else c'.state == c.state && c'.openedAt == c.openedAt
  }

  /** The state of a resident circuit changes in exactly these ways. */
  lemma StateMoves(s: Settings, w: World, e: Event, key: ResourceIdentity)
    requires s.Valid() && Reachable(s, w) && Enabled(w, e)
    requires key in w.registry.entries && key in Step(s, w, e).registry.entries
    ensures w.registry.WellFormed()
    ensures MovesAs(s, w, e, key, w.registry.entries[key], Step(s, w, e).registry.entries[key])
  {
    hide Reachable, Step, Verdict, Inv, RegistryInv;
    ReachableInv(s, w);
    WellFormedNow(s, w);
    StepViews(s, w, e, key);
    var c := w.registry.entries[key];
    CircuitNow(s, w, key);
    if e.End? && Concerns(w, e, key) {
      LastProbe(s, w, e.token, key);
    }
  }

  lemma CircuitNow(s: Settings, w: World, key: ResourceIdentity)
    requires Inv(s, w) && key in w.registry.entries
    ensures CircuitInv(s, w.registry.entries[key], w.inFlight, key)
  {
  }

  lemma LastProbe(s: Settings, w: World, t: nat, key: ResourceIdentity)
    requires Inv(s, w) && key in w.registry.entries && t in w.inFlight && w.inFlight[t].key == key
    ensures Disciplined(w.registry.entries[key], w.inFlight[t])
    ensures w.inFlight[t].probe ==>
      (w.registry.entries[key].activeProbes == 1 <==> Probes(w.inFlight, key) == {t})
  {
    CircuitNow(s, w, key);
    assert t in Calls(w.inFlight, key);
    if w.inFlight[t].probe {
      var probes := Probes(w.inFlight, key);
      assert t in probes;
      assert probes == (probes - {t}) + {t};
    }
  }

  // ---- What a circuit counts ----

  datatype Tallies = Tallies(failures: nat, rejections: nat, changes: nat)

  function One(b: bool): nat { if b then 1 else 0 }

  /** Since the circuit of `key` was made: outages, stale ones too; refusals by the circuit itself; changes of state. */
  ghost function TalliesOf(s: Settings, es: seq<Event>, key: ResourceIdentity): Tallies
    requires s.Valid() && Replay(s, es).Some?
    decreases |es|
  {
    if es == [] then Tallies(0, 0, 0)
    else
      var past, e := es[..|es| - 1], es[|es| - 1];
      var w, w' := Replay(s, past).value, Replay(s, es).value;
      if key !in w.registry.entries || key !in w'.registry.entries then Tallies(0, 0, 0)
      else
        var before := TalliesOf(s, past, key);
        Tallies(
          before.failures + One(e.End? && w.inFlight[e.token].key == key && IsOutage(e.outcome)),
          before.rejections
            + One(e.Begin? && e.key == key && Verdict(s, w, e) in {Refused(StillOpen), Refused(ProbeLimit)}),
          before.changes + One(w'.registry.entries[key].state != w.registry.entries[key].state))
  }

  /** Every audit counter is its tally. */
  lemma {:induction false} CountersAreTallies(s: Settings, es: seq<Event>, key: ResourceIdentity)
    requires s.Valid() && Replay(s, es).Some? && key in Replay(s, es).value.registry.entries
    ensures var c, t := Replay(s, es).value.registry.entries[key], TalliesOf(s, es, key);
      c.failureCount == t.failures && c.rejectionCount == t.rejections && c.transitionCount == t.changes
    decreases |es|
  {
    hide Step, Verdict, Inv, Settle, IsOutage;
    if es != [] {
      var past, e := es[..|es| - 1], es[|es| - 1];
      var w := Replay(s, past).value;
      ReplayInv(s, past);
      StepViews(s, w, e, key);
      if key in w.registry.entries {
        CountersAreTallies(s, past, key);
        CounterStep(s, w, e, key);
      }
    }
  }

  lemma CounterStep(s: Settings, w: World, e: Event, key: ResourceIdentity)
    requires s.Valid() && Inv(s, w) && Enabled(w, e) && w.registry.WellFormed()
    requires key in w.registry.entries && key in Step(s, w, e).registry.entries
    ensures var c, c' := w.registry.entries[key], Step(s, w, e).registry.entries[key];
      && c'.failureCount ==
           c.failureCount + One(e.End? && w.inFlight[e.token].key == key && IsOutage(e.outcome))
      && c'.rejectionCount ==
           c.rejectionCount
             + One(e.Begin? && e.key == key && Verdict(s, w, e) in {Refused(StillOpen), Refused(ProbeLimit)})
      && c'.transitionCount == c.transitionCount + One(c'.state != c.state)
  {
    hide Step, Verdict, Inv;
    StepViews(s, w, e, key);
    CircuitNow(s, w, key);
  }

  // ---- The run of failures ----

  /** Outages at the end of a log, other failures not counting, back to the last success. */
  function FailureRun(log: seq<Outcome>): nat {
    if log == [] then 0
    else
      var init, last := log[..|log| - 1], log[|log| - 1];
      if last.Succeeded? then 0 else FailureRun(init) + One(IsOutage(last))
  }

  /** Since the circuit of `key` was made: how the attempts of its then current generations ended. */
  ghost function CurrentLog(s: Settings, es: seq<Event>, key: ResourceIdentity): seq<Outcome>
    requires s.Valid() && Replay(s, es).Some?
    decreases |es|
  {
    if es == [] then []
    else
      var past, e := es[..|es| - 1], es[|es| - 1];
      var w, w' := Replay(s, past).value, Replay(s, es).value;
      if key !in w.registry.entries || key !in w'.registry.entries then []
      else CurrentLog(s, past, key) + if CurrentCompletion(w, e, key) then [e.outcome] else []
  }

  /** In every state the consecutive failures are that run, up to the threshold. */
  lemma {:induction false} ConsecutiveIsRun(s: Settings, es: seq<Event>, key: ResourceIdentity)
    requires s.Valid() && Replay(s, es).Some? && key in Replay(s, es).value.registry.entries
    ensures Replay(s, es).value.registry.entries[key].consecutiveFailures ==
      Min(FailureRun(CurrentLog(s, es, key)), s.failureThreshold)
    ensures Replay(s, es).value.registry.entries[key].consecutiveFailures <= s.failureThreshold
    decreases |es|
  {
    hide Step, Verdict, Inv, IsOutage, FailureRun, Knock, Settle;
    if es == [] {
    } else {
      var past, e := es[..|es| - 1], es[|es| - 1];
      var w := Replay(s, past).value;
      ReplayInv(s, past);
      StepViews(s, w, e, key);
      EmptyRun();
      if key in w.registry.entries {
        ConsecutiveIsRun(s, past, key);
        if e.End? {
          RunGrows(CurrentLog(s, past, key), e.outcome);
        }
        assert CurrentLog(s, past, key) + [] == CurrentLog(s, past, key);
        ConsecutiveStep(s, w, e, key);
      } else {
        FreshRun(s, e.now);
      }
    }
  }

  lemma EmptyRun()
    ensures FailureRun([]) == 0
  {
  }

  lemma FreshRun(s: Settings, now: real)
    ensures forall alias :: Knock(s, FreshCircuit(alias), now).0.consecutiveFailures == 0
  {
  }

  /** Only a completion of the current generation moves the consecutive failures. */
  lemma ConsecutiveStep(s: Settings, w: World, e: Event, key: ResourceIdentity)
    requires s.Valid() && Inv(s, w) && Enabled(w, e)
    requires key in w.registry.entries && key in Step(s, w, e).registry.entries
    ensures var n, n' :=
        w.registry.entries[key].consecutiveFailures, Step(s, w, e).registry.entries[key].consecutiveFailures;
      if !CurrentCompletion(w, e, key) then n' == n
      else if e.outcome.Succeeded? then n' == 0
      else n' == if IsOutage(e.outcome) then Min(n + 1, s.failureThreshold) else n
  {
    hide Step, Verdict, Inv;
    StepViews(s, w, e, key);
  }

  lemma RunGrows(log: seq<Outcome>, o: Outcome)
    ensures FailureRun(log + [o]) == if o.Succeeded? then 0 else FailureRun(log) + One(IsOutage(o))
    ensures log + [] == log && IsOutage(o) == o.Counted()
  {
    assert (log + [o])[..|log|] == log;
  }

  // ---- Which circuit makes room ----

  /** The event that made the circuit of a resident key. */
  ghost function MadeAt(s: Settings, es: seq<Event>, key: ResourceIdentity): nat
    requires s.Valid() && Replay(s, es).Some? && key in Replay(s, es).value.registry.entries
    decreases |es|
  {
    if es == [] then 0
    else if key in Replay(s, es[..|es| - 1]).value.registry.entries then MadeAt(s, es[..|es| - 1], key)
    else |es| - 1
  }

  ghost function Ages(s: Settings, es: seq<Event>): map<ResourceIdentity, nat>
    requires s.Valid() && Replay(s, es).Some?
  {
    map k | k in Replay(s, es).value.registry.entries :: MadeAt(s, es, k)
  }

  ghost predicate Increases(order: seq<ResourceIdentity>, age: map<ResourceIdentity, nat>) {
    && (forall i :: 0 <= i < |order| ==> order[i] in age)
    && forall i, j :: 0 <= i < j < |order| ==> age[order[i]] < age[order[j]]
  }

  /** The dictionary lists the circuits in the order in which they were made. */
  ghost predicate ByAge(s: Settings, es: seq<Event>)
    requires s.Valid() && Replay(s, es).Some?
  {
    Increases(Replay(s, es).value.registry.order, Ages(s, es))
    && forall k :: k in Ages(s, es) ==> Ages(s, es)[k] < |es|
  }

  /** One key less, or one more at the end, or both, or nothing. */
  ghost predicate Shifted(order: seq<ResourceIdentity>, order': seq<ResourceIdentity>, e: Event) {
    || order' == order
    || (e.Begin? && e.key !in order && order' == order + [e.key])
    || (e.Begin? && e.key !in order
        && exists i :: 0 <= i < |order| && order' == order[..i] + order[i + 1..] + [e.key])
  }

  lemma OrderShifts(s: Settings, w: World, e: Event)
    requires s.Valid() && Inv(s, w) && Enabled(w, e)
    ensures Shifted(w.registry.order, Step(s, w, e).registry.order, e)
  {
    hide Knock, Settle, FirstRecyclable, FirstAlias, UsedAliases, Aliased, CircuitsInv;
    WellFormedNow(s, w);
    if e.Begin? && e.key !in w.registry.entries {
      assert RegistryInv(s, w.registry);
      InsertUnfolded(s, w.registry, e.key);
      assert e.key !in Elements(w.registry.order);
    }
  }

  /** In every reachable world the dictionary lists the circuits in the order in which they were made. */
  lemma {:induction false} OrderIsByAge(s: Settings, es: seq<Event>)
    requires s.Valid() && Replay(s, es).Some?
    ensures ByAge(s, es)
    decreases |es|
  {
    hide Step, Verdict, Inv;
    if es != [] {
      var past, e := es[..|es| - 1], es[|es| - 1];
      ReplayInv(s, past);
      ReplayInv(s, es);
      OrderIsByAge(s, past);
      OrderShifts(s, Replay(s, past).value, e);
      WellFormedNow(s, Replay(s, past).value);
      WellFormedNow(s, Replay(s, es).value);
      ShiftedByAge(s, es);
    }
  }

  lemma ShiftedByAge(s: Settings, es: seq<Event>)
    requires s.Valid() && Replay(s, es).Some? && es != [] && Replay(s, es[..|es| - 1]).Some?
    requires ByAge(s, es[..|es| - 1])
    requires Replay(s, es).value.registry.WellFormed() && Replay(s, es[..|es| - 1]).value.registry.WellFormed()
    requires Shifted(Replay(s, es[..|es| - 1]).value.registry.order, Replay(s, es).value.registry.order, es[|es| - 1])
    ensures ByAge(s, es)
  {
    hide Replay, MadeAt, Shifted, Increases;
    var past := es[..|es| - 1];
    var g, g' := Replay(s, past).value.registry, Replay(s, es).value.registry;
    KeysInOrder(g);
    KeysInOrder(g');
    var age, age' := Ages(s, past), Ages(s, es);
    forall k | k in age' ensures age'[k] == if k in age then age[k] else |past| {
      MadeAtNext(s, es, k);
    }
    ShiftIncreases(g.order, g'.order, es[|es| - 1], age, age', |past|);
  }

  lemma ShiftIncreases(order: seq<ResourceIdentity>, order': seq<ResourceIdentity>, e: Event,
                       age: map<ResourceIdentity, nat>, age': map<ResourceIdentity, nat>, now: nat)
    requires Increases(order, age) && Shifted(order, order', e) && forall k :: k in order' ==> k in age'
    requires forall k :: k in order ==> age[k] < now
    requires forall k :: k in age' ==> age'[k] == if k in age then age[k] else now
    requires forall k :: k in age <==> k in order
    ensures Increases(order', age')
  {
    hide Increases;
    if order' == order {
      SameIncreases(order, age, age');
    } else if order' == order + [e.key] {
      AppendIncreases(order, e.key, age, age', now);
    } else {
      var i :| 0 <= i < |order| && order' == order[..i] + order[i + 1..] + [e.key];
      var rest := order[..i] + order[i + 1..];
      DropIncreases(order, i, age);
      assert forall k :: k in rest ==> k in order;
      AppendIncreases(rest, e.key, age, age', now);
    }
  }

  lemma SameIncreases(order: seq<ResourceIdentity>, age: map<ResourceIdentity, nat>, age': map<ResourceIdentity, nat>)
    requires Increases(order, age) && forall k :: k in order ==> k in age && k in age' && age'[k] == age[k]
    ensures Increases(order, age')
  {
  }

  lemma DropIncreases(order: seq<ResourceIdentity>, i: nat, age: map<ResourceIdentity, nat>)
    requires Increases(order, age) && i < |order|
    ensures Increases(order[..i] + order[i + 1..], age)
  {
    var rest := order[..i] + order[i + 1..];
    forall j | 0 <= j < |rest| ensures rest[j] == order[if j < i then j else j + 1] {
    }
  }

  lemma AppendIncreases(order: seq<ResourceIdentity>, key: ResourceIdentity, age: map<ResourceIdentity, nat>,
                        age': map<ResourceIdentity, nat>, now: nat)
    requires Increases(order, age) && key in age' && age'[key] == now
    requires forall k :: k in order ==> k in age && k in age' && age'[k] == age[k] < now
    ensures Increases(order + [key], age')
  {
    var all := order + [key];
    forall j | 0 <= j < |order| ensures all[j] == order[j] && order[j] in order {
    }
  }

  lemma MadeAtNext(s: Settings, es: seq<Event>, key: ResourceIdentity)
    requires s.Valid() && Replay(s, es).Some? && es != [] && key in Replay(s, es).value.registry.entries
    requires Replay(s, es[..|es| - 1]).Some?
    ensures MadeAt(s, es, key) ==
      if key in Replay(s, es[..|es| - 1]).value.registry.entries then MadeAt(s, es[..|es| - 1], key) else |es| - 1
  {
  }

  lemma KeysInOrder(g: Registry)
    requires g.WellFormed()
    ensures forall i :: 0 <= i < |g.order| ==> g.order[i] in g.entries
    ensures forall k :: k in g.entries ==> k in g.order
    ensures forall i, j :: 0 <= i < j < |g.order| ==> g.order[i] != g.order[j]
  {
    assert forall i :: 0 <= i < |g.order| ==> g.order[i] in Elements(g.order);
    assert forall k :: k in g.entries ==> k in Elements(g.order);
  }

  /** The circuit that goes is idle, and was made before every other idle one; it goes only from a full registry. */
  lemma OldestIdleGoes(s: Settings, es: seq<Event>, e: Event, gone: ResourceIdentity)
    requires s.Valid() && Replay(s, es).Some? && Enabled(Replay(s, es).value, e)
    requires var w := Replay(s, es).value; gone in w.registry.entries && gone !in Step(s, w, e).registry.entries
    ensures var w := Replay(s, es).value;
      && e.Begin? && e.key !in w.registry.entries && |w.registry.entries| >= s.maxEntries
      && Idle(w, gone)
      && forall k :: k in w.registry.entries && k != gone && Idle(w, k) ==> MadeAt(s, es, gone) < MadeAt(s, es, k)
  {
    hide Replay, Inv, Step, Idle, MadeAt, ByAge, Reachable;
    ReplayInv(s, es);
    var w := Replay(s, es).value;
    WellFormedNow(s, w);
    OrderIsByAge(s, es);
    var i := FirstIdle(s, w, e, gone);
    ByAgeNow(s, es, i);
    forall k | k in w.registry.entries && k != gone && Idle(w, k)
      ensures MadeAt(s, es, gone) < MadeAt(s, es, k) {
      IdleIsRecyclable(s, w, k);
      KeysInOrder(w.registry);
    }
    IdleIsRecyclable(s, w, gone);
  }

  lemma FirstIdle(s: Settings, w: World, e: Event, gone: ResourceIdentity) returns (i: nat)
    requires s.Valid() && Inv(s, w) && Enabled(w, e)
    requires gone in w.registry.entries && gone !in Step(s, w, e).registry.entries
    ensures e.Begin? && e.key !in w.registry.entries && |w.registry.entries| >= s.maxEntries
    ensures i < |w.registry.order| && w.registry.order[i] == gone && Recyclable(w.registry.entries[gone])
    ensures forall j :: 0 <= j < i && w.registry.order[j] in w.registry.entries ==>
      !Recyclable(w.registry.entries[w.registry.order[j]])
  {
    hide Knock, Settle, FirstAlias, UsedAliases, Aliased, CircuitsInv, Recyclable;
    WellFormedNow(s, w);
    KeysInOrder(w.registry);
    i := FirstRecyclable(w.registry, 0);
    if e.Begin? && e.key !in w.registry.entries {
      assert RegistryInv(s, w.registry);
      InsertUnfolded(s, w.registry, e.key);
    }
  }

  lemma ByAgeNow(s: Settings, es: seq<Event>, i: nat)
    requires s.Valid() && Replay(s, es).Some? && ByAge(s, es) && i < |Replay(s, es).value.registry.order|
    ensures var g := Replay(s, es).value.registry;
      g.order[i] in g.entries && forall j :: i < j < |g.order| && g.order[j] in g.entries ==>
        MadeAt(s, es, g.order[i]) < MadeAt(s, es, g.order[j])
  {
    hide Replay, MadeAt;
    var g, age := Replay(s, es).value.registry, Ages(s, es);
    assert g.order[i] in age;
    forall j | i < j < |g.order| && g.order[j] in g.entries ensures age[g.order[i]] < age[g.order[j]] {
    }
  }

  predicate AliasTaken(m: map<ResourceIdentity, Circuit>, key: ResourceIdentity, alias: nat) {
    exists k :: k in m && k != key && m[k].alias == alias
  }

  /** A new circuit is CLOSED with nothing but the attempt that made it, under the least alias that is free. */
  lemma NewCircuit(s: Settings, w: World, e: Event, key: ResourceIdentity)
    requires s.Valid() && Reachable(s, w) && Enabled(w, e)
    requires key !in w.registry.entries && key in Step(s, w, e).registry.entries
    ensures var m := Step(s, w, e).registry.entries;
      && e.Begin? && e.key == key
      && m[key] == Circuit(m[key].alias, Closed, 0, 0.0, 0, 0, 1, 0, 0, 0) && m[key].alias >= 1
      && forall i: nat :: 1 <= i <= m[key].alias ==> (AliasTaken(m, key, i) <==> i < m[key].alias)
  {
    hide Reachable, Step, Inv, AliasTaken;
    ReachableInv(s, w);
    StepViews(s, w, e, key);
    assert e.Begin? && e.key == key;
    UnknownKeyMade(s, w, e);
  }

  lemma UnknownKeyMade(s: Settings, w: World, e: Event)
    requires s.Valid() && Inv(s, w) && Enabled(w, e) && e.Begin? && e.key !in w.registry.entries
    requires e.key in Step(s, w, e).registry.entries
    ensures var m, key := Step(s, w, e).registry.entries, e.key;
      && m[key] == Circuit(m[key].alias, Closed, 0, 0.0, 0, 0, 1, 0, 0, 0) && m[key].alias >= 1
      && forall i: nat :: 1 <= i <= m[key].alias ==> (AliasTaken(m, key, i) <==> i < m[key].alias)
  {
    hide Step, Inv, Vacated, FirstAlias, AliasTaken, UsedAliases;
    StepMakes(s, w, e);
    var g1 := Vacated(s, w.registry);
    var alias := FirstAlias(UsedAliases(g1), 1, s.maxEntries);
    var m := Step(s, w, e).registry.entries;
    forall i: nat | 1 <= i <= alias.value ensures AliasTaken(m, e.key, i) <==> i in UsedAliases(g1) {
      TakenIsUsed(g1, m, e.key, i);
    }
  }

  lemma StepMakes(s: Settings, w: World, e: Event)
    requires s.Valid() && Inv(s, w) && Enabled(w, e) && e.Begin? && e.key !in w.registry.entries
    requires e.key in Step(s, w, e).registry.entries
    ensures w.registry.WellFormed()
    ensures var g1 := Vacated(s, w.registry);
      var alias := FirstAlias(UsedAliases(g1), 1, s.maxEntries);
      && alias.Some? && e.key !in g1.entries
      && Step(s, w, e).registry.entries == g1.entries[e.key := Knock(s, FreshCircuit(alias.value), e.now).0]
  {
    hide Knock, Vacated, FirstRecyclable, FirstAlias, UsedAliases, Aliased, CircuitsInv, FreshCircuit;
    WellFormedNow(s, w);
    assert RegistryInv(s, w.registry);
    InsertUnfolded(s, w.registry, e.key);
  }

  lemma TakenIsUsed(g: Registry, m: map<ResourceIdentity, Circuit>, key: ResourceIdentity, alias: nat)
    requires key !in g.entries && forall k :: k in g.entries ==> k in m && m[k] == g.entries[k]
    requires forall k :: k in m && k != key ==> k in g.entries
    ensures AliasTaken(m, key, alias) <==> alias in UsedAliases(g)
  {
    if alias in UsedAliases(g) {
      var k :| k in g.entries && g.entries[k].alias == alias;
      assert k in m;
    }
  }
}
