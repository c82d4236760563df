/** The provider circuit breaker as a state machine over values. */
module CircuitModel {
  // One step per critical section of the guard, with the clock sample as a parameter of the step.

  import opened Prelude

  datatype ResourceIdentity = ResourceIdentity(endpoint: string, model: string, tenancy: string)

  /** The four availability codes, and every other classification. */
  datatype ErrorCode =
    | ProviderTimeout
    | ProviderRateLimited
    | ProviderServerError
    | ProviderConnectionError
    | OtherCode(name: string)

  predicate IsAvailabilityFailure(code: Option<ErrorCode>) {
    code.Some? && !code.value.OtherCode?
  }

  /** How an attempt ends: normally, or with an exception that may carry a classification. */
  datatype Outcome = Succeeded | Raised(code: Option<ErrorCode>) {
    predicate Counted() { Raised? && IsAvailabilityFailure(code) }
  }

  datatype Settings = Settings(
    failureThreshold: int, openSeconds: real, halfOpenMaxProbes: int, maxEntries: int)
  {
    predicate Valid() {
      failureThreshold > 0 && halfOpenMaxProbes > 0 && maxEntries > 0 && openSeconds > 0.0
    }
  }

  datatype State = Closed | Open | HalfOpen

  datatype Circuit = Circuit(
    alias: nat, state: State, generation: nat, openedAt: real,
    failureCount: nat, consecutiveFailures: nat,
    activeCalls: int, activeProbes: int, rejectionCount: nat, transitionCount: nat)

  function FreshCircuit(alias: nat): Circuit {
    Circuit(alias, Closed, 0, 0.0, 0, 0, 0, 0, 0, 0)
  }

  datatype Reason = RegistryCapacity | StillOpen | ProbeLimit

  /** NoAlias stands for the StopIteration the alias search would raise. */
  datatype Decision = Admitted(probe: bool) | Refused(reason: Reason) | NoAlias

  // ---- One circuit ----

  function Transition(c: Circuit, state: State): Circuit {
    c.(state := state, generation := c.generation + 1, transitionCount := c.transitionCount + 1)
  }

  /** The part of an admission that concerns one resident circuit. */
  function Knock(s: Settings, c: Circuit, now: real): (Circuit, Decision) {
    if c.state == Open && now - c.openedAt < s.openSeconds then
      (c.(rejectionCount := c.rejectionCount + 1), Refused(StillOpen))
    else
      var c1 := if c.state == Open then Transition(c, HalfOpen) else c;
      var probe := c1.state == HalfOpen;
      if probe && c1.activeProbes >= s.halfOpenMaxProbes then
        (c1.(rejectionCount := c1.rejectionCount + 1), Refused(ProbeLimit))
      else
        (c1.(activeCalls := c1.activeCalls + 1,
             activeProbes := if probe then c1.activeProbes + 1 else c1.activeProbes),
         Admitted(probe))
  }

  function Min(a: int, b: int): int { if a <= b then a else b }

  /** The completion of an attempt that was admitted in `generation`. */
  function Settle(s: Settings, c: Circuit, generation: nat, probe: bool, o: Outcome, now: real): (r: Circuit)
    requires s.failureThreshold > 0
  {
    var c1 := c.(
      activeCalls := c.activeCalls - 1,
      activeProbes := if probe then c.activeProbes - 1 else c.activeProbes,
      failureCount := if o.Counted() then c.failureCount + 1 else c.failureCount);
    if generation != c.generation then
      c1
    else if o.Counted() then
      var c2 := c1.(consecutiveFailures := Min(c1.consecutiveFailures + 1, s.failureThreshold));
      if probe || c2.consecutiveFailures >= s.failureThreshold
      then Transition(c2.(openedAt := now), Open)
      else c2
    else if o.Succeeded? then
      var c2 := c1.(consecutiveFailures := 0);
      if probe && c2.activeProbes == 0 then Transition(c2, Closed) else c2
    else
      c1
  }

  // ---- The bounded registry ----

  /** An insertion-ordered dictionary: `order` lists the keys of `entries` by age. */
  datatype Registry = Registry(order: seq<ResourceIdentity>, entries: map<ResourceIdentity, Circuit>) {
    ghost predicate WellFormed() {
      NoDuplicates(order) && Elements(order) == entries.Keys
    }
  }

  predicate Recyclable(c: Circuit) {
    c.state == Closed && c.activeCalls == 0 && c.consecutiveFailures == 0
  }

  /** Position of the oldest recyclable entry, or |order| when there is none. */
  function FirstRecyclable(g: Registry, from: nat): (i: nat)
    requires from <= |g.order| && Elements(g.order) == g.entries.Keys
    ensures from <= i <= |g.order|
    ensures i < |g.order| ==> Recyclable(g.entries[g.order[i]])
    ensures forall j :: from <= j < i ==> !Recyclable(g.entries[g.order[j]])
    decreases |g.order| - from
  {
    if from == |g.order| then from
    else if Recyclable(g.entries[g.order[from]]) then from
    else FirstRecyclable(g, from + 1)
  }

  function Remove(g: Registry, i: nat): Registry
    requires i < |g.order|
  {
    Registry(g.order[..i] + g.order[i + 1..], g.entries - {g.order[i]})
  }

  function UsedAliases(g: Registry): set<nat> {
    set k | k in g.entries :: g.entries[k].alias
  }

  /** The least alias in from..max that is not in use. */
  function FirstAlias(used: set<nat>, from: nat, max: int): (a: Option<nat>)
    ensures a.Some? ==> from <= a.value <= max && a.value !in used
    ensures a.Some? ==> forall i: nat :: from <= i < a.value ==> i in used
    ensures a.None? ==> forall i: nat :: from <= i <= max ==> i in used
    decreases max - from
  {
    if from > max then None
    else if from !in used then Some(from)
    else FirstAlias(used, from + 1, max)
  }

  /** The registry from which a new key's alias is drawn: the oldest recyclable entry is gone if it is full. */
  function Vacated(s: Settings, g: Registry): Registry
    requires Elements(g.order) == g.entries.Keys
  {
    var victim := FirstRecyclable(g, 0);
    if |g.entries| >= s.maxEntries && victim < |g.order| then Remove(g, victim) else g
  }

  /** Makes room for and inserts a circuit for a key that is not resident. */
  function Insert(s: Settings, g: Registry, key: ResourceIdentity): (Registry, Option<Decision>)
    requires Elements(g.order) == g.entries.Keys
  {
    var victim := FirstRecyclable(g, 0);
    if |g.entries| >= s.maxEntries && victim == |g.order| then
      (g, Some(Refused(RegistryCapacity)))
    else
      var g1 := Vacated(s, g);
      var alias := FirstAlias(UsedAliases(g1), 1, s.maxEntries);
      if alias.None? then (g1, Some(NoAlias))
      else (Registry(g1.order + [key], g1.entries[key := FreshCircuit(alias.value)]), None)
  }

  function Admit(s: Settings, g: Registry, key: ResourceIdentity, now: real): (Registry, Decision)
    requires Elements(g.order) == g.entries.Keys
  {
    var (g1, refused) := if key in g.entries then (g, None) else Insert(s, g, key);
    if refused.Some? then (g1, refused.value)
    else
      var (c, d) := Knock(s, g1.entries[key], now);
      (g1.(entries := g1.entries[key := c]), d)
  }

  function Complete(s: Settings, g: Registry, key: ResourceIdentity, generation: nat, probe: bool,
                    o: Outcome, now: real): Registry
    requires key in g.entries && s.failureThreshold > 0
  {
    g.(entries := g.entries[key := Settle(s, g.entries[key], generation, probe, o, now)])
  }

  lemma RemoveWellFormed(g: Registry, i: nat)
    requires g.WellFormed() && i < |g.order|
    ensures Remove(g, i).WellFormed()
    ensures |Remove(g, i).entries| == |g.entries| - 1
  {
    var r := Remove(g, i);
    forall k ensures k in r.order <==> k in g.entries && k != g.order[i] {
      if k in g.order && k != g.order[i] {
        var j :| 0 <= j < |g.order| && g.order[j] == k;
        assert r.order[if j < i then j else j - 1] == k;
      }
    }
    assert r.entries.Keys == g.entries.Keys - {g.order[i]};
    assert g.order[i] in Elements(g.order);
  }

  lemma AppendWellFormed(g: Registry, key: ResourceIdentity, c: Circuit)
    requires g.WellFormed() && key !in g.entries
    ensures Registry(g.order + [key], g.entries[key := c]).WellFormed()
  {
    assert Elements(g.order + [key]) == Elements(g.order) + {key};
  }

  lemma VacatedWellFormed(s: Settings, g: Registry)
    requires g.WellFormed()
    ensures Vacated(s, g).WellFormed()
  {
    var victim := FirstRecyclable(g, 0);
    if victim < |g.order| {
      RemoveWellFormed(g, victim);
    }
  }

  lemma AdmitWellFormed(s: Settings, g: Registry, key: ResourceIdentity, now: real)
    requires g.WellFormed()
    ensures Admit(s, g, key, now).0.WellFormed()
    ensures Admit(s, g, key, now).1.Admitted? ==> key in Admit(s, g, key, now).0.entries
  {
    if key !in g.entries {
      VacatedWellFormed(s, g);
      var g1 := Vacated(s, g);
      var alias := FirstAlias(UsedAliases(g1), 1, s.maxEntries);
      if alias.Some? {
        AppendWellFormed(g1, key, FreshCircuit(alias.value));
      }
    }
  }

  // ---- Runs: admissions and completions in any interleaving ----

  datatype Attempt = Attempt(key: ResourceIdentity, generation: nat, probe: bool)

  /** In-flight attempts are named by tokens, so that a completion says which one ends. */
  datatype World = World(registry: Registry, inFlight: map<nat, Attempt>)

  datatype Event =
    | Begin(token: nat, key: ResourceIdentity, now: real)
    | End(token: nat, outcome: Outcome, now: real)

  const Init := World(Registry([], map[]), map[])

  predicate Enabled(w: World, e: Event) {
    match e
    case Begin(token, _, _) => token !in w.inFlight
    case End(token, _, _) => token in w.inFlight
  }

  function Verdict(s: Settings, w: World, e: Event): Decision
    requires e.Begin? && w.registry.WellFormed()
  {
    Admit(s, w.registry, e.key, e.now).1
  }

  /** The completion of an attempt whose circuit is no longer resident touches only a detached record. */
  function Step(s: Settings, w: World, e: Event): (w': World)
    requires s.Valid() && w.registry.WellFormed() && Enabled(w, e)
    ensures w'.registry.WellFormed()
  {
    match e
    case Begin(token, key, now) =>
      var (g, d) := Admit(s, w.registry, key, now);
      AdmitWellFormed(s, w.registry, key, now);
      World(g, if d.Admitted?
               then w.inFlight[token := Attempt(key, g.entries[key].generation, d.probe)]
               else w.inFlight)
    case End(token, o, now) =>
      var a := w.inFlight[token];
      var g := if a.key in w.registry.entries
               then Complete(s, w.registry, a.key, a.generation, a.probe, o, now)
               else w.registry;
      World(g, w.inFlight - {token})
  }

  /** The world after a history of events, or None if some event was not possible when it came. */
  ghost function Replay(s: Settings, es: seq<Event>): (r: Option<World>)
    requires s.Valid()
    ensures r.Some? ==> r.value.registry.WellFormed()
    decreases |es|
  {
    if es == [] then Some(Init)
    else
      var before := Replay(s, es[..|es| - 1]);
      if before.Some? && Enabled(before.value, es[|es| - 1])
      then Some(Step(s, before.value, es[|es| - 1]))
      else None
  }

  ghost predicate Reachable(s: Settings, w: World)
    requires s.Valid()
  {
    exists es :: Replay(s, es) == Some(w)
  }
}
