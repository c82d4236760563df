/** The bounded registry refines one that never evicts. */
module CircuitRefinement {
  // Leave out the admissions it refused for lack of capacity, and every other decision and every circuit's health are
  // the same.

  import opened Prelude
  import opened CircuitModel
  import opened CircuitInvariants

  // ---- The reference guard: no bound, no order, no eviction ----

  datatype Ideal = Ideal(entries: map<ResourceIdentity, Circuit>, inFlight: map<nat, Attempt>)

  predicate IdealEnabled(u: Ideal, e: Event) {
    match e
    case Begin(token, _, _) => token !in u.inFlight
    case End(token, _, _) => token in u.inFlight && u.inFlight[token].key in u.entries
  }

  function IdealCircuit(u: Ideal, key: ResourceIdentity): Circuit {
    if key in u.entries then u.entries[key] else FreshCircuit(0)
  }

  function IdealStep(s: Settings, u: Ideal, e: Event): Ideal
    requires s.Valid() && IdealEnabled(u, e)
  {
    match e
    case Begin(token, key, now) =>
      var (c, d) := Knock(s, IdealCircuit(u, key), now);
      Ideal(u.entries[key := c],
            if d.Admitted? then u.inFlight[token := Attempt(key, c.generation, d.probe)] else u.inFlight)
    case End(token, o, now) =>
      var a := u.inFlight[token];
      Ideal(u.entries[a.key := Settle(s, u.entries[a.key], a.generation, a.probe, o, now)], u.inFlight - {token})
  }

  function IdealVerdict(s: Settings, u: Ideal, e: Event): Decision
    requires e.Begin?
  {
    Knock(s, IdealCircuit(u, e.key), e.now).1
  }

  ghost function IdealReplay(s: Settings, es: seq<Event>): Option<Ideal>
    requires s.Valid()
    decreases |es|
  {
    if es == [] then Some(Ideal(map[], map[]))
    else
      var before := IdealReplay(s, es[..|es| - 1]);
      if before.Some? && IdealEnabled(before.value, es[|es| - 1])
      then Some(IdealStep(s, before.value, es[|es| - 1]))
      else None
  }

  ghost function IdealVerdicts(s: Settings, es: seq<Event>): seq<Decision>
    requires s.Valid() && IdealReplay(s, es).Some?
    decreases |es|
  {
    if es == [] then []
    else
      var past, e := es[..|es| - 1], es[|es| - 1];
      IdealVerdicts(s, past) + (if e.Begin? then [IdealVerdict(s, IdealReplay(s, past).value, e)] else [])
  }

  // ---- The bounded guard without its capacity refusals ----

  ghost predicate CapacityRefusal(s: Settings, w: World, e: Event)
    requires w.registry.WellFormed()
  {
    e.Begin? && Verdict(s, w, e) == Refused(RegistryCapacity)
  }

  /** The events of a history that were not capacity refusals. */
  ghost function Kept(s: Settings, es: seq<Event>): seq<Event>
    requires s.Valid() && Replay(s, es).Some?
    decreases |es|
  {
    if es == [] then []
    else
      var past, e := es[..|es| - 1], es[|es| - 1];
      Kept(s, past) + (if CapacityRefusal(s, Replay(s, past).value, e) then [] else [e])
  }

  /** Every decision of a history other than capacity refusals, in order. */
  ghost function KeptVerdicts(s: Settings, es: seq<Event>): seq<Decision>
    requires s.Valid() && Replay(s, es).Some?
    decreases |es|
  {
    if es == [] then []
    else
      var past, e := es[..|es| - 1], es[|es| - 1];
      var w := Replay(s, past).value;
      KeptVerdicts(s, past) + (if e.Begin? && !CapacityRefusal(s, w, e) then [Verdict(s, w, e)] else [])
  }

  // ---- The simulation ----

  /** Same health; the generations differ by an offset that the attempts in flight share. */
  ghost predicate Bisimilar(c: Circuit, d: Circuit) {
    && c.state == d.state && c.consecutiveFailures == d.consecutiveFailures
    && c.activeCalls == d.activeCalls && c.activeProbes == d.activeProbes
    && (c.state == Open ==> c.openedAt == d.openedAt)
    && c.generation <= d.generation
  }

  ghost predicate SameAttempt(c: Circuit, d: Circuit, a: Attempt, b: Attempt) {
    a.key == b.key && a.probe == b.probe && d.generation - c.generation == b.generation - a.generation
  }

  ghost predicate CircuitsSimulated(m: map<ResourceIdentity, Circuit>, n: map<ResourceIdentity, Circuit>) {
    && (forall k :: k in m ==> k in n && Bisimilar(m[k], n[k]))
    && (forall k :: k in n && k !in m ==> Recyclable(n[k]) && n[k].activeProbes == 0)
  }

  ghost predicate AttemptsSimulated(m: map<ResourceIdentity, Circuit>, n: map<ResourceIdentity, Circuit>,
                                    f: map<nat, Attempt>, g: map<nat, Attempt>) {
    && f.Keys == g.Keys
    && (forall t :: t in f ==> f[t].key in m && f[t].key in n && SameAttempt(m[f[t].key], n[f[t].key], f[t], g[t]))
  }

  ghost predicate Simulates(w: World, u: Ideal) {
    && CircuitsSimulated(w.registry.entries, u.entries)
    && AttemptsSimulated(w.registry.entries, u.entries, w.inFlight, u.inFlight)
  }

  /** Knocking at bisimilar circuits gives one verdict and moves both generations alike. */
  lemma KnockBisimilar(s: Settings, c: Circuit, d: Circuit, now: real)
    requires s.Valid() && Bisimilar(c, d)
    ensures Knock(s, c, now).1 == Knock(s, d, now).1
    ensures Bisimilar(Knock(s, c, now).0, Knock(s, d, now).0)
    ensures Knock(s, d, now).0.generation - Knock(s, c, now).0.generation == d.generation - c.generation
  {
  }

  lemma SettleBisimilar(s: Settings, c: Circuit, d: Circuit, a: Attempt, b: Attempt, o: Outcome, now: real)
    requires s.Valid() && Bisimilar(c, d) && SameAttempt(c, d, a, b)
    ensures var c', d' := Settle(s, c, a.generation, a.probe, o, now), Settle(s, d, b.generation, b.probe, o, now);
      Bisimilar(c', d') && d'.generation - c'.generation == d.generation - c.generation
  {
  }

  lemma CapacityRefusalChangesNothing(s: Settings, w: World, e: Event)
    requires s.Valid() && Inv(s, w) && Enabled(w, e) && CapacityRefusal(s, w, e)
    ensures Step(s, w, e) == w
  {
    PreparedKeepsInv(s, w, e.key);
  }

  /** What an admission that was not a capacity refusal does to the registry, seen from outside. */
  lemma KeptBegin(s: Settings, w: World, e: Event)
    requires s.Valid() && Inv(s, w) && Enabled(w, e) && e.Begin? && !CapacityRefusal(s, w, e)
    ensures var w' := Step(s, w, e);
      && AdmitFrame(w.registry.entries, w'.registry.entries, e.key)
      && e.key in w'.registry.entries
      && (exists c0: Circuit :: (if e.key in w.registry.entries then c0 == w.registry.entries[e.key] else c0 == FreshCircuit(c0.alias))
                     && (w'.registry.entries[e.key], Verdict(s, w, e)) == Knock(s, c0, e.now))
      && w'.inFlight == (if Verdict(s, w, e).Admitted?
                         then w.inFlight[e.token := Attempt(e.key, w'.registry.entries[e.key].generation, Verdict(s, w, e).probe)]
                         else w.inFlight)
  {
    hide Inv, Insert, AdmitFrame, Knock;
    BeginKeepsInv(s, w, e);
    WellFormedNow(s, w);
    PreparedKeepsInv(s, w, e.key);
  }

  lemma BeginSimulated(s: Settings, w: World, u: Ideal, e: Event)
    requires s.Valid() && Inv(s, w) && Simulates(w, u) && Enabled(w, e) && e.Begin? && !CapacityRefusal(s, w, e)
    ensures IdealEnabled(u, e) && IdealVerdict(s, u, e) == Verdict(s, w, e)
    ensures Simulates(Step(s, w, e), IdealStep(s, u, e))
  {
    hide Inv, Step, Verdict, Knock, CapacityRefusal, AdmitFrame, Bisimilar, CircuitsSimulated, AttemptsSimulated;
    KeptBegin(s, w, e);
    WellFormedNow(s, w);
    var w' := Step(s, w, e);
    var m, m' := w.registry.entries, w'.registry.entries;
    var c0: Circuit :| (if e.key in m then c0 == m[e.key] else c0 == FreshCircuit(c0.alias))
      && (m'[e.key], Verdict(s, w, e)) == Knock(s, c0, e.now);
    StartsBisimilar(m, u, e.key, c0);
    KnockBisimilar(s, c0, IdealCircuit(u, e.key), e.now);
    InFlightIsResident(s, w);
    RecyclableHasNoProbes(s, w);
    var d := Knock(s, IdealCircuit(u, e.key), e.now).0;
    CircuitsMove(m, u.entries, m', e.key, d);
    AttemptsMove(m, u.entries, m', w.inFlight, u.inFlight, e.key, d);
    SameTokens(m, u.entries, w.inFlight, u.inFlight);
    var probe := Verdict(s, w, e).Admitted? && Verdict(s, w, e).probe;
    NewAttempt(m', u.entries[e.key := d], w.inFlight, u.inFlight, e.token,
               Attempt(e.key, m'[e.key].generation, probe), Attempt(e.key, d.generation, probe));
  }

  lemma SameTokens(m: map<ResourceIdentity, Circuit>, n: map<ResourceIdentity, Circuit>, f: map<nat, Attempt>,
                   g: map<nat, Attempt>)
    requires AttemptsSimulated(m, n, f, g)
    ensures f.Keys == g.Keys
  {
  }

  lemma NewAttempt(m: map<ResourceIdentity, Circuit>, n: map<ResourceIdentity, Circuit>, f: map<nat, Attempt>,
                   g: map<nat, Attempt>, t: nat, a: Attempt, b: Attempt)
    requires AttemptsSimulated(m, n, f, g) && a.key in m && a.key in n && SameAttempt(m[a.key], n[a.key], a, b)
    ensures AttemptsSimulated(m, n, f[t := a], g[t := b])
  {
  }

  lemma StartsBisimilar(m: map<ResourceIdentity, Circuit>, u: Ideal, key: ResourceIdentity, c0: Circuit)
    requires CircuitsSimulated(m, u.entries)
    requires if key in m then c0 == m[key] else c0 == FreshCircuit(c0.alias)
    ensures Bisimilar(c0, IdealCircuit(u, key))
  {
  }

  lemma CircuitsMove(m: map<ResourceIdentity, Circuit>, n: map<ResourceIdentity, Circuit>,
                     m': map<ResourceIdentity, Circuit>, key: ResourceIdentity, d: Circuit)
    requires CircuitsSimulated(m, n) && AdmitFrame(m, m', key) && key in m' && Bisimilar(m'[key], d)
    requires forall k :: k in m && Recyclable(m[k]) ==> m[k].activeProbes == 0
    ensures CircuitsSimulated(m', n[key := d])
  {
  }

  lemma AttemptsMove(m: map<ResourceIdentity, Circuit>, n: map<ResourceIdentity, Circuit>,
                     m': map<ResourceIdentity, Circuit>, f: map<nat, Attempt>, g: map<nat, Attempt>,
                     key: ResourceIdentity, d: Circuit)
    requires AttemptsSimulated(m, n, f, g) && AdmitFrame(m, m', key) && key in m'
    requires forall t :: t in f ==> f[t].key in m && !Recyclable(m[f[t].key])
    requires key in m && key in n ==> d.generation - m'[key].generation == n[key].generation - m[key].generation
    ensures AttemptsSimulated(m', n[key := d], f, g)
  {
  }

  lemma RecyclableHasNoProbes(s: Settings, w: World)
    requires Inv(s, w)
    ensures forall k :: k in w.registry.entries && Recyclable(w.registry.entries[k]) ==> w.registry.entries[k].activeProbes == 0
  {
    forall k | k in w.registry.entries ensures CircuitInv(s, w.registry.entries[k], w.inFlight, k) {
    }
  }

  lemma InFlightIsResident(s: Settings, w: World)
    requires Inv(s, w)
    ensures forall t :: t in w.inFlight ==>
              w.inFlight[t].key in w.registry.entries && !Recyclable(w.registry.entries[w.inFlight[t].key])
  {
    forall t | t in w.inFlight ensures !Recyclable(w.registry.entries[w.inFlight[t].key]) {
      assert t in Calls(w.inFlight, w.inFlight[t].key);
    }
  }

  lemma EndSimulated(s: Settings, w: World, u: Ideal, e: Event)
    requires s.Valid() && Inv(s, w) && Simulates(w, u) && Enabled(w, e) && e.End?
    ensures IdealEnabled(u, e) && Simulates(Step(s, w, e), IdealStep(s, u, e))
  {
    hide Inv, Settle;
    WellFormedNow(s, w);
    InFlightIsResident(s, w);
    var a, b := w.inFlight[e.token], u.inFlight[e.token];
    SettleBisimilar(s, w.registry.entries[a.key], u.entries[a.key], a, b, e.outcome, e.now);
  }

  /**
   For every history, the reference guard can follow the kept events, takes the same decisions
   in the same order, and ends with bisimilar circuits and attempts.
   */
  lemma {:induction false} BoundedRefinesUnbounded(s: Settings, es: seq<Event>)
    requires s.Valid() && Replay(s, es).Some?
    ensures IdealReplay(s, Kept(s, es)).Some?
    ensures IdealVerdicts(s, Kept(s, es)) == KeptVerdicts(s, es)
    ensures Simulates(Replay(s, es).value, IdealReplay(s, Kept(s, es)).value)
    decreases |es|
  {
    hide Step, Inv, Verdict, IdealStep, IdealVerdict, IdealEnabled, Enabled, CapacityRefusal;
    if es != [] {
      var past, e := es[..|es| - 1], es[|es| - 1];
      BoundedRefinesUnbounded(s, past);
      ReplayInv(s, past);
      var w, u := Replay(s, past).value, IdealReplay(s, Kept(s, past)).value;
      ReplayLast(s, es);
      if CapacityRefusal(s, w, e) {
        CapacityRefusalChangesNothing(s, w, e);
        assert Kept(s, es) == Kept(s, past);
        assert KeptVerdicts(s, es) == KeptVerdicts(s, past);
      } else {
        assert Kept(s, es) == Kept(s, past) + [e];
        assert (Kept(s, past) + [e])[..|Kept(s, past)|] == Kept(s, past);
        if e.Begin? {
          BeginSimulated(s, w, u, e);
        } else {
          EndSimulated(s, w, u, e);
        }
      }
    }
  }

  lemma ReplayLast(s: Settings, es: seq<Event>)
    requires s.Valid() && Replay(s, es).Some? && es != []
    ensures Replay(s, es[..|es| - 1]).Some? && Enabled(Replay(s, es[..|es| - 1]).value, es[|es| - 1])
    ensures Replay(s, es).value == Step(s, Replay(s, es[..|es| - 1]).value, es[|es| - 1])
  {
  }
}
