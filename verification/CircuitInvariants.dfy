/** What every step of every run of the circuit breaker keeps. */
module CircuitInvariants {
  import opened Prelude
  import opened CircuitModel

  /** The attempts in flight on `key`, whatever generation admitted them. */
  function Calls(f: map<nat, Attempt>, key: ResourceIdentity): set<nat> {
    set t | t in f && f[t].key == key
  }

  function Probes(f: map<nat, Attempt>, key: ResourceIdentity): set<nat> {
    set t | t in f && f[t].key == key && f[t].probe
  }

  /** Generation discipline of one attempt against the circuit that admitted it. */
  predicate Disciplined(c: Circuit, a: Attempt) {
    && a.generation <= c.generation
    && (a.generation == c.generation ==> c.state != Open && (a.probe <==> c.state == HalfOpen))
  }

  ghost predicate CircuitInv(s: Settings, c: Circuit, f: map<nat, Attempt>, key: ResourceIdentity) {
    && c.activeCalls == |Calls(f, key)|
    && c.activeProbes == |Probes(f, key)|
    && c.activeProbes <= s.halfOpenMaxProbes
    && c.generation == c.transitionCount
    && (c.state == Closed ==> c.activeProbes == 0 && c.consecutiveFailures < s.failureThreshold)
    && (c.state == Open ==> c.activeProbes < s.halfOpenMaxProbes)
    && (forall t :: t in Calls(f, key) ==> Disciplined(c, f[t]))
  }

  ghost predicate RegistryInv(s: Settings, g: Registry) {
    && g.WellFormed()
    && |g.entries| <= s.maxEntries
    && Aliased(g.entries, s.maxEntries)
  }

  /** Resident circuits carry distinct aliases between 1 and `max`. */
  ghost predicate Aliased(m: map<ResourceIdentity, Circuit>, max: int) {
    && (forall k :: k in m ==> 1 <= m[k].alias <= max)
    && (forall k, l :: k in m && l in m && k != l ==> m[k].alias != m[l].alias)
  }

  /** Every resident circuit agrees with the attempts in flight. */
  ghost predicate CircuitsInv(s: Settings, m: map<ResourceIdentity, Circuit>, f: map<nat, Attempt>) {
    forall k :: k in m ==> CircuitInv(s, m[k], f, k)
  }

  ghost predicate Resident(m: map<ResourceIdentity, Circuit>, f: map<nat, Attempt>) {
    forall t :: t in f ==> f[t].key in m
  }

  ghost predicate Inv(s: Settings, w: World) {
    && RegistryInv(s, w.registry)
    && Resident(w.registry.entries, w.inFlight)
    && CircuitsInv(s, w.registry.entries, w.inFlight)
  }

  // ---- One circuit ----

  lemma CallsGrow(f: map<nat, Attempt>, t: nat, a: Attempt, key: ResourceIdentity)
    requires t !in f
    ensures Calls(f[t := a], key) == if a.key == key then Calls(f, key) + {t} else Calls(f, key)
    ensures Probes(f[t := a], key) == if a.key == key && a.probe then Probes(f, key) + {t} else Probes(f, key)
  {
  }

  lemma CallsShrink(f: map<nat, Attempt>, t: nat, key: ResourceIdentity)
    requires t in f
    ensures Calls(f - {t}, key) == if f[t].key == key then Calls(f, key) - {t} else Calls(f, key)
    ensures Probes(f - {t}, key) == if f[t].key == key && f[t].probe then Probes(f, key) - {t} else Probes(f, key)
  {
  }

  /** An OPEN circuit always has a free probe slot: whoever arrives after the window is admitted. */
  lemma KnockKeepsCircuit(s: Settings, c: Circuit, f: map<nat, Attempt>, key: ResourceIdentity, now: real, t: nat)
    requires s.Valid() && CircuitInv(s, c, f, key) && t !in f
    ensures var (c', d) := Knock(s, c, now);
      && (d.Admitted? ==> CircuitInv(s, c', f[t := Attempt(key, c'.generation, d.probe)], key))
      && (!d.Admitted? ==> CircuitInv(s, c', f, key))
      && (c.state == Open ==> d != Refused(ProbeLimit))
  {
    var (c', d) := Knock(s, c, now);
    if d.Admitted? {
      CallsGrow(f, t, Attempt(key, c'.generation, d.probe), key);
    }
  }

  lemma SettleKeepsCircuit(s: Settings, c: Circuit, f: map<nat, Attempt>, t: nat, o: Outcome, now: real)
    requires s.Valid() && t in f && CircuitInv(s, c, f, f[t].key)
    ensures CircuitInv(s, Settle(s, c, f[t].generation, f[t].probe, o, now), f - {t}, f[t].key)
  {
    var key := f[t].key;
    CallsShrink(f, t, key);
    assert t in Calls(f, key);
    if f[t].probe {
      assert t in Probes(f, key);
    }
  }

  lemma OtherCircuitGrow(s: Settings, c: Circuit, f: map<nat, Attempt>, t: nat, a: Attempt, key: ResourceIdentity)
    requires CircuitInv(s, c, f, key) && t !in f && a.key != key
    ensures CircuitInv(s, c, f[t := a], key)
  {
    CallsGrow(f, t, a, key);
  }

  lemma OtherCircuitShrink(s: Settings, c: Circuit, f: map<nat, Attempt>, t: nat, key: ResourceIdentity)
    requires CircuitInv(s, c, f, key) && t in f && f[t].key != key
    ensures CircuitInv(s, c, f - {t}, key)
  {
    CallsShrink(f, t, key);
  }

  // ---- The registry ----

  lemma AliasAlwaysFound(s: Settings, g: Registry)
    requires g.WellFormed() && |g.entries| < s.maxEntries
    ensures FirstAlias(UsedAliases(g), 1, s.maxEntries).Some?
  {
    AliasesAreFew(g.entries);
    if FirstAlias(UsedAliases(g), 1, s.maxEntries).None? {
      Pigeonhole(UsedAliases(g), s.maxEntries);
    }
  }

  lemma {:induction false} AliasesAreFew(m: map<ResourceIdentity, Circuit>)
    ensures |set k | k in m :: m[k].alias| <= |m|
    decreases |m|
  {
    if m.Keys != {} {
      var k :| k in m;
      var rest := m - {k};
      AliasesAreFew(rest);
      var used := set j | j in m :: m[j].alias;
      var usedRest := set j | j in rest :: rest[j].alias;
      forall a | a in used ensures a in usedRest + {m[k].alias} {
        var j :| j in m && m[j].alias == a;
        assert j == k || (j in rest && rest[j].alias == a);
      }
      assert used == usedRest + {m[k].alias};
      assert rest.Keys == m.Keys - {k};
    } else {
      assert m == map[];
    }
  }

  lemma DropKeepsAliased(m: map<ResourceIdentity, Circuit>, key: ResourceIdentity, max: int)
    requires Aliased(m, max)
    ensures Aliased(m - {key}, max)
  {
  }

  lemma AddKeepsAliased(m: map<ResourceIdentity, Circuit>, key: ResourceIdentity, c: Circuit, max: int)
    requires Aliased(m, max) && 1 <= c.alias <= max
    requires forall k :: k in m && k != key ==> m[k].alias != c.alias
    ensures Aliased(m[key := c], max)
  {
  }

  lemma UpdateKeepsRegistry(s: Settings, g: Registry, key: ResourceIdentity, c: Circuit)
    requires RegistryInv(s, g) && key in g.entries && c.alias == g.entries[key].alias
    ensures RegistryInv(s, g.(entries := g.entries[key := c]))
  {
    AddKeepsAliased(g.entries, key, c, s.maxEntries);
    assert g.entries[key := c].Keys == g.entries.Keys;
  }

  lemma VacatedKeepsRegistry(s: Settings, g: Registry)
    requires s.Valid() && RegistryInv(s, g)
    ensures RegistryInv(s, Vacated(s, g)) && Vacated(s, g).entries.Keys <= g.entries.Keys
    ensures forall k :: k in Vacated(s, g).entries ==> Vacated(s, g).entries[k] == g.entries[k]
    ensures forall k :: k in g.entries && k !in Vacated(s, g).entries ==> Recyclable(g.entries[k])
    ensures |Vacated(s, g).entries| == s.maxEntries ==> FirstRecyclable(g, 0) == |g.order| && |g.entries| == s.maxEntries
  {
    var victim := FirstRecyclable(g, 0);
    if |g.entries| >= s.maxEntries && victim < |g.order| {
      RemoveWellFormed(g, victim);
      DropKeepsAliased(g.entries, g.order[victim], s.maxEntries);
    }
  }

  lemma AppendKeepsRegistry(s: Settings, g: Registry, key: ResourceIdentity, alias: nat)
    requires RegistryInv(s, g) && key !in g.entries && |g.entries| < s.maxEntries
    requires 1 <= alias <= s.maxEntries && alias !in UsedAliases(g)
    ensures RegistryInv(s, Registry(g.order + [key], g.entries[key := FreshCircuit(alias)]))
  {
    AppendWellFormed(g, key, FreshCircuit(alias));
    assert forall k :: k in g.entries ==> g.entries[k].alias in UsedAliases(g);
    AddKeepsAliased(g.entries, key, FreshCircuit(alias), s.maxEntries);
  }

  /** Insertion never runs out of aliases, and the only circuit it can drop is idle and healthy. */
  lemma InsertKeepsRegistry(s: Settings, g: Registry, key: ResourceIdentity)
    requires s.Valid() && RegistryInv(s, g) && key !in g.entries
    ensures var (g', refused) := Insert(s, g, key);
      && (refused.Some? ==> g' == g && refused.value == Refused(RegistryCapacity) && |g.entries| == s.maxEntries)
      && (refused.None? ==> exists alias ::
            && RegistryInv(s, g')
            && g'.entries == Vacated(s, g).entries[key := FreshCircuit(alias)])
  {
    VacatedKeepsRegistry(s, g);
    var g1 := Vacated(s, g);
    if |g1.entries| < s.maxEntries {
      AliasAlwaysFound(s, g1);
      AppendKeepsRegistry(s, g1, key, FirstAlias(UsedAliases(g1), 1, s.maxEntries).value);
    }
  }

  lemma InsertUnfolded(s: Settings, g: Registry, key: ResourceIdentity)
    requires s.Valid() && RegistryInv(s, g) && key !in g.entries
    ensures Vacated(s, g).WellFormed() && key !in Vacated(s, g).entries
    ensures if |g.entries| >= s.maxEntries && FirstRecyclable(g, 0) == |g.order| then
              Insert(s, g, key).0 == g == Vacated(s, g)
            else
              var g1 := Vacated(s, g);
              var alias := FirstAlias(UsedAliases(g1), 1, s.maxEntries);
              && alias.Some?
              && Insert(s, g, key) == (Registry(g1.order + [key], g1.entries[key := FreshCircuit(alias.value)]), None)
  {
    VacatedKeepsRegistry(s, g);
    if |Vacated(s, g).entries| < s.maxEntries {
      AliasAlwaysFound(s, Vacated(s, g));
    }
  }

  // ---- Steps and runs ----

  /** Which circuits an admission on `key` leaves alone. */
  ghost predicate AdmitFrame(m: map<ResourceIdentity, Circuit>, m': map<ResourceIdentity, Circuit>, key: ResourceIdentity) {
    && (forall k :: k in m' && k != key ==> k in m && m'[k] == m[k])
    && (forall k :: k in m && k !in m' ==> Recyclable(m[k]))
  }

  /** The registry just before the circuit of `key` is knocked at. */
  function Prepared(s: Settings, g: Registry, key: ResourceIdentity): Registry
    requires g.WellFormed()
  {
    if key in g.entries then g else Insert(s, g, key).0
  }

  lemma PreparedKeepsInv(s: Settings, w: World, key: ResourceIdentity)
    requires s.Valid() && Inv(s, w)
    ensures Inv(s, World(Prepared(s, w.registry, key), w.inFlight))
    ensures AdmitFrame(w.registry.entries, Prepared(s, w.registry, key).entries, key)
    ensures key !in Prepared(s, w.registry, key).entries ==>
              Prepared(s, w.registry, key) == w.registry && Insert(s, w.registry, key).1 == Some(Refused(RegistryCapacity))
    ensures key in Prepared(s, w.registry, key).entries && key !in w.registry.entries ==>
              Insert(s, w.registry, key).1 == None
              && exists alias :: Prepared(s, w.registry, key).entries[key] == FreshCircuit(alias)
  {
    var g, g1 := w.registry, Prepared(s, w.registry, key);
    if key !in g.entries {
      InsertKeepsRegistry(s, g, key);
      VacatedKeepsRegistry(s, g);
      if key in g1.entries {
        PreparedResident(s, w, g1, key);
        forall k | k in g1.entries ensures CircuitInv(s, g1.entries[k], w.inFlight, k) {
          if k == key {
            assert Calls(w.inFlight, key) == {} && Probes(w.inFlight, key) == {};
          }
        }
      }
    }
  }

  lemma PreparedResident(s: Settings, w: World, g1: Registry, key: ResourceIdentity)
    requires Resident(w.registry.entries, w.inFlight) && CircuitsInv(s, w.registry.entries, w.inFlight)
    requires forall k :: k in w.registry.entries && k !in g1.entries ==> Recyclable(w.registry.entries[k])
    ensures Resident(g1.entries, w.inFlight)
  {
    forall t | t in w.inFlight ensures w.inFlight[t].key in g1.entries {
      var k := w.inFlight[t].key;
      assert CircuitInv(s, w.registry.entries[k], w.inFlight, k);
      assert t in Calls(w.inFlight, k);
    }
  }

  /** A circuit and the attempts may change as long as no other circuit is concerned. */
  lemma ReplaceKeepsInv(s: Settings, w: World, key: ResourceIdentity, c: Circuit, f: map<nat, Attempt>)
    requires Inv(s, w) && key in w.registry.entries && c.alias == w.registry.entries[key].alias
    requires Resident(w.registry.entries, f) && CircuitInv(s, c, f, key)
    requires forall k :: k in w.registry.entries && k != key ==> CircuitInv(s, w.registry.entries[k], f, k)
    ensures Inv(s, World(w.registry.(entries := w.registry.entries[key := c]), f))
  {
    hide CircuitInv, RegistryInv;
    UpdateKeepsRegistry(s, w.registry, key, c);
  }

  lemma KnockKeepsAlias(s: Settings, c: Circuit, now: real)
    ensures Knock(s, c, now).0.alias == c.alias
  {
  }

  lemma KnockKeepsInv(s: Settings, w: World, key: ResourceIdentity, now: real, t: nat)
    requires s.Valid() && Inv(s, w) && key in w.registry.entries && t !in w.inFlight
    ensures var (c, d) := Knock(s, w.registry.entries[key], now);
      Inv(s, World(w.registry.(entries := w.registry.entries[key := c]),
                   if d.Admitted? then w.inFlight[t := Attempt(key, c.generation, d.probe)] else w.inFlight))
  {
    hide Knock, RegistryInv, CircuitInv;
    var m, f := w.registry.entries, w.inFlight;
    var (c, d) := Knock(s, m[key], now);
    KnockKeepsAlias(s, m[key], now);
    KnockKeepsCircuit(s, m[key], f, key, now, t);
    if d.Admitted? {
      var a := Attempt(key, c.generation, d.probe);
      forall k | k in m && k != key ensures CircuitInv(s, m[k], f[t := a], k) {
        OtherCircuitGrow(s, m[k], f, t, a, k);
      }
      ReplaceKeepsInv(s, w, key, c, f[t := a]);
    } else {
      ReplaceKeepsInv(s, w, key, c, f);
    }
  }

  /** An admission is the preparation of the registry followed by a knock at the key's circuit. */
  lemma BeginIsPrepareThenKnock(s: Settings, w: World, e: Event)
    requires s.Valid() && Inv(s, w) && e.Begin? && Enabled(w, e)
    ensures var g, w' := Prepared(s, w.registry, e.key), Step(s, w, e);
      if e.key in g.entries then
        var (c, d) := Knock(s, g.entries[e.key], e.now);
        && Verdict(s, w, e) == d
        && w'.registry == g.(entries := g.entries[e.key := c])
        && w'.inFlight == (if d.Admitted? then w.inFlight[e.token := Attempt(e.key, c.generation, d.probe)] else w.inFlight)
      else
        g == w.registry && Verdict(s, w, e) == Refused(RegistryCapacity) && w' == w
  {
    hide Inv, Insert, Knock, AdmitFrame;
    WellFormedNow(s, w);
    PreparedKeepsInv(s, w, e.key);
  }

  lemma ResidentNow(s: Settings, w: World)
    requires Inv(s, w)
    ensures RegistryInv(s, w.registry)
    ensures forall t :: t in w.inFlight ==> w.inFlight[t].key in w.registry.entries
  {
  }

  lemma WellFormedNow(s: Settings, w: World)
    requires Inv(s, w)
    ensures w.registry.WellFormed()
  {
  }

  lemma UpdateKeepsFrame(m: map<ResourceIdentity, Circuit>, m': map<ResourceIdentity, Circuit>, key: ResourceIdentity, c: Circuit)
    requires AdmitFrame(m, m', key)
    ensures AdmitFrame(m, m'[key := c], key)
  {
  }

  lemma BeginKeepsInv(s: Settings, w: World, e: Event)
    requires s.Valid() && Inv(s, w) && e.Begin? && Enabled(w, e)
    ensures Inv(s, Step(s, w, e))
    ensures AdmitFrame(w.registry.entries, Step(s, w, e).registry.entries, e.key)
    ensures Verdict(s, w, e) != NoAlias
  {
    hide Inv, Insert, AdmitFrame;
    WellFormedNow(s, w);
    PreparedKeepsInv(s, w, e.key);
    var w1 := World(Prepared(s, w.registry, e.key), w.inFlight);
    WellFormedNow(s, w1);
    if e.key in w1.registry.entries {
      UpdateKeepsFrame(w.registry.entries, w1.registry.entries, e.key, Knock(s, w1.registry.entries[e.key], e.now).0);
      KnockKeepsInv(s, w1, e.key, e.now, e.token);
    }
  }

  lemma SettleKeepsCircuits(s: Settings, m: map<ResourceIdentity, Circuit>, f: map<nat, Attempt>, t: nat, o: Outcome, now: real)
    requires s.Valid() && CircuitsInv(s, m, f) && t in f && f[t].key in m
    ensures CircuitsInv(s, m[f[t].key := Settle(s, m[f[t].key], f[t].generation, f[t].probe, o, now)], f - {t})
  {
    var a := f[t];
    SettleKeepsCircuit(s, m[a.key], f, t, o, now);
    forall k | k in m && k != a.key ensures CircuitInv(s, m[k], f - {t}, k) {
      OtherCircuitShrink(s, m[k], f, t, k);
    }
  }

  lemma EndKeepsInv(s: Settings, w: World, e: Event)
    requires s.Valid() && Inv(s, w) && e.End? && Enabled(w, e)
    ensures Inv(s, Step(s, w, e))
  {
    hide CircuitInv, CircuitsInv, RegistryInv, Aliased;
    WellFormedNow(s, w);
    var m, a := w.registry.entries, w.inFlight[e.token];
    UpdateKeepsRegistry(s, w.registry, a.key, Settle(s, m[a.key], a.generation, a.probe, e.outcome, e.now));
    SettleKeepsCircuits(s, m, w.inFlight, e.token, e.outcome, e.now);
  }

  /** A completion settles the circuit that admitted the attempt, which is still resident. */
  lemma EndIsSettle(s: Settings, w: World, e: Event)
    requires s.Valid() && Inv(s, w) && e.End? && Enabled(w, e)
    ensures var a := w.inFlight[e.token];
      && a.key in w.registry.entries
      && Step(s, w, e) == World(
           w.registry.(entries := w.registry.entries[a.key :=
             Settle(s, w.registry.entries[a.key], a.generation, a.probe, e.outcome, e.now)]),
           w.inFlight - {e.token})
  {
    ResidentNow(s, w);
  }

  lemma StepKeepsInv(s: Settings, w: World, e: Event)
    requires s.Valid() && Inv(s, w) && Enabled(w, e)
    ensures Inv(s, Step(s, w, e))
  {
    if e.Begin? {
      BeginKeepsInv(s, w, e);
    } else {
      EndKeepsInv(s, w, e);
    }
  }

  /** Is `e` about the circuit of `key`? */
  predicate Concerns(w: World, e: Event, key: ResourceIdentity) {
    match e
    case Begin(_, k, _) => k == key
    case End(t, _, _) => t in w.inFlight && w.inFlight[t].key == key
  }

  /** What one step does to one circuit: nothing or a recycling, a knock, or a settlement. */
  ghost predicate StepView(s: Settings, w: World, e: Event, w': World, key: ResourceIdentity)
    requires s.Valid() && w.registry.WellFormed() && Enabled(w, e)
  {
    var m, m' := w.registry.entries, w'.registry.entries;
    if !Concerns(w, e, key) then
      && (key in m' ==> key in m && m'[key] == m[key])
      && (key in m && key !in m' ==> Recyclable(m[key]))
    else if e.Begin? then
      && (key in m ==> key in m' && (m'[key], Verdict(s, w, e)) == Knock(s, m[key], e.now))
      && (key !in m && key in m' ==> exists alias :: (m'[key], Verdict(s, w, e)) == Knock(s, FreshCircuit(alias), e.now))
      && (key !in m' ==> Verdict(s, w, e) == Refused(RegistryCapacity))
    else
      var a := w.inFlight[e.token];
      && key in m && key in m' && Disciplined(m[key], a)
      && m'[key] == Settle(s, m[key], a.generation, a.probe, e.outcome, e.now)
  }

  lemma StepViews(s: Settings, w: World, e: Event, key: ResourceIdentity)
    requires s.Valid() && Inv(s, w) && Enabled(w, e)
    ensures StepView(s, w, e, Step(s, w, e), key)
  {
    if e.Begin? {
      BeginKeepsInv(s, w, e);
      PreparedKeepsInv(s, w, e.key);
    } else if Concerns(w, e, key) {
      assert e.token in Calls(w.inFlight, key);
    }
  }

  lemma InitInv(s: Settings)
    requires s.Valid()
    ensures Inv(s, Init)
  {
  }

  lemma {:induction false} ReplayInv(s: Settings, es: seq<Event>)
    requires s.Valid() && Replay(s, es).Some?
    ensures Inv(s, Replay(s, es).value)
    decreases |es|
  {
    hide Step, Inv;
    if es == [] {
      InitInv(s);
    } else {
      ReplayInv(s, es[..|es| - 1]);
      StepKeepsInv(s, Replay(s, es[..|es| - 1]).value, es[|es| - 1]);
    }
  }

  /** The invariant holds in every world that some history leads to. */
  lemma ReachableInv(s: Settings, w: World)
    requires s.Valid() && Reachable(s, w)
    ensures Inv(s, w)
  {
    hide Inv;
    var es :| Replay(s, es) == Some(w);
    ReplayInv(s, es);
  }
}
