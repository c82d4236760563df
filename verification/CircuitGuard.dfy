/** The guard as the source has it: mutable entries in a mutable, insertion-ordered dictionary. */
module CircuitGuard {
  import opened Prelude
  import opened CircuitModel
  import opened CircuitInvariants

  class Entry {
    var alias: nat
    var state: State
    var generation: nat
    var openedAt: real
    var failureCount: nat
    var consecutiveFailures: nat
    var activeCalls: int
    var activeProbes: int
    var rejectionCount: nat
    var transitionCount: nat

    ghost function View(): Circuit
      reads this
    {
      Circuit(alias, state, generation, openedAt, failureCount, consecutiveFailures,
              activeCalls, activeProbes, rejectionCount, transitionCount)
    }

    constructor (alias: nat)
      ensures View() == FreshCircuit(alias)
    {
      this.alias, state, generation, openedAt := alias, Closed, 0, 0.0;
      failureCount, consecutiveFailures, activeCalls, activeProbes := 0, 0, 0, 0;
      rejectionCount, transitionCount := 0, 0;
    }

    method MoveTo(newState: State)
      modifies this
      ensures View() == Transition(old(View()), newState)
    {
      state := newState;
      generation := generation + 1;
      transitionCount := transitionCount + 1;
    }

    /** The part of `_before_attempt` after the entry has been found or made. */
    method Approach(s: Settings, now: real) returns (d: Decision)
      modifies this
      ensures (View(), d) == Knock(s, old(View()), now)
    {
      if state == Open {
        if now - openedAt < s.openSeconds {
          rejectionCount := rejectionCount + 1;
          return Refused(StillOpen);
        }
        MoveTo(HalfOpen);
      }
      var probe := state == HalfOpen;
      if probe && activeProbes >= s.halfOpenMaxProbes {
        rejectionCount := rejectionCount + 1;
        return Refused(ProbeLimit);
      }
      activeCalls := activeCalls + 1;
      if probe {
        activeProbes := activeProbes + 1;
      }
      return Admitted(probe);
    }

    /** `_finish`, which works on the entry object the attempt has kept since its admission. */
    method Finish(s: Settings, admittedIn: nat, probe: bool, o: Outcome, now: real)
      requires s.Valid()
      modifies this
      ensures View() == Settle(s, old(View()), admittedIn, probe, o, now)
    {
      activeCalls := activeCalls - 1;
      if probe {
        activeProbes := activeProbes - 1;
      }
      var counted := o.Counted();
      if counted {
        failureCount := failureCount + 1;
      }
      if admittedIn != generation {
        return;
      }
      if counted {
        consecutiveFailures := Min(consecutiveFailures + 1, s.failureThreshold);
        if probe || consecutiveFailures >= s.failureThreshold {
          openedAt := now;
          MoveTo(Open);
        }
      } else if o.Succeeded? {
        consecutiveFailures := 0;
        if probe && activeProbes == 0 {
          MoveTo(Closed);
        }
      }
    }
  }

  /** Every attempt in flight holds the entry that is resident under its key. */
  ghost predicate Holds(m: map<ResourceIdentity, Entry>, f: map<nat, Attempt>, h: map<nat, Entry>) {
    && h.Keys == f.Keys
    && forall t :: t in h ==> f[t].key in m && h[t] == m[f[t].key]
  }

  lemma HoldsAfterResolve(m: map<ResourceIdentity, Entry>, m': map<ResourceIdentity, Entry>,
                          f: map<nat, Attempt>, h: map<nat, Entry>)
    requires Holds(m, f, h)
    requires forall k :: k in m' && k in m ==> m'[k] == m[k]
    requires forall t :: t in f ==> f[t].key in m'
    ensures Holds(m', f, h)
  {
  }

  lemma HoldsAfterEnter(m: map<ResourceIdentity, Entry>, f: map<nat, Attempt>, h: map<nat, Entry>,
                        t: nat, a: Attempt, e: Entry)
    requires Holds(m, f, h) && a.key in m && m[a.key] == e && t !in f
    ensures Holds(m, f[t := a], h[t := e])
    ensures forall u :: u in h ==> u in h[t := e] && h[t := e][u] == h[u]
  {
  }

  lemma HoldsAfterFinish(m: map<ResourceIdentity, Entry>, f: map<nat, Attempt>, h: map<nat, Entry>, t: nat)
    requires Holds(m, f, h) && t in f
    ensures f[t].key in m && h[t] == m[f[t].key]
    ensures Holds(m, f - {t}, h - {t})
  {
  }

  class ProviderResilienceGuard {
    const settings: Settings
    var order: seq<ResourceIdentity>
    var entries: map<ResourceIdentity, Entry>

    /** The attempts in flight, and the entry object each of them holds on to. */
    ghost var inFlight: map<nat, Attempt>
    ghost var held: map<nat, Entry>

    ghost function View(): Registry
      reads this, entries.Values
    {
      Registry(order, map k | k in entries :: entries[k].View())
    }

    ghost predicate Distinct()
      reads this`entries
    {
      forall k, l :: k in entries && l in entries && k != l ==> entries[k] != entries[l]
    }

    ghost predicate Valid()
      reads this, entries.Values
    {
      settings.Valid() && Distinct() && Holds(entries, inFlight, held) && Inv(settings, World(View(), inFlight))
    }

    constructor (settings: Settings)
      requires settings.Valid()
      ensures Valid() && View() == Init.registry && inFlight == map[]
      ensures this.settings == settings
    {
      this.settings := settings;
      order, entries, inFlight, held := [], map[], map[], map[];
    }

    method OldestRecyclable() returns (i: nat)
      requires Distinct() && View().WellFormed()
      ensures i == FirstRecyclable(View(), 0)
    {
      i := 0;
      while i < |order|
        invariant i <= |order| && FirstRecyclable(View(), 0) == FirstRecyclable(View(), i)
      {
        assert order[i] in Elements(order);
        var e := entries[order[i]];
        if e.state == Closed && e.activeCalls == 0 && e.consecutiveFailures == 0 {
          return;
        }
        i := i + 1;
      }
    }

    method UnusedAlias() returns (alias: nat)
      requires FirstAlias(UsedAliases(View()), 1, settings.maxEntries).Some?
      ensures Some(alias) == FirstAlias(UsedAliases(View()), 1, settings.maxEntries)
    {
      var used := set k | k in entries :: entries[k].alias;
      assert forall k :: k in entries ==> View().entries[k].alias == entries[k].alias;
      assert used == UsedAliases(View());
      alias := 1;
      while alias in used
        invariant FirstAlias(used, 1, settings.maxEntries) == FirstAlias(used, alias, settings.maxEntries)
        decreases settings.maxEntries - alias
      {
        alias := alias + 1;
      }
    }

    method Drop(i: nat)
      requires i < |order| && Distinct() && View().WellFormed()
      modifies this`order, this`entries
      ensures Distinct() && View() == Remove(old(View()), i)
      ensures entries == old(entries) - {old(order)[i]}
    {
      assert View().entries - {order[i]} == map k | k in entries - {order[i]} :: entries[k].View();
      entries := entries - {order[i]};
      order := order[..i] + order[i + 1..];
    }

    /** Deletes the oldest recyclable entry when the registry is full; false if it is full and there is none. */
    method MakeRoom() returns (ok: bool)
      requires Distinct() && View().WellFormed()
      modifies this`order, this`entries
      ensures Distinct() && View() == Vacated(settings, old(View()))
      ensures entries.Keys <= old(entries).Keys && forall k :: k in entries ==> entries[k] == old(entries)[k]
      ensures ok <==> !(|old(View()).entries| >= settings.maxEntries && FirstRecyclable(old(View()), 0) == |old(order)|)
    {
      hide FirstRecyclable, Recyclable, Remove;
      assert View().entries.Keys == entries.Keys;
      if |entries| >= settings.maxEntries {
        var i := OldestRecyclable();
        if i == |order| {
          return false;
        }
        Drop(i);
      }
      return true;
    }

    method Enrol(key: ResourceIdentity) returns (e: Entry)
      requires Distinct() && key !in entries
      requires FirstAlias(UsedAliases(View()), 1, settings.maxEntries).Some?
      modifies this`order, this`entries
      ensures Distinct() && fresh(e) && entries == old(entries)[key := e]
      ensures var alias := FirstAlias(UsedAliases(old(View())), 1, settings.maxEntries).value;
        View() == Registry(old(View()).order + [key], old(View()).entries[key := FreshCircuit(alias)])
    {
      var alias := UnusedAlias();
      e := new Entry(alias);
      order := order + [key];
      entries := entries[key := e];
      assert View().entries == old(View()).entries[key := FreshCircuit(alias)];
    }

    /** Knocks at a resident entry and, if it admits, records the attempt. */
    method Enter(e: Entry, key: ResourceIdentity, now: real, ghost token: nat) returns (d: Decision)
      requires Distinct() && key in entries && entries[key] == e
      modifies this`inFlight, this`held, e
      ensures var c := Knock(settings, old(View()).entries[key], now).0;
        && d == Knock(settings, old(View()).entries[key], now).1
        && View() == old(View()).(entries := old(View()).entries[key := c])
        && inFlight == (if d.Admitted? then old(inFlight)[token := Attempt(key, c.generation, d.probe)] else old(inFlight))
        && held == (if d.Admitted? then old(held)[token := e] else old(held))
        && e.View() == c
    {
      hide Knock;
      d := e.Approach(settings, now);
      assert View().entries == old(View()).entries[key := e.View()];
      if d.Admitted? {
        inFlight := inFlight[token := Attempt(key, e.generation, d.probe)];
        held := held[token := e];
      }
    }

    /** Finds or makes the entry of `key`; null when the registry is at capacity. */
    method Resolve(key: ResourceIdentity) returns (e: Entry?)
      requires Valid()
      modifies this`order, this`entries
      ensures Distinct() && View() == Prepared(settings, old(View()), key)
      ensures forall k :: k in entries && k in old(entries) ==> entries[k] == old(entries)[k]
      ensures forall k :: k in entries && k !in old(entries) ==> k == key && fresh(entries[k])
      ensures e == if key in entries then entries[key] else null
    {
      hide Inv, RegistryInv, Insert, Vacated, FirstRecyclable, FirstAlias, UsedAliases, Holds;
      ResidentNow(settings, World(View(), inFlight));
      if key in entries {
        return entries[key];
      }
      InsertUnfolded(settings, View(), key);
      var ok := MakeRoom();
      if !ok {
        return null;
      }
      e := Enrol(key);
    }

    method BeforeAttempt(key: ResourceIdentity, now: real, ghost token: nat)
      returns (e: Entry?, admittedIn: nat, d: Decision)
      requires Valid() && token !in inFlight
      modifies this, entries.Values
      ensures Valid()
      ensures World(View(), inFlight) == Step(settings, old(World(View(), inFlight)), Begin(token, key, now))
      ensures d == Verdict(settings, old(World(View(), inFlight)), Begin(token, key, now))
      ensures d.Admitted? ==> key in entries && e == entries[key] && token in held && held[token] == e && admittedIn == e.generation
      ensures forall t :: t in old(held) ==> t in held && held[t] == old(held)[t]
    {
      hide Inv, RegistryInv, Knock, AdmitFrame, Prepared, Step, Verdict, Holds, Distinct;
      ghost var w := World(View(), inFlight);
      PreparedKeepsInv(settings, w, key);
      BeginKeepsInv(settings, w, Begin(token, key, now));
      BeginIsPrepareThenKnock(settings, w, Begin(token, key, now));
      WellFormedNow(settings, w);
      e := Resolve(key);
      assert View().entries.Keys == entries.Keys;
      ResidentNow(settings, World(View(), inFlight));
      ghost var m, f, h := entries, inFlight, held;
      HoldsAfterResolve(old(entries), m, f, h);
      admittedIn, d := 0, Refused(RegistryCapacity);
      if e != null {
        d := Enter(e, key, now, token);
        admittedIn := e.generation;
        if d.Admitted? {
          HoldsAfterEnter(m, f, h, token, Attempt(key, admittedIn, d.probe), e);
        }
      }
    }

    lemma OnlyUnder(key: ResourceIdentity)
      requires Distinct() && key in entries
      ensures forall k :: k in entries && k != key ==> entries[k] != entries[key]
    {
    }

    method FinishAttempt(e: Entry, admittedIn: nat, probe: bool, o: Outcome, now: real, ghost token: nat)
      requires Valid() && token in inFlight && held[token] == e
      requires inFlight[token].generation == admittedIn && inFlight[token].probe == probe
      modifies this`inFlight, this`held, e
      ensures Valid()
      ensures World(View(), inFlight) == Step(settings, old(World(View(), inFlight)), End(token, o, now))
    {
      hide Inv, Settle, Step, Holds, Distinct;
      ghost var w := World(View(), inFlight);
      ghost var key := inFlight[token].key;
      EndKeepsInv(settings, w, End(token, o, now));
      EndIsSettle(settings, w, End(token, o, now));
      HoldsAfterFinish(entries, inFlight, held, token);
      OnlyUnder(key);
      e.Finish(settings, admittedIn, probe, o, now);
      inFlight := inFlight - {token};
      held := held - {token};
      assert View().entries == w.registry.entries[key := e.View()];
    }
  }
}
