/** The coordinator as the source has it: shared mutable entries in a dictionary. */
module SingleFlightCoordination {
  import opened Prelude
  import opened RunResults
  import opened RateLimiter
  import opened SingleFlightModel
  import opened SingleFlightTheorems

  class FlightEntry {
    const ownerRunId: string
    var done: bool
    var outcome: RunResult

    constructor (ownerRunId: string)
      ensures this.ownerRunId == ownerRunId && !done && outcome == DEFAULT_OUTCOME
    {
      this.ownerRunId := ownerRunId;
      done, outcome := false, DEFAULT_OUTCOME;
    }
  }

  /** Does `o` carry the state of the entry `e` of the protocol? */
  ghost predicate Carries(o: FlightEntry, e: Entry)
    reads o
  {
    o.ownerRunId == e.ownerRunId && o.done == e.done && o.outcome == e.outcome
  }

  ghost predicate Registered(m: map<string, FlightEntry>, registry: map<string, nat>, objects: seq<FlightEntry>) {
    && m.Keys == registry.Keys
    && forall k :: k in m ==> registry[k] < |objects| && m[k] == objects[registry[k]]
  }

  ghost predicate Carried(objects: seq<FlightEntry>, entries: seq<Entry>)
    reads objects
  {
    && NoDuplicates(objects) && |objects| == |entries|
    && forall i :: 0 <= i < |objects| ==> Carries(objects[i], entries[i])
  }

  lemma SameKeys(m: map<string, FlightEntry>, registry: map<string, nat>, objects: seq<FlightEntry>)
    requires Registered(m, registry, objects)
    ensures m.Keys == registry.Keys
  {
  }

  lemma RegisteredAt(m: map<string, FlightEntry>, registry: map<string, nat>, objects: seq<FlightEntry>, key: string)
    requires Registered(m, registry, objects) && key in m
    ensures key in registry && registry[key] < |objects| && m[key] == objects[registry[key]]
  {
  }

  lemma RegisteredMore(m: map<string, FlightEntry>, registry: map<string, nat>, objects: seq<FlightEntry>, key: string,
                       o: FlightEntry)
    requires Registered(m, registry, objects)
    ensures Registered(m[key := o], registry[key := |objects|], objects + [o])
  {
  }

  lemma CarriedMore(objects: seq<FlightEntry>, entries: seq<Entry>, o: FlightEntry, e: Entry)
    requires Carried(objects, entries) && o !in objects
    requires o.ownerRunId == e.ownerRunId && o.done == e.done && o.outcome == e.outcome
    ensures Carried(objects + [o], entries + [e]) && |objects| == |entries|
  {
    forall i | 0 <= i < |objects + [o]| ensures Carries((objects + [o])[i], (entries + [e])[i]) {
      assert i < |objects| ==> Carries(objects[i], entries[i]);
    }
  }

  class SingleFlightCoordinator {
    const limiter: RunRateLimiter
    var entries: map<string, FlightEntry>

    /** The protocol state these objects implement, and the object of every entry ever made. */
    ghost var system: System
    ghost var objects: seq<FlightEntry>

    ghost function Limits(): Quota {
      Quota(limiter.perMinute, limiter.maxConcurrent)
    }

    ghost predicate Valid()
      reads this, limiter, objects
    {
      && Registered(entries, system.registry, objects) && Carried(objects, system.entries)
      && limiter.free == system.free && limiter.window == system.window
      && Inv(Limits(), system)
    }

    constructor (limiter: RunRateLimiter)
      requires limiter.maxConcurrent >= 0 && limiter.free == limiter.maxConcurrent && limiter.window == []
      ensures Valid() && this.limiter == limiter && system == Start(Limits())
    {
      this.limiter := limiter;
      entries, objects := map[], [];
      system := Start(Quota(limiter.perMinute, limiter.maxConcurrent));
      new;
      StartInv(Limits());
    }

    /** `admit(owner)`: the admission the claim runs inside its critical section. */
    method Admit(owner: bool, admission: Option<real>) returns (ok: bool)
      requires limiter.free == system.free && limiter.window == system.window
      modifies limiter
      ensures var (y, ok') := Admission(Limits(), system, owner, admission);
        ok == ok' && limiter.free == y.free && limiter.window == y.window
    {
      match admission {
        case None => ok := true;
        case Some(now) =>
          if owner {
            var refusal := limiter.Acquire(now);
            ok := refusal.None?;
          } else {
            ok := limiter.CountRequest(now);
          }
      }
    }

    /** The locked block of `claim`: the flight entry to own or to follow, or null when admission refuses. */
    method Claim(key: string, runId: string, admission: Option<real>, ghost call: nat)
      returns (entry: FlightEntry?, owner: bool)
      requires Valid() && call !in system.calls
      modifies this, limiter
      ensures Valid()
      ensures system == Step(Limits(), old(system), Event.Claim(call, key, runId, admission))
      ensures owner == (key !in old(entries))
      ensures entry != null <==> call in system.calls
      ensures entry != null ==> system.calls[call].entry < |objects| && entry == objects[system.calls[call].entry]
      ensures entry != null ==> owner == fresh(entry) && key in entries && entries[key] == entry
    {
      hide Inv, Admission, Step, ClaimStep, Enabled, Registered, Carried, Carries;
      ghost var y := system;
      SameKeys(entries, y.registry, objects);
      ClaimKeepsInv(Limits(), y, call, key, runId, admission);
      ClaimExplicitly(Limits(), y, call, key, runId, admission);
      owner := key !in entries;
      var ok := Admit(owner, admission);
      system := ClaimStep(Limits(), y, call, key, runId, admission);
      if !ok {
        return null, owner;
      }
      if owner {
        entry := new FlightEntry(runId);
        RegisteredMore(entries, y.registry, objects, key, entry);
        CarriedMore(objects, y.entries, entry, system.entries[|y.entries|]);
        entries := entries[key := entry];
        objects := objects + [entry];
      } else {
        RegisteredAt(entries, y.registry, objects, key);
        entry := entries[key];
      }
    }

    /** `Flight.complete` by the owning call. */
    method Complete(entry: FlightEntry, result: RunResult, ghost call: nat)
      requires Valid() && Enabled(system, Publish(call, result))
      requires system.calls[call].entry < |objects| && entry == objects[system.calls[call].entry]
      modifies this`system, entry
      ensures Valid()
      ensures system == Step(Limits(), old(system), Publish(call, result))
    {
      hide Inv;
      ghost var id := system.calls[call].entry;
      CompleteKeepsInv(Limits(), system, call, result);
      var audited := WithAudit(result, Audit(true, entry.ownerRunId));
      if audited.Some? {
        entry.outcome := audited.value;
      }
      system := SingleFlightModel.Complete(system, id, result);
    }

    /** The finally block of an owner: release, delete, then set the event. */
    method Unwind(key: string, entry: FlightEntry, permit: bool, ghost call: nat)
      requires Valid() && Enabled(system, Event.Unwind(call))
      requires system.calls[call].entry < |objects| && entry == objects[system.calls[call].entry]
      requires system.calls[call].permit == permit && system.entries[system.calls[call].entry].key == key
      modifies this`entries, this`system, limiter, entry
      ensures Valid()
      ensures system == Step(Limits(), old(system), Event.Unwind(call))
      ensures entry.done && old(key in entries && entries[key] == entry)
    {
      hide Inv, Step, Released, UnwindStep, Enabled, Registered, Carries;
      UnwindExplicitly(Limits(), system, call);
      UnwindKeepsInv(Limits(), system, call);
      Release(permit);
      Retire(key, entry, system.calls[call].entry);
      system := UnwindStep(Limits(), system, call);
    }

    method Release(permit: bool)
      requires permit ==> limiter.free < limiter.maxConcurrent
      modifies limiter
      ensures limiter.free == old(limiter.free) + (if permit then 1 else 0) && limiter.window == old(limiter.window)
    {
      if permit {
        var released := limiter.Release();
      }
    }

    /** Deletes the key and sets the event. */
    method Retire(key: string, entry: FlightEntry, ghost id: nat)
      requires Registered(entries, system.registry, objects) && Carried(objects, system.entries)
      requires id < |objects| && objects[id] == entry && key in system.registry && system.registry[key] == id
      modifies this`entries, entry
      ensures old(key in entries && entries[key] == entry)
      ensures Registered(entries, system.registry - {key}, objects)
      ensures Carried(objects, system.entries[id := system.entries[id].(done := true)])
      ensures entry.done
    {
      entries := entries - {key};
      entry.done := true;
    }

    /** `Flight.wait` of a follower whose event is set. */
    method Wait(entry: FlightEntry, ghost call: nat) returns (r: RunResult)
      requires Valid() && Enabled(system, Wake(call))
      requires entry == objects[system.calls[call].entry]
      modifies this`system
      ensures Valid()
      ensures system == Step(Limits(), old(system), Wake(call))
      ensures call in system.calls && system.calls[call] == Answered(old(system).calls[call].entry, r)
    {
      hide Inv, Step, Make, WithAudit;
      ghost var id := system.calls[call].entry;
      WaiterKeepsInv(Limits(), system, call);
      WakeExplicitly(Limits(), system, call);
      var audited := WithAudit(entry.outcome, Audit(false, entry.ownerRunId));
      r := if audited.Some? then audited.value else entry.outcome;
      system := system.(calls := system.calls[call := Answered(id, r)]);
    }
  }

  lemma WakeExplicitly(q: Quota, y: System, call: nat)
    requires Enabled(y, Wake(call))
    ensures Step(q, y, Wake(call)) ==
      y.(calls := y.calls[call := Answered(y.calls[call].entry, Answer(y.entries[y.calls[call].entry]))])
  {
  }

  lemma UnwindExplicitly(q: Quota, y: System, call: nat)
    requires Inv(q, y) && Enabled(y, Event.Unwind(call))
    ensures call in y.calls && y.calls[call].Unwinding?
    ensures var id, y' := y.calls[call].entry, UnwindStep(q, y, call);
      && Step(q, y, Event.Unwind(call)) == y' && id < |y.entries|
      && y.entries[id].key in y.registry && y.registry[y.entries[id].key] == id
      && y' == System(y.registry - {y.entries[id].key}, y.entries[id := y.entries[id].(done := true)],
                      y.calls[call := Left(id)], y.free + (if y.calls[call].permit then 1 else 0), y.window)
      && (y.calls[call].permit ==> y.free < q.maxConcurrent)
  {
    hide Inv, Complete, Admission, Answer, Constructible;
    UnwindFindsItsOwn(q, y, call);
  }

  lemma ClaimExplicitly(q: Quota, y: System, call: nat, key: string, runId: string, admission: Option<real>)
    requires call !in y.calls
    ensures Enabled(y, Event.Claim(call, key, runId, admission))
    ensures var y', (y1, ok) := ClaimStep(q, y, call, key, runId, admission), Admission(q, y, key !in y.registry, admission);
      && Step(q, y, Event.Claim(call, key, runId, admission)) == y'
      && y'.free == y1.free && y'.window == y1.window
      && (!ok ==> y'.registry == y.registry && y'.entries == y.entries && y'.calls == y.calls)
      && (ok && key !in y.registry ==>
            && y'.registry == y.registry[key := |y.entries|]
            && y'.entries == y.entries + [Entry(key, runId, false, DEFAULT_OUTCOME, call, [])]
            && y'.calls == y.calls[call := Owning(|y.entries|, admission.Some?)])
      && (ok && key in y.registry ==>
            && y'.registry == y.registry && y'.entries == y.entries
            && y'.calls == y.calls[call := Following(y.registry[key])])
  {
    hide Admission;
    AdmissionFrame(q, y, key !in y.registry, admission);
  }
}
