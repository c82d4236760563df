/** Ownership, agreement and permit conservation over every interleaving. */
module SingleFlightTheorems {
  import opened Prelude
  import opened RunResults
  import opened RateLimiter
  import opened SingleFlightModel

  predicate LiveOwner(call: Call) { call.Owning? || call.Unwinding? }

  /** Between taking a permit and giving it back, a direct call holds it, even while its request is being refused. */
  predicate HoldsPermit(call: Call) {
    call.DirectHeld? || call.DirectSampled? || call.DirectRefused? || call.DirectRun? || (LiveOwner(call) && call.permit)
  }

  function Holders(calls: map<nat, Call>): set<nat> {
    set c | c in calls && HoldsPermit(calls[c])
  }

  /** What the owner last published, or the pessimistic default. */
  function LastPublished(e: Entry): RunResult {
    if e.published == [] then DEFAULT_OUTCOME else e.published[|e.published| - 1]
  }

  ghost predicate EntryInv(e: Entry) {
    && Constructible(e.outcome)
    && (forall i :: 0 <= i < |e.published| ==> Constructible(e.published[i]))
    && e.outcome == (if e.published == [] then DEFAULT_OUTCOME
                     else LastPublished(e).(metadata := Audit(true, e.ownerRunId)))
  }

  /** An entry is resident exactly while its owner is live, and done exactly when the owner has left. */
  ghost predicate OwnershipInv(registry: map<string, nat>, entries: seq<Entry>, calls: map<nat, Call>) {
    && (forall k :: k in registry ==> registry[k] < |entries| && entries[registry[k]].key == k && !entries[registry[k]].done)
    && (forall id :: 0 <= id < |entries| ==>
          && entries[id].owner in calls
          && (if entries[id].done then calls[entries[id].owner] == Left(id)
              else && LiveOwner(calls[entries[id].owner]) && calls[entries[id].owner].entry == id
                   && entries[id].key in registry && registry[entries[id].key] == id))
  }

  ghost predicate CallInv(entries: seq<Entry>, c: nat, call: Call) {
    match call
    case Owning(id, _) => id < |entries| && entries[id].owner == c
    case Unwinding(id, _) => id < |entries| && entries[id].owner == c
    case Left(id) => id < |entries| && entries[id].owner == c && entries[id].done
    case Following(id) => id < |entries| && entries[id].owner != c
    case Answered(id, r) => id < |entries| && entries[id].owner != c && entries[id].done && r == Answer(entries[id])
    case TimedOut(id, _) => id < |entries| && entries[id].owner != c
    case Abandoned(id) => id < |entries| && entries[id].owner != c
    case _ => true
  }

  ghost predicate CallsInv(entries: seq<Entry>, calls: map<nat, Call>) {
    forall c :: c in calls ==> CallInv(entries, c, calls[c])
  }

  ghost predicate EntriesInv(entries: seq<Entry>) {
    forall id :: 0 <= id < |entries| ==> EntryInv(entries[id])
  }

  ghost predicate PermitInv(q: Quota, free: int, calls: map<nat, Call>) {
    free >= 0 && free + |Holders(calls)| == q.maxConcurrent
  }

  ghost predicate Inv(q: Quota, y: System) {
    && OwnershipInv(y.registry, y.entries, y.calls)
    && CallsInv(y.entries, y.calls)
    && EntriesInv(y.entries)
    && PermitInv(q, y.free, y.calls)
  }

  // ---- Each part of the invariant under each kind of step ----

  lemma HoldersChange(calls: map<nat, Call>, c: nat, call: Call)
    ensures Holders(calls[c := call]) == if HoldsPermit(call) then Holders(calls) + {c} else Holders(calls) - {c}
  {
  }

  /** The stock outcomes are what the constructor gives for their arguments. */
  lemma StockOutcomesAreMade(e: Entry)
    ensures Make(3, Some(RUNNER_FAILED), None, None, NoMetadata) == Some(DEFAULT_OUTCOME)
    ensures Make(3, Some(RUN_CANCELLED), None, Some(CANCELLED), NoMetadata) == Some(CANCELLED_OUTCOME)
    ensures Make(3, Some(WAIT_TIMEOUT), None, None, Audit(false, e.ownerRunId)) == Some(TimeoutAnswer(e))
  {
    SafeConstants();
  }

  lemma StockOutcomes()
    ensures Constructible(DEFAULT_OUTCOME) && Constructible(CANCELLED_OUTCOME)
  {
    SafeConstants();
    ConstructibleIffCanonical(DEFAULT_OUTCOME);
    ConstructibleIffCanonical(CANCELLED_OUTCOME);
  }

  lemma CompletedKeepsEntry(e: Entry, r: RunResult)
    requires EntryInv(e) && Constructible(r)
    ensures EntryInv(Completed(e, r))
    ensures Completed(e, r) == e.(outcome := r.(metadata := Audit(true, e.ownerRunId)), published := e.published + [r])
  {
    AuditChangesOnlyMetadata(r, Audit(true, e.ownerRunId));
  }

  lemma OutcomeKeepsOwnership(y: System, id: nat, e: Entry)
    requires OwnershipInv(y.registry, y.entries, y.calls) && id < |y.entries|
    requires e.key == y.entries[id].key && e.owner == y.entries[id].owner && e.done == y.entries[id].done
    ensures OwnershipInv(y.registry, y.entries[id := e], y.calls)
  {
  }

  lemma OutcomeKeepsCalls(entries: seq<Entry>, calls: map<nat, Call>, id: nat, e: Entry)
    requires CallsInv(entries, calls) && id < |entries|
    requires e.owner == entries[id].owner && !e.done && !entries[id].done
    ensures CallsInv(entries[id := e], calls)
  {
    forall d | d in calls ensures CallInv(entries[id := e], d, calls[d]) {
      assert CallInv(entries, d, calls[d]);
    }
  }

  /** Replacing the outcome of an entry that is not done disturbs nobody. */
  lemma CompleteKeepsInv(q: Quota, y: System, c: nat, r: RunResult)
    requires Inv(q, y) && c in y.calls && LiveOwner(y.calls[c]) && Constructible(r)
    ensures Inv(q, Complete(y, y.calls[c].entry, r)) && Complete(y, y.calls[c].entry, r).calls == y.calls
  {
    hide OwnershipInv, CallsInv, CallInv, EntryInv, PermitInv, Completed, Constructible;
    var id := y.calls[c].entry;
    LiveOwnerIsUnfinished(q, y, c);
    CompletedKeepsEntry(y.entries[id], r);
    OutcomeKeepsOwnership(y, id, Completed(y.entries[id], r));
    OutcomeKeepsCalls(y.entries, y.calls, id, Completed(y.entries[id], r));
  }

  lemma LiveOwnerIsUnfinished(q: Quota, y: System, c: nat)
    requires Inv(q, y) && c in y.calls && LiveOwner(y.calls[c])
    ensures var id := y.calls[c].entry;
      && id < |y.entries| && !y.entries[id].done && y.entries[id].owner == c && EntryInv(y.entries[id])
  {
    assert CallInv(y.entries, c, y.calls[c]);
  }

  lemma CallsChange(entries: seq<Entry>, calls: map<nat, Call>, c: nat, call: Call)
    requires CallsInv(entries, calls) && CallInv(entries, c, call)
    ensures CallsInv(entries, calls[c := call])
  {
  }

  lemma OwnerStaysLive(y: System, c: nat, call: Call)
    requires OwnershipInv(y.registry, y.entries, y.calls) && c in y.calls && LiveOwner(y.calls[c])
    requires LiveOwner(call) && call.entry == y.calls[c].entry
    ensures OwnershipInv(y.registry, y.entries, y.calls[c := call])
  {
  }

  lemma BystanderChanges(y: System, c: nat, call: Call)
    requires OwnershipInv(y.registry, y.entries, y.calls) && forall id :: 0 <= id < |y.entries| ==> y.entries[id].owner != c
    ensures OwnershipInv(y.registry, y.entries, y.calls[c := call])
  {
  }

  lemma OwnerCallChanges(q: Quota, y: System, c: nat, call: Call)
    requires Inv(q, y) && c in y.calls && LiveOwner(y.calls[c]) && LiveOwner(call)
    requires call.entry == y.calls[c].entry && call.permit == y.calls[c].permit
    ensures Inv(q, y.(calls := y.calls[c := call]))
  {
    hide OwnershipInv, EntriesInv;
    assert CallInv(y.entries, c, y.calls[c]);
    CallsChange(y.entries, y.calls, c, call);
    OwnerStaysLive(y, c, call);
    HoldersChange(y.calls, c, call);
    assert Holders(y.calls[c := call]) == Holders(y.calls);
  }

  lemma FollowerCallChanges(q: Quota, y: System, c: nat, call: Call)
    requires Inv(q, y) && c in y.calls && y.calls[c].Following? && CallInv(y.entries, c, call)
    requires call.Answered? || call.TimedOut? || call.Abandoned?
    ensures Inv(q, y.(calls := y.calls[c := call]))
  {
    hide OwnershipInv, EntriesInv, CallsInv, CallInv;
    NotAnOwner(y, c);
    CallsChange(y.entries, y.calls, c, call);
    BystanderChanges(y, c, call);
    HoldersChange(y.calls, c, call);
    assert Holders(y.calls[c := call]) == Holders(y.calls);
  }

  lemma NotAnOwner(y: System, c: nat)
    requires OwnershipInv(y.registry, y.entries, y.calls) && (c in y.calls ==> !LiveOwner(y.calls[c]) && !y.calls[c].Left?)
    ensures forall id :: 0 <= id < |y.entries| ==> y.entries[id].owner != c
  {
  }

  lemma AdmissionFrame(q: Quota, y: System, owner: bool, admission: Option<real>)
    ensures var (y1, ok) := Admission(q, y, owner, admission);
      && y1.registry == y.registry && y1.entries == y.entries && y1.calls == y.calls
      && y1.free == (if ok && owner && admission.Some? then y.free - 1 else y.free)
      && (ok && owner && admission.Some? ==> y.free > 0)
      && (!ok && owner && y.free <= 0 ==> y1 == y)
  {
  }

  lemma NewOwnerKeepsOwnership(y: System, c: nat, key: string, e: Entry, permit: bool)
    requires OwnershipInv(y.registry, y.entries, y.calls) && c !in y.calls && key !in y.registry
    requires e.key == key && e.owner == c && !e.done
    ensures OwnershipInv(y.registry[key := |y.entries|], y.entries + [e], y.calls[c := Owning(|y.entries|, permit)])
  {
  }

  lemma NewEntryKeepsCalls(entries: seq<Entry>, e: Entry, calls: map<nat, Call>)
    requires CallsInv(entries, calls)
    ensures CallsInv(entries + [e], calls)
  {
    forall c | c in calls ensures CallInv(entries + [e], c, calls[c]) {
      assert CallInv(entries, c, calls[c]);
    }
  }

  lemma ClaimKeepsInv(q: Quota, y: System, c: nat, key: string, runId: string, admission: Option<real>)
    requires Inv(q, y) && c !in y.calls
    ensures Inv(q, ClaimStep(q, y, c, key, runId, admission))
  {
    hide Inv, ClaimStep;
    if key in y.registry {
      FollowerKeepsInv(q, y, c, key, runId, admission);
    } else {
      OwnerKeepsInv(q, y, c, key, runId, admission);
    }
  }

  lemma OwnerKeepsInv(q: Quota, y: System, c: nat, key: string, runId: string, admission: Option<real>)
    requires Inv(q, y) && c !in y.calls && key !in y.registry
    ensures Inv(q, ClaimStep(q, y, c, key, runId, admission))
  {
    hide OwnershipInv, EntryInv, CallsInv, CallInv, Admission;
    AdmissionFrame(q, y, true, admission);
    var id, e := |y.entries|, Entry(key, runId, false, DEFAULT_OUTCOME, c, []);
    if Admission(q, y, true, admission).1 {
      NewEntryInv(e);
      NewOwnerKeepsOwnership(y, c, key, e, admission.Some?);
      NewEntryKeepsCalls(y.entries, e, y.calls);
      NewCallInv(y.entries, c, e, admission.Some?);
      CallsChange(y.entries + [e], y.calls, c, Owning(id, admission.Some?));
      HoldersChange(y.calls, c, Owning(id, admission.Some?));
    }
    assert c !in Holders(y.calls);
  }

  lemma FollowerKeepsInv(q: Quota, y: System, c: nat, key: string, runId: string, admission: Option<real>)
    requires Inv(q, y) && c !in y.calls && key in y.registry
    ensures Inv(q, ClaimStep(q, y, c, key, runId, admission))
  {
    hide OwnershipInv, EntryInv, CallsInv, CallInv, Admission;
    AdmissionFrame(q, y, false, admission);
    if Admission(q, y, false, admission).1 {
      FollowerJoins(y, c, key);
      HoldersChange(y.calls, c, Following(y.registry[key]));
    }
    assert c !in Holders(y.calls);
  }

  lemma NewEntryInv(e: Entry)
    requires e.outcome == DEFAULT_OUTCOME && e.published == []
    ensures EntryInv(e)
  {
    StockOutcomes();
  }

  lemma NewCallInv(entries: seq<Entry>, c: nat, e: Entry, permit: bool)
    requires e.owner == c
    ensures CallInv(entries + [e], c, Owning(|entries|, permit))
  {
  }

  lemma FollowerJoins(y: System, c: nat, key: string)
    requires OwnershipInv(y.registry, y.entries, y.calls) && CallsInv(y.entries, y.calls) && c !in y.calls && key in y.registry
    ensures OwnershipInv(y.registry, y.entries, y.calls[c := Following(y.registry[key])])
    ensures CallsInv(y.entries, y.calls[c := Following(y.registry[key])])
  {
    NotAnOwner(y, c);
    BystanderChanges(y, c, Following(y.registry[key]));
    CallsChange(y.entries, y.calls, c, Following(y.registry[key]));
  }

  /** The unwinding owner finds its own entry under its key, and its permit fits back. */
  lemma UnwindFindsItsOwn(q: Quota, y: System, c: nat)
    requires Inv(q, y) && c in y.calls && y.calls[c].Unwinding?
    ensures var id := y.calls[c].entry;
      && id < |y.entries| && !y.entries[id].done
      && y.entries[id].key in y.registry && y.registry[y.entries[id].key] == id
      && (y.calls[c].permit ==> y.free < q.maxConcurrent)
  {
    assert CallInv(y.entries, c, y.calls[c]);
    if y.calls[c].permit {
      assert c in Holders(y.calls);
    }
  }

  lemma DoneKeepsCalls(entries: seq<Entry>, id: nat, calls: map<nat, Call>)
    requires id < |entries| && CallsInv(entries, calls)
    ensures CallsInv(entries[id := entries[id].(done := true)], calls)
  {
    var entries' := entries[id := entries[id].(done := true)];
    forall c | c in calls ensures CallInv(entries', c, calls[c]) {
      assert CallInv(entries, c, calls[c]);
    }
  }

  lemma DoneKeepsOwnership(y: System, c: nat, id: nat)
    requires OwnershipInv(y.registry, y.entries, y.calls) && id < |y.entries| && y.entries[id].owner == c
    requires !y.entries[id].done
    ensures OwnershipInv(y.registry - {y.entries[id].key}, y.entries[id := y.entries[id].(done := true)], y.calls[c := Left(id)])
  {
  }

  lemma UnwindKeepsInv(q: Quota, y: System, c: nat)
    requires Inv(q, y) && c in y.calls && y.calls[c].Unwinding?
    ensures Inv(q, UnwindStep(q, y, c))
  {
    hide OwnershipInv, CallsInv, CallInv, EntryInv, Constructible;
    var id := y.calls[c].entry;
    UnwindFindsItsOwn(q, y, c);
    LiveOwnerIsUnfinished(q, y, c);
    DoneKeepsOwnership(y, c, id);
    DoneKeepsCalls(y.entries, id, y.calls);
    LeftCallInv(y.entries, id, c);
    CallsChange(y.entries[id := y.entries[id].(done := true)], y.calls, c, Left(id));
    DoneKeepsEntry(y.entries[id]);
    HoldersChange(y.calls, c, Left(id));
    assert y.calls[c].permit <==> c in Holders(y.calls);
  }

  lemma LeftCallInv(entries: seq<Entry>, id: nat, c: nat)
    requires id < |entries| && entries[id].owner == c
    ensures CallInv(entries[id := entries[id].(done := true)], c, Left(id))
  {
  }

  lemma DoneKeepsEntry(e: Entry)
    requires EntryInv(e)
    ensures EntryInv(e.(done := true))
  {
  }

  predicate IsDirect(call: Call) {
    call.DirectHeld? || call.DirectSampled? || call.DirectRefused? || call.DirectRun? || call.DirectDone?
  }

  /** A direct call moves on while the permits follow. */
  lemma DirectMoves(q: Quota, y: System, c: nat, call: Call, free: int)
    requires Inv(q, y) && (c in y.calls ==> IsDirect(y.calls[c])) && IsDirect(call)
    requires free >= 0 && free + |Holders(y.calls[c := call])| == q.maxConcurrent
    ensures Inv(q, y.(free := free, calls := y.calls[c := call]))
  {
    hide OwnershipInv, EntriesInv, CallsInv, CallInv;
    NotAnOwner(y, c);
    BystanderChanges(y, c, call);
    DirectCall(y.entries, y.calls, c, call);
  }

  lemma DirectKeepsInv(q: Quota, y: System, e: Event)
    requires Inv(q, y) && Enabled(y, e)
    requires e.DirectTake? || e.DirectRead? || e.DirectCount? || e.DirectRelease?
    ensures Inv(q, Step(q, y, e))
  {
    hide OwnershipInv, EntriesInv, CallsInv, CallInv;
    var c := e.call;
    match e
    case DirectTake(_) =>
      if y.free > 0 {
        HoldersChange(y.calls, c, DirectHeld);
        assert c !in Holders(y.calls);
        DirectMoves(q, y, c, DirectHeld, y.free - 1);
      }
    case DirectRead(_, now) =>
      HoldersChange(y.calls, c, DirectSampled(now));
      assert Holders(y.calls) + {c} == Holders(y.calls);
      DirectMoves(q, y, c, DirectSampled(now), y.free);
    case DirectCount(_) =>
      var call := Step(q, y, e).calls[c];
      HoldersChange(y.calls, c, call);
      assert Holders(y.calls) + {c} == Holders(y.calls);
      DirectMoves(q, y, c, call, y.free);
    case DirectRelease(_) =>
      HoldersChange(y.calls, c, DirectDone);
      assert c in Holders(y.calls);
      DirectMoves(q, y, c, DirectDone, y.free + 1);
  }

  lemma DirectCall(entries: seq<Entry>, calls: map<nat, Call>, c: nat, call: Call)
    requires CallsInv(entries, calls) && IsDirect(call)
    ensures CallsInv(entries, calls[c := call])
  {
  }

  lemma StepKeepsInv(q: Quota, y: System, e: Event)
    requires Inv(q, y) && Enabled(y, e)
    ensures Inv(q, Step(q, y, e))
  {
    hide Inv, ClaimStep, UnwindStep, Complete, Admission, Released;
    match e
    case Claim(c, key, runId, admission) => ClaimKeepsInv(q, y, c, key, runId, admission);
    case Publish(c, r) => CompleteKeepsInv(q, y, c, r);
    case Leave(c, exit) =>
      StockOutcomes();
      var call := Unwinding(y.calls[c].entry, y.calls[c].permit);
      match exit {
        case Normal => OwnerCallChanges(q, y, c, call);
        case Failure =>
          CompleteKeepsInv(q, y, c, DEFAULT_OUTCOME);
          OwnerCallChanges(q, Complete(y, call.entry, DEFAULT_OUTCOME), c, call);
        case Cancellation =>
          CompleteKeepsInv(q, y, c, CANCELLED_OUTCOME);
          OwnerCallChanges(q, Complete(y, call.entry, CANCELLED_OUTCOME), c, call);
      }
    case Unwind(c) => UnwindKeepsInv(q, y, c);
    case Wake(c) => WaiterKeepsInv(q, y, c);
    case Expires(c) => WaiterKeepsInv(q, y, c);
    case Abandon(c) => WaiterKeepsInv(q, y, c);
    case _ => DirectKeepsInv(q, y, e);
  }

  /** Whatever ends its wait, a follower's call agrees with the entry it joined. */
  lemma WaiterCalls(y: System, c: nat)
    requires CallsInv(y.entries, y.calls) && c in y.calls && y.calls[c].Following?
    ensures y.calls[c].entry < |y.entries|
    ensures var id := y.calls[c].entry;
      && (y.entries[id].done ==> CallInv(y.entries, c, Answered(id, Answer(y.entries[id]))))
      && CallInv(y.entries, c, TimedOut(id, TimeoutAnswer(y.entries[id])))
      && CallInv(y.entries, c, Abandoned(id))
  {
    hide Answer, TimeoutAnswer;
    assert CallInv(y.entries, c, y.calls[c]);
  }

  lemma WaiterKeepsInv(q: Quota, y: System, c: nat)
    requires Inv(q, y) && c in y.calls && y.calls[c].Following?
    ensures y.calls[c].entry < |y.entries|
    ensures var id := y.calls[c].entry;
      && (y.entries[id].done ==> Inv(q, y.(calls := y.calls[c := Answered(id, Answer(y.entries[id]))])))
      && Inv(q, y.(calls := y.calls[c := TimedOut(id, TimeoutAnswer(y.entries[id]))]))
      && Inv(q, y.(calls := y.calls[c := Abandoned(id)]))
  {
    hide Inv, CallsInv, CallInv, Answer, TimeoutAnswer;
    InvCalls(q, y);
    WaiterCalls(y, c);
    var id := y.calls[c].entry;
    if y.entries[id].done {
      FollowerCallChanges(q, y, c, Answered(id, Answer(y.entries[id])));
    }
    FollowerCallChanges(q, y, c, TimedOut(id, TimeoutAnswer(y.entries[id])));
    FollowerCallChanges(q, y, c, Abandoned(id));
  }

  lemma InvCalls(q: Quota, y: System)
    requires Inv(q, y)
    ensures CallsInv(y.entries, y.calls)
  {
    hide OwnershipInv, CallsInv, EntriesInv, PermitInv;
  }

  lemma StartInv(q: Quota)
    requires q.maxConcurrent >= 0
    ensures Inv(q, Start(q))
  {
    assert Holders(map[]) == {};
  }

  lemma {:induction false} ReplayInv(q: Quota, es: seq<Event>)
    requires q.maxConcurrent >= 0 && Replay(q, es).Some?
    ensures Inv(q, Replay(q, es).value)
    decreases |es|
  {
    hide Inv, Step, Enabled;
    if es == [] {
      StartInv(q);
    } else {
      ReplayInv(q, es[..|es| - 1]);
      StepKeepsInv(q, Replay(q, es[..|es| - 1]).value, es[|es| - 1]);
    }
  }

  lemma ReachableInv(q: Quota, y: System)
    requires q.maxConcurrent >= 0 && Reachable(q, y)
    ensures Inv(q, y)
  {
    hide Inv;
    var es :| Replay(q, es) == Some(y);
    ReplayInv(q, es);
  }

  // ---- Ownership ----

  /** Two live owners of one key are one call, and every resident entry is unfinished and owned. */
  lemma OneLiveOwnerPerKey(q: Quota, y: System, c: nat, d: nat)
    requires q.maxConcurrent >= 0 && Reachable(q, y)
    requires c in y.calls && d in y.calls && LiveOwner(y.calls[c]) && LiveOwner(y.calls[d])
    ensures y.calls[c].entry < |y.entries| && y.calls[d].entry < |y.entries|
    ensures y.entries[y.calls[c].entry].key == y.entries[y.calls[d].entry].key ==> c == d
  {
    ReachableInv(q, y);
    assert CallInv(y.entries, c, y.calls[c]) && CallInv(y.entries, d, y.calls[d]);
  }

  /** A claim that finds an entry joins an unfinished flight whose owner is still live. */
  lemma ClaimNeverJoinsAFinishedFlight(q: Quota, y: System, key: string)
    requires q.maxConcurrent >= 0 && Reachable(q, y) && key in y.registry
    ensures y.registry[key] < |y.entries| && !y.entries[y.registry[key]].done
    ensures var o := y.entries[y.registry[key]].owner;
      o in y.calls && LiveOwner(y.calls[o]) && y.calls[o].entry == y.registry[key]
  {
    ReachableInv(q, y);
  }

  /** Unwinding removes the owner's own entry, sets its event, and returns exactly its permit. */
  lemma UnwindRemovesItsOwn(q: Quota, y: System, c: nat)
    requires q.maxConcurrent >= 0 && Reachable(q, y) && Enabled(y, Unwind(c))
    ensures var id, y' := y.calls[c].entry, Step(q, y, Unwind(c));
      && id < |y.entries| && y.entries[id].key in y.registry && y.registry[y.entries[id].key] == id
      && y'.registry == y.registry - {y.entries[id].key}
      && y'.entries == y.entries[id := y.entries[id].(done := true)]
      && y'.free == y.free + (if y.calls[c].permit then 1 else 0)
  {
    hide Inv, Reachable;
    ReachableInv(q, y);
    UnwindFindsItsOwn(q, y, c);
  }

  /** On every exit path an owner that has left has set its event, so each of its followers can wake. */
  lemma EveryExitReleasesFollowers(q: Quota, y: System, o: nat, f: nat)
    requires q.maxConcurrent >= 0 && Reachable(q, y)
    requires o in y.calls && y.calls[o].Left? && f in y.calls && y.calls[f] == Following(y.calls[o].entry)
    ensures Enabled(y, Wake(f)) && !Enabled(y, Expires(f))
  {
    ReachableInv(q, y);
    assert CallInv(y.entries, o, y.calls[o]) && CallInv(y.entries, f, y.calls[f]);
  }

  // ---- Agreement ----

  /** A finished flight never changes again. */
  lemma FinishedIsFinal(q: Quota, y: System, e: Event, id: nat)
    requires q.maxConcurrent >= 0 && Reachable(q, y) && Enabled(y, e) && id < |y.entries| && y.entries[id].done
    ensures id < |Step(q, y, e).entries| && Step(q, y, e).entries[id] == y.entries[id]
  {
    hide Inv, Admission, Completed, Answer;
    ReachableInv(q, y);
    if e.call in y.calls && LiveOwner(y.calls[e.call]) {
      LiveOwnerIsUnfinished(q, y, e.call);
    }
    match e {
      case Claim(_, key, _, admission) => AdmissionFrame(q, y, key !in y.registry, admission);
      case _ =>
    }
  }

  /** Every follower that was answered got the owner's last publication, changed only in role metadata. */
  lemma FollowersAgreeWithTheOwner(q: Quota, y: System, f: nat)
    requires q.maxConcurrent >= 0 && Reachable(q, y) && f in y.calls && y.calls[f].Answered?
    ensures y.calls[f].entry < |y.entries| && y.entries[y.calls[f].entry].done
    ensures var e := y.entries[y.calls[f].entry];
      y.calls[f].result == LastPublished(e).(metadata := Audit(false, e.ownerRunId))
  {
    ReachableInv(q, y);
    assert CallInv(y.entries, f, y.calls[f]);
    var e := y.entries[y.calls[f].entry];
    assert EntryInv(e);
    AuditChangesOnlyMetadata(e.outcome, Audit(false, e.ownerRunId));
  }

  /** An owner's exceptional exit is itself a publication: followers see a failure or a cancellation. */
  lemma ExceptionalExitIsPublished(q: Quota, y: System, c: nat, exit: Exit)
    requires q.maxConcurrent >= 0 && Reachable(q, y) && Enabled(y, Leave(c, exit)) && exit != Normal
    ensures y.calls[c].entry < |Step(q, y, Leave(c, exit)).entries|
    ensures LastPublished(Step(q, y, Leave(c, exit)).entries[y.calls[c].entry])
      == if exit == Failure then DEFAULT_OUTCOME else CANCELLED_OUTCOME
  {
    hide Inv, EntryInv, Completed, Constructible;
    ReachableInv(q, y);
    LiveOwnerIsUnfinished(q, y, c);
    StockOutcomes();
    var e := y.entries[y.calls[c].entry];
    CompletedKeepsEntry(e, DEFAULT_OUTCOME);
    CompletedKeepsEntry(e, CANCELLED_OUTCOME);
  }

  // ---- Permits and the window ----

  /** Free permits and live holders always add up to the limit. */
  lemma PermitsAreConserved(q: Quota, y: System)
    requires q.maxConcurrent >= 0 && Reachable(q, y)
    ensures y.free >= 0 && y.free + |Holders(y.calls)| == q.maxConcurrent
  {
    ReachableInv(q, y);
  }

  /** A refused claim creates no call, registers nothing and takes no permit; a concurrency refusal takes no window slot. */
  lemma RefusedClaimChangesNothing(q: Quota, y: System, e: Event)
    requires Enabled(y, e) && e.Claim? && e.call !in Step(q, y, e).calls
    ensures Step(q, y, e) == y
      || (e.admission.Some? && Step(q, y, e) == y.(window := Expire(y.window, e.admission.value)))
    ensures e.key !in y.registry && y.free <= 0 ==> Step(q, y, e) == y
  {
  }

  /** The clock sample with which a step reaches the limiter's window, if it does. */
  function Sample(y: System, e: Event): Option<real> {
    match e
    case Claim(_, key, _, admission) => if key in y.registry || y.free > 0 then admission else None
    case DirectCount(c) => if c in y.calls && y.calls[c].DirectSampled? then Some(y.calls[c].now) else None
    case _ => None
  }

  /** The samples that reached the window in a history, in order. */
  ghost function Counted(q: Quota, es: seq<Event>): seq<real>
    requires Replay(q, es).Some?
    decreases |es|
  {
    if es == [] then []
    else
      var past, sample := es[..|es| - 1], Sample(Replay(q, es[..|es| - 1]).value, es[|es| - 1]);
      Counted(q, past) + (if sample.Some? then [sample.value] else [])
  }

  lemma {:induction false} WindowIsTallied(q: Quota, es: seq<Event>)
    requires Replay(q, es).Some?
    ensures Replay(q, es).value.window == Tallied(q.perMinute, Counted(q, es)).window
    decreases |es|
  {
    hide Step, Enabled, Tallied;
    if es == [] {
      NothingTallied(q.perMinute);
    } else {
      var past, e := es[..|es| - 1], es[|es| - 1];
      WindowIsTallied(q, past);
      var y := Replay(q, past).value;
      StepCounts(q, y, e);
      if Sample(y, e).Some? {
        TallyMore(q.perMinute, Counted(q, past), Sample(y, e).value);
      } else {
        assert Counted(q, es) == Counted(q, past);
      }
    }
  }

  /** A sample that reaches the window moves it by one Count; every other step leaves it alone. */
  lemma StepCounts(q: Quota, y: System, e: Event)
    requires Enabled(y, e)
    ensures Step(q, y, e).window == if Sample(y, e).Some? then Count(q.perMinute, y.window, Sample(y, e).value).0 else y.window
  {
    hide Count, Completed, Answer, TimeoutAnswer, Constructible;
    match e
    case Claim(_, key, _, admission) => AdmissionWindow(q, y, key !in y.registry, admission);
    case _ =>
  }

  lemma AdmissionWindow(q: Quota, y: System, owner: bool, admission: Option<real>)
    ensures Admission(q, y, owner, admission).0.window ==
      if admission.Some? && (!owner || y.free > 0) then Count(q.perMinute, y.window, admission.value).0 else y.window
  {
  }

  lemma TallyMore(perMinute: int, samples: seq<real>, now: real)
    ensures Tallied(perMinute, samples + [now]).window == Count(perMinute, Tallied(perMinute, samples).window, now).0
  {
    assert (samples + [now])[..|samples|] == samples;
  }

  /** Over every interleaving whose samples reach the window in order, no minute admits more requests than the quota. */
  lemma NoMinuteAdmitsMore(q: Quota, es: seq<Event>, from: real)
    requires q.perMinute > 0 && Replay(q, es).Some? && (q.perMinute == 1 || Nondecreasing(Counted(q, es)))
    ensures MinuteFits(q.perMinute, Tallied(q.perMinute, Counted(q, es)).log, from)
    ensures Replay(q, es).value.window == Tallied(q.perMinute, Counted(q, es)).window
  {
    WindowIsTallied(q, es);
    if q.perMinute == 1 {
      QuotaOfOneAlwaysHolds(Counted(q, es));
      assert RespectsQuota(1, Counted(q, es));
    } else {
      NoMinuteHoldsMore(q.perMinute, Counted(q, es), from);
    }
  }
}
