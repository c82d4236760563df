/** In-flight ownership with admission control, as interleaved atomic steps. */
module SingleFlightModel {
  // Every block under the coordinator's lock is one step; so are a publication and a wake-up.

  import opened Prelude
  import opened RunResults
  import opened RateLimiter

  datatype Quota = Quota(perMinute: int, maxConcurrent: int)

  /** One flight. `owner` and `published` are history: who claimed it and what was passed to complete. */
  datatype Entry = Entry(
    key: string, ownerRunId: string, done: bool, outcome: RunResult,
    owner: nat, published: seq<RunResult>)

  /**
   Where a call stands; entries are named by their position in the system's list. A direct call is a run that takes
   its permit outside the coordinator's lock, so that its semaphore, clock, count and release are steps of their own.
   A claim has all of its admission under the lock and is one step, with an arbitrary sample: a direct call that meets
   it half-way can be refused a permit, which changes nothing, or count a newer sample first.
   */
  datatype Call =
    | Owning(entry: nat, permit: bool)
    | Unwinding(entry: nat, permit: bool)
    | Left(entry: nat)
    | Following(entry: nat)
    | Answered(entry: nat, result: RunResult)
    | TimedOut(entry: nat, result: RunResult)
    | Abandoned(entry: nat)
    | DirectHeld
    | DirectSampled(now: real)
    | DirectRefused
    | DirectRun
    | DirectDone

  datatype System = System(
    registry: map<string, nat>, entries: seq<Entry>, calls: map<nat, Call>, free: int, window: seq<real>)

  datatype Exit = Normal | Failure | Cancellation

  datatype Event =
    | Claim(call: nat, key: string, runId: string, admission: Option<real>)
    | Publish(call: nat, result: RunResult)
    | Leave(call: nat, exit: Exit)
    | Unwind(call: nat)
    | Wake(call: nat)
    | Expires(call: nat)
    | Abandon(call: nat)
    | DirectTake(call: nat)
    | DirectRead(call: nat, now: real)
    | DirectCount(call: nat)
    | DirectRelease(call: nat)

  /** The outcome of an entry nobody completed, and of one whose owner raised. */
  const DEFAULT_OUTCOME := RunResult(3, "failed_runtime", RUNNER_FAILED, false, None, NoMetadata)
  const CANCELLED_OUTCOME := RunResult(3, CANCELLED, RUN_CANCELLED, false, None, NoMetadata)

  function Start(q: Quota): System {
    System(map[], [], map[], q.maxConcurrent, [])
  }

  ghost predicate Enabled(y: System, e: Event) {
    match e
    case Claim(c, _, _, _) => c !in y.calls
    case Publish(c, r) => c in y.calls && y.calls[c].Owning? && Constructible(r)
    case Leave(c, _) => c in y.calls && y.calls[c].Owning?
    case Unwind(c) => c in y.calls && y.calls[c].Unwinding?
    case Wake(c) => c in y.calls && y.calls[c].Following? && y.calls[c].entry < |y.entries| && y.entries[y.calls[c].entry].done
    case Expires(c) => c in y.calls && y.calls[c].Following? && y.calls[c].entry < |y.entries| && !y.entries[y.calls[c].entry].done
    case Abandon(c) => c in y.calls && y.calls[c].Following?
    case DirectTake(c) => c !in y.calls
    case DirectRead(c, _) => c in y.calls && y.calls[c].DirectHeld?
    case DirectCount(c) => c in y.calls && y.calls[c].DirectSampled?
    case DirectRelease(c) => c in y.calls && (y.calls[c].DirectRun? || y.calls[c].DirectRefused?)
  }

  /** Flight.complete: an audited copy becomes the outcome; nothing changes if auditing raises. */
  function Completed(e: Entry, r: RunResult): Entry {
    var audited := WithAudit(r, Audit(true, e.ownerRunId));
    if audited.Some? then e.(outcome := audited.value, published := e.published + [r]) else e
  }

  /** Flight.wait after the event is set: the outcome, audited for a follower. */
  function Answer(e: Entry): RunResult {
    var audited := WithAudit(e.outcome, Audit(false, e.ownerRunId));
    if audited.Some? then audited.value else e.outcome
  }

  function TimeoutAnswer(e: Entry): RunResult {
    RunResult(3, "failed_runtime", WAIT_TIMEOUT, false, None, Audit(false, e.ownerRunId))
  }

  function Refresh(y: System, id: nat, e: Entry): System {
    if id < |y.entries| then y.(entries := y.entries[id := e]) else y
  }

  function Complete(y: System, id: nat, r: RunResult): System {
    if id < |y.entries| then Refresh(y, id, Completed(y.entries[id], r)) else y
  }

  /** What admission control leaves behind, and whether it let the call through. */
  function Admission(q: Quota, y: System, owner: bool, admission: Option<real>): (System, bool) {
    if admission.None? then (y, true)
    else if owner then
      var (free, window, refusal) := AcquireSpec(q.perMinute, y.free, y.window, admission.value);
      (y.(free := free, window := window), refusal.None?)
    else
      var (window, ok) := Count(q.perMinute, y.window, admission.value);
      (y.(window := window), ok)
  }

  function Released(q: Quota, y: System, permit: bool): System {
    if permit && y.free < q.maxConcurrent then y.(free := y.free + 1) else y
  }

  function ClaimStep(q: Quota, y: System, c: nat, key: string, runId: string, admission: Option<real>): System {
    var owner := key !in y.registry;
    var (y1, ok) := Admission(q, y, owner, admission);
    if !ok then y1
    else if owner then
      var id := |y.entries|;
      y1.(registry := y.registry[key := id],
          entries := y.entries + [Entry(key, runId, false, DEFAULT_OUTCOME, c, [])],
          calls := y.calls[c := Owning(id, admission.Some?)])
    else
      y1.(calls := y.calls[c := Following(y.registry[key])])
  }

  /** The finally block: release the permit, delete the key's entry, and only then set the event. */
  function UnwindStep(q: Quota, y: System, c: nat): System
    requires c in y.calls && y.calls[c].Unwinding?
  {
    var id := y.calls[c].entry;
    var y1 := Released(q, y, y.calls[c].permit).(calls := y.calls[c := Left(id)]);
    if id < |y.entries| && y.entries[id].key in y.registry
    then y1.(registry := y.registry - {y.entries[id].key},
             entries := y.entries[id := y.entries[id].(done := true)])
    else y1
  }

  ghost function Step(q: Quota, y: System, e: Event): System
    requires Enabled(y, e)
  {
    match e
    case Claim(c, key, runId, admission) => ClaimStep(q, y, c, key, runId, admission)
    case Publish(c, r) => Complete(y, y.calls[c].entry, r)
    case Leave(c, exit) =>
      var call := y.calls[c];
      var y1 := match exit
        case Normal => y
        case Failure => Complete(y, call.entry, DEFAULT_OUTCOME)
        case Cancellation => Complete(y, call.entry, CANCELLED_OUTCOME);
      y1.(calls := y.calls[c := Unwinding(call.entry, call.permit)])
    case Unwind(c) => UnwindStep(q, y, c)
    case Wake(c) =>
      y.(calls := y.calls[c := Answered(y.calls[c].entry, Answer(y.entries[y.calls[c].entry]))])
    case Expires(c) =>
      y.(calls := y.calls[c := TimedOut(y.calls[c].entry, TimeoutAnswer(y.entries[y.calls[c].entry]))])
    case Abandon(c) => y.(calls := y.calls[c := Abandoned(y.calls[c].entry)])
    case DirectTake(c) =>
      if y.free > 0 then y.(free := y.free - 1, calls := y.calls[c := DirectHeld]) else y
    case DirectRead(c, now) => y.(calls := y.calls[c := DirectSampled(now)])
    case DirectCount(c) =>
      var (window, ok) := Count(q.perMinute, y.window, y.calls[c].now);
      y.(window := window, calls := y.calls[c := if ok then DirectRun else DirectRefused])
    case DirectRelease(c) => Released(q, y, true).(calls := y.calls[c := DirectDone])
  }

  ghost function Replay(q: Quota, es: seq<Event>): Option<System>
    decreases |es|
  {
    if es == [] then Some(Start(q))
    else
      var before := Replay(q, es[..|es| - 1]);
      if before.Some? && Enabled(before.value, es[|es| - 1])
      then Some(Step(q, before.value, es[|es| - 1]))
      else None
  }

  ghost predicate Reachable(q: Quota, y: System) {
    exists es :: Replay(q, es) == Some(y)
  }
}
