/** What followers get and who is admitted, told by the history of events alone. */
module SingleFlightHistory {
  import opened Prelude
  import opened RunResults
  import opened RateLimiter
  import opened SingleFlightModel
  import opened SingleFlightTheorems

  // ---- Publications ----

  /** What one event makes call `c` publish: its results, and a stock outcome when it is left by an exception. */
  function PublishedBy(e: Event, c: nat): seq<RunResult> {
    match e
    case Publish(d, r) => if d == c then [r] else []
    case Leave(d, Failure) => if d == c then [DEFAULT_OUTCOME] else []
    case Leave(d, Cancellation) => if d == c then [CANCELLED_OUTCOME] else []
    case _ => []
  }

  function Published(es: seq<Event>, c: nat): seq<RunResult> {
    if es == [] then [] else Published(es[..|es| - 1], c) + PublishedBy(es[|es| - 1], c)
  }

  /** The results that call `c` publishes on its own account. */
  function Results(es: seq<Event>, c: nat): seq<RunResult> {
    if es == [] then []
    else
      var last := es[|es| - 1];
      Results(es[..|es| - 1], c) + if last.Publish? && last.call == c then [last.result] else []
  }

  /** The key and run identifier of the last claim of call `c`. */
  function LastClaim(es: seq<Event>, c: nat): Option<(string, string)> {
    if es == [] then None
    else
      var last := es[|es| - 1];
      if last.Claim? && last.call == c then Some((last.key, last.runId)) else LastClaim(es[..|es| - 1], c)
  }

  /** An entry is what its owner's claim and publications make of it, and a joining call claimed the entry's key. */
  ghost predicate Told(es: seq<Event>, y: System) {
    && (forall id :: 0 <= id < |y.entries| ==> TellsEntry(es, y.entries[id]))
    && (forall c :: c in y.calls ==> TellsCall(es, y.entries, y.calls[c], c))
    && forall c :: c !in y.calls ==> Published(es, c) == []
  }

  ghost predicate TellsEntry(es: seq<Event>, e: Entry) {
    e.published == Published(es, e.owner) && LastClaim(es, e.owner) == Some((e.key, e.ownerRunId))
  }

  ghost predicate TellsCall(es: seq<Event>, entries: seq<Entry>, call: Call, c: nat) {
    match call
    case Owning(_, _) => Published(es, c) == Results(es, c)
    case Following(id) => Joined(es, entries, id, c)
    case Answered(id, _) => Joined(es, entries, id, c)
    case TimedOut(id, _) => Joined(es, entries, id, c)
    case Abandoned(id) => Joined(es, entries, id, c)
    case _ => true
  }

  predicate Joined(es: seq<Event>, entries: seq<Entry>, id: nat, c: nat) {
    id < |entries| && LastClaim(es, c).Some? && LastClaim(es, c).value.0 == entries[id].key
  }

  lemma OneMore(es: seq<Event>, e: Event, c: nat)
    ensures Published(es + [e], c) == Published(es, c) + PublishedBy(e, c)
    ensures Results(es + [e], c) == Results(es, c) + if e.Publish? && e.call == c then [e.result] else []
    ensures LastClaim(es + [e], c) == if e.Claim? && e.call == c then Some((e.key, e.runId)) else LastClaim(es, c)
  {
    assert (es + [e])[..|es|] == es;
  }

  /** The entries after an event: one more after an admitted owner's claim, one republished or finished, or the same. */
  ghost predicate EntriesMove(y: System, y': System, e: Event) {
    match e
    case Claim(c, key, runId, _) =>
      || y'.entries == y.entries
      || (c in y'.calls && y'.entries == y.entries + [Entry(key, runId, false, DEFAULT_OUTCOME, c, [])])
    case _ =>
      && |y'.entries| == |y.entries|
      && forall id :: 0 <= id < |y.entries| ==>
           && y'.entries[id].key == y.entries[id].key && y'.entries[id].ownerRunId == y.entries[id].ownerRunId
           && y'.entries[id].owner == y.entries[id].owner
           && y'.entries[id].published == y.entries[id].published + PublishedBy(e, y.entries[id].owner)
  }

  /** The acting call after an event; nobody else's call changes. */
  ghost predicate CallsMove(y: System, y': System, e: Event) {
    && (e.call in y.calls ==> e.call in y'.calls)
    && (forall c :: c != e.call ==> (c in y'.calls <==> c in y.calls) && (c in y.calls ==> y'.calls[c] == y.calls[c]))
    && match e
       case Claim(c, key, _, _) =>
         c !in y.calls && (c in y'.calls ==>
           || (y'.calls[c].Owning? && y'.entries != y.entries)
           || (y'.calls[c].Following? && y'.entries == y.entries && y'.calls[c].entry < |y.entries|
               && y.entries[y'.calls[c].entry].key == key))
       case Publish(c, _) => c in y.calls && c in y'.calls && y'.calls[c] == y.calls[c] && y.calls[c].Owning?
       case Leave(c, _) => c in y.calls && c in y'.calls && y'.calls[c].Unwinding?
       case Unwind(c) => c in y.calls && c in y'.calls && y'.calls[c].Left?
       case Wake(c) => StillIn(y, y', c)
       case Expires(c) => StillIn(y, y', c)
       case Abandon(c) => StillIn(y, y', c)
       case _ => e.call in y'.calls ==> IsDirect(y'.calls[e.call])
  }

  /** The call followed an entry, and now has its answer from that one or has given up on it. */
  ghost predicate StillIn(y: System, y': System, c: nat) {
    && c in y.calls && c in y'.calls && y.calls[c].Following?
    && match y'.calls[c]
       case Answered(id, _) => id == y.calls[c].entry
       case TimedOut(id, _) => id == y.calls[c].entry
       case Abandoned(id) => id == y.calls[c].entry
       case _ => false
  }

  lemma StepMovesCalls(q: Quota, y: System, e: Event)
    requires Inv(q, y) && Enabled(y, e)
    ensures CallsMove(y, Step(q, y, e), e)
  {
    hide Step, Enabled, CallsMove, Inv;
    if e.Claim? {
      ClaimMoves(q, y, e);
    } else if e.Publish? || e.Leave? || e.Unwind? {
      OwnerMovesCalls(q, y, e);
    } else {
      OtherMovesCalls(q, y, e);
    }
  }

  lemma ClaimMoves(q: Quota, y: System, e: Event)
    requires Inv(q, y) && Enabled(y, e) && e.Claim?
    ensures CallsMove(y, Step(q, y, e), e) && EntriesMove(y, Step(q, y, e), e)
  {
    hide Admission, EntriesInv, CallsInv, PermitInv, Count;
    AdmissionFrame(q, y, e.key !in y.registry, e.admission);
  }

  lemma OwnerMovesCalls(q: Quota, y: System, e: Event)
    requires Inv(q, y) && Enabled(y, e) && (e.Publish? || e.Leave? || e.Unwind?)
    ensures CallsMove(y, Step(q, y, e), e)
  {
    hide Completed, Constructible, Inv;
  }

  lemma OtherMovesCalls(q: Quota, y: System, e: Event)
    requires Enabled(y, e) && !e.Claim? && !e.Publish? && !e.Leave? && !e.Unwind?
    ensures CallsMove(y, Step(q, y, e), e)
  {
    hide Answer, TimeoutAnswer, Count;
  }

  lemma StepMovesEntries(q: Quota, y: System, e: Event)
    requires Inv(q, y) && Enabled(y, e)
    ensures EntriesMove(y, Step(q, y, e), e)
  {
    hide Step, Enabled, EntriesMove, Inv;
    if e.Claim? {
      ClaimMoves(q, y, e);
    } else if e.Publish? || e.Leave? {
      OwnerMovesEntries(q, y, e);
    } else {
      OtherMovesEntries(q, y, e);
    }
  }

  lemma OwnerMovesEntries(q: Quota, y: System, e: Event)
    requires Inv(q, y) && Enabled(y, e) && (e.Publish? || e.Leave?)
    ensures EntriesMove(y, Step(q, y, e), e)
  {
    hide Constructible, Inv, Complete;
    match e
    case Publish(c, r) => PublishesOwn(q, y, c, r);
    case Leave(c, exit) =>
      StockOutcomes();
      match exit {
        case Normal =>
        case Failure => PublishesOwn(q, y, c, DEFAULT_OUTCOME);
        case Cancellation => PublishesOwn(q, y, c, CANCELLED_OUTCOME);
      }
  }

  lemma OtherMovesEntries(q: Quota, y: System, e: Event)
    requires Enabled(y, e) && !e.Claim? && !e.Publish? && !e.Leave?
    ensures EntriesMove(y, Step(q, y, e), e)
  {
    hide Answer, TimeoutAnswer, Count;
    if !e.Unwind? {
      assert Step(q, y, e).entries == y.entries;
    }
  }

  /** A live owner's publication reaches its own entry, the only one it owns. */
  lemma PublishesOwn(q: Quota, y: System, c: nat, r: RunResult)
    requires Inv(q, y) && c in y.calls && LiveOwner(y.calls[c]) && Constructible(r)
    ensures var id, es' := y.calls[c].entry, Complete(y, y.calls[c].entry, r).entries;
      && id < |y.entries| && |es'| == |y.entries|
      && es'[id] == y.entries[id].(outcome := es'[id].outcome, published := y.entries[id].published + [r])
      && forall i :: 0 <= i < |y.entries| && i != id ==> es'[i] == y.entries[i]
    ensures forall i :: 0 <= i < |y.entries| ==> (y.entries[i].owner == c <==> i == y.calls[c].entry)
  {
    hide EntryInv, CallsInv, PermitInv, Completed, Constructible;
    LiveOwnerIsUnfinished(q, y, c);
    CompletedKeepsEntry(y.entries[y.calls[c].entry], r);
  }

  lemma StepTells(q: Quota, y: System, es: seq<Event>, e: Event)
    requires Inv(q, y) && Enabled(y, e) && Told(es, y)
    ensures Told(es + [e], Step(q, y, e))
  {
    hide Inv, Step, Enabled, PublishedBy;
    var y' := Step(q, y, e);
    StepMovesCalls(q, y, e);
    StepMovesEntries(q, y, e);
    forall c ensures c !in y'.calls ==> Published(es + [e], c) == [] {
      OneMore(es, e, c);
      PublishesNothing(e, c);
      assert Published(es, c) + [] == Published(es, c);
    }
    OwnersAreCalls(q, y);
    forall id | 0 <= id < |y'.entries| ensures TellsEntry(es + [e], y'.entries[id]) {
      EntryTold(y, y', es, e, id);
    }
    forall c | c in y'.calls ensures TellsCall(es + [e], y'.entries, y'.calls[c], c) {
      CallTold(y, y', es, e, c);
    }
  }

  lemma PublishesNothing(e: Event, c: nat)
    ensures e.call != c || (!e.Publish? && !e.Leave?) ==> PublishedBy(e, c) == []
  {
  }

  lemma OwnersAreCalls(q: Quota, y: System)
    requires Inv(q, y)
    ensures forall i :: 0 <= i < |y.entries| ==> y.entries[i].owner in y.calls
  {
  }

  lemma EntryTold(y: System, y': System, es: seq<Event>, e: Event, id: nat)
    requires Told(es, y) && EntriesMove(y, y', e) && CallsMove(y, y', e) && id < |y'.entries|
    requires forall i :: 0 <= i < |y.entries| ==> y.entries[i].owner in y.calls
    ensures TellsEntry(es + [e], y'.entries[id])
  {
    hide PublishedBy, Published, LastClaim;
    var owner := y'.entries[id].owner;
    OneMore(es, e, owner);
    PublishesNothing(e, owner);
    assert Published(es, owner) + [] == Published(es, owner);
    if id < |y.entries| {
      assert TellsEntry(es, y.entries[id]);
    }
  }

  lemma CallTold(y: System, y': System, es: seq<Event>, e: Event, c: nat)
    requires Told(es, y) && EntriesMove(y, y', e) && CallsMove(y, y', e) && c in y'.calls
    ensures TellsCall(es + [e], y'.entries, y'.calls[c], c)
  {
    hide Published, Results, LastClaim, PublishedBy, Joined, TellsEntry;
    OneMore(es, e, c);
    PublishesNothing(e, c);
    ResultsPublished(e, c);
    forall id: nat | Joined(es, y.entries, id, c) && (e.call != c || !e.Claim?)
      ensures Joined(es + [e], y'.entries, id, c) {
      JoinedStays(y, y', es, e, id, c);
    }
    assert Published(es, c) + [] == Published(es, c) && Results(es, c) + [] == Results(es, c);
    if c in y.calls {
      assert TellsCall(es, y.entries, y.calls[c], c);
    } else {
      NoResults(es, c);
      JoinsNow(y, y', es, e, c);
    }
  }

  lemma ResultsPublished(e: Event, c: nat)
    ensures e.Publish? ==> PublishedBy(e, c) == if e.call == c then [e.result] else []
  {
  }

  lemma JoinedStays(y: System, y': System, es: seq<Event>, e: Event, id: nat, c: nat)
    requires EntriesMove(y, y', e) && Joined(es, y.entries, id, c) && (e.call != c || !e.Claim?)
    ensures Joined(es + [e], y'.entries, id, c)
  {
    OneMore(es, e, c);
  }

  lemma JoinsNow(y: System, y': System, es: seq<Event>, e: Event, c: nat)
    requires CallsMove(y, y', e) && c !in y.calls && c in y'.calls
    ensures y'.calls[c].Following? ==> Joined(es + [e], y'.entries, y'.calls[c].entry, c)
  {
    OneMore(es, e, c);
  }

  lemma {:induction false} NoResults(es: seq<Event>, c: nat)
    requires Published(es, c) == []
    ensures Results(es, c) == []
  {
    if es != [] {
      NoResults(es[..|es| - 1], c);
    }
  }

  lemma {:induction false} HistoryTells(q: Quota, es: seq<Event>)
    requires q.maxConcurrent >= 0 && Replay(q, es).Some?
    ensures Told(es, Replay(q, es).value)
  {
    hide Inv, Step, Enabled, Told;
    if es == [] {
      NothingTold(q);
    } else {
      var past := es[..|es| - 1];
      ReplayInv(q, past);
      HistoryTells(q, past);
      StepTells(q, Replay(q, past).value, past, es[|es| - 1]);
      assert past + [es[|es| - 1]] == es;
    }
  }

  lemma NothingTold(q: Quota)
    ensures Told([], Start(q))
  {
  }

  /**
   * What an entry's owner published is what the history says, under the key and run identifier of its claim; its
   * outcome is the last of it, audited for the owner.
   */
  lemma PublicationsAreHistory(q: Quota, es: seq<Event>, id: nat)
    requires q.maxConcurrent >= 0 && Replay(q, es).Some? && id < |Replay(q, es).value.entries|
    ensures var e := Replay(q, es).value.entries[id];
      && e.published == Published(es, e.owner) && LastClaim(es, e.owner) == Some((e.key, e.ownerRunId))
      && e.outcome == if e.published == [] then DEFAULT_OUTCOME
                      else e.published[|e.published| - 1].(metadata := Audit(true, e.ownerRunId))
  {
    hide Replay, CallsInv, PermitInv, OwnershipInv, Constructible;
    HistoryTells(q, es);
    ReplayInv(q, es);
    assert TellsEntry(es, Replay(q, es).value.entries[id]);
  }

  /** A follower's answer is its owner's last publication by the history, or the pessimistic default. */
  lemma AnswerIsHistory(q: Quota, es: seq<Event>, f: nat)
    requires q.maxConcurrent >= 0 && Replay(q, es).Some?
    requires f in Replay(q, es).value.calls && Replay(q, es).value.calls[f].Answered?
    ensures Replay(q, es).value.calls[f].entry < |Replay(q, es).value.entries|
    ensures var e := Replay(q, es).value.entries[Replay(q, es).value.calls[f].entry];
      var published := Published(es, e.owner);
      && Replay(q, es).value.calls[f].result ==
           (if published == [] then DEFAULT_OUTCOME else published[|published| - 1]).(metadata := Audit(false, e.ownerRunId))
      && LastClaim(es, e.owner) == Some((e.key, e.ownerRunId))
      && LastClaim(es, f).Some? && LastClaim(es, f).value.0 == e.key
  {
    hide Replay, Reachable, Inv, Told, Published, LastClaim;
    var y := Replay(q, es).value;
    ReachedBy(q, es);
    FollowersAgreeWithTheOwner(q, y, f);
    HistoryTells(q, es);
    ToldAnswer(es, y, f);
  }

  lemma ToldAnswer(es: seq<Event>, y: System, f: nat)
    requires Told(es, y) && f in y.calls && y.calls[f].Answered? && y.calls[f].entry < |y.entries|
    ensures TellsEntry(es, y.entries[y.calls[f].entry]) && Joined(es, y.entries, y.calls[f].entry, f)
  {
    hide Published, LastClaim, TellsEntry, Joined;
    assert TellsCall(es, y.entries, y.calls[f], f);
  }

  lemma ReachedBy(q: Quota, es: seq<Event>)
    requires Replay(q, es).Some?
    ensures Reachable(q, Replay(q, es).value)
  {
  }

  // ---- A normal exit publishes nothing ----

  /** A call is left once, so after a normal exit its publications are its own results. */
  lemma {:induction false} LeftNormally(q: Quota, es: seq<Event>, c: nat, i: nat)
    requires q.maxConcurrent >= 0 && Replay(q, es).Some? && i < |es| && es[i] == Leave(c, Normal)
    ensures c in Replay(q, es).value.calls && !Replay(q, es).value.calls[c].Owning?
    ensures Published(es, c) == Results(es, c)
    decreases |es|
  {
    hide Inv, Step, Enabled, Told;
    var past, e := es[..|es| - 1], es[|es| - 1];
    var y := Replay(q, past).value;
    ReplayInv(q, past);
    StepMovesCalls(q, y, e);
    assert past + [e] == es;
    OneMore(past, e, c);
    HistoryTells(q, past);
    if i < |past| {
      LeftNormally(q, past, c, i);
      PublishesNothing(e, c);
      NotLeftAgain(y, e, c);
    } else {
      OwnResults(past, y, e, c);
    }
  }

  lemma NotLeftAgain(y: System, e: Event, c: nat)
    requires Enabled(y, e) && c in y.calls && !y.calls[c].Owning?
    ensures e.call == c ==> !e.Publish? && !e.Leave? && !e.Claim?
  {
  }

  lemma OwnResults(past: seq<Event>, y: System, e: Event, c: nat)
    requires Told(past, y) && Enabled(y, e) && e == Leave(c, Normal)
    ensures Published(past, c) == Results(past, c) && PublishedBy(e, c) == []
  {
    assert TellsCall(past, y.entries, y.calls[c], c);
  }

  /** After its owner's normal exit a follower gets the last result that the owner published, or the default. */
  lemma NormalExitAnswers(q: Quota, es: seq<Event>, f: nat, i: nat)
    requires q.maxConcurrent >= 0 && Replay(q, es).Some? && i < |es|
    requires f in Replay(q, es).value.calls && Replay(q, es).value.calls[f].Answered?
    requires Replay(q, es).value.calls[f].entry < |Replay(q, es).value.entries|
    requires es[i] == Leave(Replay(q, es).value.entries[Replay(q, es).value.calls[f].entry].owner, Normal)
    ensures var e := Replay(q, es).value.entries[Replay(q, es).value.calls[f].entry];
      var results := Results(es, e.owner);
      Replay(q, es).value.calls[f].result ==
        (if results == [] then DEFAULT_OUTCOME else results[|results| - 1]).(metadata := Audit(false, e.ownerRunId))
  {
    hide Replay;
    var y := Replay(q, es).value;
    AnswerIsHistory(q, es, f);
    LeftNormally(q, es, y.entries[y.calls[f].entry].owner, i);
  }

  // ---- Who is admitted ----

  /** Fewer than the quota were accepted in the minute that ends at the sample. */
  ghost predicate MinuteHasRoom(q: Quota, es: seq<Event>, now: real)
    requires Replay(q, es).Some?
  {
    |Within(Tallied(q.perMinute, Counted(q, es)).log, now - 60.0, now)| < q.perMinute
  }

  lemma CountAccepts(q: Quota, es: seq<Event>, now: real)
    requires q.perMinute > 0 && Replay(q, es).Some? && Nondecreasing(Counted(q, es) + [now])
    ensures Count(q.perMinute, Replay(q, es).value.window, now).1 <==> MinuteHasRoom(q, es, now)
  {
    hide Replay, Counted, Tallied, Within, Count;
    var samples := Counted(q, es);
    WindowIsTallied(q, es);
    RefusedIffFull(q.perMinute, samples, now);
    forall i, j | 0 <= i <= j < |samples| ensures samples[i] <= samples[j] {
      assert (samples + [now])[i] <= (samples + [now])[j];
    }
    NoMinuteHoldsMore(q.perMinute, samples, now - 60.0);
    assert now - 60.0 + WINDOW == now;
  }

  /**
   * A claim with a quota is let in exactly when it joins a flight or a permit is free, and the minute ending at its
   * sample has room; without a quota it always is. It owns a new flight exactly when its key has none.
   */
  lemma ClaimIsAdmittedIff(q: Quota, es: seq<Event>, c: nat, key: string, runId: string, admission: Option<real>)
    requires q.perMinute > 0 && q.maxConcurrent >= 0 && Replay(q, es).Some? && c !in Replay(q, es).value.calls
    requires admission.Some? ==> Nondecreasing(Counted(q, es) + [admission.value])
    ensures var y := Replay(q, es).value;
      var y' := Step(q, y, Claim(c, key, runId, admission));
      && (c in y'.calls <==>
            (admission.None? ||
             ((key in y.registry || |Holders(y.calls)| < q.maxConcurrent) && MinuteHasRoom(q, es, admission.value))))
      && (c in y'.calls ==>
            if key in y.registry then y'.calls[c] == Following(y.registry[key])
            else y'.calls[c] == Owning(|y.entries|, admission.Some?) && y'.registry == y.registry[key := |y.entries|])
  {
    hide Replay, Counted, Count, Holders, Inv, MinuteHasRoom;
    var y := Replay(q, es).value;
    ReplayInv(q, es);
    FreePermits(q, y);
    if admission.Some? {
      CountAccepts(q, es, admission.value);
    }
  }

  lemma FreePermits(q: Quota, y: System)
    requires Inv(q, y)
    ensures y.free == q.maxConcurrent - |Holders(y.calls)|
  {
  }

  /** A direct run gets a permit exactly when one is free, and runs exactly when the minute at its sample has room. */
  lemma DirectRunsIff(q: Quota, es: seq<Event>, c: nat)
    requires q.perMinute > 0 && q.maxConcurrent >= 0 && Replay(q, es).Some?
    ensures var y := Replay(q, es).value;
      && (c !in y.calls ==> var y' := Step(q, y, DirectTake(c));
            && (c in y'.calls <==> |Holders(y.calls)| < q.maxConcurrent)
            && (c in y'.calls ==> y'.calls[c] == DirectHeld))
      && (c in y.calls && y.calls[c].DirectSampled? && Nondecreasing(Counted(q, es) + [y.calls[c].now]) ==>
            Step(q, y, DirectCount(c)).calls[c] ==
              if MinuteHasRoom(q, es, y.calls[c].now) then DirectRun else DirectRefused)
  {
    hide Replay, Counted, Count, Holders, Inv, MinuteHasRoom;
    var y := Replay(q, es).value;
    ReplayInv(q, es);
    FreePermits(q, y);
    if c in y.calls && y.calls[c].DirectSampled? && Nondecreasing(Counted(q, es) + [y.calls[c].now]) {
      CountAccepts(q, es, y.calls[c].now);
    }
  }
}
