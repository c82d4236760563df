/** When the per-minute quota holds over all interleavings under one clock. */
module SingleFlightQuota {
  import opened Prelude
  import opened RateLimiter
  import opened SingleFlightModel
  import opened SingleFlightTheorems

  /** The clock sample an event reads. A direct call reads it before it reaches the window. */
  function ReadAt(e: Event): Option<real> {
    match e
    case Claim(_, _, _, admission) => admission
    case DirectRead(_, now) => Some(now)
    case _ => None
  }

  function LatestRead(es: seq<Event>): Option<real> {
    if es == [] then None
    else if ReadAt(es[|es| - 1]).Some? then ReadAt(es[|es| - 1])
    else LatestRead(es[..|es| - 1])
  }

  predicate NotAfter(a: Option<real>, b: Option<real>) {
    a.Some? && b.Some? ==> a.value <= b.value
  }

  /** The clock never goes back from one read to the next. */
  predicate OneClock(es: seq<Event>) {
    es != [] ==> OneClock(es[..|es| - 1]) && NotAfter(LatestRead(es[..|es| - 1]), ReadAt(es[|es| - 1]))
  }

  /** Every claim goes through admission. */
  predicate AllAdmitted(es: seq<Event>) {
    forall i :: 0 <= i < |es| && es[i].Claim? ==> es[i].admission.Some?
  }

  ghost predicate IsHistory(q: Quota, es: seq<Event>) {
    Replay(q, es).Some? && OneClock(es) && AllAdmitted(es)
  }

  // ---- With at most one permit samples reach the window in order ----

  /** Owners hold permits, and whatever a direct call has read is no older than anything counted. */
  ghost predicate InOrder(y: System, counted: seq<real>, latest: Option<real>) {
    && (forall c :: c in y.calls && LiveOwner(y.calls[c]) ==> y.calls[c].permit)
    && (forall c :: c in y.calls && y.calls[c].DirectSampled? ==> latest.Some? && y.calls[c].now <= latest.value)
    && (forall i, c :: 0 <= i < |counted| && c in y.calls && y.calls[c].DirectSampled? ==> counted[i] <= y.calls[c].now)
    && (forall i :: 0 <= i < |counted| ==> latest.Some? && counted[i] <= latest.value)
    && Nondecreasing(counted)
  }

  lemma OneHolder(q: Quota, y: System, c: nat, d: nat)
    requires Inv(q, y) && q.maxConcurrent <= 1
    requires c in y.calls && d in y.calls && HoldsPermit(y.calls[c]) && HoldsPermit(y.calls[d])
    ensures c == d && y.free == 0
  {
    hide OwnershipInv, EntriesInv, CallsInv;
    SubsetCardinality({c, d}, Holders(y.calls));
  }

  /** While a direct call has read the clock and not counted yet, no claim reaches the window. */
  lemma NobodyOvertakes(q: Quota, y: System, c: nat, key: string, counted: seq<real>, latest: Option<real>)
    requires Inv(q, y) && q.maxConcurrent <= 1 && InOrder(y, counted, latest)
    requires c in y.calls && y.calls[c].DirectSampled?
    ensures key !in y.registry && y.free == 0
  {
    OneHolder(q, y, c, c);
    if key in y.registry {
      var o := y.entries[y.registry[key]].owner;
      OneHolder(q, y, c, o);
    }
  }

  lemma StepInOrder(q: Quota, y: System, e: Event, counted: seq<real>, latest: Option<real>)
    requires Inv(q, y) && q.maxConcurrent <= 1 && InOrder(y, counted, latest) && Enabled(y, e)
    requires NotAfter(latest, ReadAt(e)) && (e.Claim? ==> e.admission.Some?)
    ensures InOrder(Step(q, y, e),
                    counted + (if Sample(y, e).Some? then [Sample(y, e).value] else []),
                    if ReadAt(e).Some? then ReadAt(e) else latest)
  {
    hide Inv, Step, Enabled, InOrder;
    assert counted + [] == counted;
    match e
    case Claim(_, _, _, _) => ClaimInOrder(q, y, e, counted, latest);
    case DirectCount(_) =>
      SampledWhenCounted(y, e);
      CountInOrder(q, y, e, counted, latest);
    case _ => OtherInOrder(q, y, e, counted, latest);
  }

  lemma SampledWhenCounted(y: System, e: Event)
    requires Enabled(y, e) && e.DirectCount?
    ensures e.call in y.calls && y.calls[e.call].DirectSampled? && Sample(y, e) == Some(y.calls[e.call].now)
  {
  }

  lemma ClaimInOrder(q: Quota, y: System, e: Event, counted: seq<real>, latest: Option<real>)
    requires Inv(q, y) && q.maxConcurrent <= 1 && InOrder(y, counted, latest) && Enabled(y, e)
    requires e.Claim? && e.admission.Some? && NotAfter(latest, e.admission)
    ensures InOrder(Step(q, y, e), counted + (if Sample(y, e).Some? then [Sample(y, e).value] else []), e.admission)
  {
    hide Inv, Count;
    var y' := Step(q, y, e);
    AdmissionFrame(q, y, e.key !in y.registry, e.admission);
    forall c | c in y.calls && y.calls[c].DirectSampled? ensures Sample(y, e).None? {
      NobodyOvertakes(q, y, c, e.key, counted, latest);
    }
    assert forall c :: c in y'.calls && c != e.call ==> c in y.calls && y'.calls[c] == y.calls[c];
    assert e.call in y'.calls ==> !y'.calls[e.call].DirectSampled?;
    assert e.call in y'.calls && LiveOwner(y'.calls[e.call]) ==> y'.calls[e.call].permit;
  }

  lemma CountInOrder(q: Quota, y: System, e: Event, counted: seq<real>, latest: Option<real>)
    requires Inv(q, y) && q.maxConcurrent <= 1 && InOrder(y, counted, latest) && Enabled(y, e) && e.DirectCount?
    ensures InOrder(Step(q, y, e), counted + [y.calls[e.call].now], latest)
  {
    hide Inv, Count;
    var y' := Step(q, y, e);
    forall c | c in y.calls && y.calls[c].DirectSampled? ensures c == e.call {
      OneHolder(q, y, c, e.call);
    }
  }

  lemma OtherInOrder(q: Quota, y: System, e: Event, counted: seq<real>, latest: Option<real>)
    requires Inv(q, y) && InOrder(y, counted, latest) && Enabled(y, e) && !e.Claim? && !e.DirectCount?
    requires NotAfter(latest, ReadAt(e))
    ensures InOrder(Step(q, y, e), counted, if ReadAt(e).Some? then ReadAt(e) else latest)
  {
    hide Inv, Completed, Answer, TimeoutAnswer;
    var y' := Step(q, y, e);
    assert forall c :: c in y'.calls && c != e.call ==> c in y.calls && y'.calls[c] == y.calls[c];
    assert e.call in y'.calls && y'.calls[e.call].DirectSampled? ==>
      e.DirectRead? && y'.calls[e.call].now == e.now;
  }

  lemma AdmittedSoFar(es: seq<Event>)
    requires AllAdmitted(es) && es != []
    ensures AllAdmitted(es[..|es| - 1]) && (es[|es| - 1].Claim? ==> es[|es| - 1].admission.Some?)
  {
  }

  lemma NothingInOrder(q: Quota)
    ensures InOrder(Start(q), [], None)
  {
  }

  lemma {:induction false} OnePermitKeepsOrder(q: Quota, es: seq<Event>)
    requires 0 <= q.maxConcurrent <= 1 && IsHistory(q, es)
    ensures InOrder(Replay(q, es).value, Counted(q, es), LatestRead(es))
    decreases |es|
  {
    hide Inv, Step, Enabled, InOrder, AllAdmitted;
    if es == [] {
      NothingInOrder(q);
    } else {
      var past, e := es[..|es| - 1], es[|es| - 1];
      AdmittedSoFar(es);
      OnePermitKeepsOrder(q, past);
      ReplayInv(q, past);
      StepInOrder(q, Replay(q, past).value, e, Counted(q, past), LatestRead(past));
    }
  }

  // ---- With two permits a direct call can be overtaken ----

  /** An idle system after `n` direct runs. */
  ghost predicate Idle(q: Quota, es: seq<Event>, n: nat, counted: seq<real>, latest: real) {
    && IsHistory(q, es) && Counted(q, es) == counted && NotAfter(LatestRead(es), Some(latest))
    && Replay(q, es).value.free == q.maxConcurrent && forall c :: c in Replay(q, es).value.calls ==> c < n
  }

  lemma AppendEvent(q: Quota, es: seq<Event>, e: Event)
    requires IsHistory(q, es) && Enabled(Replay(q, es).value, e) && !e.Claim? && NotAfter(LatestRead(es), ReadAt(e))
    ensures IsHistory(q, es + [e]) && Replay(q, es + [e]).value == Step(q, Replay(q, es).value, e)
    ensures Counted(q, es + [e]) ==
      Counted(q, es) + if Sample(Replay(q, es).value, e).Some? then [Sample(Replay(q, es).value, e).value] else []
    ensures LatestRead(es + [e]) == if ReadAt(e).Some? then ReadAt(e) else LatestRead(es)
  {
    hide Step, Enabled, Sample;
    assert (es + [e])[..|es|] == es;
  }

  function TakeAndRead(c: nat, now: real): seq<Event> {
    [DirectTake(c), DirectRead(c, now)]
  }

  /** A direct call that holds a permit and has read the clock. */
  lemma DirectStarts(q: Quota, es: seq<Event>, c: nat, now: real)
    requires IsHistory(q, es) && NotAfter(LatestRead(es), Some(now))
    requires c !in Replay(q, es).value.calls && Replay(q, es).value.free > 0
    ensures var y := Replay(q, es).value;
      && IsHistory(q, es + TakeAndRead(c, now)) && Counted(q, es + TakeAndRead(c, now)) == Counted(q, es)
      && LatestRead(es + TakeAndRead(c, now)) == Some(now)
      && Replay(q, es + TakeAndRead(c, now)).value == y.(free := y.free - 1, calls := y.calls[c := DirectSampled(now)])
  {
    hide OneClock, AllAdmitted, Replay, Counted, LatestRead;
    AppendEvent(q, es, DirectTake(c));
    AppendEvent(q, es + [DirectTake(c)], DirectRead(c, now));
    assert es + TakeAndRead(c, now) == es + [DirectTake(c)] + [DirectRead(c, now)];
    var y := Replay(q, es).value;
    assert y.calls[c := DirectHeld][c := DirectSampled(now)] == y.calls[c := DirectSampled(now)];
  }

  lemma DirectCounts(q: Quota, es: seq<Event>, c: nat)
    requires IsHistory(q, es) && c in Replay(q, es).value.calls && Replay(q, es).value.calls[c].DirectSampled?
    ensures var y := Replay(q, es).value;
      && IsHistory(q, es + [DirectCount(c)]) && Counted(q, es + [DirectCount(c)]) == Counted(q, es) + [y.calls[c].now]
      && LatestRead(es + [DirectCount(c)]) == LatestRead(es)
      && Replay(q, es + [DirectCount(c)]).value.free == y.free
      && Replay(q, es + [DirectCount(c)]).value.calls.Keys == y.calls.Keys
      && (Replay(q, es + [DirectCount(c)]).value.calls[c] == DirectRun
          || Replay(q, es + [DirectCount(c)]).value.calls[c] == DirectRefused)
      && forall d :: d in y.calls && d != c ==> Replay(q, es + [DirectCount(c)]).value.calls[d] == y.calls[d]
  {
    hide OneClock, AllAdmitted, Replay, Counted, LatestRead, Count;
    AppendEvent(q, es, DirectCount(c));
  }

  /** A whole direct run, from an idle system to an idle system. */
  lemma DirectRuns(q: Quota, es: seq<Event>, n: nat, counted: seq<real>, now: real) returns (es': seq<Event>)
    requires q.maxConcurrent > 0 && Idle(q, es, n, counted, now)
    ensures Idle(q, es', n + 1, counted + [now], now)
  {
    hide OneClock, AllAdmitted, Replay, Counted, LatestRead, Count;
    DirectStarts(q, es, n, now);
    var started := es + TakeAndRead(n, now);
    DirectCounts(q, started, n);
    var done := started + [DirectCount(n)];
    AppendEvent(q, done, DirectRelease(n));
    es' := done + [DirectRelease(n)];
  }

  lemma NothingYet(q: Quota)
    ensures Idle(q, [], 0, [], 0.0)
  {
  }

  lemma {:induction false} SimultaneousRuns(q: Quota, n: nat) returns (es: seq<Event>)
    requires q.maxConcurrent > 0
    ensures Idle(q, es, n, Repeat(0.0, n), 0.0)
  {
    hide Idle;
    if n == 0 {
      es := [];
      NothingYet(q);
      assert Repeat(0.0, 0) == [];
    } else {
      var before := SimultaneousRuns(q, n - 1);
      es := DirectRuns(q, before, n - 1, Repeat(0.0, n - 1), 0.0);
      assert Repeat(0.0, n - 1) + [0.0] == Repeat(0.0, n);
    }
  }

  /** One direct call reads the clock at the end of the first minute, and another overtakes it. */
  lemma OvertakenRun(q: Quota) returns (es: seq<Event>)
    requires q.maxConcurrent >= 2 && q.perMinute >= 2
    ensures IsHistory(q, es) && Counted(q, es) == LateHistory(q.perMinute, 1.0)
  {
    hide OneClock, AllAdmitted, Replay, Counted, LatestRead, Count;
    var n := q.perMinute;
    var before := SimultaneousRuns(q, n);
    DirectStarts(q, before, n, WINDOW);
    var one := before + TakeAndRead(n, WINDOW);
    DirectStarts(q, one, n + 1, WINDOW + 1.0);
    var two := one + TakeAndRead(n + 1, WINDOW + 1.0);
    DirectCounts(q, two, n + 1);
    var overtaken := two + [DirectCount(n + 1)];
    DirectCounts(q, overtaken, n);
    es := overtaken + [DirectCount(n)];
  }

  /**
   * Under one clock, with every claim admitted, every interleaving keeps the per-minute quota exactly when the quota is
   * one or at most one run may be active.
   */
  lemma QuotaHoldsOverInterleavingsIff(q: Quota)
    requires q.perMinute > 0 && q.maxConcurrent >= 0
    ensures (forall es :: IsHistory(q, es) ==> RespectsQuota(q.perMinute, Counted(q, es)))
       <==> q.perMinute == 1 || q.maxConcurrent <= 1
  {
    hide OneClock, AllAdmitted, Replay, Counted, Tallied;
    if q.perMinute == 1 || q.maxConcurrent <= 1 {
      forall es | IsHistory(q, es) ensures RespectsQuota(q.perMinute, Counted(q, es)) {
        if q.perMinute == 1 {
          QuotaOfOneAlwaysHolds(Counted(q, es));
        } else {
          OnePermitKeepsOrder(q, es);
          InOrderRespectsQuota(q.perMinute, Counted(q, es));
        }
      }
    } else {
      var es := OvertakenRun(q);
      OutOfOrderSamplesOverfill(q.perMinute, 1.0);
      assert !MinuteFits(q.perMinute, Tallied(q.perMinute, Counted(q, es)).log, 0.0);
    }
  }

  lemma InOrderRespectsQuota(perMinute: int, samples: seq<real>)
    requires perMinute > 0 && Nondecreasing(samples)
    ensures RespectsQuota(perMinute, samples)
  {
    hide Tallied;
    forall from ensures MinuteFits(perMinute, Tallied(perMinute, samples).log, from) {
      NoMinuteHoldsMore(perMinute, samples, from);
    }
  }
}
