/** Handoff integrity when envelopes are shared and written. */
module EnvelopeReferences {
  // A stage's results, the prior outputs and the artifact map all refer to the dictionaries that executors returned, and
  // receivers get those very dictionaries: anyone who holds one may write it (src/specflow/coordinator/scheduler.py:141-150,
  // src/specflow/runner_multi.py:764-796, 835-871).

  import opened Prelude
  import opened Handoffs
  import opened MultiAgentRun
  import opened RunHandoffs

  /** The identity of an envelope, apart from its value: where it was first made. */
  datatype Ref = Ref(stageIndex: nat, agentId: string)

  /** A recorded handoff, with the envelope as it was when the handoff was built. */
  datatype Sent = Sent(edge: Edge, handoff: Handoff, built: Envelope)

  /** The envelopes, the references that each finished stage recorded, and the handoff log. */
  datatype Live = Live(store: map<Ref, Envelope>, stages: seq<map<string, Ref>>, handed: bool, log: seq<Sent>)

  /**
   * Handing over into the next stage, the end of that stage with its validated results in place, and a write by whoever
   * holds an envelope, at any moment. A stage may return new envelopes or old ones.
   */
  datatype Event =
    | HandOver
    | Return(results: map<string, Ref>, values: map<Ref, Envelope>)
    | Write(ref: Ref, value: Envelope)

  datatype Setting = Setting(registry: map<string, Identity>, requirement: string, target: string)

  /** `prior_outputs` after some stages. */
  function Current(stages: seq<map<string, Ref>>): map<string, Ref> {
    if stages == [] then map[] else Current(stages[..|stages| - 1]) + stages[|stages| - 1]
  }

  predicate CanHandOver(s: Setting, l: Live, e: Edge) {
    && e.sender in s.registry && e.receiver in s.registry
    && e.sender in Current(l.stages) && Current(l.stages)[e.sender] in l.store
    && Passes(s, SentFor(s, l, e))
  }

  function SentFor(s: Setting, l: Live, e: Edge): Sent
    requires e.sender in s.registry && e.receiver in s.registry
    requires e.sender in Current(l.stages) && Current(l.stages)[e.sender] in l.store
  {
    var payload := l.store[Current(l.stages)[e.sender]];
    Sent(e, HandoffFor(s.registry, s.requirement, e, payload), payload)
  }

  /** The check that the runner makes when it builds a handoff. */
  predicate Passes(s: Setting, x: Sent)
    requires x.edge.sender in s.registry
  {
    ValidatePayload(x.handoff, s.registry[x.edge.sender], map[OutputRef(x.edge.senderStage, x.edge.sender) := x.built])
      == None
  }

  predicate AllCanBeSent(s: Setting, l: Live, edges: seq<Edge>) {
    forall k :: 0 <= k < |edges| ==> CanHandOver(s, l, edges[k])
  }

  ghost predicate Enabled(s: Setting, l: Live, ev: Event) {
    match ev
    case HandOver =>
      !l.handed && |l.stages| < 7 && AllCanBeSent(s, l, EdgesInto(|l.stages|, s.target))
    case Return(results, values) =>
      && l.handed && |l.stages| < 7 && results.Keys == Elements(StageAgents(|l.stages|, s.target))
      && values.Keys == results.Values
      && forall a :: a in results ==> Accepted(a, values[results[a]])
    case Write(ref, _) => ref in l.store
  }

  function AllSent(s: Setting, l: Live, edges: seq<Edge>): (r: seq<Sent>)
    requires AllCanBeSent(s, l, edges)
    ensures |r| == |edges| && forall k :: 0 <= k < |r| ==> r[k] == SentFor(s, l, edges[k])
  {
    seq(|edges|, k requires 0 <= k < |edges| => SentFor(s, l, edges[k]))
  }

  ghost function Step(s: Setting, l: Live, ev: Event): Live
    requires Enabled(s, l, ev)
  {
    match ev
    case HandOver => l.(handed := true, log := l.log + AllSent(s, l, EdgesInto(|l.stages|, s.target)))
    case Return(results, values) => Live(l.store + values, l.stages + [results], false, l.log)
    case Write(ref, value) => l.(store := l.store[ref := value])
  }

  ghost function Replay(s: Setting, es: seq<Event>): Option<Live> {
    if es == [] then Some(Live(map[], [], false, []))
    else
      match Replay(s, es[..|es| - 1])
      case None => None
      case Some(l) => if Enabled(s, l, es[|es| - 1]) then Some(Step(s, l, es[|es| - 1])) else None
  }

  // ---- The invariant ----

  ghost predicate StagesLive(s: Setting, l: Live) {
    && |l.stages| <= 7
    && forall i :: 0 <= i < |l.stages| ==> StageLive(l, i) && l.stages[i].Keys == Elements(StageAgents(i, s.target))
  }

  ghost predicate StageLive(l: Live, i: nat)
    requires i < |l.stages|
  {
    forall a :: a in l.stages[i] ==> l.stages[i][a] in l.store
  }

  /** The handoff names the key of a recorded result, and its own payload passed. */
  ghost predicate Recorded(s: Setting, l: Live, x: Sent) {
    && x.edge.senderStage < |l.stages| && x.edge.sender in l.stages[x.edge.senderStage]
    && RefOf(l, x) in l.store
    && x.edge.sender in s.registry && x.edge.receiver in s.registry
    && x.handoff == HandoffFor(s.registry, s.requirement, x.edge, x.built) && Passes(s, x)
  }

  /** The envelope that the artifact map will hold under the handoff's key. */
  function RefOf(l: Live, x: Sent): Ref
    requires x.edge.senderStage < |l.stages| && x.edge.sender in l.stages[x.edge.senderStage]
  {
    l.stages[x.edge.senderStage][x.edge.sender]
  }

  ghost predicate Inv(s: Setting, l: Live) {
    StagesLive(s, l) && forall k :: 0 <= k < |l.log| ==> Recorded(s, l, l.log[k])
  }

  lemma {:induction false} CurrentLatest(stages: seq<map<string, Ref>>, a: string, i: nat)
    requires i < |stages| && a in stages[i] && forall j :: i < j < |stages| ==> a !in stages[j]
    ensures a in Current(stages) && Current(stages)[a] == stages[i][a]
    decreases |stages|
  {
    var last := |stages| - 1;
    if i < last {
      CurrentLatest(stages[..last], a, i);
    }
  }

  /** What is handed over is the envelope that the stage named by the handoff recorded. */
  lemma SentIsRecorded(s: Setting, l: Live, e: Edge)
    requires StagesLive(s, l) && |l.stages| < 7 && e in EdgesInto(|l.stages|, s.target) && CanHandOver(s, l, e)
    ensures Recorded(s, l, SentFor(s, l, e))
    ensures l.store[RefOf(l, SentFor(s, l, e))] == SentFor(s, l, e).built
  {
    hide EdgesInto, StageAgents, Current, Passes;
    SendersAreLatest(|l.stages|, s.target, e);
    assert e.sender in Elements(StageAgents(e.senderStage, s.target));
    forall j | e.senderStage < j < |l.stages| ensures e.sender !in l.stages[j] {
      assert e.sender !in Elements(StageAgents(j, s.target));
    }
    CurrentLatest(l.stages, e.sender, e.senderStage);
  }

  lemma StepKeepsInv(s: Setting, l: Live, ev: Event)
    requires Inv(s, l) && Enabled(s, l, ev)
    ensures Inv(s, Step(s, l, ev))
    ensures l.log <= Step(s, l, ev).log
    ensures forall k :: 0 <= k < |l.log| ==> RefOf(Step(s, l, ev), l.log[k]) == RefOf(l, l.log[k])
  {
    hide EdgesInto, StageAgents, Current, Passes, HandoffFor, Accepted, CanHandOver;
    var l' := Step(s, l, ev);
    assert ev.HandOver? ==> l'.log[..|l.log|] == l.log;
    forall k | 0 <= k < |l'.log| ensures Recorded(s, l', l'.log[k]) {
      if k < |l.log| {
        assert Recorded(s, l, l.log[k]);
      } else {
        var edges := EdgesInto(|l.stages|, s.target);
        assert edges[k - |l.log|] in edges;
        SentIsRecorded(s, l, edges[k - |l.log|]);
      }
    }
    StepKeepsStages(s, l, ev);
  }

  lemma StepKeepsStages(s: Setting, l: Live, ev: Event)
    requires StagesLive(s, l) && Enabled(s, l, ev)
    ensures StagesLive(s, Step(s, l, ev))
  {
    hide EdgesInto, StageAgents, Accepted, CanHandOver;
    var l' := Step(s, l, ev);
    forall i | 0 <= i < |l'.stages| ensures StageLive(l', i) {
      assert i < |l.stages| ==> StageLive(l, i);
    }
  }

  lemma {:induction false} ReplayInv(s: Setting, es: seq<Event>)
    requires Replay(s, es).Some?
    ensures Inv(s, Replay(s, es).value)
  {
    hide Inv, Step, Enabled;
    if es == [] {
      NothingYet(s);
    } else {
      ReplayInv(s, es[..|es| - 1]);
      StepKeepsInv(s, Replay(s, es[..|es| - 1]).value, es[|es| - 1]);
    }
  }

  lemma NothingYet(s: Setting)
    ensures Inv(s, Live(map[], [], false, []))
  {
  }

  // ---- The artifact map ----

  ghost predicate Names(l: Live, key: string, i: nat, a: string) {
    i < |l.stages| && a in l.stages[i] && key == OutputRef(i, a)
  }

  function Keys(l: Live): set<string> {
    set i, a | 0 <= i < |l.stages| && a in l.stages[i] :: OutputRef(i, a)
  }

  /** `agent-outputs.json` as it would be written now. */
  ghost function Artifacts(s: Setting, l: Live): map<string, Envelope>
    requires StagesLive(s, l)
  {
    map key | key in Keys(l) :: ArtifactUnder(s, l, key)
  }

  ghost function ArtifactUnder(s: Setting, l: Live, key: string): Envelope
    requires StagesLive(s, l) && key in Keys(l)
  {
    KeyNames(l, key);
    var i: nat, a :| Names(l, key, i, a);
    assert StageLive(l, i);
    l.store[l.stages[i][a]]
  }

  lemma KeyNames(l: Live, key: string)
    requires key in Keys(l)
    ensures exists i: nat, a :: Names(l, key, i, a)
  {
    var i, a :| 0 <= i < |l.stages| && a in l.stages[i] && key == OutputRef(i, a);
    assert Names(l, key, i, a);
  }

  lemma ArtifactAt(s: Setting, l: Live, i: nat, a: string)
    requires StagesLive(s, l) && i < |l.stages| && a in l.stages[i]
    ensures OutputRef(i, a) in Artifacts(s, l) && l.stages[i][a] in l.store
    ensures Artifacts(s, l)[OutputRef(i, a)] == l.store[l.stages[i][a]]
  {
    hide OutputRef;
    var key := OutputRef(i, a);
    assert Names(l, key, i, a) && StageLive(l, i);
    forall j: nat, b | Names(l, key, j, b) ensures j == i && b == a {
      OutputRefInjective(i, a, j, b);
    }
  }

  // ---- When the log stays intact ----

  /** The k-th handoff validates against the artifact map as it would be written now. */
  ghost predicate Validates(s: Setting, l: Live, k: nat)
    requires Inv(s, l) && k < |l.log|
  {
    ValidatePayload(l.log[k].handoff, s.registry[l.log[k].edge.sender], Artifacts(s, l)) == None
  }

  ghost predicate Unchanged(s: Setting, l: Live, k: nat)
    requires Inv(s, l) && k < |l.log|
  {
    l.store[RefOf(l, l.log[k])] == l.log[k].built
  }

  /** A recorded handoff validates if and only if its envelope is what it was when the handoff was built. */
  lemma ValidatesIffUnchanged(s: Setting, l: Live, k: nat)
    requires Inv(s, l) && k < |l.log|
    ensures Validates(s, l, k) <==> Unchanged(s, l, k)
  {
    hide OutputRef, ValidatePayload, Artifacts, StagesLive;
    var x := l.log[k];
    assert Recorded(s, l, x);
    var key := OutputRef(x.edge.senderStage, x.edge.sender);
    ArtifactAt(s, l, x.edge.senderStage, x.edge.sender);
    ValidatePayloadAccepts(x.handoff, s.registry[x.edge.sender], Artifacts(s, l));
    ValidatePayloadAccepts(x.handoff, s.registry[x.edge.sender], map[key := x.built]);
    assert x.handoff.payloadRef == PREFIX + key;
    forall other | x.handoff.payloadRef == PREFIX + other ensures other == key {
      assert (PREFIX + other)[|PREFIX|..] == other && (PREFIX + key)[|PREFIX|..] == key;
    }
  }

  /** The event gives the envelope another value. */
  predicate Alters(l: Live, ev: Event, ref: Ref)
    requires ref in l.store
  {
    match ev
    case HandOver => false
    case Return(_, values) => ref in values && values[ref] != l.store[ref]
    case Write(r, value) => r == ref && value != l.store[ref]
  }

  ghost predicate AltersSent(s: Setting, l: Live, ev: Event)
    requires Inv(s, l)
  {
    exists k :: 0 <= k < |l.log| && AltersAt(s, l, ev, k)
  }

  ghost predicate AltersAt(s: Setting, l: Live, ev: Event, k: nat)
    requires Inv(s, l) && k < |l.log|
  {
    assert Recorded(s, l, l.log[k]);
    Alters(l, ev, RefOf(l, l.log[k]))
  }

  /** Nobody changes an envelope after it was handed over. */
  ghost predicate Careful(s: Setting, es: seq<Event>)
    requires Replay(s, es).Some?
  {
    es != [] ==>
      var before := es[..|es| - 1];
      Careful(s, before) && (ReplayInv(s, before); !AltersSent(s, Replay(s, before).value, es[|es| - 1]))
  }

  ghost predicate AllValidate(s: Setting, l: Live)
    requires Inv(s, l)
  {
    forall k :: 0 <= k < |l.log| ==> Validates(s, l, k)
  }

  /** The log validates after every event of the run. */
  ghost predicate AlwaysValidates(s: Setting, es: seq<Event>)
    requires Replay(s, es).Some?
  {
    && (ReplayInv(s, es); AllValidate(s, Replay(s, es).value))
    && (es != [] ==> AlwaysValidates(s, es[..|es| - 1]))
  }

  /** After a step all handoffs are unchanged if and only if they were, or else all along, and the step alters none. */
  lemma StepUnchanged(s: Setting, l: Live, ev: Event)
    requires Inv(s, l) && Enabled(s, l, ev) && (forall k :: 0 <= k < |l.log| ==> Unchanged(s, l, k))
    ensures Inv(s, Step(s, l, ev))
    ensures (forall k :: 0 <= k < |Step(s, l, ev).log| ==> Unchanged(s, Step(s, l, ev), k)) <==> !AltersSent(s, l, ev)
  {
    StepKeepsInv(s, l, ev);
    var l' := Step(s, l, ev);
    forall k | 0 <= k < |l'.log|
      ensures k < |l.log| ==> (Unchanged(s, l', k) <==> !AltersAt(s, l, ev, k))
      ensures k >= |l.log| ==> Unchanged(s, l', k) {
      if k < |l.log| {
        OldEntry(s, l, ev, k);
      } else {
        NewEntry(s, l, ev, k);
      }
    }
  }

  lemma OldEntry(s: Setting, l: Live, ev: Event, k: nat)
    requires Inv(s, l) && Enabled(s, l, ev) && k < |l.log| && Unchanged(s, l, k) && Inv(s, Step(s, l, ev))
    ensures k < |Step(s, l, ev).log| && Step(s, l, ev).log[k] == l.log[k]
    ensures Unchanged(s, Step(s, l, ev), k) <==> !AltersAt(s, l, ev, k)
  {
    hide EdgesInto, StageAgents, Current, Passes, HandoffFor, Accepted, CanHandOver, StagesLive;
    assert Recorded(s, l, l.log[k]);
  }

  lemma NewEntry(s: Setting, l: Live, ev: Event, k: nat)
    requires Inv(s, l) && Enabled(s, l, ev) && |l.log| <= k < |Step(s, l, ev).log| && Inv(s, Step(s, l, ev))
    ensures Unchanged(s, Step(s, l, ev), k)
  {
    hide EdgesInto, StageAgents, Current, Passes, HandoffFor, Accepted, CanHandOver, StagesLive, Inv;
    var edges := EdgesInto(|l.stages|, s.target);
    assert edges[k - |l.log|] in edges;
    InvStages(s, l);
    SentIsRecorded(s, l, edges[k - |l.log|]);
  }

  lemma InvStages(s: Setting, l: Live)
    requires Inv(s, l)
    ensures StagesLive(s, l)
  {
  }

  lemma AllValidateIffUnchanged(s: Setting, l: Live)
    requires Inv(s, l)
    ensures AllValidate(s, l) <==> forall k :: 0 <= k < |l.log| ==> Unchanged(s, l, k)
  {
    hide Inv, Validates, Unchanged;
    forall k | 0 <= k < |l.log| ensures Validates(s, l, k) <==> Unchanged(s, l, k) {
      ValidatesIffUnchanged(s, l, k);
    }
  }

  /** The handoff log validates at every moment of a run if and only if nobody changes an envelope once handed over. */
  lemma {:induction false} LogHoldsIffCareful(s: Setting, es: seq<Event>)
    requires Replay(s, es).Some?
    ensures AlwaysValidates(s, es) <==> Careful(s, es)
  {
    hide Inv, Step, Enabled, AllValidate, Unchanged, AltersSent;
    ReplayInv(s, es);
    AllValidateIffUnchanged(s, Replay(s, es).value);
    if es != [] {
      var before := es[..|es| - 1];
      var l := Replay(s, before).value;
      ReplayInv(s, before);
      AllValidateIffUnchanged(s, l);
      LogHoldsIffCareful(s, before);
      if AlwaysValidates(s, before) {
        StepUnchanged(s, l, es[|es| - 1]);
      }
    }
  }

  /** Any holder can break it: one write of another value, to an envelope that was handed over, is enough. */
  lemma OneWriteBreaks(s: Setting, es: seq<Event>, k: nat, value: Envelope)
    requires Replay(s, es).Some? && k < |Replay(s, es).value.log|
    requires value != Replay(s, es).value.log[k].built
    ensures Inv(s, Replay(s, es).value)
    ensures Recorded(s, Replay(s, es).value, Replay(s, es).value.log[k])
    ensures var write := Write(RefOf(Replay(s, es).value, Replay(s, es).value.log[k]), value);
      Replay(s, es + [write]).Some? && !AlwaysValidates(s, es + [write])
  {
    hide StagesLive, Passes, HandoffFor;
    ReplayInv(s, es);
    var l := Replay(s, es).value;
    assert Recorded(s, l, l.log[k]);
    var write := Write(RefOf(l, l.log[k]), value);
    assert (es + [write])[..|es|] == es;
    StepKeepsInv(s, l, write);
    ReplayInv(s, es + [write]);
    assert !Unchanged(s, Step(s, l, write), k);
    ValidatesIffUnchanged(s, Step(s, l, write), k);
  }

  // ---- Runs whose envelopes are values ----

  /** The same run with a new envelope for every result, and no writes. */
  function FreshEvents(stages: seq<StageRecord>): seq<Event> {
    if stages == [] then []
    else
      var n := |stages| - 1;
      FreshEvents(stages[..n]) + [HandOver] + [Return(FreshRefs(stages, n), FreshValues(stages, n))]
  }

  function FreshRefs(stages: seq<StageRecord>, n: nat): map<string, Ref>
    requires n < |stages|
  {
    map a | a in stages[n].results :: Ref(n, a)
  }

  function FreshValues(stages: seq<StageRecord>, n: nat): map<Ref, Envelope>
    requires n < |stages|
  {
    map a | a in stages[n].results :: Ref(n, a) := stages[n].results[a]
  }

  /** The records are held as fresh envelopes. */
  ghost predicate Mirrors(store: map<Ref, Envelope>, refs: seq<map<string, Ref>>, stages: seq<StageRecord>) {
    && |refs| == |stages|
    && (forall i :: 0 <= i < |stages| ==> refs[i] == FreshRefs(stages, i) && FreshValues(stages, i).Items <= store.Items)
    && forall r :: r in store ==> r.stageIndex < |stages|
  }

  /** The log of `l` is `handoffs`. */
  ghost predicate Logs(l: Live, handoffs: seq<Handoff>) {
    |l.log| == |handoffs| && forall k :: 0 <= k < |handoffs| ==> l.log[k].handoff == handoffs[k]
  }

  ghost predicate IsValueRun(s: Setting, behaviour: Behaviour, stages: seq<StageRecord>, handoffs: seq<Handoff>) {
    && IsRegistry(s.registry) && |stages| <= 7 && WellRun(behaviour, stages) && HasShape(stages, s.target)
    && LogResolves(s.registry, s.requirement, Deliveries(|stages|, s.target), handoffs, stages)
  }

  lemma {:induction false} DeliveredBefore(n: nat, target: string, k: nat)
    requires k < |Deliveries(n, target)|
    ensures Deliveries(n, target)[k].receiverStage < n
  {
    hide EdgesInto;
    if k < |Deliveries(n - 1, target)| {
      DeliveredBefore(n - 1, target, k);
    }
  }

  lemma ValueRunPrefix(s: Setting, behaviour: Behaviour, stages: seq<StageRecord>, handoffs: seq<Handoff>)
    requires IsValueRun(s, behaviour, stages, handoffs) && stages != []
    ensures |Deliveries(|stages| - 1, s.target)| <= |handoffs|
    ensures IsValueRun(s, behaviour, stages[..|stages| - 1], handoffs[..|Deliveries(|stages| - 1, s.target)|])
  {
    hide EdgesInto, StageAgents, WellRun, IsRegistry, HandoffFor;
    var n := |stages| - 1;
    var init, earlier := stages[..n], Deliveries(n, s.target);
    WellRunPrefix(behaviour, stages);
    forall k | 0 <= k < |earlier| ensures Resolves(s.registry, s.requirement, earlier[k], handoffs[k], init) {
      DeliveredBefore(n, s.target, k);
      assert Deliveries(n + 1, s.target)[k] == earlier[k];
      assert Resolves(s.registry, s.requirement, earlier[k], handoffs[k], stages);
    }
  }

  /** The edge into the last stage hands over an accepted result of its sender, as `h`. */
  ghost predicate Delivered(s: Setting, stages: seq<StageRecord>, e: Edge, h: Handoff) {
    && stages != [] && Resolves(s.registry, s.requirement, Delivery(e, |stages| - 1), h, stages)
    && Accepted(e.sender, stages[e.senderStage].results[e.sender]) && s.registry[e.sender].agentId == e.sender
  }

  lemma LastDelivery(s: Setting, behaviour: Behaviour, stages: seq<StageRecord>, handoffs: seq<Handoff>, k: nat, i: nat)
    requires IsValueRun(s, behaviour, stages, handoffs) && stages != []
    requires k < |EdgesInto(|stages| - 1, s.target)| && i == |Deliveries(|stages| - 1, s.target)| + k
    ensures i < |handoffs| && Delivered(s, stages, EdgesInto(|stages| - 1, s.target)[k], handoffs[i])
  {
    hide EdgesInto, Deliveries, WellRun, HasShape, HandoffFor, Transferable, Accepted;
    var n := |stages| - 1;
    var e := EdgesInto(n, s.target)[k];
    DeliveriesNext(n, s.target);
    assert Resolves(s.registry, s.requirement, Deliveries(|stages|, s.target)[i], handoffs[i], stages);
    AcceptedAt(behaviour, stages, e.senderStage, e.sender);
  }

  lemma AcceptedAt(behaviour: Behaviour, stages: seq<StageRecord>, i: nat, a: string)
    requires WellRun(behaviour, stages) && i < |stages| && a in stages[i].results
    ensures Accepted(a, stages[i].results[a])
  {
    assert IsStage(behaviour, stages[i]);
  }

  lemma DeliveriesNext(n: nat, target: string)
    ensures Deliveries(n + 1, target) == Deliveries(n, target) + Deliver(EdgesInto(n, target), n)
  {
  }

  /** The edge can be handed over from the mirrored records, and what is sent is the value run's handoff. */
  lemma MirroredEdge(s: Setting, stages: seq<StageRecord>, l: Live, e: Edge, h: Handoff)
    requires |stages| <= 7 && HasShape(stages, s.target) && Delivered(s, stages, e, h)
    requires Mirrors(l.store, l.stages, stages[..|stages| - 1]) && e in EdgesInto(|stages| - 1, s.target)
    ensures CanHandOver(s, l, e) && SentFor(s, l, e).handoff == h
  {
    hide EdgesInto, StageAgents, Deliveries, WellRun, IsRegistry, ValidatePayload, OutputRef, Current;
    var n := |stages| - 1;
    SendersAreLatest(n, s.target, e);
    MirroredValue(l, stages, e.senderStage, e.sender);
    forall j | e.senderStage < j < n ensures e.sender !in l.stages[j] {
      assert e.sender !in Elements(StageAgents(j, s.target));
      assert l.stages[j] == FreshRefs(stages[..n], j);
    }
    CurrentLatest(l.stages, e.sender, e.senderStage);
    MadeHandoffsVerify(s.registry[e.sender], s.registry[e.receiver], OutputRef(e.senderStage, e.sender), s.requirement,
                       stages[e.senderStage].results[e.sender]);
  }

  lemma MirroredValue(l: Live, stages: seq<StageRecord>, i: nat, a: string)
    requires stages != [] && Mirrors(l.store, l.stages, stages[..|stages| - 1]) && i < |stages| - 1 && a in stages[i].results
    ensures a in l.stages[i] && l.stages[i][a] == Ref(i, a) && Ref(i, a) in l.store
    ensures l.store[Ref(i, a)] == stages[i].results[a]
  {
    var init := stages[..|stages| - 1];
    assert l.stages[i] == FreshRefs(init, i);
    assert (Ref(i, a), stages[i].results[a]) in FreshValues(init, i).Items;
  }

  lemma FreshStage(l: Live, stages: seq<StageRecord>)
    requires stages != [] && Mirrors(l.store, l.stages, stages[..|stages| - 1])
    ensures var n := |stages| - 1;
      Mirrors(l.store + FreshValues(stages, n), l.stages + [FreshRefs(stages, n)], stages)
  {
    hide FreshRefs, FreshValues;
    var n := |stages| - 1;
    var init, added := stages[..n], FreshValues(stages, n);
    NewRefs(stages, n);
    forall i | 0 <= i < n
      ensures FreshRefs(init, i) == FreshRefs(stages, i) && FreshValues(stages, i).Items <= (l.store + added).Items {
      SameRecord(init, stages, i);
      KeepsItems(FreshValues(init, i), l.store, added);
    }
    ItemsOfSum(l.store, added);
  }

  lemma NewRefs(stages: seq<StageRecord>, n: nat)
    requires n < |stages|
    ensures forall r :: r in FreshValues(stages, n) ==> r.stageIndex == n
  {
  }

  lemma SameRecord(s: seq<StageRecord>, t: seq<StageRecord>, i: nat)
    requires i < |s| && i < |t| && s[i] == t[i]
    ensures FreshRefs(s, i) == FreshRefs(t, i) && FreshValues(s, i) == FreshValues(t, i)
  {
  }

  lemma KeepsItems(part: map<Ref, Envelope>, store: map<Ref, Envelope>, added: map<Ref, Envelope>)
    requires part.Items <= store.Items && store.Keys !! added.Keys
    ensures part.Items <= (store + added).Items
  {
    forall x | x in part.Items ensures x in (store + added).Items {
      assert x in store.Items && x.0 in store && x.0 !in added;
    }
  }

  lemma ItemsOfSum(store: map<Ref, Envelope>, added: map<Ref, Envelope>)
    ensures added.Items <= (store + added).Items
  {
    forall x | x in added.Items ensures x in (store + added).Items {
      assert x.0 in added;
    }
  }

  /**
   * Where nobody writes and every result is a new envelope, a run of references is a run of values: it exists, it is
   * careful, and it has the same handoffs and the same results under the same keys.
   */
  lemma {:induction false} ValueRunIsCareful(s: Setting, behaviour: Behaviour, stages: seq<StageRecord>,
                                             handoffs: seq<Handoff>)
    requires IsValueRun(s, behaviour, stages, handoffs)
    ensures Replay(s, FreshEvents(stages)).Some? && Careful(s, FreshEvents(stages))
    ensures var l := Replay(s, FreshEvents(stages)).value;
      !l.handed && Mirrors(l.store, l.stages, stages) && Logs(l, handoffs)
    decreases |stages|
  {
    hide Inv, Enabled, Step, Mirrors, Logs, IsValueRun, EdgesInto, StageAgents, Deliveries, FreshRefs, FreshValues,
      AltersSent;
    if stages == [] {
      EmptyValueRun(s, behaviour, handoffs);
    } else {
      var n := |stages| - 1;
      var before := FreshEvents(stages[..n]);
      ValueRunPrefix(s, behaviour, stages, handoffs);
      ValueRunIsCareful(s, behaviour, stages[..n], handoffs[..|Deliveries(n, s.target)|]);
      var l := Replay(s, before).value;
      var back := Return(FreshRefs(stages, n), FreshValues(stages, n));
      FreshHandOver(s, behaviour, stages, handoffs, l);
      var l1 := Step(s, l, HandOver);
      ReplayInv(s, before);
      HandOverAltersNothing(s, l);
      assert (before + [HandOver])[..|before|] == before;
      assert (before + [HandOver] + [back])[..|before| + 1] == before + [HandOver];
      assert FreshEvents(stages) == before + [HandOver] + [back];
      ReplayInv(s, before + [HandOver]);
      FreshReturn(s, behaviour, stages, handoffs, l1);
    }
  }

  lemma EmptyValueRun(s: Setting, behaviour: Behaviour, handoffs: seq<Handoff>)
    requires IsValueRun(s, behaviour, [], handoffs)
    ensures Replay(s, []) == Some(Live(map[], [], false, [])) && Careful(s, [])
    ensures Mirrors(map[], [], []) && Logs(Live(map[], [], false, []), handoffs)
  {
  }

  lemma FreshHandOver(s: Setting, behaviour: Behaviour, stages: seq<StageRecord>, handoffs: seq<Handoff>, l: Live)
    requires IsValueRun(s, behaviour, stages, handoffs) && stages != []
    requires !l.handed && Mirrors(l.store, l.stages, stages[..|stages| - 1])
    requires |Deliveries(|stages| - 1, s.target)| <= |handoffs|
    requires Logs(l, handoffs[..|Deliveries(|stages| - 1, s.target)|])
    ensures Enabled(s, l, HandOver)
    ensures var l1 := Step(s, l, HandOver); l1 == l.(handed := true, log := l1.log) && Logs(l1, handoffs)
  {
    hide EdgesInto, Deliveries, IsValueRun, HasShape, Delivered, CanHandOver, SentFor, Mirrors, SendsAs, Logs, AllSent,
      AllCanBeSent;
    var n := |stages| - 1;
    var edges, first := EdgesInto(n, s.target), |Deliveries(n, s.target)|;
    ValueRunLength(s, behaviour, stages, handoffs);
    forall k | 0 <= k < |edges| ensures SendsAs(s, l, edges[k], first + k, handoffs) {
      LastDelivery(s, behaviour, stages, handoffs, k, first + k);
      assert edges[k] in edges;
      SendsAsDelivered(s, stages, l, edges[k], first + k, handoffs);
    }
    MirroredLength(l, stages);
    LogsLonger(s, l, edges, first, handoffs);
  }

  lemma SendsAsDelivered(s: Setting, stages: seq<StageRecord>, l: Live, e: Edge, i: nat, handoffs: seq<Handoff>)
    requires |stages| <= 7 && HasShape(stages, s.target) && i < |handoffs| && Delivered(s, stages, e, handoffs[i])
    requires Mirrors(l.store, l.stages, stages[..|stages| - 1]) && e in EdgesInto(|stages| - 1, s.target)
    ensures SendsAs(s, l, e, i, handoffs)
  {
    hide EdgesInto, HasShape, Delivered, CanHandOver, Mirrors;
    MirroredEdge(s, stages, l, e, handoffs[i]);
  }

  lemma LogsLonger(s: Setting, l: Live, edges: seq<Edge>, first: nat, handoffs: seq<Handoff>)
    requires first <= |handoffs| == first + |edges| && Logs(l, handoffs[..first])
    requires forall k :: 0 <= k < |edges| ==> SendsAs(s, l, edges[k], first + k, handoffs)
    ensures AllCanBeSent(s, l, edges)
    ensures Logs(l.(handed := true, log := l.log + AllSent(s, l, edges)), handoffs)
  {
    hide CanHandOver, SentFor;
    var log := l.log + AllSent(s, l, edges);
    forall i | 0 <= i < |handoffs| ensures log[i].handoff == handoffs[i] {
      if i >= first {
        assert SendsAs(s, l, edges[i - first], first + (i - first), handoffs);
      }
    }
  }

  lemma HandOverAltersNothing(s: Setting, l: Live)
    requires Inv(s, l)
    ensures !AltersSent(s, l, HandOver)
  {
    hide Inv, Recorded;
  }

  /** The edge can be handed over, and becomes the i-th handoff. */
  ghost predicate SendsAs(s: Setting, l: Live, e: Edge, i: nat, handoffs: seq<Handoff>) {
    CanHandOver(s, l, e) && i < |handoffs| && SentFor(s, l, e).handoff == handoffs[i]
  }

  lemma ValueRunLength(s: Setting, behaviour: Behaviour, stages: seq<StageRecord>, handoffs: seq<Handoff>)
    requires IsValueRun(s, behaviour, stages, handoffs) && stages != []
    ensures |stages| <= 7 && HasShape(stages, s.target)
    ensures |handoffs| == |Deliveries(|stages| - 1, s.target)| + |EdgesInto(|stages| - 1, s.target)|
  {
    hide EdgesInto, StageAgents, Deliveries, WellRun, Resolves;
    DeliveriesNext(|stages| - 1, s.target);
  }

  lemma MirroredLength(l: Live, stages: seq<StageRecord>)
    requires stages != [] && Mirrors(l.store, l.stages, stages[..|stages| - 1])
    ensures |l.stages| == |stages| - 1
  {
  }

  lemma FreshReturn(s: Setting, behaviour: Behaviour, stages: seq<StageRecord>, handoffs: seq<Handoff>, l: Live)
    requires IsValueRun(s, behaviour, stages, handoffs) && stages != [] && Inv(s, l)
    requires l.handed && Mirrors(l.store, l.stages, stages[..|stages| - 1]) && Logs(l, handoffs)
    ensures var n := |stages| - 1;
      var back := Return(FreshRefs(stages, n), FreshValues(stages, n));
      && Enabled(s, l, back) && !AltersSent(s, l, back)
      && Mirrors(Step(s, l, back).store, Step(s, l, back).stages, stages)
      && !Step(s, l, back).handed && Logs(Step(s, l, back), handoffs)
  {
    hide EdgesInto, StageAgents, Deliveries, IsRegistry, CanHandOver, Resolves, Passes, HandoffFor, DependenciesMet,
      CallResult;
    var n := |stages| - 1;
    FreshStage(l, stages);
    assert IsStage(behaviour, stages[n]);
    FreshMeets(stages, n);
    forall k | 0 <= k < |l.log| ensures Recorded(s, l, l.log[k]) && RefOf(l, l.log[k]) !in FreshValues(stages, n) {
      assert Recorded(s, l, l.log[k]);
    }
  }

  lemma FreshMeets(stages: seq<StageRecord>, n: nat)
    requires n < |stages|
    ensures FreshValues(stages, n).Keys == FreshRefs(stages, n).Values
  {
    forall a | a in stages[n].results ensures Ref(n, a) in FreshRefs(stages, n).Values {
      assert FreshRefs(stages, n)[a] == Ref(n, a);
    }
  }
}
