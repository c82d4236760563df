/** Handoff records and their validation (src/specflow/handoff/validator.py). */
module Handoffs {
  import opened Prelude
  import opened MultiAgentWorkflow

  // ---- Agent outputs ----

  datatype Decision = Pass | Reject | NoDecision

  /** An output object: the fields the runner reads, and the rest. */
  datatype Body = Body(decision: Decision, targetAgentId: Option<string>, rest: string)

  datatype Output = NotObject | Object(body: Body)

  /** What an executor returns: `canonical` says whether it can be written as canonical JSON. */
  datatype Envelope = Envelope(
    agentId: Option<string>, hasRole: bool, success: bool, schemaRefused: bool, output: Output, canonical: bool)

  datatype Identity = Identity(agentId: string, role: Role, inputSchemaId: string, outputSchemaId: string)

  /** SHA-256, taken as injective. */
  datatype Hash = OfText(text: string) | OfEnvelope(payload: Envelope)

  datatype Handoff = Handoff(
    fromAgentId: string, toAgentId: string, sourceOutputSchemaId: string, targetInputSchemaId: string,
    payloadRef: string, inputHash: Hash, outputHash: Hash)

  datatype HandoffError = SchemaMismatch | NotAnArtifact | PayloadMissing | NotCanonical | IntegrityFailed | WrongEnvelope

  // ---- Artifact keys ----

  function Digit(d: nat): char
    requires d < 10
  {
    ['0', '1', '2', '3', '4', '5', '6', '7', '8', '9'][d]
  }

  function Decimal(n: nat): (s: string)
    ensures s != [] && '/' !in s && (|s| == 1 <==> n < 10)
  {
    if n < 10 then [Digit(n)] else Decimal(n / 10) + [Digit(n % 10)]
  }

  /** `stage-i/agent` */
  function OutputRef(stageIndex: nat, agentId: string): string {
    "stage-" + Decimal(stageIndex) + "/" + agentId
  }

  lemma {:induction false} DecimalInjective(m: nat, n: nat)
    requires Decimal(m) == Decimal(n)
    ensures m == n
  {
    var s := Decimal(m);
    if m >= 10 && n >= 10 {
      assert Decimal(m / 10) == s[..|s| - 1] == Decimal(n / 10);
      assert Digit(m % 10) == s[|s| - 1] == Digit(n % 10);
      DecimalInjective(m / 10, n / 10);
    } else {
      assert m < 10 && n < 10;
      assert Digit(m) == s[0] == Digit(n);
    }
  }

  /** A key splits at its first slash. */
  lemma SplitAtSlash(a: string, b: string, c: string, d: string)
    requires a + "/" + b == c + "/" + d && '/' !in a && '/' !in c
    ensures a == c && b == d
  {
    var s := a + "/" + b;
    assert s[|a|] == '/' && s[|c|] == '/';
    assert forall i :: 0 <= i < |a| ==> s[i] == a[i];
    assert forall i :: 0 <= i < |c| ==> s[i] == c[i];
    assert a == s[..|a|] && c == s[..|c|];
    assert b == s[|a| + 1..] && d == s[|c| + 1..];
  }

  /** Artifact keys never collide. */
  lemma OutputRefInjective(i: nat, a: string, j: nat, b: string)
    requires OutputRef(i, a) == OutputRef(j, b)
    ensures i == j && a == b
  {
    var x, y := OutputRef(i, a), OutputRef(j, b);
    assert x[6..] == Decimal(i) + "/" + a;
    assert y[6..] == Decimal(j) + "/" + b;
    SplitAtSlash(Decimal(i), a, Decimal(j), b);
    DecimalInjective(i, j);
  }

  // ---- Validation ----

  const PREFIX := "agent-outputs.json#"

  function Validate(h: Handoff, sender: Identity, receiver: Identity): Option<HandoffError> {
    if h.sourceOutputSchemaId != sender.outputSchemaId then Some(SchemaMismatch)
    else if h.targetInputSchemaId != receiver.inputSchemaId then Some(SchemaMismatch)
    else None
  }

  /** Both schemas must be those of the identities, and nothing else is asked. */
  lemma ValidateAccepts(h: Handoff, sender: Identity, receiver: Identity)
    ensures Validate(h, sender, receiver) == None <==>
      h.sourceOutputSchemaId == sender.outputSchemaId && h.targetInputSchemaId == receiver.inputSchemaId
    ensures Validate(h, sender, receiver) in {None, Some(SchemaMismatch)}
  {
  }

  function ValidatePayload(h: Handoff, sender: Identity, payloads: map<string, Envelope>): Option<HandoffError> {
    if !(PREFIX <= h.payloadRef) then Some(NotAnArtifact)
    else
      var key := h.payloadRef[|PREFIX|..];
      if key !in payloads then Some(PayloadMissing)
      else
        var payload := payloads[key];
        if !payload.canonical then Some(NotCanonical)
        else if h.outputHash != OfEnvelope(payload) then Some(IntegrityFailed)
        else if payload.agentId != Some(sender.agentId) then Some(WrongEnvelope)
        else if !payload.hasRole || !payload.output.Object? then Some(WrongEnvelope)
        else None
  }

  /** `e` is an output of agent `a` that the runner let through after its stage. */
  ghost predicate Accepted(a: string, e: Envelope) {
    e.agentId == Some(a) && e.success && !e.schemaRefused && e.output.Object?
  }

  /** `e` can be handed over: it has a canonical form and names its role. */
  predicate Transferable(e: Envelope) {
    e.canonical && e.hasRole
  }

  /** Validation accepts exactly the handoffs whose reference names an artifact with the recorded hash and envelope. */
  lemma ValidatePayloadAccepts(h: Handoff, sender: Identity, payloads: map<string, Envelope>)
    ensures ValidatePayload(h, sender, payloads) == None <==>
      exists key :: && h.payloadRef == PREFIX + key && key in payloads
        && h.outputHash == OfEnvelope(payloads[key]) && payloads[key].canonical
        && payloads[key].agentId == Some(sender.agentId) && payloads[key].hasRole && payloads[key].output.Object?
  {
    if ValidatePayload(h, sender, payloads) == None {
      assert h.payloadRef == PREFIX + h.payloadRef[|PREFIX|..];
    }
    forall key | h.payloadRef == PREFIX + key ensures h.payloadRef[|PREFIX|..] == key && PREFIX <= h.payloadRef {
    }
  }

  function MakeHandoff(sender: Identity, receiver: Identity, ref: string, requirement: string, payload: Envelope): Handoff {
    Handoff(sender.agentId, receiver.agentId, sender.outputSchemaId, receiver.inputSchemaId,
            PREFIX + ref, OfText(requirement), OfEnvelope(payload))
  }

  /** A handoff the runner builds is refused only for what its payload is, never for its hash or reference. */
  lemma MadeHandoffsVerify(sender: Identity, receiver: Identity, ref: string, requirement: string, payload: Envelope)
    requires Accepted(sender.agentId, payload)
    ensures var h := MakeHandoff(sender, receiver, ref, requirement, payload);
      && Validate(h, sender, receiver) == None
      && ValidatePayload(h, sender, map[ref := payload]) ==
           if !payload.canonical then Some(NotCanonical) else if !payload.hasRole then Some(WrongEnvelope) else None
  {
    var h := MakeHandoff(sender, receiver, ref, requirement, payload);
    assert h.payloadRef[|PREFIX|..] == ref;
  }
}
