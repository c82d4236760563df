/** The immutable outcome of a run. */
module RunResults {
  // Its construction, and the audit copy handed to owners and followers.

  import opened Prelude

  const RUNNER_FAILED := "RUNNER_FAILED"
  const RUN_CANCELLED := "RUN_CANCELLED"
  const WAIT_TIMEOUT := "SINGLE_FLIGHT_WAIT_TIMEOUT"
  const CANCELLED := "cancelled"
  const FAILED_SECURITY := "failed_security"

  predicate IsUpper(c: char) { 'A' <= c <= 'Z' }

  /** The published form of an error code: a capital, then at most 63 capitals, digits and underscores. */
  predicate IsSafeCode(code: string) {
    && 1 <= |code| <= 64 && IsUpper(code[0])
    && forall i :: 1 <= i < |code| ==> IsUpper(code[i]) || '0' <= code[i] <= '9' || code[i] == '_'
  }

  function SafeCode(code: string): (r: string)
    ensures IsSafeCode(r)
  {
    if IsSafeCode(code) then code else RUNNER_FAILED
  }

  const CAPITALS := "ABCDEFGHIJKLMNOPQRSTUVWXYZ"

  /** A code is kept when it is a capital and up to 63 capitals, digits and underscores; any other is replaced. */
  lemma SafeCodeMeans(code: string)
    ensures SafeCode(code) ==
      if && code != "" && |code| < 65 && code[0] in CAPITALS
         && forall c :: c in code ==> c in CAPITALS || c in "0123456789_"
      then code else "RUNNER_FAILED"
  {
    hide CAPITALS;
    forall c: char
      ensures c in CAPITALS <==> IsUpper(c)
      ensures c in "0123456789_" <==> '0' <= c <= '9' || c == '_' {
      CapitalsAre(c);
      DigitsAre(c);
    }
    if IsSafeCode(code) {
      forall c | c in code ensures c in CAPITALS || c in "0123456789_" {
        var i :| 0 <= i < |code| && code[i] == c;
      }
    }
    if forall c :: c in code ==> c in CAPITALS || c in "0123456789_" {
      assert forall i :: 0 <= i < |code| ==> code[i] in code;
    }
  }

  lemma CapitalsAre(c: char)
    ensures c in CAPITALS <==> IsUpper(c)
  {
    if 'A' <= c <= 'Z' {
      assert CAPITALS[c as int - 'A' as int] == c;
    }
  }

  lemma DigitsAre(c: char)
    ensures c in "0123456789_" <==> '0' <= c <= '9' || c == '_'
  {
    if '0' <= c <= '9' {
      assert "0123456789_"[c as int - '0' as int] == c;
    }
    assert "0123456789_"[10] == '_';
  }

  datatype Metadata = NoMetadata | Audit(owner: bool, ownerRunId: string)

  datatype RunResult = RunResult(
    code: int, status: string, errorCode: string, degraded: bool,
    directory: Option<string>, metadata: Metadata)

  function DefaultStatus(code: int): string {
    match code
    case 0 => "completed"
    case 4 => "completed_degraded"
    case 2 => FAILED_SECURITY
    case _ => "failed_runtime"
  }

  function DefaultError(code: int): string {
    match code
    case 0 => ""
    case 4 => ""
    case 2 => "REPOSITORY_UNAVAILABLE"
    case _ => RUNNER_FAILED
  }

  /** Missing and empty arguments alike select the default. */
  function OrDefault(given: Option<string>, default: string): string {
    if given.Some? && given.value != "" then given.value else default
  }

  /** None where the constructor raises: a security failure without an error code. */
  function Make(code: int, errorCode: Option<string>, directory: Option<string>,
                status: Option<string>, metadata: Metadata): Option<RunResult>
  {
    var s := OrDefault(status, DefaultStatus(code));
    var e := if OrDefault(errorCode, "") != "" then SafeCode(errorCode.value) else DefaultError(code);
    if s == FAILED_SECURITY && e == "" then None
    else Some(RunResult(code, s, e, code == 4, directory, metadata))
  }

  /** What a code alone stands for: its status, error code and whether the run was degraded. */
  lemma MadeByCode(code: int, directory: Option<string>, metadata: Metadata)
    ensures var r := Make(code, None, directory, None, metadata);
      && r.Some? && r.value.code == code && r.value.directory == directory && r.value.metadata == metadata
      && (code == 0 ==> r.value.status == "completed" && r.value.errorCode == "" && !r.value.degraded)
      && (code == 2 ==> r.value.status == "failed_security" && r.value.errorCode == "REPOSITORY_UNAVAILABLE"
                        && !r.value.degraded)
      && (code == 4 ==> r.value.status == "completed_degraded" && r.value.errorCode == "" && r.value.degraded)
      && (code !in {0, 2, 4} ==> r.value.status == "failed_runtime" && r.value.errorCode == "RUNNER_FAILED"
                                 && !r.value.degraded)
  {
  }

  /** A given status or error code replaces the code's own, except that a security failure must name an error. */
  lemma MadeByArguments(code: int, errorCode: Option<string>, directory: Option<string>, status: Option<string>,
                        metadata: Metadata)
    ensures var r, plain := Make(code, errorCode, directory, status, metadata), Make(code, None, directory, None, metadata);
      var named, given := errorCode.Some? && errorCode.value != "", status.Some? && status.value != "";
      && plain.Some?
      && (r.None? <==> !named && code in {0, 4} && status == Some("failed_security"))
      && (r.Some? ==>
            r.value == plain.value.(
              status := if given then status.value else plain.value.status,
              errorCode := if named then SafeCode(errorCode.value) else plain.value.errorCode))
  {
    SafeConstants();
  }

  function ErrorCodeOf(r: RunResult): Option<string> {
    if r.errorCode == "" then None else Some(r.errorCode)
  }

  function WithAudit(r: RunResult, metadata: Metadata): Option<RunResult> {
    Make(r.code, ErrorCodeOf(r), r.directory, Some(r.status), metadata)
  }

  /** What every constructed result looks like. */
  predicate Canonical(r: RunResult) {
    && r.status != "" && r.degraded == (r.code == 4)
    && (r.errorCode == "" || IsSafeCode(r.errorCode))
    && (r.errorCode == "" ==> DefaultError(r.code) == "" && r.status != FAILED_SECURITY)
  }

  lemma SafeConstants()
    ensures IsSafeCode(RUNNER_FAILED) && IsSafeCode(RUN_CANCELLED) && IsSafeCode(WAIT_TIMEOUT)
    ensures IsSafeCode("REPOSITORY_UNAVAILABLE")
  {
  }

  ghost predicate Constructible(r: RunResult) {
    exists errorCode, status :: Make(r.code, errorCode, r.directory, status, r.metadata) == Some(r)
  }

  /** The constructor yields exactly the canonical results. */
  lemma ConstructibleIffCanonical(r: RunResult)
    ensures Constructible(r) <==> Canonical(r)
  {
    SafeConstants();
    if Canonical(r) {
      assert Make(r.code, ErrorCodeOf(r), r.directory, Some(r.status), r.metadata) == Some(r);
    }
  }

  /** Auditing a constructed result never fails, and changes nothing but the role metadata. */
  lemma AuditChangesOnlyMetadata(r: RunResult, metadata: Metadata)
    requires Constructible(r)
    ensures WithAudit(r, metadata) == Some(r.(metadata := metadata))
    ensures Constructible(r.(metadata := metadata))
  {
    ConstructibleIffCanonical(r);
    ConstructibleIffCanonical(r.(metadata := metadata));
  }

  /** Hence auditing twice is auditing once with the last metadata. */
  lemma AuditIsIdempotent(r: RunResult, first: Metadata, second: Metadata)
    requires Constructible(r)
    ensures WithAudit(r, first).Some? && WithAudit(WithAudit(r, first).value, second) == WithAudit(r, second)
  {
    AuditChangesOnlyMetadata(r, first);
    AuditChangesOnlyMetadata(r, second);
    AuditChangesOnlyMetadata(r.(metadata := first), second);
  }
}
