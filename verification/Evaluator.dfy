/** Host-side mapping of guest stage outputs into stage executions, and the host's own check decision. */
module Evaluator {
  import opened Prelude
  import opened Tokens
  import opened Domain
  import opened Results
  import opened Pipeline
  import opened GuestText
  import G = Guest

  const GUEST_TIMEOUT_EXIT_CODE: G.I32 := 124

  /** `usage_from_guest`. */
  function UsageFromGuest(u: G.GuestUsage): Result<ResourceUsage, ApplicationError> {
    var usage := ResourceUsage(u.cpuTimeMs, u.wallTimeMs, u.memoryPeakBytes, u.outputBytes);
    if usage.Valid() then Ok(usage) else Err(DomainFault(DomainError.OutOfRange))
  }

  /** One diagnostic; `upper` is the Unicode upper-case mapping of the standard library. */
  function DiagnosticFromGuest(d: G.GuestDiagnostic, upper: string -> string): Result<Diagnostic, ApplicationError> {
    if !ValidDiagnosticCode(upper(d.code)) then Err(DomainFault(DomainError.InvalidFormat))
    else if |d.message| > MAX_DIAGNOSTIC_MESSAGE_LENGTH then Err(DomainFault(DomainError.OutOfRange))
    else Ok(Diagnostic(upper(d.code), d.message, d.truncated))
  }

  /** `diagnostics_from_guest`: the first refused diagnostic fails the list. */
  function DiagnosticsFromGuest(ds: seq<G.GuestDiagnostic>, upper: string -> string)
    : Result<seq<Diagnostic>, ApplicationError>
  {
    if ds == [] then Ok([])
    else
      var head :- DiagnosticFromGuest(ds[0], upper);
      var tail :- DiagnosticsFromGuest(ds[1..], upper);
      Ok([head] + tail)
  }

  function ShortToken(digest: string, maximum: nat): string {
    if |digest| <= maximum then digest else digest[..maximum]
  }

  /** `stdout_evidence`: every identifier goes through its parser. */
  function StdoutEvidence(digest: string, outputBytes: nat): Result<EvidenceRef, ApplicationError> {
    var artifactId := Id("artifact-" + ShortToken(digest, 48));
    var evidenceId := Id("evidence-stdout-" + ShortToken(digest, 32));
    if !ValidEvidenceKind("stdout") || !ValidDigest("sha256:" + digest) || !ValidId(artifactId)
       || !ValidMediaType("text/plain") then Err(DomainFault(DomainError.InvalidFormat))
    else if outputBytes > MAX_ARTIFACT_BYTES then Err(DomainFault(DomainError.OutOfRange))
    else if !ValidId(evidenceId) then Err(DomainFault(DomainError.InvalidFormat))
    else Ok(EvidenceRef(evidenceId, "stdout",
                        Some(ArtifactRef(artifactId, "sha256:" + digest, "text/plain", outputBytes, Private))))
  }

  /** The verdict of a guest stage that did not exit with zero. */
  function RejectionVerdict(stage: StageKind, exitCode: G.I32): Verdict {
    match stage
    case Build => CompileError
    case Run => if exitCode == GUEST_TIMEOUT_EXIT_CODE then TimeLimitExceeded else RuntimeError
    case _ => SystemError
  }

  /** `execution_for_stage_output`. */
  function ExecutionForStageOutput(stage: StageKind, exitCode: G.I32, digest: string, outputBytes: nat,
                                   usage: G.GuestUsage, diagnostics: seq<G.GuestDiagnostic>, upper: string -> string)
    : Result<StageExecution, ApplicationError>
  {
    var total :- UsageFromGuest(usage);
    var converted :- DiagnosticsFromGuest(diagnostics, upper);
    var evidence :- if stage == Build || stage == Run then
                      var e :- StdoutEvidence(digest, outputBytes);
                      Ok([e])
                    else Ok([]);
    if exitCode == 0 then Ok(Success(total, converted, evidence, None))
    else Ok(Rejection(RejectionVerdict(stage, exitCode), total, converted, evidence))
  }

  /** `host_check_decision`. */
  function HostCheckDecision(exitCode: G.I32): Result<Decision, ApplicationError> {
    var score := if exitCode == 0 then NewScore(1, 1) else NewScore(0, 1);
    match score
    case Err(error) => Err(DomainFault(error))
    case Ok(score) => NewDecision(if exitCode == 0 then Accepted else WrongAnswer, score)
  }

  // ---- Which guest outputs the host accepts.

  predicate HexDigest(digest: string) { |digest| == 64 && All(HexDigit, digest) }

  lemma HexIsOpaque(prefix: string, digest: string, n: nat)
    requires HexDigest(digest) && n <= 64 && 1 <= |prefix| && |prefix| + n <= 64
    requires IsAlphanumeric(prefix[0]) && All(OpaqueTail, prefix[1..])
    ensures ValidId(Id(prefix + ShortToken(digest, n)))
  {
    var s := prefix + ShortToken(digest, n);
    var tail := s[1..];
    forall i | 0 <= i < |tail| ensures OpaqueTail(tail[i]) {
      if i + 1 < |prefix| { assert tail[i] == prefix[1..][i]; } else { assert tail[i] == digest[i + 1 - |prefix|]; }
    }
  }

  lemma PlainTextIsMediaType()
    ensures ValidMediaType("text/plain")
  {
    var s := "text/plain";
    assert s[4] == '/' && s[..4] == "text" && s[5..] == "plain";
    assert All(MediaTypeChar, s[..4]) && All(MediaTypeChar, s[4 + 1..]);
  }

  lemma StdoutIsEvidenceKind()
    ensures ValidEvidenceKind("stdout")
  {
    var s := "stdout";
    assert s[1..] == "tdout" && s[1..][1..] == "dout" && s[1..][1..][1..] == "out";
    assert "out"[1..] == "ut" && "ut"[1..] == "t" && "t"[1..] == "";
    assert Scan(DomainSeparator, "ut", false);
    assert Scan(DomainSeparator, "dout", false);
    assert Scan(DomainSeparator, s, true);
  }

  /** The reference to a stage's standard output: two names cut from the digest, and the digest itself. */
  function StdoutOf(digest: string, outputBytes: nat): EvidenceRef
    requires |digest| == 64
  {
    EvidenceRef(Id("evidence-stdout-" + digest[..32]), "stdout",
                Some(ArtifactRef(Id("artifact-" + digest[..48]), "sha256:" + digest, "text/plain", outputBytes, Private)))
  }

  /** Evidence is built exactly for 64 hexadecimal digits and a size in bounds; the identifiers always parse then. */
  lemma StdoutEvidenceExactly(digest: string, outputBytes: nat)
    ensures StdoutEvidence(digest, outputBytes).Ok? <==> HexDigest(digest) && outputBytes <= MAX_ARTIFACT_BYTES
    ensures StdoutEvidence(digest, outputBytes).Ok? ==>
              && StdoutEvidence(digest, outputBytes).value.Valid()
              && StdoutEvidence(digest, outputBytes).value == StdoutOf(digest, outputBytes)
  {
    hide ValidEvidenceKind, ValidMediaType, ValidId;
    StdoutIsEvidenceKind();
    PlainTextIsMediaType();
    var full := "sha256:" + digest;
    assert full[..7] == "sha256:" && full[7..] == digest;
    if HexDigest(digest) {
      assert All(OpaqueTail, "artifact-"[1..]) && All(OpaqueTail, "evidence-stdout-"[1..]);
      HexIsOpaque("artifact-", digest, 48);
      HexIsOpaque("evidence-stdout-", digest, 32);
    }
  }

  predicate DiagnosticAccepted(d: G.GuestDiagnostic, upper: string -> string) {
    ValidDiagnosticCode(upper(d.code)) && |d.message| <= MAX_DIAGNOSTIC_MESSAGE_LENGTH
  }

  /** Guest diagnostics convert exactly when every code is a host code in upper case and every message fits the host's
      2048 characters; the guest may send 4096 bytes. */
  lemma {:induction false} DiagnosticsExactly(ds: seq<G.GuestDiagnostic>, upper: string -> string)
    ensures DiagnosticsFromGuest(ds, upper).Ok? <==>
            forall i :: 0 <= i < |ds| ==> DiagnosticAccepted(ds[i], upper)
    ensures DiagnosticsFromGuest(ds, upper).Ok? ==>
              var r := DiagnosticsFromGuest(ds, upper).value;
              |r| == |ds| && (forall i :: 0 <= i < |r| ==>
                r[i].Valid() && r[i] == Diagnostic(upper(ds[i].code), ds[i].message, ds[i].truncated))
  {
    hide ValidDiagnosticCode;
    if ds != [] { DiagnosticsExactly(ds[1..], upper); }
  }

  /** The host accepts a build or run output exactly when all of its parts convert. */
  predicate OutputAccepted(digest: string, outputBytes: nat, usage: G.GuestUsage, diagnostics: seq<G.GuestDiagnostic>,
                           upper: string -> string)
  {
    && ResourceUsage(usage.cpuTimeMs, usage.wallTimeMs, usage.memoryPeakBytes, usage.outputBytes).Valid()
    && (forall i :: 0 <= i < |diagnostics| ==> DiagnosticAccepted(diagnostics[i], upper))
    && HexDigest(digest) && outputBytes <= MAX_ARTIFACT_BYTES
  }

  /** An accepted output succeeds exactly on exit code zero, and is rejected with a verdict that fits its stage
      otherwise; anything else is a host error. */
  lemma StageOutputExactly(stage: StageKind, exitCode: G.I32, digest: string, outputBytes: nat, usage: G.GuestUsage,
                           diagnostics: seq<G.GuestDiagnostic>, upper: string -> string)
    requires stage == Build || stage == Run
    ensures var r := ExecutionForStageOutput(stage, exitCode, digest, outputBytes, usage, diagnostics, upper);
            && (r.Ok? <==> OutputAccepted(digest, outputBytes, usage, diagnostics, upper))
            && (r.Ok? ==>
                  && r.value.Constructed() && r.value.evidence == [StdoutOf(digest, outputBytes)]
                  && r.value.usage == ResourceUsage(usage.cpuTimeMs, usage.wallTimeMs, usage.memoryPeakBytes,
                                                    usage.outputBytes)
                  && |r.value.diagnostics| == |diagnostics|
                  && (forall i :: 0 <= i < |diagnostics| ==>
                        r.value.diagnostics[i] ==
                        Diagnostic(upper(diagnostics[i].code), diagnostics[i].message, diagnostics[i].truncated))
                  && (exitCode == 0 ==> r.value.Success? && r.value.decision.None?)
                  && (exitCode != 0 ==> r.value.Rejection? && RejectionFits(stage, r.value.verdict)
                                        && r.value.verdict == RejectionVerdict(stage, exitCode)
                                        && r.value.verdict == if stage == Build then CompileError
                                                              else if exitCode == 124 then TimeLimitExceeded
                                                              else RuntimeError))
  {
    hide StdoutEvidence, DiagnosticsFromGuest, DiagnosticAccepted, HexDigest, EvidenceRef.Valid, Diagnostic.Valid;
    StdoutEvidenceExactly(digest, outputBytes);
    DiagnosticsExactly(diagnostics, upper);
  }

  /** Some diagnostic of the message is longer than the host allows. */
  predicate HasLongDiagnostic(m: G.Message)
    requires m.StageOutput?
  {
    exists i :: 0 <= i < |m.diagnostics| && |m.diagnostics[i].message| > MAX_DIAGNOSTIC_MESSAGE_LENGTH
  }

  /** Every stage output that the guest codec carries, in both directions, and that holds a diagnostic beyond the host
      bound: the codec returns it unchanged, and the host refuses it. */
  lemma LongDiagnosticFails(m: G.Message, stage: StageKind, upper: string -> string)
    requires m.StageOutput? && G.MessageToValue(m).Ok? && G.DecoderBounds(m) && HasLongDiagnostic(m)
    requires stage == Build || stage == Run
    ensures G.MessageFromValue(G.MessageToValue(m).value) == Ok(m)
    ensures ExecutionForStageOutput(stage, m.exitCode, m.outputDigest, m.outputBytes, m.usage, m.diagnostics, upper).Err?
  {
    hide G.MessageFromValue, G.MessageToValue, ExecutionForStageOutput;
    G.ValueRoundTrip(m);
    StageOutputExactly(stage, m.exitCode, m.outputDigest, m.outputBytes, m.usage, m.diagnostics, upper);
    var i :| 0 <= i < |m.diagnostics| && |m.diagnostics[i].message| > MAX_DIAGNOSTIC_MESSAGE_LENGTH;
    assert !DiagnosticAccepted(m.diagnostics[i], upper);
  }

  /** A build output that is in order, with one diagnostic of `n` letters. */
  function SizedOutput(n: nat): G.Message {
    G.StageOutput(G.BuildStage, 0, seq(64, i => 'a'), 0, G.GuestUsage(0, 0, 0, 0),
                  [G.GuestDiagnostic("E", seq(n, i => 'a'), false)])
  }

  /** Nothing else is at fault: of these outputs the codec carries all up to its own bound, and the host accepts exactly
      those up to its smaller one. */
  lemma HostBoundIsSmaller(n: nat, upper: string -> string)
    requires n <= G.MAX_DIAGNOSTIC_MESSAGE && upper("E") == "E"
    ensures var m := SizedOutput(n);
            G.MessageToValue(m).Ok? && G.MessageFromValue(G.MessageToValue(m).value) == Ok(m)
    ensures var m := SizedOutput(n);
            var r := ExecutionForStageOutput(Build, m.exitCode, m.outputDigest, m.outputBytes, m.usage, m.diagnostics,
                                             upper);
            r.Ok? <==> n <= MAX_DIAGNOSTIC_MESSAGE_LENGTH
  {
    hide G.MessageFromValue, ExecutionForStageOutput, ByteLength;
    var m := SizedOutput(n);
    G.AsciiLength(m.outputDigest);
    G.AsciiLength("E");
    G.AsciiLength(m.diagnostics[0].message);
    G.ValueRoundTrip(m);
    StageOutputExactly(Build, m.exitCode, m.outputDigest, m.outputBytes, m.usage, m.diagnostics, upper);
    assert ValidDiagnosticCode("E");
    assert DiagnosticAccepted(m.diagnostics[0], upper) <==> n <= MAX_DIAGNOSTIC_MESSAGE_LENGTH;
  }

  /** The host's decision always exists: accepted with the full score exactly for exit code zero. */
  lemma DecisionExactly(exitCode: G.I32)
    ensures HostCheckDecision(exitCode) ==
            Ok(if exitCode == 0 then Decision(Accepted, Score(1, 1)) else Decision(WrongAnswer, Score(0, 1)))
  {
    assert WrongAnswer in {Accepted, WrongAnswer};
  }
}
