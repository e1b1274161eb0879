/** Results on the wire. */
module WireResult {
  import opened Prelude
  import opened Tokens
  import opened Domain
  import opened Results
  import opened JsonValues
  import opened Wire
  import opened WireRequest

  function ScoreToValue(s: Score): Json {
    JObject(map[NEarned := JNumber(s.earned), NPossible := JNumber(s.possible)])
  }

  function UsageToValue(u: ResourceUsage): Json {
    JObject(map[NCpuTimeMs := JNumber(u.cpuTimeMs), NWallTimeMs := JNumber(u.wallTimeMs),
                NMemoryPeakBytes := JNumber(u.memoryPeakBytes), NOutputBytes := JNumber(u.outputBytes)])
  }

  function DiagnosticToValue(d: Diagnostic): Json {
    JObject(map[NCode := JString(d.code), NMessage := JString(d.message), NTruncated := JBool(d.truncated)])
  }

  /** The artifact is inserted only when there is one. */
  function EvidenceToValue(e: EvidenceRef): Json {
    var fields := map[NEvidenceId := JString(e.evidenceId.text), NKind := JString(e.kind)];
    JObject(match e.artifact case None => fields case Some(artifact) => fields[NArtifact := ArtifactToValue(artifact)])
  }

  /** The node is inserted only when there is one. */
  function ProvenanceToValue(p: ExecutionProvenance): Json {
    var fields := map[NExecutorKind := JString(ExecutorText(p.executorKind)),
                      NProductionEligible := JBool(p.productionEligible),
                      NRuntimeDigest := JString(p.runtimeDigest)];
    JObject(match p.nodeId case None => fields case Some(node) => fields[NNodeId := JString(node.text)])
  }

  function ReportToValue(r: StageReport): Json {
    JObject(map[NStage := JString(StageText(r.stage)),
                NStatus := JString(StageStatusText(r.status)),
                NUsage := UsageToValue(r.usage),
                NDiagnostics := JArray(Render(r.diagnostics, DiagnosticToValue)),
                NEvidence := JArray(Render(r.evidence, EvidenceToValue))])
  }

  /** The identity's runtime digest is not written: the wire carries only the provenance digest. */
  function ResultToValue(r: EvaluationResult): Json {
    JObject(map[NMessageType := JString("evaluation_result"),
                NSchemaVersion := JString(SCHEMA_VERSION),
                NRequestId := JString(r.identity.requestId.text),
                NEvaluationId := JString(r.identity.evaluationId.text),
                NAttemptId := JString(r.identity.attemptId.text),
                NProblemVersionId := JString(r.identity.problemVersionId.text),
                NSubmissionId := JString(r.identity.submissionId.text),
                NRuntimeId := JString(r.identity.runtimeId.text),
                NStatus := JString(StatusText(r.status)),
                NVerdict := JString(VerdictText(r.verdict)),
                NScore := ScoreToValue(r.score),
                NStages := JArray(Render(r.stages, ReportToValue)),
                NUsage := UsageToValue(r.usage),
                NDiagnostics := JArray(Render(r.diagnostics, DiagnosticToValue)),
                NEvidence := JArray(Render(r.evidence, EvidenceToValue)),
                NProvenance := ProvenanceToValue(r.provenance)])
  }

  function UsageFromValue(value: Json): Result<ResourceUsage, ProtocolError> {
    var fields :- AsObject(value);
    var cpuTimeMs :- U64Field(fields, NCpuTimeMs);
    var wallTimeMs :- U64Field(fields, NWallTimeMs);
    var memoryPeakBytes :- U64Field(fields, NMemoryPeakBytes);
    var outputBytes :- U64Field(fields, NOutputBytes);
    var usage := ResourceUsage(cpuTimeMs, wallTimeMs, memoryPeakBytes, outputBytes);
    if usage.Valid() then Ok(usage) else Err(DomainRefusal(OutOfRange))
  }

  function DiagnosticFromValue(value: Json): Result<Diagnostic, ProtocolError> {
    var fields :- AsObject(value);
    var truncated :- BoolField(fields, NTruncated);
    var code :- StringField(fields, NCode);
    if !ValidDiagnosticCode(code) then Err(BAD_FORMAT)
    else
      var message :- StringField(fields, NMessage);
      if |message| > MAX_DIAGNOSTIC_MESSAGE_LENGTH then Err(DomainRefusal(OutOfRange))
      else Ok(Diagnostic(code, message, truncated))
  }

  function OptionalArtifact(fields: Object): Result<Option<ArtifactRef>, ProtocolError> {
    if NArtifact !in fields then Ok(None)
    else
      var artifact :- ArtifactFromValue(fields[NArtifact]);
      Ok(Some(artifact))
  }

  function EvidenceFromValue(value: Json): Result<EvidenceRef, ProtocolError> {
    var fields :- AsObject(value);
    var artifact :- OptionalArtifact(fields);
    var evidenceId :- IdField(fields, NEvidenceId);
    var kind :- StringField(fields, NKind);
    if !ValidEvidenceKind(kind) then Err(BAD_FORMAT) else Ok(EvidenceRef(evidenceId, kind, artifact))
  }

  function ReportFromValue(value: Json): Result<StageReport, ProtocolError> {
    var fields :- AsObject(value);
    var diagnosticItems :- ArrayField(fields, NDiagnostics);
    var diagnostics :- Collect(diagnosticItems, DiagnosticFromValue);
    var evidenceItems :- ArrayField(fields, NEvidence);
    var evidence :- Collect(evidenceItems, EvidenceFromValue);
    var stageText :- StringField(fields, NStage);
    var stage :- StageFromText(stageText);
    var statusText :- StringField(fields, NStatus);
    var status :- StageStatusFromText(statusText);
    var usageValue :- Field(fields, NUsage);
    var usage :- UsageFromValue(usageValue);
    match NewStageReport(stage, status, usage, diagnostics, evidence)
    case Err(error) => Err(DomainRefusal(error))
    case Ok(report) => Ok(report)
  }

  function OptionalNode(fields: Object): Result<Option<Id>, ProtocolError> {
    if NNodeId !in fields then Ok(None)
    else
      var node :- IdField(fields, NNodeId);
      Ok(Some(node))
  }

  /** The identity of a decoded result takes its runtime digest from the provenance. */
  function IdentityFromValue(fields: Object, provenance: Object): Result<EvaluationIdentity, ProtocolError> {
    var requestId :- IdField(fields, NRequestId);
    var evaluationId :- IdField(fields, NEvaluationId);
    var attemptId :- IdField(fields, NAttemptId);
    var problemVersionId :- IdField(fields, NProblemVersionId);
    var submissionId :- IdField(fields, NSubmissionId);
    var runtimeId :- IdField(fields, NRuntimeId);
    var digest :- DigestField(provenance, NRuntimeDigest);
    Ok(EvaluationIdentity(requestId, evaluationId, attemptId, problemVersionId, submissionId, runtimeId, digest))
  }

  function ScoreFromValue(score: Object): Result<Score, ProtocolError> {
    var earned :- U32Field(score, NEarned);
    var possible :- U32Field(score, NPossible);
    match NewScore(earned, possible)
    case Err(error) => Err(DomainRefusal(error))
    case Ok(score) => Ok(score)
  }

  function ProvenanceFromValue(fields: Object, eligible: bool, node: Option<Id>)
    : Result<ExecutionProvenance, ProtocolError>
  {
    var text :- StringField(fields, NExecutorKind);
    var kind :- ExecutorFromText(text);
    var digest :- DigestField(fields, NRuntimeDigest);
    match NewProvenance(kind, eligible, digest, node)
    case Err(error) => Err(DomainRefusal(error))
    case Ok(provenance) => Ok(provenance)
  }

  function StatusField(fields: Object): Result<EvaluationStatus, ProtocolError> {
    var text :- StringField(fields, NStatus);
    StatusFromText(text)
  }

  function VerdictField(fields: Object): Result<Verdict, ProtocolError> {
    var text :- StringField(fields, NVerdict);
    VerdictFromText(text)
  }

  function UsageField(fields: Object): Result<ResourceUsage, ProtocolError> {
    var value :- Field(fields, NUsage);
    UsageFromValue(value)
  }

  function ReportsField(fields: Object): Result<seq<StageReport>, ProtocolError> {
    var items :- ArrayField(fields, NStages);
    Collect(items, ReportFromValue)
  }

  function DiagnosticsField(fields: Object): Result<seq<Diagnostic>, ProtocolError> {
    var items :- ArrayField(fields, NDiagnostics);
    Collect(items, DiagnosticFromValue)
  }

  function EvidenceField(fields: Object): Result<seq<EvidenceRef>, ProtocolError> {
    var items :- ArrayField(fields, NEvidence);
    Collect(items, EvidenceFromValue)
  }

  function ResultFromValue(value: Json): Result<EvaluationResult, ProtocolError> {
    var fields :- AsObject(value);
    var scoreFields :- ObjectField(fields, NScore);
    var provenanceFields :- ObjectField(fields, NProvenance);
    var identity :- IdentityFromValue(fields, provenanceFields);
    var stages :- ReportsField(fields);
    var diagnostics :- DiagnosticsField(fields);
    var evidence :- EvidenceField(fields);
    var eligible :- BoolField(provenanceFields, NProductionEligible);
    var node :- OptionalNode(provenanceFields);
    var status :- StatusField(fields);
    var verdict :- VerdictField(fields);
    var score :- ScoreFromValue(scoreFields);
    var usage :- UsageField(fields);
    var provenance :- ProvenanceFromValue(provenanceFields, eligible, node);
    match NewResult(EvaluationResult(identity, status, verdict, score, stages, usage, diagnostics, evidence, provenance))
    case Err(error) => Err(DomainRefusal(error))
    case Ok(result) => Ok(result)
  }

  // ---- Parts: a value converts back exactly when its constructor lets it exist.

  lemma UsageRoundTrip(u: ResourceUsage)
    ensures UsageFromValue(UsageToValue(u)) == Ok(u) <==> u.Valid()
  {
  }

  lemma DiagnosticRoundTrip(d: Diagnostic)
    ensures DiagnosticFromValue(DiagnosticToValue(d)) == Ok(d) <==> d.Valid()
  {
    hide ValidDiagnosticCode;
  }

  lemma EvidenceRoundTrip(e: EvidenceRef)
    ensures EvidenceFromValue(EvidenceToValue(e)) == Ok(e) <==> e.Valid()
  {
    hide ValidEvidenceKind, ValidId, ArtifactToValue, ArtifactFromValue, ArtifactRef.Valid;
    if e.artifact.Some? { ArtifactRoundTrip(e.artifact.value); }
  }

  lemma UsageIsValid(value: Json)
    ensures UsageFromValue(value).Ok? ==> UsageFromValue(value).value.Valid()
  {
  }

  lemma DiagnosticIsValid(value: Json)
    ensures DiagnosticFromValue(value).Ok? ==> DiagnosticFromValue(value).value.Valid()
  {
    hide ValidDiagnosticCode;
  }

  lemma EvidenceIsValid(value: Json)
    ensures EvidenceFromValue(value).Ok? ==> EvidenceFromValue(value).value.Valid()
  {
    hide ValidEvidenceKind, ValidId, ArtifactFromValue, ArtifactRef.Valid;
    if value.JObject? && NArtifact in value.fields { ArtifactIsValid(value.fields[NArtifact]); }
  }

  lemma DiagnosticsAreValid(items: seq<Json>)
    requires Collect(items, DiagnosticFromValue).Ok?
    ensures forall i :: 0 <= i < |Collect(items, DiagnosticFromValue).value| ==>
              Collect(items, DiagnosticFromValue).value[i].Valid()
  {
    hide Diagnostic.Valid;
    CollectAll(items, DiagnosticFromValue);
    forall i | 0 <= i < |items| ensures Collect(items, DiagnosticFromValue).value[i].Valid() {
      DiagnosticIsValid(items[i]);
    }
  }

  lemma EvidenceAreValid(items: seq<Json>)
    requires Collect(items, EvidenceFromValue).Ok?
    ensures forall i :: 0 <= i < |Collect(items, EvidenceFromValue).value| ==>
              Collect(items, EvidenceFromValue).value[i].Valid()
  {
    hide EvidenceRef.Valid;
    CollectAll(items, EvidenceFromValue);
    forall i | 0 <= i < |items| ensures Collect(items, EvidenceFromValue).value[i].Valid() {
      EvidenceIsValid(items[i]);
    }
  }

  lemma ReportIsValid(value: Json)
    ensures ReportFromValue(value).Ok? ==> ReportFromValue(value).value.Valid()
  {
    hide Collect, Diagnostic.Valid, EvidenceRef.Valid, ResourceUsage.Valid, UsageFromValue, StageFromText,
         StageStatusFromText;
    if ReportFromValue(value).Ok? {
      DiagnosticsAreValid(ArrayField(value.fields, NDiagnostics).value);
      EvidenceAreValid(ArrayField(value.fields, NEvidence).value);
      UsageIsValid(Field(value.fields, NUsage).value);
    }
  }

  lemma DiagnosticsRoundTrip(items: seq<Diagnostic>)
    requires forall i :: 0 <= i < |items| ==> items[i].Valid()
    ensures Collect(Render(items, DiagnosticToValue), DiagnosticFromValue) == Ok(items)
  {
    hide Diagnostic.Valid, DiagnosticToValue, DiagnosticFromValue;
    forall i | 0 <= i < |items| ensures DiagnosticFromValue(DiagnosticToValue(items[i])) == Ok(items[i]) {
      DiagnosticRoundTrip(items[i]);
    }
    CollectInverts(items, DiagnosticToValue, DiagnosticFromValue);
  }

  lemma EvidencesRoundTrip(items: seq<EvidenceRef>)
    requires forall i :: 0 <= i < |items| ==> items[i].Valid()
    ensures Collect(Render(items, EvidenceToValue), EvidenceFromValue) == Ok(items)
  {
    hide EvidenceRef.Valid, EvidenceToValue, EvidenceFromValue;
    forall i | 0 <= i < |items| ensures EvidenceFromValue(EvidenceToValue(items[i])) == Ok(items[i]) {
      EvidenceRoundTrip(items[i]);
    }
    CollectInverts(items, EvidenceToValue, EvidenceFromValue);
  }

  lemma ReportReturns(r: StageReport)
    requires r.Valid()
    ensures ReportFromValue(ReportToValue(r)) == Ok(r)
  {
    hide Collect, Render, Diagnostic.Valid, EvidenceRef.Valid, ResourceUsage.Valid, UsageFromValue, UsageToValue,
         StageFromText, StageText, StageStatusFromText, StageStatusText;
    DiagnosticsRoundTrip(r.diagnostics);
    EvidencesRoundTrip(r.evidence);
    UsageRoundTrip(r.usage);
    StageTextInverts(r.stage);
    StageStatusTextInverts(r.status);
  }

  lemma ReportRoundTrip(r: StageReport)
    ensures ReportFromValue(ReportToValue(r)) == Ok(r) <==> r.Valid()
  {
    hide ReportFromValue, ReportToValue, StageReport.Valid;
    if r.Valid() { ReportReturns(r); } else { ReportIsValid(ReportToValue(r)); }
  }

  lemma ReportsReturn(items: seq<StageReport>)
    requires forall i :: 0 <= i < |items| ==> items[i].Valid()
    ensures Collect(Render(items, ReportToValue), ReportFromValue) == Ok(items)
  {
    hide StageReport.Valid, ReportToValue, ReportFromValue;
    forall i | 0 <= i < |items| ensures ReportFromValue(ReportToValue(items[i])) == Ok(items[i]) {
      ReportReturns(items[i]);
    }
    CollectInverts(items, ReportToValue, ReportFromValue);
  }

  lemma ReportsAreValid(items: seq<Json>)
    requires Collect(items, ReportFromValue).Ok?
    ensures forall i :: 0 <= i < |Collect(items, ReportFromValue).value| ==>
              Collect(items, ReportFromValue).value[i].Valid()
  {
    hide StageReport.Valid, ReportFromValue;
    CollectAll(items, ReportFromValue);
    forall i | 0 <= i < |items| ensures Collect(items, ReportFromValue).value[i].Valid() {
      ReportIsValid(items[i]);
    }
  }

  // ---- Whole results.

  lemma ResultIsValid(value: Json)
    ensures ResultFromValue(value).Ok? ==> ResultValid(ResultFromValue(value).value)
  {
    hide Collect, Diagnostic.Valid, EvidenceRef.Valid, StageReport.Valid, ResourceUsage.Valid, UsageFromValue, ValidId,
         ValidDigest, StatusField, VerdictField, ExecutorFromText, NewResult;
    if ResultFromValue(value).Ok? {
      NewResultKeepsParts();
      ReportsAreValid(ArrayField(value.fields, NStages).value);
      DiagnosticsAreValid(ArrayField(value.fields, NDiagnostics).value);
      EvidenceAreValid(ArrayField(value.fields, NEvidence).value);
      UsageIsValid(Field(value.fields, NUsage).value);
    }
  }

  lemma NewResultKeepsParts()
    ensures forall parts :: NewResult(parts).Ok? ==> NewResult(parts).value == parts
  {
    hide TerminalSemantics, Kinds;
  }

  /** What the readers find in the fields of a converted result. */
  lemma ResultFields(r: EvaluationResult)
    ensures var fields := ResultToValue(r).fields;
            && ResultToValue(r).JObject?
            && ObjectField(fields, NScore) == Ok(ScoreToValue(r.score).fields)
            && ObjectField(fields, NProvenance) == Ok(ProvenanceToValue(r.provenance).fields)
            && ArrayField(fields, NStages) == Ok(Render(r.stages, ReportToValue))
            && ArrayField(fields, NDiagnostics) == Ok(Render(r.diagnostics, DiagnosticToValue))
            && ArrayField(fields, NEvidence) == Ok(Render(r.evidence, EvidenceToValue))
            && Field(fields, NUsage) == Ok(UsageToValue(r.usage))
            && StringField(fields, NStatus) == Ok(StatusText(r.status))
            && StringField(fields, NVerdict) == Ok(VerdictText(r.verdict))
  {
    hide Render, UsageToValue, StatusText, VerdictText;
  }

  lemma ResultIds(r: EvaluationResult)
    requires ResultValid(r)
    ensures var fields := ResultToValue(r).fields;
            && IdField(fields, NRequestId) == Ok(r.identity.requestId)
            && IdField(fields, NEvaluationId) == Ok(r.identity.evaluationId)
            && IdField(fields, NAttemptId) == Ok(r.identity.attemptId)
            && IdField(fields, NProblemVersionId) == Ok(r.identity.problemVersionId)
            && IdField(fields, NSubmissionId) == Ok(r.identity.submissionId)
            && IdField(fields, NRuntimeId) == Ok(r.identity.runtimeId)
  {
    hide Render, Diagnostic.Valid, EvidenceRef.Valid, StageReport.Valid, ResourceUsage.Valid, UsageToValue, ValidId,
         ValidDigest, StatusText, VerdictText, NewResult, ScoreToValue, ProvenanceToValue;
  }

  lemma ProvenanceFields(p: ExecutionProvenance)
    requires p.Valid()
    ensures var fields := ProvenanceToValue(p).fields;
            && BoolField(fields, NProductionEligible) == Ok(p.productionEligible)
            && OptionalNode(fields) == Ok(p.nodeId)
            && DigestField(fields, NRuntimeDigest) == Ok(p.runtimeDigest)
            && ProvenanceFromValue(fields, p.productionEligible, p.nodeId) == Ok(p)
  {
    hide ValidId, ValidDigest, ExecutorText, ExecutorFromText;
    ExecutorTextInverts(p.executorKind);
  }

  lemma ScoreRoundTrip(s: Score)
    ensures ScoreFromValue(ScoreToValue(s).fields) == Ok(s) <==> s.Valid()
  {
  }

  lemma ValidResultReturns(r: EvaluationResult)
    requires ResultValid(r)
    ensures ResultFromValue(ResultToValue(r)) == Ok(r)
  {
    hide Collect, Render, Diagnostic.Valid, EvidenceRef.Valid, StageReport.Valid, ResourceUsage.Valid, UsageFromValue,
         UsageToValue, ValidId, ValidDigest, StatusText, StatusFromText, VerdictText, VerdictFromText, ResultToValue,
         ScoreToValue, ScoreFromValue, ProvenanceToValue, ProvenanceFromValue, ObjectField, ArrayField, Field,
         StringField, IdField, BoolField, DigestField, OptionalNode;
    ResultFields(r);
    ResultIds(r);
    ProvenanceFields(r.provenance);
    ScoreRoundTrip(r.score);
    ReportsReturn(r.stages);
    DiagnosticsRoundTrip(r.diagnostics);
    EvidencesRoundTrip(r.evidence);
    UsageRoundTrip(r.usage);
    StatusTextInverts(r.status);
    VerdictTextInverts(r.verdict);
    SameDigest(r);
    hide NewResult;
  }

  lemma SameDigest(r: EvaluationResult)
    requires NewResult(r).Ok?
    ensures r.provenance.runtimeDigest == r.identity.runtimeDigest && NewResult(r) == Ok(r)
  {
  }

  /** For every value of the result type, whatever its fields: converting to JSON and back returns it exactly when its
      parts are valid and the result's constructor accepts them. The wire carries one runtime digest, so the equality
      of the two digests is part of what is needed. */
  lemma ResultRoundTrip(r: EvaluationResult)
    ensures ResultFromValue(ResultToValue(r)) == Ok(r) <==> ResultValid(r)
  {
    hide ResultFromValue, ResultToValue, ResultValid;
    if ResultValid(r) { ValidResultReturns(r); } else { ResultIsValid(ResultToValue(r)); }
  }
}
