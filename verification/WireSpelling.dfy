/** How requests and results are spelled on the wire, and that decoding reads exactly this: for every JSON value, not only
    for those that encoding produces. */
module WireSpelling {
  import opened Prelude
  import opened Tokens
  import opened Domain
  import opened Results
  import opened JsonValues
  import opened Wire
  import opened WireRequest
  import opened WireResult
  import opened WireDecode

  // ---- Words.

  /** The words of the schema. */
  function StageWord(stage: StageKind): string {
    match stage
    case Prepare => "prepare"
    case Build => "build"
    case Run => "run"
    case Check => "check"
    case Aggregate => "aggregate"
  }

  function StageStatusWord(status: StageStatus): string {
    match status
    case Succeeded => "succeeded"
    case Failed => "failed"
    case Cancelled => "cancelled"
    case Skipped => "skipped"
  }

  function StatusWord(status: EvaluationStatus): string {
    match status
    case StatusCompleted => "completed"
    case StatusFailed => "failed"
    case StatusCancelled => "cancelled"
  }

  function VerdictWord(verdict: Verdict): string {
    match verdict
    case Accepted => "accepted"
    case WrongAnswer => "wrong_answer"
    case CompileError => "compile_error"
    case RuntimeError => "runtime_error"
    case TimeLimitExceeded => "time_limit_exceeded"
    case MemoryLimitExceeded => "memory_limit_exceeded"
    case OutputLimitExceeded => "output_limit_exceeded"
    case SystemError => "system_error"
    case VerdictCancelled => "cancelled"
  }

  function ExecutorWord(kind: ExecutorKind): string {
    match kind
    case DevelopmentMock => "development_mock"
    case Firecracker => "firecracker"
  }

  function SensitivityWord(sensitivity: Sensitivity): string {
    match sensitivity
    case Public => "public"
    case Private => "private"
    case Hidden => "hidden"
  }

  /** A word parses to a value exactly when it is that value's word. */
  lemma WordsParse(text: string, stage: StageKind, stageStatus: StageStatus, status: EvaluationStatus,
                   kind: ExecutorKind, sensitivity: Sensitivity)
    ensures StageFromText(text) == Ok(stage) <==> text == StageWord(stage)
    ensures StageStatusFromText(text) == Ok(stageStatus) <==> text == StageStatusWord(stageStatus)
    ensures StatusFromText(text) == Ok(status) <==> text == StatusWord(status)
    ensures ExecutorFromText(text) == Ok(kind) <==> text == ExecutorWord(kind)
    ensures SensitivityFromText(text) == Ok(sensitivity) <==> text == SensitivityWord(sensitivity)
  {
    StageTextInverts(stage);
    StageTextParsed(text);
    StageStatusTextInverts(stageStatus);
    StageStatusTextParsed(text);
    StatusTextInverts(status);
    StatusTextParsed(text);
    ExecutorTextInverts(kind);
    ExecutorTextParsed(text);
    SensitivityTextInverts(sensitivity);
  }

  lemma VerdictWordParses(text: string, verdict: Verdict)
    ensures VerdictFromText(text) == Ok(verdict) <==> text == VerdictWord(verdict)
  {
    VerdictTextInverts(verdict);
    VerdictTextParsed(text);
  }

  // ---- Artifacts and requests.

  predicate ArtifactSpelled(value: Json, a: ArtifactRef) {
    && value.JObject? && Says(value.fields, NArtifactId, JString(a.artifactId.text))
    && Says(value.fields, NDigest, JString(a.digest)) && Says(value.fields, NMediaType, JString(a.mediaType))
    && Says(value.fields, NSizeBytes, JNumber(a.sizeBytes))
    && Says(value.fields, NSensitivity, JString(SensitivityWord(a.sensitivity)))
  }

  lemma ArtifactDecodes(value: Json, a: ArtifactRef)
    ensures ArtifactFromValue(value) == Ok(a) <==> ArtifactSpelled(value, a) && a.Valid()
  {
    hide ValidId, ValidDigest, ValidMediaType, SensitivityFromText, SensitivityWord;
    if value.JObject? && NSensitivity in value.fields && value.fields[NSensitivity].JString? {
      WordsParse(value.fields[NSensitivity].text, Prepare, Succeeded, StatusFailed, Firecracker, a.sensitivity);
    }
  }

  predicate StagesSpelled(items: seq<Json>, stages: seq<StageKind>) {
    |items| == |stages| && forall i :: 0 <= i < |items| ==> items[i] == JString(StageWord(stages[i]))
  }

  predicate CapabilitiesSpelled(items: seq<Json>, capabilities: seq<string>) {
    |items| == |capabilities| && forall i :: 0 <= i < |items| ==> items[i] == JString(capabilities[i])
  }

  predicate ProblemSpelled(p: Object, problem: ProblemVersionRef) {
    && Says(p, NProblemId, JString(problem.problemId.text))
    && Says(p, NProblemVersionId, JString(problem.problemVersionId.text)) && Says(p, NDigest, JString(problem.digest))
  }

  predicate SubmissionSpelled(s: Object, submission: SubmissionRef) {
    && Says(s, NSubmissionId, JString(submission.submissionId.text))
    && NSource in s && ArtifactSpelled(s[NSource], submission.source)
  }

  predicate RuntimeSpelled(r: Object, runtime: RuntimeRef) {
    Says(r, NRuntimeId, JString(runtime.runtimeId.text)) && Says(r, NDigest, JString(runtime.digest))
  }

  predicate PlanSpelled(p: Object, plan: EvaluationPlan) {
    && Says(p, NProfile, JString("algorithm_batch"))
    && HasArray(p, NStages) && StagesSpelled(p[NStages].items, plan.stages)
  }

  predicate PolicySpelled(p: Object, policy: ResourcePolicy) {
    && Says(p, NCpuTimeMs, JNumber(policy.cpuTimeMs)) && Says(p, NWallTimeMs, JNumber(policy.wallTimeMs))
    && Says(p, NMemoryBytes, JNumber(policy.memoryBytes)) && Says(p, NOutputBytes, JNumber(policy.outputBytes))
    && Says(p, NProcessLimit, JNumber(policy.processLimit)) && Says(p, NNetwork, JString("denied"))
  }

  predicate RequestSpelled(value: Json, q: EvaluationRequest) {
    && value.JObject?
    && var f := value.fields;
    && Says(f, NRequestId, JString(q.requestId.text)) && Says(f, NIdempotencyKey, JString(q.idempotencyKey.text))
    && Says(f, NEvaluationId, JString(q.evaluationId.text)) && Says(f, NAttemptId, JString(q.attemptId.text))
    && Says(f, NAttemptNumber, JNumber(q.attemptNumber))
    && HasObject(f, NProblemVersion) && ProblemSpelled(f[NProblemVersion].fields, q.problemVersion)
    && HasObject(f, NSubmission) && SubmissionSpelled(f[NSubmission].fields, q.submission)
    && HasObject(f, NRuntime) && RuntimeSpelled(f[NRuntime].fields, q.runtime)
    && HasObject(f, NPlan) && PlanSpelled(f[NPlan].fields, q.plan)
    && HasObject(f, NPolicy) && PolicySpelled(f[NPolicy].fields, q.policy)
    && HasArray(f, NRequiredCapabilities)
    && CapabilitiesSpelled(f[NRequiredCapabilities].items, q.requiredCapabilities)
  }

  lemma StagesDecode(items: seq<Json>, stages: seq<StageKind>)
    ensures Collect(items, StageFromValue) == Ok(stages) <==> StagesSpelled(items, stages)
  {
    hide StageFromText, StageWord, Collect;
    CollectExactly(items, StageFromValue, stages);
    if |items| == |stages| {
      forall i | 0 <= i < |items|
        ensures StageFromValue(items[i]) == Ok(stages[i]) <==> items[i] == JString(StageWord(stages[i]))
      {
        if items[i].JString? { WordsParse(items[i].text, stages[i], Succeeded, StatusFailed, Firecracker, Public); }
      }
    }
  }

  lemma CapabilitiesDecode(items: seq<Json>, capabilities: seq<string>)
    ensures Collect(items, CapabilityFromValue) == Ok(capabilities) <==>
            CapabilitiesSpelled(items, capabilities) && forall c :: c in capabilities ==> ValidCapability(c)
  {
    hide ValidCapability, Collect;
    CollectExactly(items, CapabilityFromValue, capabilities);
  }

  lemma ProblemDecodes(p: Object, problem: ProblemVersionRef)
    ensures ProblemFromValue(p) == Ok(problem) <==>
            ProblemSpelled(p, problem) && ValidId(problem.problemId) && ValidId(problem.problemVersionId)
            && ValidDigest(problem.digest)
  {
    hide ValidId, ValidDigest;
  }

  lemma RuntimeDecodes(r: Object, runtime: RuntimeRef)
    ensures RuntimeFromValue(r) == Ok(runtime) <==>
            RuntimeSpelled(r, runtime) && ValidId(runtime.runtimeId) && ValidDigest(runtime.digest)
  {
    hide ValidId, ValidDigest;
  }

  /** The plan, as the request reads it in two steps. */
  lemma PlanDecodes(p: Object, plan: EvaluationPlan)
    ensures PlanParts(p).Ok? && NewPlan(PlanParts(p).value) == Ok(plan) <==>
            PlanSpelled(p, plan) && plan.stages == ALGORITHM_BATCH_STAGES
  {
    hide Collect, StagesSpelled;
    if HasArray(p, NStages) {
      StagesDecode(p[NStages].items, plan.stages);
    }
    assert match plan case AlgorithmBatch(stages) => plan == AlgorithmBatch(stages);
  }

  lemma PolicyDecodes(p: Object, policy: ResourcePolicy)
    ensures U32Field(p, NProcessLimit).Ok? && StringField(p, NNetwork) == Ok("denied")
            && PolicyFromValue(p, U32Field(p, NProcessLimit).value) == Ok(policy) <==>
            PolicySpelled(p, policy) && policy.Valid()
  {
    assert match policy.network case Denied => policy.network == Denied;
  }

  /** For every JSON value and every request: the value decodes to the request exactly when it spells it, field by field,
      and the constructors accept it. Other fields do not matter here; the schema refuses them before. */
  lemma RequestDecodesExactly(value: Json, q: EvaluationRequest)
    ensures RequestFromValue(value) == Ok(q) <==> RequestSpelled(value, q) && q.Valid()
  {
    hide ValidId, ValidKey, ValidDigest, ValidCapability, ArtifactFromValue, PlanParts, NewPlan, NoDuplicates, Collect,
         ArtifactRef.Valid, ResourcePolicy.Valid, ArtifactSpelled, StagesSpelled, CapabilitiesSpelled, ProblemSpelled,
         RuntimeSpelled, PlanSpelled, PolicySpelled, ProblemFromValue, RuntimeFromValue, PolicyFromValue;
    if value.JObject? {
      var f := value.fields;
      if HasObject(f, NProblemVersion) && HasObject(f, NSubmission) && HasObject(f, NRuntime) && HasObject(f, NPlan)
         && HasObject(f, NPolicy) && HasArray(f, NRequiredCapabilities) && NSource in f[NSubmission].fields {
        ProblemDecodes(f[NProblemVersion].fields, q.problemVersion);
        ArtifactDecodes(f[NSubmission].fields[NSource], q.submission.source);
        RuntimeDecodes(f[NRuntime].fields, q.runtime);
        PlanDecodes(f[NPlan].fields, q.plan);
        PolicyDecodes(f[NPolicy].fields, q.policy);
        CapabilitiesDecode(f[NRequiredCapabilities].items, q.requiredCapabilities);
      }
    }
  }

  // ---- Results.

  predicate UsageSpelled(value: Json, u: ResourceUsage) {
    && value.JObject? && Says(value.fields, NCpuTimeMs, JNumber(u.cpuTimeMs))
    && Says(value.fields, NWallTimeMs, JNumber(u.wallTimeMs))
    && Says(value.fields, NMemoryPeakBytes, JNumber(u.memoryPeakBytes))
    && Says(value.fields, NOutputBytes, JNumber(u.outputBytes))
  }

  predicate DiagnosticSpelled(value: Json, d: Diagnostic) {
    && value.JObject? && Says(value.fields, NCode, JString(d.code)) && Says(value.fields, NMessage, JString(d.message))
    && Says(value.fields, NTruncated, JBool(d.truncated))
  }

  predicate EvidenceSpelled(value: Json, e: EvidenceRef) {
    && value.JObject? && Says(value.fields, NEvidenceId, JString(e.evidenceId.text))
    && Says(value.fields, NKind, JString(e.kind))
    && match e.artifact
       case None => NArtifact !in value.fields
       case Some(artifact) => NArtifact in value.fields && ArtifactSpelled(value.fields[NArtifact], artifact)
  }

  predicate DiagnosticsSpelled(f: Object, ds: seq<Diagnostic>) {
    && HasArray(f, NDiagnostics) && |f[NDiagnostics].items| == |ds|
    && forall i :: 0 <= i < |ds| ==> DiagnosticSpelled(f[NDiagnostics].items[i], ds[i])
  }

  predicate EvidencesSpelled(f: Object, es: seq<EvidenceRef>) {
    && HasArray(f, NEvidence) && |f[NEvidence].items| == |es|
    && forall i :: 0 <= i < |es| ==> EvidenceSpelled(f[NEvidence].items[i], es[i])
  }

  predicate ReportSpelled(value: Json, r: StageReport) {
    && value.JObject?
    && var f := value.fields;
    && Says(f, NStage, JString(StageWord(r.stage))) && Says(f, NStatus, JString(StageStatusWord(r.status)))
    && NUsage in f && UsageSpelled(f[NUsage], r.usage)
    && DiagnosticsSpelled(f, r.diagnostics) && EvidencesSpelled(f, r.evidence)
  }

  predicate ReportsSpelled(f: Object, rs: seq<StageReport>) {
    && HasArray(f, NStages) && |f[NStages].items| == |rs|
    && forall i :: 0 <= i < |rs| ==> ReportSpelled(f[NStages].items[i], rs[i])
  }

  predicate ProvenanceSpelled(p: Object, provenance: ExecutionProvenance) {
    && Says(p, NExecutorKind, JString(ExecutorWord(provenance.executorKind)))
    && Says(p, NProductionEligible, JBool(provenance.productionEligible))
    && Says(p, NRuntimeDigest, JString(provenance.runtimeDigest))
    && match provenance.nodeId
       case None => NNodeId !in p
       case Some(node) => Says(p, NNodeId, JString(node.text))
  }

  /** The identity has no runtime digest of its own on the wire. */
  predicate IdentitySpelled(f: Object, i: EvaluationIdentity) {
    && Says(f, NRequestId, JString(i.requestId.text)) && Says(f, NEvaluationId, JString(i.evaluationId.text))
    && Says(f, NAttemptId, JString(i.attemptId.text))
    && Says(f, NProblemVersionId, JString(i.problemVersionId.text))
    && Says(f, NSubmissionId, JString(i.submissionId.text)) && Says(f, NRuntimeId, JString(i.runtimeId.text))
  }

  predicate ResultSpelled(value: Json, r: EvaluationResult) {
    && value.JObject?
    && var f := value.fields;
    && IdentitySpelled(f, r.identity)
    && Says(f, NStatus, JString(StatusWord(r.status))) && Says(f, NVerdict, JString(VerdictWord(r.verdict)))
    && HasObject(f, NScore) && Says(f[NScore].fields, NEarned, JNumber(r.score.earned))
    && Says(f[NScore].fields, NPossible, JNumber(r.score.possible))
    && ReportsSpelled(f, r.stages) && NUsage in f && UsageSpelled(f[NUsage], r.usage)
    && DiagnosticsSpelled(f, r.diagnostics) && EvidencesSpelled(f, r.evidence)
    && HasObject(f, NProvenance) && ProvenanceSpelled(f[NProvenance].fields, r.provenance)
  }

  lemma UsageDecodes(value: Json, u: ResourceUsage)
    ensures UsageFromValue(value) == Ok(u) <==> UsageSpelled(value, u) && u.Valid()
  {
  }

  lemma DiagnosticDecodes(value: Json, d: Diagnostic)
    ensures DiagnosticFromValue(value) == Ok(d) <==> DiagnosticSpelled(value, d) && d.Valid()
  {
    hide ValidDiagnosticCode;
  }

  lemma EvidenceDecodes(value: Json, e: EvidenceRef)
    ensures EvidenceFromValue(value) == Ok(e) <==> EvidenceSpelled(value, e) && e.Valid()
  {
    hide ValidEvidenceKind, ValidId, ArtifactFromValue, ArtifactRef.Valid, ArtifactSpelled;
    if value.JObject? && NArtifact in value.fields && e.artifact.Some? {
      ArtifactDecodes(value.fields[NArtifact], e.artifact.value);
    }
  }

  lemma DiagnosticsDecode(f: Object, ds: seq<Diagnostic>)
    ensures DiagnosticsField(f) == Ok(ds) <==>
            DiagnosticsSpelled(f, ds) && forall i :: 0 <= i < |ds| ==> ds[i].Valid()
  {
    hide Collect, DiagnosticFromValue, DiagnosticSpelled, Diagnostic.Valid;
    if HasArray(f, NDiagnostics) {
      var items := f[NDiagnostics].items;
      CollectExactly(items, DiagnosticFromValue, ds);
      if |items| == |ds| {
        forall i | 0 <= i < |ds|
          ensures DiagnosticFromValue(items[i]) == Ok(ds[i]) <==> DiagnosticSpelled(items[i], ds[i]) && ds[i].Valid()
        {
          DiagnosticDecodes(items[i], ds[i]);
        }
      }
    }
  }

  lemma EvidencesDecode(f: Object, es: seq<EvidenceRef>)
    ensures EvidenceField(f) == Ok(es) <==>
            EvidencesSpelled(f, es) && forall i :: 0 <= i < |es| ==> es[i].Valid()
  {
    hide Collect, EvidenceFromValue, EvidenceSpelled, EvidenceRef.Valid;
    if HasArray(f, NEvidence) {
      var items := f[NEvidence].items;
      CollectExactly(items, EvidenceFromValue, es);
      if |items| == |es| {
        forall i | 0 <= i < |es|
          ensures EvidenceFromValue(items[i]) == Ok(es[i]) <==> EvidenceSpelled(items[i], es[i]) && es[i].Valid()
        {
          EvidenceDecodes(items[i], es[i]);
        }
      }
    }
  }

  lemma ReportDecodes(value: Json, r: StageReport)
    ensures ReportFromValue(value) == Ok(r) <==> ReportSpelled(value, r) && r.Valid()
  {
    hide Collect, DiagnosticsSpelled, EvidencesSpelled, UsageSpelled, Diagnostic.Valid, EvidenceRef.Valid,
         ResourceUsage.Valid, UsageFromValue, StageFromText, StageWord, StageStatusFromText, StageStatusWord;
    if value.JObject? {
      var f := value.fields;
      DiagnosticsDecode(f, r.diagnostics);
      EvidencesDecode(f, r.evidence);
      if NUsage in f { UsageDecodes(f[NUsage], r.usage); }
      if NStage in f && f[NStage].JString? {
        WordsParse(f[NStage].text, r.stage, Succeeded, StatusFailed, Firecracker, Public);
      }
      if NStatus in f && f[NStatus].JString? {
        WordsParse(f[NStatus].text, Prepare, r.status, StatusFailed, Firecracker, Public);
      }
    }
  }

  lemma ReportsDecode(f: Object, rs: seq<StageReport>)
    ensures ReportsField(f) == Ok(rs) <==> ReportsSpelled(f, rs) && forall i :: 0 <= i < |rs| ==> rs[i].Valid()
  {
    hide Collect, ReportFromValue, ReportSpelled, StageReport.Valid;
    if HasArray(f, NStages) {
      var items := f[NStages].items;
      CollectExactly(items, ReportFromValue, rs);
      if |items| == |rs| {
        forall i | 0 <= i < |rs|
          ensures ReportFromValue(items[i]) == Ok(rs[i]) <==> ReportSpelled(items[i], rs[i]) && rs[i].Valid()
        {
          ReportDecodes(items[i], rs[i]);
        }
      }
    }
  }

  lemma IdentityDecodes(f: Object, p: Object, i: EvaluationIdentity)
    ensures IdentityFromValue(f, p) == Ok(i) <==>
            IdentitySpelled(f, i) && Says(p, NRuntimeDigest, JString(i.runtimeDigest)) && i.Valid()
  {
    hide ValidId, ValidDigest;
  }

  lemma ScoreDecodes(score: Object, s: Score)
    ensures ScoreFromValue(score) == Ok(s) <==>
            Says(score, NEarned, JNumber(s.earned)) && Says(score, NPossible, JNumber(s.possible)) && s.Valid()
  {
  }

  /** The provenance, as the result reads it in three steps. */
  lemma ProvenanceDecodes(p: Object, provenance: ExecutionProvenance)
    ensures BoolField(p, NProductionEligible) == Ok(provenance.productionEligible)
            && OptionalNode(p) == Ok(provenance.nodeId)
            && ProvenanceFromValue(p, provenance.productionEligible, provenance.nodeId) == Ok(provenance) <==>
            ProvenanceSpelled(p, provenance) && provenance.Valid()
    ensures BoolField(p, NProductionEligible).Ok? && OptionalNode(p).Ok?
            && ProvenanceFromValue(p, BoolField(p, NProductionEligible).value, OptionalNode(p).value) == Ok(provenance) ==>
              BoolField(p, NProductionEligible) == Ok(provenance.productionEligible)
              && OptionalNode(p) == Ok(provenance.nodeId)
  {
    hide ValidId, ValidDigest, ExecutorFromText, ExecutorWord;
    if NExecutorKind in p && p[NExecutorKind].JString? {
      WordsParse(p[NExecutorKind].text, Prepare, Succeeded, StatusFailed, provenance.executorKind, Public);
    }
  }

  /** What `ResultFromValue` asks of its parts before the constructor. */
  predicate PartsDecode(f: Object, r: EvaluationResult) {
    && HasObject(f, NScore) && HasObject(f, NProvenance)
    && var p := f[NProvenance].fields;
    && IdentityFromValue(f, p) == Ok(r.identity) && ReportsField(f) == Ok(r.stages)
    && DiagnosticsField(f) == Ok(r.diagnostics) && EvidenceField(f) == Ok(r.evidence)
    && StatusField(f) == Ok(r.status) && VerdictField(f) == Ok(r.verdict)
    && ScoreFromValue(f[NScore].fields) == Ok(r.score) && UsageField(f) == Ok(r.usage)
    && BoolField(p, NProductionEligible) == Ok(r.provenance.productionEligible)
    && OptionalNode(p) == Ok(r.provenance.nodeId)
    && ProvenanceFromValue(p, r.provenance.productionEligible, r.provenance.nodeId) == Ok(r.provenance)
  }

  lemma ResultIsParts(value: Json, r: EvaluationResult)
    ensures ResultFromValue(value) == Ok(r) <==> value.JObject? && PartsDecode(value.fields, r) && NewResult(r).Ok?
  {
    hide IdentityFromValue, ReportsField, DiagnosticsField, EvidenceField, StatusField, VerdictField, ScoreFromValue,
         UsageField, BoolField, OptionalNode, ProvenanceFromValue, NewResult;
    NewResultKeepsParts();
    if value.JObject? && HasObject(value.fields, NProvenance) {
      ProvenanceDecodes(value.fields[NProvenance].fields, r.provenance);
    }
  }

  lemma PartsAreSpelled(f: Object, r: EvaluationResult)
    requires r.identity.runtimeDigest == r.provenance.runtimeDigest
    ensures PartsDecode(f, r) <==> ResultSpelled(JObject(f), r) && PartsValid(r)
  {
    hide IdentityFromValue, ReportsField, DiagnosticsField, EvidenceField, ScoreFromValue, UsageFromValue, BoolField,
         OptionalNode, ProvenanceFromValue, StatusFromText, StatusWord, VerdictFromText, VerdictWord, IdentitySpelled,
         ReportsSpelled, DiagnosticsSpelled, EvidencesSpelled, UsageSpelled, StageReport.Valid, Diagnostic.Valid,
         EvidenceRef.Valid, ResourceUsage.Valid, EvaluationIdentity.Valid, ExecutionProvenance.Valid, Score.Valid,
         ExecutorWord;
    ReportsDecode(f, r.stages);
    DiagnosticsDecode(f, r.diagnostics);
    EvidencesDecode(f, r.evidence);
    if NUsage in f { UsageDecodes(f[NUsage], r.usage); }
    if NStatus in f && f[NStatus].JString? {
      WordsParse(f[NStatus].text, Prepare, Succeeded, r.status, Firecracker, Public);
    }
    if NVerdict in f && f[NVerdict].JString? { VerdictWordParses(f[NVerdict].text, r.verdict); }
    if HasObject(f, NScore) { ScoreDecodes(f[NScore].fields, r.score); }
    if HasObject(f, NProvenance) {
      IdentityDecodes(f, f[NProvenance].fields, r.identity);
      ProvenanceDecodes(f[NProvenance].fields, r.provenance);
    }
  }

  /** For every JSON value and every result: the value decodes to the result exactly when it spells it, field by field
      down to the diagnostics and evidence of each stage, and the result's parts and its constructor are in order. */
  lemma ResultDecodesExactly(value: Json, r: EvaluationResult)
    ensures ResultFromValue(value) == Ok(r) <==> ResultSpelled(value, r) && ResultValid(r)
  {
    hide PartsDecode, ResultSpelled, PartsValid, ResultFromValue;
    ResultIsParts(value, r);
    if NewResult(r).Ok? { SameDigest(r); }
    hide NewResult;
    if value.JObject? {
      assert value == JObject(value.fields);
      if r.identity.runtimeDigest == r.provenance.runtimeDigest { PartsAreSpelled(value.fields, r); }
    }
    SpelledIsObject(value, r);
  }

  lemma SpelledIsObject(value: Json, r: EvaluationResult)
    ensures ResultSpelled(value, r) ==> value.JObject?
  {
  }

  /** So encoding spells what it encodes, under the type and the schema version that go with it. */
  lemma EncodingSpells(q: EvaluationRequest, r: EvaluationResult)
    ensures RequestToValue(q).JObject? && Says(RequestToValue(q).fields, NMessageType, JString("evaluation_request"))
            && Says(RequestToValue(q).fields, NSchemaVersion, JString("openoj.evaluation/v0alpha1"))
    ensures ResultToValue(r).JObject? && Says(ResultToValue(r).fields, NMessageType, JString("evaluation_result"))
            && Says(ResultToValue(r).fields, NSchemaVersion, JString("openoj.evaluation/v0alpha1"))
    ensures q.Valid() ==> RequestSpelled(RequestToValue(q), q)
    ensures ResultValid(r) ==> ResultSpelled(ResultToValue(r), r)
  {
    hide RequestFromValue, RequestSpelled, ResultFromValue, ResultSpelled, ResultValid, EvaluationRequest.Valid;
    RequestRoundTrip(q);
    RequestDecodesExactly(RequestToValue(q), q);
    ResultRoundTrip(r);
    ResultDecodesExactly(ResultToValue(r), r);
  }
}
