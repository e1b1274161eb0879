/** What requests and results share on the wire: field readers, the texts of enumerations, artifact references. */
module Wire {
  import opened Prelude
  import opened Tokens
  import opened Domain
  import opened JsonValues

  datatype ProtocolError = SchemaViolation | SemanticViolation | DomainRefusal(error: DomainError)

  // ---- Field readers.

  function AsObject(value: Json): Result<Object, ProtocolError> {
    if value.JObject? then Ok(value.fields) else Err(SchemaViolation)
  }

  function AsArray(value: Json): Result<seq<Json>, ProtocolError> {
    if value.JArray? then Ok(value.items) else Err(SchemaViolation)
  }

  function AsStr(value: Json): Result<string, ProtocolError> {
    if value.JString? then Ok(value.text) else Err(SchemaViolation)
  }

  function Field(fields: Object, name: Name): Result<Json, ProtocolError> {
    if name in fields then Ok(fields[name]) else Err(SchemaViolation)
  }

  function StringField(fields: Object, name: Name): Result<string, ProtocolError> {
    var value :- Field(fields, name);
    AsStr(value)
  }

  function U64Field(fields: Object, name: Name): (r: Result<nat, ProtocolError>) {
    var value :- Field(fields, name);
    if value.JNumber? && 0 <= value.value <= U64_MAX then Ok(value.value) else Err(SchemaViolation)
  }

  function U32Field(fields: Object, name: Name): Result<nat, ProtocolError> {
    var value :- U64Field(fields, name);
    if value <= U32_MAX then Ok(value) else Err(SchemaViolation)
  }

  function BoolField(fields: Object, name: Name): Result<bool, ProtocolError> {
    var value :- Field(fields, name);
    if value.JBool? then Ok(value.flag) else Err(SchemaViolation)
  }

  function ObjectField(fields: Object, name: Name): Result<Object, ProtocolError> {
    var value :- Field(fields, name);
    AsObject(value)
  }

  function ArrayField(fields: Object, name: Name): Result<seq<Json>, ProtocolError> {
    var value :- Field(fields, name);
    AsArray(value)
  }

  const BAD_FORMAT: ProtocolError := DomainRefusal(DomainError.InvalidFormat)

  function IdField(fields: Object, name: Name): Result<Id, ProtocolError> {
    var text :- StringField(fields, name);
    if ValidId(Id(text)) then Ok(Id(text)) else Err(BAD_FORMAT)
  }

  function DigestField(fields: Object, name: Name): Result<string, ProtocolError> {
    var text :- StringField(fields, name);
    if ValidDigest(text) then Ok(text) else Err(BAD_FORMAT)
  }

  // ---- Enumerations.

  function StageText(stage: StageKind): string {
    match stage
    case Prepare => "prepare"
    case Build => "build"
    case Run => "run"
    case Check => "check"
    case Aggregate => "aggregate"
  }

  function StageFromText(text: string): Result<StageKind, ProtocolError> {
    if text == "prepare" then Ok(Prepare)
    else if text == "build" then Ok(Build)
    else if text == "run" then Ok(Run)
    else if text == "check" then Ok(Check)
    else if text == "aggregate" then Ok(Aggregate)
    else Err(SchemaViolation)
  }

  function StageStatusText(status: StageStatus): string {
    match status
    case Succeeded => "succeeded"
    case Failed => "failed"
    case Cancelled => "cancelled"
    case Skipped => "skipped"
  }

  function StageStatusFromText(text: string): Result<StageStatus, ProtocolError> {
    if text == "succeeded" then Ok(Succeeded)
    else if text == "failed" then Ok(StageStatus.Failed)
    else if text == "cancelled" then Ok(StageStatus.Cancelled)
    else if text == "skipped" then Ok(Skipped)
    else Err(SchemaViolation)
  }

  function StatusText(status: EvaluationStatus): string {
    match status
    case StatusCompleted => "completed"
    case StatusFailed => "failed"
    case StatusCancelled => "cancelled"
  }

  function StatusFromText(text: string): Result<EvaluationStatus, ProtocolError> {
    if text == "completed" then Ok(StatusCompleted)
    else if text == "failed" then Ok(StatusFailed)
    else if text == "cancelled" then Ok(StatusCancelled)
    else Err(SchemaViolation)
  }

  function VerdictText(verdict: Verdict): string {
    match verdict
    case Accepted => "accepted"
    case WrongAnswer => "wrong_answer"
    case CompileError => "compile_error"
    case RuntimeError => "runtime_error"
    case TimeLimitExceeded => "time_limit_exceeded"
    case MemoryLimitExceeded => "memory_limit_exceeded"
    case OutputLimitExceeded => "output_limit_exceeded"
    case SystemError => "system_error"
    case VerdictCancelled => "cancelled"
  }

  function VerdictFromText(text: string): Result<Verdict, ProtocolError> {
    if text == "accepted" then Ok(Accepted)
    else if text == "wrong_answer" then Ok(WrongAnswer)
    else if text == "compile_error" then Ok(CompileError)
    else if text == "runtime_error" then Ok(RuntimeError)
    else if text == "time_limit_exceeded" then Ok(TimeLimitExceeded)
    else if text == "memory_limit_exceeded" then Ok(MemoryLimitExceeded)
    else if text == "output_limit_exceeded" then Ok(OutputLimitExceeded)
    else if text == "system_error" then Ok(SystemError)
    else if text == "cancelled" then Ok(VerdictCancelled)
    else Err(SchemaViolation)
  }

  function ExecutorText(kind: ExecutorKind): string {
    match kind
    case DevelopmentMock => "development_mock"
    case Firecracker => "firecracker"
  }

  function ExecutorFromText(text: string): Result<ExecutorKind, ProtocolError> {
    if text == "development_mock" then Ok(DevelopmentMock)
    else if text == "firecracker" then Ok(Firecracker)
    else Err(SchemaViolation)
  }

  function SensitivityText(sensitivity: Sensitivity): string {
    match sensitivity
    case Public => "public"
    case Private => "private"
    case Hidden => "hidden"
  }

  function SensitivityFromText(text: string): Result<Sensitivity, ProtocolError> {
    if text == "public" then Ok(Public)
    else if text == "private" then Ok(Private)
    else if text == "hidden" then Ok(Hidden)
    else Err(SchemaViolation)
  }

  lemma StageTextInverts(stage: StageKind)
    ensures StageFromText(StageText(stage)) == Ok(stage)
  {
    match stage
    case Prepare =>
    case Build => assert "build"[0] != "prepare"[0];
    case Run => assert |"run"| == 3;
    case Check => assert "check"[0] != "build"[0];
    case Aggregate => assert |"aggregate"| == 9;
  }

  lemma StageStatusTextInverts(status: StageStatus)
    ensures StageStatusFromText(StageStatusText(status)) == Ok(status)
  {
    assert |"succeeded"| == 9 && |"failed"| == 6 && |"cancelled"| == 9 && |"skipped"| == 7;
    assert "succeeded"[0] != "cancelled"[0];
  }

  lemma StatusTextInverts(status: EvaluationStatus)
    ensures StatusFromText(StatusText(status)) == Ok(status)
  {
    assert |"completed"| == 9 && |"failed"| == 6 && |"cancelled"| == 9 && "completed"[1] != "cancelled"[1];
  }

  lemma VerdictTextInverts(verdict: Verdict)
    ensures VerdictFromText(VerdictText(verdict)) == Ok(verdict)
  {
    assert |"accepted"| == 8 && |"wrong_answer"| == 12 && |"compile_error"| == 13 && |"runtime_error"| == 13;
    assert |"time_limit_exceeded"| == 19 && |"memory_limit_exceeded"| == 21 && |"output_limit_exceeded"| == 21;
    assert |"system_error"| == 12 && |"cancelled"| == 9;
    assert "wrong_answer"[0] != "system_error"[0] && "compile_error"[0] != "runtime_error"[0];
    assert "memory_limit_exceeded"[0] != "output_limit_exceeded"[0];
  }

  lemma ExecutorTextInverts(kind: ExecutorKind)
    ensures ExecutorFromText(ExecutorText(kind)) == Ok(kind)
  {
    assert |"development_mock"| == 16 && |"firecracker"| == 11;
  }

  lemma SensitivityTextInverts(sensitivity: Sensitivity)
    ensures SensitivityFromText(SensitivityText(sensitivity)) == Ok(sensitivity)
  {
    assert |"public"| == 6 && |"private"| == 7 && |"hidden"| == 6 && "public"[0] != "hidden"[0];
  }

  // ---- Parts shared by requests and results.

  function ArtifactToValue(artifact: ArtifactRef): Json {
    JObject(map[NArtifactId := JString(artifact.artifactId.text),
                NDigest := JString(artifact.digest),
                NMediaType := JString(artifact.mediaType),
                NSizeBytes := JNumber(artifact.sizeBytes),
                NSensitivity := JString(SensitivityText(artifact.sensitivity))])
  }

  function ArtifactFromValue(value: Json): Result<ArtifactRef, ProtocolError> {
    var artifact :- AsObject(value);
    var text :- StringField(artifact, NSensitivity);
    var sensitivity :- SensitivityFromText(text);
    var artifactId :- IdField(artifact, NArtifactId);
    var digest :- DigestField(artifact, NDigest);
    var mediaType :- StringField(artifact, NMediaType);
    if !ValidMediaType(mediaType) then Err(BAD_FORMAT)
    else
      var sizeBytes :- U64Field(artifact, NSizeBytes);
      if sizeBytes > MAX_ARTIFACT_BYTES then Err(DomainRefusal(OutOfRange))
      else Ok(ArtifactRef(artifactId, digest, mediaType, sizeBytes, sensitivity))
  }

  /** A value converts back exactly when it is one that the constructors let exist. */
  lemma ArtifactRoundTrip(artifact: ArtifactRef)
    ensures ArtifactFromValue(ArtifactToValue(artifact)) == Ok(artifact) <==> artifact.Valid()
  {
    hide ValidId, ValidDigest, ValidMediaType, SensitivityText, SensitivityFromText;
    SensitivityTextInverts(artifact.sensitivity);
  }

  lemma ArtifactIsValid(value: Json)
    ensures ArtifactFromValue(value).Ok? ==> ArtifactFromValue(value).value.Valid()
  {
    hide ValidId, ValidDigest, ValidMediaType, SensitivityFromText;
  }
}
