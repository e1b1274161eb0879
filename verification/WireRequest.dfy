/** Requests on the wire. */
module WireRequest {
  import opened Prelude
  import opened Tokens
  import opened Domain
  import opened JsonValues
  import opened Wire

  const SCHEMA_VERSION: string := "openoj.evaluation/v0alpha1"

  function ProblemToValue(p: ProblemVersionRef): Json {
    JObject(map[NProblemId := JString(p.problemId.text), NProblemVersionId := JString(p.problemVersionId.text),
                NDigest := JString(p.digest)])
  }

  function SubmissionToValue(s: SubmissionRef): Json {
    JObject(map[NSubmissionId := JString(s.submissionId.text), NSource := ArtifactToValue(s.source)])
  }

  function RuntimeToValue(r: RuntimeRef): Json {
    JObject(map[NRuntimeId := JString(r.runtimeId.text), NDigest := JString(r.digest)])
  }

  function StageToValue(stage: StageKind): Json { JString(StageText(stage)) }

  function PlanToValue(plan: EvaluationPlan): Json {
    JObject(map[NProfile := JString("algorithm_batch"), NStages := JArray(Render(plan.stages, StageToValue))])
  }

  function PolicyToValue(p: ResourcePolicy): Json {
    JObject(map[NCpuTimeMs := JNumber(p.cpuTimeMs), NWallTimeMs := JNumber(p.wallTimeMs),
                NMemoryBytes := JNumber(p.memoryBytes), NOutputBytes := JNumber(p.outputBytes),
                NProcessLimit := JNumber(p.processLimit), NNetwork := JString("denied")])
  }

  function CapabilityToValue(capability: string): Json { JString(capability) }

  function RequestToValue(q: EvaluationRequest): Json {
    JObject(map[NMessageType := JString("evaluation_request"),
                NSchemaVersion := JString(SCHEMA_VERSION),
                NRequestId := JString(q.requestId.text),
                NIdempotencyKey := JString(q.idempotencyKey.text),
                NEvaluationId := JString(q.evaluationId.text),
                NAttemptId := JString(q.attemptId.text),
                NAttemptNumber := JNumber(q.attemptNumber),
                NProblemVersion := ProblemToValue(q.problemVersion),
                NSubmission := SubmissionToValue(q.submission),
                NRuntime := RuntimeToValue(q.runtime),
                NPlan := PlanToValue(q.plan),
                NPolicy := PolicyToValue(q.policy),
                NRequiredCapabilities := JArray(Render(q.requiredCapabilities, CapabilityToValue))])
  }

  function StageFromValue(value: Json): Result<StageKind, ProtocolError> {
    var text :- AsStr(value);
    StageFromText(text)
  }

  function CapabilityFromValue(value: Json): Result<string, ProtocolError> {
    var text :- AsStr(value);
    if ValidCapability(text) then Ok(text) else Err(BAD_FORMAT)
  }

  function KeyField(fields: Object, name: Name): Result<Id, ProtocolError> {
    var text :- StringField(fields, name);
    if ValidKey(Id(text)) then Ok(Id(text)) else Err(BAD_FORMAT)
  }

  /** The stages and the profile, read before anything else of the plan is judged. */
  function PlanParts(plan: Object): Result<seq<StageKind>, ProtocolError> {
    var items :- ArrayField(plan, NStages);
    var stages :- Collect(items, StageFromValue);
    var profile :- StringField(plan, NProfile);
    if profile != "algorithm_batch" then Err(SchemaViolation) else Ok(stages)
  }

  /** `EvaluationPlan::try_algorithm_batch`. */
  function NewPlan(stages: seq<StageKind>): Result<EvaluationPlan, ProtocolError> {
    if |stages| > MAX_STAGES then Err(DomainRefusal(TooManyItems))
    else if stages != ALGORITHM_BATCH_STAGES then Err(DomainRefusal(InvalidPlan))
    else Ok(AlgorithmBatch(stages))
  }

  function ProblemFromValue(problem: Object): Result<ProblemVersionRef, ProtocolError> {
    var problemId :- IdField(problem, NProblemId);
    var problemVersionId :- IdField(problem, NProblemVersionId);
    var digest :- DigestField(problem, NDigest);
    Ok(ProblemVersionRef(problemId, problemVersionId, digest))
  }

  function RuntimeFromValue(runtime: Object): Result<RuntimeRef, ProtocolError> {
    var runtimeId :- IdField(runtime, NRuntimeId);
    var digest :- DigestField(runtime, NDigest);
    Ok(RuntimeRef(runtimeId, digest))
  }

  /** `ResourcePolicy::new` on the fields of the policy. */
  function PolicyFromValue(fields: Object, processLimit: nat): Result<ResourcePolicy, ProtocolError> {
    var cpuTimeMs :- U64Field(fields, NCpuTimeMs);
    var wallTimeMs :- U64Field(fields, NWallTimeMs);
    var memoryBytes :- U64Field(fields, NMemoryBytes);
    var outputBytes :- U64Field(fields, NOutputBytes);
    var policy := ResourcePolicy(cpuTimeMs, wallTimeMs, memoryBytes, outputBytes, processLimit, Denied);
    if policy.Valid() then Ok(policy) else Err(DomainRefusal(OutOfRange))
  }

  function RequestFromValue(value: Json): Result<EvaluationRequest, ProtocolError> {
    var fields :- AsObject(value);
    var problem :- ObjectField(fields, NProblemVersion);
    var submission :- ObjectField(fields, NSubmission);
    var sourceValue :- Field(submission, NSource);
    var source :- ArtifactFromValue(sourceValue);
    var runtime :- ObjectField(fields, NRuntime);
    var plan :- ObjectField(fields, NPlan);
    var policy :- ObjectField(fields, NPolicy);
    var stages :- PlanParts(plan);
    var items :- ArrayField(fields, NRequiredCapabilities);
    var capabilities :- Collect(items, CapabilityFromValue);
    var attemptNumber :- U32Field(fields, NAttemptNumber);
    var processLimit :- U32Field(policy, NProcessLimit);
    var network :- StringField(policy, NNetwork);
    if network != "denied" then Err(SchemaViolation)
    else
      var requestId :- IdField(fields, NRequestId);
      var key :- KeyField(fields, NIdempotencyKey);
      var evaluationId :- IdField(fields, NEvaluationId);
      var attemptId :- IdField(fields, NAttemptId);
      var problemVersion :- ProblemFromValue(problem);
      var submissionId :- IdField(submission, NSubmissionId);
      var runtimeRef :- RuntimeFromValue(runtime);
      var newPlan :- NewPlan(stages);
      var newPolicy :- PolicyFromValue(policy, processLimit);
      match NewRequest(EvaluationRequest(requestId, key, evaluationId, attemptId, attemptNumber, problemVersion,
                                         SubmissionRef(submissionId, source), runtimeRef, newPlan, newPolicy,
                                         capabilities))
      case Err(error) => Err(DomainRefusal(error))
      case Ok(request) => Ok(request)
  }

  // ---- Whatever is decoded is a request that the constructors accept.

  lemma CapabilitiesAreValid(items: seq<Json>)
    ensures Collect(items, CapabilityFromValue).Ok? ==>
              forall c :: c in Collect(items, CapabilityFromValue).value ==> ValidCapability(c)
  {
    if Collect(items, CapabilityFromValue).Ok? { CollectAll(items, CapabilityFromValue); }
  }

  lemma RequestIsValid(value: Json)
    ensures RequestFromValue(value).Ok? ==> RequestFromValue(value).value.Valid()
  {
    hide ValidId, ValidKey, ValidDigest, ValidCapability, ArtifactFromValue, PlanParts, NoDuplicates, Collect;
    if RequestFromValue(value).Ok? {
      var submission := ObjectField(value.fields, NSubmission).value;
      ArtifactIsValid(Field(submission, NSource).value);
      CapabilitiesAreValid(ArrayField(value.fields, NRequiredCapabilities).value);
    }
  }

  // ---- Round trip.

  lemma StagesRoundTrip(stages: seq<StageKind>)
    ensures Collect(Render(stages, StageToValue), StageFromValue) == Ok(stages)
  {
    hide StageText, StageFromText;
    forall i | 0 <= i < |stages| ensures StageFromValue(StageToValue(stages[i])) == Ok(stages[i]) {
      StageTextInverts(stages[i]);
    }
    CollectInverts(stages, StageToValue, StageFromValue);
  }

  lemma CapabilitiesRoundTrip(capabilities: seq<string>)
    requires forall c :: c in capabilities ==> ValidCapability(c)
    ensures Collect(Render(capabilities, CapabilityToValue), CapabilityFromValue) == Ok(capabilities)
  {
    hide ValidCapability;
    CollectInverts(capabilities, CapabilityToValue, CapabilityFromValue);
  }

  /** For every request value, whatever its fields: converting to JSON and back returns it exactly when it is one that
      the domain constructors accept. */
  lemma RequestRoundTrip(q: EvaluationRequest)
    ensures RequestFromValue(RequestToValue(q)) == Ok(q) <==> q.Valid()
  {
    if q.Valid() {
      ValidRequestReturns(q);
    } else {
      RequestIsValid(RequestToValue(q));
    }
  }

  /** What the readers find in the fields of a converted request. */
  lemma RequestFields(q: EvaluationRequest)
    requires q.Valid()
    ensures var fields := RequestToValue(q).fields;
            && RequestToValue(q).JObject?
            && ObjectField(fields, NProblemVersion) == Ok(ProblemToValue(q.problemVersion).fields)
            && ObjectField(fields, NSubmission) == Ok(SubmissionToValue(q.submission).fields)
            && ObjectField(fields, NRuntime) == Ok(RuntimeToValue(q.runtime).fields)
            && ObjectField(fields, NPlan) == Ok(PlanToValue(q.plan).fields)
            && ObjectField(fields, NPolicy) == Ok(PolicyToValue(q.policy).fields)
            && ArrayField(fields, NRequiredCapabilities) == Ok(Render(q.requiredCapabilities, CapabilityToValue))
            && U32Field(fields, NAttemptNumber) == Ok(q.attemptNumber)
            && IdField(fields, NRequestId) == Ok(q.requestId)
            && KeyField(fields, NIdempotencyKey) == Ok(q.idempotencyKey)
            && IdField(fields, NEvaluationId) == Ok(q.evaluationId)
            && IdField(fields, NAttemptId) == Ok(q.attemptId)
  {
    hide ValidId, ValidKey, ValidDigest, ValidCapability, NoDuplicates, ArtifactRef.Valid, Render, ResourcePolicy.Valid,
         ArtifactToValue;
  }

  lemma PartFields(q: EvaluationRequest)
    requires q.Valid()
    ensures var submission := SubmissionToValue(q.submission).fields;
            && Field(submission, NSource) == Ok(ArtifactToValue(q.submission.source))
            && IdField(submission, NSubmissionId) == Ok(q.submission.submissionId)
    ensures var plan := PlanToValue(q.plan).fields;
            && ArrayField(plan, NStages) == Ok(Render(q.plan.stages, StageToValue))
            && StringField(plan, NProfile) == Ok("algorithm_batch")
    ensures var policy := PolicyToValue(q.policy).fields;
            && U32Field(policy, NProcessLimit) == Ok(q.policy.processLimit)
            && StringField(policy, NNetwork) == Ok("denied")
            && PolicyFromValue(policy, q.policy.processLimit) == Ok(q.policy)
    ensures ProblemFromValue(ProblemToValue(q.problemVersion).fields) == Ok(q.problemVersion)
    ensures RuntimeFromValue(RuntimeToValue(q.runtime).fields) == Ok(q.runtime)
  {
    hide ValidId, ValidKey, ValidDigest, ValidCapability, NoDuplicates, ArtifactRef.Valid, Render, ArtifactToValue;
    assert match q.policy.network case Denied => q.policy.network == Denied;
  }

  lemma ValidRequestReturns(q: EvaluationRequest)
    requires q.Valid()
    ensures RequestFromValue(RequestToValue(q)) == Ok(q)
  {
    hide ValidId, ValidKey, ValidDigest, ValidCapability, ArtifactFromValue, ArtifactToValue, NoDuplicates, Collect,
         Render, ArtifactRef.Valid, ResourcePolicy.Valid, RequestToValue, ObjectField, ArrayField, U32Field, IdField,
         KeyField, Field, StringField, SubmissionToValue, PlanToValue, PolicyToValue, ProblemToValue, RuntimeToValue,
         ProblemFromValue, RuntimeFromValue, PolicyFromValue;
    RequestFields(q);
    PartFields(q);
    ArtifactRoundTrip(q.submission.source);
    StagesRoundTrip(q.plan.stages);
    CapabilitiesRoundTrip(q.requiredCapabilities);
    assert match q.plan case AlgorithmBatch(stages) => q.plan == AlgorithmBatch(stages);
  }
}
