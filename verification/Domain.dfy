/** The domain values that requests, attempts and results are made of, with the invariants of their constructors. */
module Domain {
  import opened Prelude
  import opened Tokens

  const MAX_UNIX_MILLIS: nat := 253402300799999
  const MAX_LEASE_DURATION_MS: nat := 3600000
  const MAX_CAPABILITIES: nat := 32
  const MAX_STAGES: nat := 32
  const MAX_STAGE_DIAGNOSTICS: nat := 64
  const MAX_STAGE_EVIDENCE: nat := 256
  const MAX_RESULT_DIAGNOSTICS: nat := 64
  const MAX_RESULT_EVIDENCE: nat := 256
  const MAX_DIAGNOSTIC_MESSAGE_LENGTH: nat := 2048
  const MAX_CPU_TIME_MS: nat := 86400000
  const MAX_WALL_TIME_MS: nat := 86400000
  const MAX_MEMORY_BYTES: nat := 1099511627776
  const MAX_OUTPUT_BYTES: nat := 1073741824
  const MAX_PROCESS_LIMIT: nat := 65535
  const MAX_ARTIFACT_BYTES: nat := 1099511627776

  type UnixMillis = n: nat | n <= MAX_UNIX_MILLIS
  type LeaseDuration = n: nat | 1 <= n <= MAX_LEASE_DURATION_MS witness 1

  datatype DomainError =
    | InvalidFormat
    | OutOfRange
    | TooManyItems
    | DuplicateItem
    | InvalidPlan
    | InvalidScore
    | IllegalTransition
    | IneligibleProvenance
    | ProvenanceDigestMismatch
    | InvalidResult

  function CheckedAdd(now: UnixMillis, duration: LeaseDuration): Result<UnixMillis, DomainError> {
    if now + duration > MAX_UNIX_MILLIS then Err(OutOfRange) else Ok(now + duration)
  }

  // ---- Lifecycles.

  datatype EvaluationState = EvaluationQueued | EvaluationLeased | EvaluationCompleted | EvaluationFailed
                           | EvaluationCancelled
  {
    /** `EvaluationState::transition_to`. */
    function TransitionTo(next: EvaluationState): Result<EvaluationState, DomainError> {
      if || (EvaluationQueued? && (next.EvaluationLeased? || next.EvaluationCancelled?))
         || (EvaluationLeased? && !next.EvaluationLeased?)
      then Ok(next) else Err(IllegalTransition)
    }
  }

  datatype AttemptState = AttemptQueued | AttemptLeased | AttemptCompleted | AttemptFailed | AttemptCancelled
                        | AttemptExpired
  {
    /** `AttemptState::transition_to`. */
    function TransitionTo(next: AttemptState): Result<AttemptState, DomainError> {
      if || (AttemptQueued? && (next.AttemptLeased? || next.AttemptCancelled?))
         || (AttemptLeased? && !next.AttemptQueued? && !next.AttemptLeased?)
      then Ok(next) else Err(IllegalTransition)
    }
  }

  // ---- Requests.

  datatype StageKind = Prepare | Build | Run | Check | Aggregate

  const ALGORITHM_BATCH_STAGES: seq<StageKind> := [Prepare, Build, Run, Check, Aggregate]

  datatype Sensitivity = Public | Private | Hidden

  datatype ArtifactRef = ArtifactRef(
    artifactId: Id, digest: string, mediaType: string, sizeBytes: nat, sensitivity: Sensitivity)
  {
    predicate Valid() {
      ValidId(artifactId) && ValidDigest(digest) && ValidMediaType(mediaType) && sizeBytes <= MAX_ARTIFACT_BYTES
    }
  }

  datatype ProblemVersionRef = ProblemVersionRef(problemId: Id, problemVersionId: Id, digest: string)

  datatype SubmissionRef = SubmissionRef(submissionId: Id, source: ArtifactRef)

  datatype RuntimeRef = RuntimeRef(runtimeId: Id, digest: string)

  datatype EvaluationPlan = AlgorithmBatch(stages: seq<StageKind>)

  datatype NetworkPolicy = Denied

  datatype ResourcePolicy = ResourcePolicy(
    cpuTimeMs: nat, wallTimeMs: nat, memoryBytes: nat, outputBytes: nat, processLimit: nat, network: NetworkPolicy)
  {
    predicate Valid() {
      && 1 <= cpuTimeMs <= MAX_CPU_TIME_MS
      && 1 <= wallTimeMs <= MAX_WALL_TIME_MS
      && 1 <= memoryBytes <= MAX_MEMORY_BYTES
      && 1 <= outputBytes <= MAX_OUTPUT_BYTES
      && 1 <= processLimit <= MAX_PROCESS_LIMIT
    }
  }

  datatype EvaluationRequest = EvaluationRequest(
    requestId: Id,
    idempotencyKey: Id,
    evaluationId: Id,
    attemptId: Id,
    attemptNumber: nat,
    problemVersion: ProblemVersionRef,
    submission: SubmissionRef,
    runtime: RuntimeRef,
    plan: EvaluationPlan,
    policy: ResourcePolicy,
    requiredCapabilities: seq<string>)
  {
    /** What the parsed field types and `EvaluationRequest::new` guarantee. */
    predicate Valid() {
      && ValidId(requestId) && ValidKey(idempotencyKey) && ValidId(evaluationId) && ValidId(attemptId)
      && 1 <= attemptNumber <= U32_MAX
      && ValidId(problemVersion.problemId) && ValidId(problemVersion.problemVersionId)
      && ValidDigest(problemVersion.digest)
      && ValidId(submission.submissionId) && submission.source.Valid()
      && ValidId(runtime.runtimeId) && ValidDigest(runtime.digest)
      && plan.stages == ALGORITHM_BATCH_STAGES
      && policy.Valid()
      && |requiredCapabilities| <= MAX_CAPABILITIES
      && (forall c :: c in requiredCapabilities ==> ValidCapability(c))
      && NoDuplicates(requiredCapabilities)
    }
  }

  predicate NoDuplicates<T(==)>(items: seq<T>) {
    forall i, j :: 0 <= i < j < |items| ==> items[i] != items[j]
  }

  /** The checks that `EvaluationRequest::new` adds to already parsed parts. */
  function NewRequest(parts: EvaluationRequest): (r: Result<EvaluationRequest, DomainError>) {
    if !(1 <= parts.attemptNumber <= U32_MAX) then Err(OutOfRange)
    else if |parts.requiredCapabilities| > MAX_CAPABILITIES then Err(TooManyItems)
    else if !NoDuplicates(parts.requiredCapabilities) then Err(DuplicateItem)
    else Ok(parts)
  }

  /** `EvaluationRequest::new`, with the set it fills to find a duplicate. */
  method NewEvaluationRequest(parts: EvaluationRequest) returns (r: Result<EvaluationRequest, DomainError>)
    ensures r == NewRequest(parts)
  {
    if !(1 <= parts.attemptNumber <= U32_MAX) {
      return Err(OutOfRange);
    }
    if |parts.requiredCapabilities| > MAX_CAPABILITIES {
      return Err(TooManyItems);
    }
    var capabilities: set<string> := {};
    for i := 0 to |parts.requiredCapabilities|
      invariant capabilities == set k | 0 <= k < i :: parts.requiredCapabilities[k]
      invariant NoDuplicates(parts.requiredCapabilities[..i])
    {
      var capability := parts.requiredCapabilities[i];
      if capability in capabilities {
        return Err(DuplicateItem);
      }
      capabilities := capabilities + {capability};
    }
    assert parts.requiredCapabilities[..|parts.requiredCapabilities|] == parts.requiredCapabilities;
    return Ok(parts);
  }

  /** `with_next_attempt`: the same work bound to the next physical attempt. */
  function WithNextAttempt(current: EvaluationRequest, attemptId: Id, key: Id): Result<EvaluationRequest, DomainError> {
    if current.attemptNumber + 1 > U32_MAX then Err(OutOfRange)
    else NewRequest(current.(attemptId := attemptId, attemptNumber := current.attemptNumber + 1, idempotencyKey := key))
  }

  /** `same_evaluation_semantics`; the request id is not compared. */
  predicate SameEvaluationSemantics(current: EvaluationRequest, retry: EvaluationRequest) {
    && current.evaluationId == retry.evaluationId
    && current.problemVersion == retry.problemVersion
    && current.submission == retry.submission
    && current.runtime == retry.runtime
    && current.plan == retry.plan
    && current.policy == retry.policy
    && current.requiredCapabilities == retry.requiredCapabilities
  }

  // ---- Results.

  datatype ResourceUsage = ResourceUsage(cpuTimeMs: nat, wallTimeMs: nat, memoryPeakBytes: nat, outputBytes: nat)
  {
    predicate Valid() {
      && cpuTimeMs <= MAX_CPU_TIME_MS
      && wallTimeMs <= MAX_WALL_TIME_MS
      && memoryPeakBytes <= MAX_MEMORY_BYTES
      && outputBytes <= MAX_OUTPUT_BYTES
    }

    /** `ResourceUsage::checked_add`: sums, a maximum for the memory peak, and the bounds of the constructor. */
    function CheckedAdd(other: ResourceUsage): Result<ResourceUsage, DomainError> {
      if cpuTimeMs + other.cpuTimeMs > U64_MAX then Err(OutOfRange)
      else if wallTimeMs + other.wallTimeMs > U64_MAX then Err(OutOfRange)
      else if outputBytes + other.outputBytes > U64_MAX then Err(OutOfRange)
      else
        var sum := ResourceUsage(
          cpuTimeMs + other.cpuTimeMs,
          wallTimeMs + other.wallTimeMs,
          if memoryPeakBytes < other.memoryPeakBytes then other.memoryPeakBytes else memoryPeakBytes,
          outputBytes + other.outputBytes);
        if sum.Valid() then Ok(sum) else Err(OutOfRange)
    }
  }

  const NO_USAGE: ResourceUsage := ResourceUsage(0, 0, 0, 0)

  datatype Diagnostic = Diagnostic(code: string, message: string, truncated: bool)
  {
    predicate Valid() { ValidDiagnosticCode(code) && |message| <= MAX_DIAGNOSTIC_MESSAGE_LENGTH }
  }

  datatype EvidenceRef = EvidenceRef(evidenceId: Id, kind: string, artifact: Option<ArtifactRef>)
  {
    predicate Valid() {
      ValidId(evidenceId) && ValidEvidenceKind(kind) && (artifact.Some? ==> artifact.value.Valid())
    }
  }

  datatype StageStatus = Succeeded | Failed | Cancelled | Skipped

  datatype StageReport = StageReport(
    stage: StageKind,
    status: StageStatus,
    usage: ResourceUsage,
    diagnostics: seq<Diagnostic>,
    evidence: seq<EvidenceRef>)
  {
    predicate Valid() {
      && usage.Valid()
      && |diagnostics| <= MAX_STAGE_DIAGNOSTICS && (forall i :: 0 <= i < |diagnostics| ==> diagnostics[i].Valid())
      && |evidence| <= MAX_STAGE_EVIDENCE && (forall i :: 0 <= i < |evidence| ==> evidence[i].Valid())
    }
  }

  datatype EvaluationStatus = StatusCompleted | StatusFailed | StatusCancelled

  datatype Verdict = Accepted | WrongAnswer | CompileError | RuntimeError | TimeLimitExceeded | MemoryLimitExceeded
                   | OutputLimitExceeded | SystemError | VerdictCancelled

  datatype Score = Score(earned: nat, possible: nat)
  {
    predicate Valid() { 0 < possible <= U32_MAX && earned <= possible }
  }

  datatype ExecutorKind = DevelopmentMock | Firecracker

  datatype ExecutionProvenance = ExecutionProvenance(
    executorKind: ExecutorKind, productionEligible: bool, runtimeDigest: string, nodeId: Option<Id>)
  {
    /** The rule of `ExecutionProvenance::new`. */
    predicate Eligible() {
      productionEligible ==> executorKind != DevelopmentMock && nodeId.Some?
    }

    predicate Valid() {
      Eligible() && ValidDigest(runtimeDigest) && (nodeId.Some? ==> ValidId(nodeId.value))
    }
  }

  datatype EvaluationIdentity = EvaluationIdentity(
    requestId: Id,
    evaluationId: Id,
    attemptId: Id,
    problemVersionId: Id,
    submissionId: Id,
    runtimeId: Id,
    runtimeDigest: string)
  {
    predicate Valid() {
      && ValidId(requestId) && ValidId(evaluationId) && ValidId(attemptId) && ValidId(problemVersionId)
      && ValidId(submissionId) && ValidId(runtimeId) && ValidDigest(runtimeDigest)
    }
  }

  /** `EvaluationIdentity::from_request`. */
  function IdentityOf(request: EvaluationRequest): EvaluationIdentity {
    EvaluationIdentity(request.requestId, request.evaluationId, request.attemptId,
                       request.problemVersion.problemVersionId, request.submission.submissionId,
                       request.runtime.runtimeId, request.runtime.digest)
  }

  datatype EvaluationResult = EvaluationResult(
    identity: EvaluationIdentity,
    status: EvaluationStatus,
    verdict: Verdict,
    score: Score,
    stages: seq<StageReport>,
    usage: ResourceUsage,
    diagnostics: seq<Diagnostic>,
    evidence: seq<EvidenceRef>,
    provenance: ExecutionProvenance)
}
