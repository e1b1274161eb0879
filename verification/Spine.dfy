/** The durable control spine on values: the tables, their constraints, and one function per transaction.
    A transaction either commits a new store or aborts and returns the store it started from. */
module Spine {
  import opened Prelude
  import opened Tokens
  import opened Domain

  /** The state column of all three tables; the CHECK constraints say which table may hold which value. */
  datatype RowState = RowReady | RowQueued | RowLeased | RowCompleted | RowFailed | RowCancelled | RowExpired

  datatype EvaluationRow = EvaluationRow(
    requestId: Id,
    creationKey: Id,
    problemVersionId: Id,
    submissionId: Id,
    runtimeId: Id,
    initialRequest: EvaluationRequest,
    state: RowState,
    currentAttemptId: Id,
    terminalResult: Option<EvaluationResult>,
    resultKey: Option<Id>,
    createdAt: nat,
    updatedAt: nat)

  datatype AttemptRow = AttemptRow(
    evaluationId: Id,
    requestId: Id,
    attemptNumber: nat,
    idempotencyKey: Id,
    payload: EvaluationRequest,
    state: RowState,
    nodeId: Option<Id>,
    leaseToken: Option<Id>,
    expiresAt: Option<nat>,
    claimOperation: Option<Id>,
    createdAt: nat,
    updatedAt: nat)

  datatype TaskRow = TaskRow(state: RowState, requiredCapabilities: seq<string>, createdAt: nat, updatedAt: nat)

  datatype Db = Db(
    evaluations: map<Id, EvaluationRow>,
    attempts: map<Id, AttemptRow>,
    tasks: map<Id, TaskRow>,
    artifacts: map<Id, ArtifactRef>,
    problemVersions: map<Id, ProblemVersionRef>,
    submissions: map<Id, Id>,
    runtimes: map<Id, string>)

  const EMPTY: Db := Db(map[], map[], map[], map[], map[], map[], map[])

  datatype StoreError =
    | InvalidTime
    | IdempotencyConflict
    | IdentityConflict
    | ImmutableReferenceConflict
    | NotFound
    | NoTaskAvailable
    | LeaseConflict
    | StaleLease
    | InvalidTransition
    | TerminalConflict
    | Unavailable
    | CorruptData

  datatype TaskLease = TaskLease(request: EvaluationRequest, nodeId: Id, leaseToken: Id, expiresAt: nat)

  /** What a committed transaction answers; `ReadStatus` names the evaluation whose status is read afterwards. */
  datatype Reply = ReadStatus(evaluationId: Id) | Granted(lease: TaskLease) | Continue(expiresAt: nat) | CancelLease

  datatype Tx = Tx(db: Db, out: Result<Reply, StoreError>)

  /** One transaction. `encodes` is the outcome of the payload's schema and size check; `skipped` are the task rows
      that other transactions hold locked when the claim selects. */
  datatype Command =
    | Create(request: EvaluationRequest, createdAt: UnixMillis, encodes: bool)
    | Claim(node: Id, token: Id, now: UnixMillis, duration: LeaseDuration,
            operation: Option<Id>, capabilities: Option<set<string>>, skipped: set<Id>)
    | Renew(node: Id, evaluation: Id, attempt: Id, token: Id, now: UnixMillis, duration: LeaseDuration)
    | Retry(request: EvaluationRequest, now: UnixMillis, encodes: bool)
    | Submit(key: Id, token: Id, result: EvaluationResult, now: UnixMillis, encodes: bool)
    | Cancel(key: Id, evaluation: Id, result: EvaluationResult, now: UnixMillis, encodes: bool)

  // ---- Row constraints.

  predicate TimeCheck(createdAt: nat, updatedAt: nat) {
    createdAt <= updatedAt <= MAX_UNIX_MILLIS
  }

  predicate EvaluationCheck(row: EvaluationRow) {
    && row.state in {RowQueued, RowLeased, RowCompleted, RowFailed, RowCancelled}
    && (row.terminalResult.None? <==> row.resultKey.None?)
    && TimeCheck(row.createdAt, row.updatedAt)
  }

  predicate AttemptCheck(row: AttemptRow) {
    && 1 <= row.attemptNumber <= U32_MAX
    && row.state in {RowQueued, RowLeased, RowCompleted, RowFailed, RowCancelled, RowExpired}
    && (row.nodeId.None? <==> row.leaseToken.None?)
    && (row.leaseToken.None? <==> row.expiresAt.None?)
    && (row.expiresAt.Some? ==> row.expiresAt.value <= MAX_UNIX_MILLIS)
    && TimeCheck(row.createdAt, row.updatedAt)
  }

  ghost predicate TaskCheck(row: TaskRow) {
    && row.state in {RowReady, RowLeased, RowCompleted, RowCancelled, RowExpired}
    && TimeCheck(row.createdAt, row.updatedAt)
    && DatabaseAccepts(row.requiredCapabilities)
  }

  // ---- Unique indexes.

  ghost predicate CreationKeyAt(db: Db, key: Id, e: Id) {
    e in db.evaluations && db.evaluations[e].creationKey == key
  }

  ghost predicate AttemptKeyAt(db: Db, key: Id, a: Id) {
    a in db.attempts && db.attempts[a].idempotencyKey == key
  }

  ghost predicate AttemptAt(db: Db, e: Id, n: nat, a: Id) {
    a in db.attempts && db.attempts[a].evaluationId == e && db.attempts[a].attemptNumber == n
  }

  ghost predicate ResultKeyAt(db: Db, key: Id, e: Id) {
    e in db.evaluations && db.evaluations[e].resultKey == Some(key)
  }

  ghost predicate ClaimedBy(db: Db, node: Id, operation: Id, a: Id) {
    a in db.attempts && db.attempts[a].nodeId == Some(node) && db.attempts[a].claimOperation == Some(operation)
  }

  ghost function EvaluationByCreationKey(db: Db, key: Id): Option<Id> {
    if e :| CreationKeyAt(db, key, e) then Some(e) else None
  }

  ghost function AttemptByKey(db: Db, key: Id): Option<Id> {
    if a :| AttemptKeyAt(db, key, a) then Some(a) else None
  }

  // ---- Immutable references.

  /** Every registered row that the request refers to carries the request's metadata. */
  predicate RegistryAgrees(db: Db, r: EvaluationRequest) {
    && r.submission.source.artifactId in db.artifacts
    && db.artifacts[r.submission.source.artifactId] == r.submission.source
    && r.problemVersion.problemVersionId in db.problemVersions
    && db.problemVersions[r.problemVersion.problemVersionId] == r.problemVersion
    && r.submission.submissionId in db.submissions
    && db.submissions[r.submission.submissionId] == r.submission.source.artifactId
    && r.runtime.runtimeId in db.runtimes
    && db.runtimes[r.runtime.runtimeId] == r.runtime.digest
  }

  function InsertIfAbsent<V>(m: map<Id, V>, key: Id, value: V): map<Id, V> {
    if key in m then m else m[key := value]
  }

  /** The four `INSERT ... ON CONFLICT DO NOTHING` statements. */
  function Register(db: Db, r: EvaluationRequest): Db {
    db.(artifacts := InsertIfAbsent(db.artifacts, r.submission.source.artifactId, r.submission.source),
        problemVersions := InsertIfAbsent(db.problemVersions, r.problemVersion.problemVersionId, r.problemVersion),
        submissions := InsertIfAbsent(db.submissions, r.submission.submissionId, r.submission.source.artifactId),
        runtimes := InsertIfAbsent(db.runtimes, r.runtime.runtimeId, r.runtime.digest))
  }

  // ---- Rows as the statements write them.

  function NewEvaluationRow(r: EvaluationRequest, createdAt: nat): EvaluationRow {
    EvaluationRow(r.requestId, r.idempotencyKey, r.problemVersion.problemVersionId, r.submission.submissionId,
                  r.runtime.runtimeId, r, RowQueued, r.attemptId, None, None, createdAt, createdAt)
  }

  function NewAttemptRow(r: EvaluationRequest, createdAt: nat): AttemptRow {
    AttemptRow(r.evaluationId, r.requestId, r.attemptNumber, r.idempotencyKey, r, RowQueued,
               None, None, None, None, createdAt, createdAt)
  }

  function NewTaskRow(r: EvaluationRequest, createdAt: nat): TaskRow {
    TaskRow(RowReady, r.requiredCapabilities, createdAt, createdAt)
  }

  function StatusRow(status: EvaluationStatus): RowState {
    match status
    case StatusCompleted => RowCompleted
    case StatusFailed => RowFailed
    case StatusCancelled => RowCancelled
  }

  function StatusTaskRow(status: EvaluationStatus): RowState {
    if status.StatusCancelled? then RowCancelled else RowCompleted
  }

  /** Writes the three rows of one evaluation and its current attempt. */
  function Touch(db: Db, e: Id, a: Id, evaluation: EvaluationRow, attempt: AttemptRow, task: TaskRow): Db {
    db.(evaluations := db.evaluations[e := evaluation],
        attempts := db.attempts[a := attempt],
        tasks := db.tasks[a := task])
  }

  // ---- Transactions.

  function Abort(db: Db, error: StoreError): Tx { Tx(db, Err(error)) }

  ghost function CreateTx(db: Db, r: EvaluationRequest, createdAt: UnixMillis, encodes: bool): Tx {
    if !encodes then Abort(db, CorruptData)
    else
      match EvaluationByCreationKey(db, r.idempotencyKey)
      case Some(e) =>
        if db.evaluations[e].initialRequest != r then Abort(db, IdempotencyConflict)
        else Tx(db, Ok(ReadStatus(e)))
      case None =>
        if !RegistryAgrees(Register(db, r), r) then Abort(db, ImmutableReferenceConflict)
        else InsertNew(db, r, createdAt)
  }

  ghost function InsertNew(db: Db, r: EvaluationRequest, createdAt: nat): Tx {
    var evaluation := NewEvaluationRow(r, createdAt);
    var attempt := NewAttemptRow(r, createdAt);
    var task := NewTaskRow(r, createdAt);
    if !EvaluationCheck(evaluation) then Abort(db, Unavailable)
    else if r.evaluationId in db.evaluations then Abort(db, IdentityConflict)
    else if !AttemptCheck(attempt) then Abort(db, Unavailable)
    else if r.attemptId in db.attempts || AttemptByKey(db, r.idempotencyKey).Some?
            || (exists a :: AttemptAt(db, r.evaluationId, r.attemptNumber, a)) then Abort(db, IdentityConflict)
    else if !TaskCheck(task) then Abort(db, Unavailable)
    else if r.attemptId in db.tasks then Abort(db, IdentityConflict)
    else Tx(Touch(Register(db, r), r.evaluationId, r.attemptId, evaluation, attempt, task),
            Ok(ReadStatus(r.evaluationId)))
  }

  /** The rows that the claim query joins and filters. */
  predicate Claimable(db: Db, capabilities: Option<set<string>>, skipped: set<Id>, a: Id) {
    && a in db.tasks && a in db.attempts && a !in skipped
    && db.tasks[a].state == RowReady && db.attempts[a].state == RowQueued
    && (exists e :: e in db.evaluations && db.evaluations[e].currentAttemptId == a
                    && db.evaluations[e].state == RowQueued)
    && (capabilities.Some? ==> forall c :: c in db.tasks[a].requiredCapabilities ==> c in capabilities.value)
  }

  /** `ORDER BY created_at_ms, attempt_id`. */
  predicate TaskBefore(db: Db, a: Id, b: Id)
    requires a in db.tasks && b in db.tasks
  {
    StampBefore(db.tasks[a].createdAt, a, db.tasks[b].createdAt, b)
  }

  predicate NextTask(db: Db, capabilities: Option<set<string>>, skipped: set<Id>, a: Id) {
    && Claimable(db, capabilities, skipped, a)
    && forall b :: b in db.tasks && Claimable(db, capabilities, skipped, b) ==> a == b || TaskBefore(db, a, b)
  }

  ghost function SelectTask(db: Db, capabilities: Option<set<string>>, skipped: set<Id>): Option<Id> {
    if a :| NextTask(db, capabilities, skipped, a) then Some(a) else None
  }

  ghost function ClaimTx(db: Db, node: Id, token: Id, now: UnixMillis, duration: LeaseDuration,
                         operation: Option<Id>, capabilities: Option<set<string>>, skipped: set<Id>): Tx
  {
    match CheckedAdd(now, duration)
    case Err(_) => Abort(db, InvalidTime)
    case Ok(expiry) =>
      match SelectTask(db, capabilities, skipped)
      case None => Abort(db, NoTaskAvailable)
      case Some(a) => ClaimAttempt(db, a, node, token, now, expiry, operation)
  }

  ghost function ClaimAttempt(db: Db, a: Id, node: Id, token: Id, now: nat, expiry: nat, operation: Option<Id>): Tx
    requires a in db.attempts && a in db.tasks
  {
    var current := db.attempts[a];
    var e := current.evaluationId;
    if e !in db.evaluations || current.payload.attemptId != a || current.payload.evaluationId != e
       || current.payload.attemptNumber != current.attemptNumber then Abort(db, CorruptData)
    else
      var attempt := current.(state := RowLeased, nodeId := Some(node), leaseToken := Some(token),
                              expiresAt := Some(expiry), claimOperation := operation, updatedAt := now);
      var evaluation := db.evaluations[e].(state := RowLeased, updatedAt := now);
      var task := db.tasks[a].(state := RowLeased, updatedAt := now);
      if !AttemptCheck(attempt) || !EvaluationCheck(evaluation) || !TaskCheck(task) then Abort(db, Unavailable)
      else if operation.Some? && exists b :: b != a && ClaimedBy(db, node, operation.value, b) then
        Abort(db, Unavailable)
      else Tx(Touch(db, e, a, evaluation, attempt, task), Ok(Granted(TaskLease(current.payload, node, token, expiry))))
  }

  /** The join of an evaluation with its current attempt. */
  predicate Joined(db: Db, e: Id) {
    e in db.evaluations && db.evaluations[e].currentAttemptId in db.attempts
  }

  ghost function RenewTx(db: Db, node: Id, e: Id, attempt: Id, token: Id, now: UnixMillis, duration: LeaseDuration): Tx
  {
    match CheckedAdd(now, duration)
    case Err(_) => Abort(db, InvalidTime)
    case Ok(expiry) =>
      if !Joined(db, e) then Abort(db, NotFound)
      else
        var evaluation := db.evaluations[e];
        var current := db.attempts[evaluation.currentAttemptId];
        if evaluation.state == RowCancelled || current.state == RowCancelled then Tx(db, Ok(CancelLease))
        else if current.nodeId.None? || current.leaseToken.None? then Abort(db, CorruptData)
        else if evaluation.state != RowLeased || current.state != RowLeased || evaluation.currentAttemptId != attempt
                || current.nodeId != Some(node) || current.leaseToken != Some(token) then Abort(db, StaleLease)
        else
          var renewed := current.(expiresAt := Some(expiry), updatedAt := now);
          if !AttemptCheck(renewed) then Abort(db, Unavailable)
          else Tx(db.(attempts := db.attempts[attempt := renewed]), Ok(Continue(expiry)))
  }

  ghost function RetryTx(db: Db, r: EvaluationRequest, now: UnixMillis, encodes: bool): Tx {
    if !encodes then Abort(db, CorruptData)
    else
      match AttemptByKey(db, r.idempotencyKey)
      case Some(a) =>
        if db.attempts[a].payload != r then Abort(db, IdempotencyConflict)
        else Tx(db, Ok(ReadStatus(db.attempts[a].evaluationId)))
      case None =>
        if !Joined(db, r.evaluationId) then Abort(db, NotFound)
        else
          var evaluation := db.evaluations[r.evaluationId];
          var current := db.attempts[evaluation.currentAttemptId];
          if evaluation.state != RowLeased || current.state != RowLeased then Abort(db, InvalidTransition)
          else if current.expiresAt.None? then Abort(db, CorruptData)
          else if current.expiresAt.value >= now then Abort(db, LeaseConflict)
          else if r.attemptNumber != current.attemptNumber + 1 then Abort(db, InvalidTransition)
          else if !SameEvaluationSemantics(current.payload, r) then Abort(db, IdentityConflict)
          else ReplaceAttempt(db, evaluation.currentAttemptId, r, now)
  }

  /** Expires the current attempt and its task, and queues the successor. */
  ghost function ReplaceAttempt(db: Db, a: Id, r: EvaluationRequest, now: nat): Tx
    requires a in db.attempts && r.evaluationId in db.evaluations
  {
    var expired := db.attempts[a].(state := RowExpired, updatedAt := now);
    var evaluation := db.evaluations[r.evaluationId].(state := RowQueued, currentAttemptId := r.attemptId,
                                                      updatedAt := now);
    var attempt := NewAttemptRow(r, now);
    var task := NewTaskRow(r, now);
    if !AttemptCheck(expired) then Abort(db, Unavailable)
    else if a in db.tasks && !TaskCheck(db.tasks[a].(state := RowExpired, updatedAt := now)) then
      Abort(db, Unavailable)
    else if !EvaluationCheck(evaluation) || !AttemptCheck(attempt) then Abort(db, Unavailable)
    else if r.attemptId in db.attempts || AttemptByKey(db, r.idempotencyKey).Some?
            || (exists b :: AttemptAt(db, r.evaluationId, r.attemptNumber, b)) then Abort(db, IdentityConflict)
    else if !TaskCheck(task) then Abort(db, Unavailable)
    else if r.attemptId in db.tasks then Abort(db, IdentityConflict)
    else
      var tasks := if a in db.tasks then db.tasks[a := db.tasks[a].(state := RowExpired, updatedAt := now)]
                   else db.tasks;
      Tx(db.(evaluations := db.evaluations[r.evaluationId := evaluation],
             attempts := db.attempts[a := expired][r.attemptId := attempt],
             tasks := tasks[r.attemptId := task]),
         Ok(ReadStatus(r.evaluationId)))
  }

  /** `write_terminal`. */
  ghost function WriteTerminal(db: Db, e: Id, a: Id, state: RowState, taskState: RowState, result: EvaluationResult,
                               key: Id, now: nat): Tx
    requires e in db.evaluations && a in db.attempts
  {
    var evaluation := db.evaluations[e].(state := state, terminalResult := Some(result), resultKey := Some(key),
                                         updatedAt := now);
    var attempt := db.attempts[a].(state := state, updatedAt := now);
    if !EvaluationCheck(evaluation) then Abort(db, Unavailable)
    else if exists f :: f != e && ResultKeyAt(db, key, f) then Abort(db, IdempotencyConflict)
    else if !AttemptCheck(attempt) then Abort(db, Unavailable)
    else if a !in db.tasks then
      Tx(db.(evaluations := db.evaluations[e := evaluation], attempts := db.attempts[a := attempt]),
         Ok(ReadStatus(e)))
    else
      var task := db.tasks[a].(state := taskState, updatedAt := now);
      if !TaskCheck(task) then Abort(db, Unavailable)
      else Tx(Touch(db, e, a, evaluation, attempt, task), Ok(ReadStatus(e)))
  }

  /** The stored terminal result decides alone: same key and same bytes replay, anything else conflicts. */
  function AnswerTerminal(db: Db, e: Id, key: Id, result: EvaluationResult): Tx
    requires e in db.evaluations && db.evaluations[e].terminalResult.Some?
  {
    if db.evaluations[e].resultKey != Some(key) then Abort(db, TerminalConflict)
    else if db.evaluations[e].terminalResult.value != result then Abort(db, IdempotencyConflict)
    else Tx(db, Ok(ReadStatus(e)))
  }

  ghost function SubmitTx(db: Db, key: Id, token: Id, result: EvaluationResult, now: UnixMillis, encodes: bool): Tx {
    var e := result.identity.evaluationId;
    if !encodes then Abort(db, CorruptData)
    else if !Joined(db, e) then Abort(db, NotFound)
    else if db.evaluations[e].terminalResult.Some? then AnswerTerminal(db, e, key, result)
    else
      var evaluation := db.evaluations[e];
      var current := db.attempts[evaluation.currentAttemptId];
      if evaluation.state != RowLeased || current.state != RowLeased
         || evaluation.currentAttemptId != result.identity.attemptId then Abort(db, StaleLease)
      else if current.leaseToken.None? || current.expiresAt.None? then Abort(db, CorruptData)
      else if current.leaseToken != Some(token) || current.expiresAt.value < now then Abort(db, StaleLease)
      else if IdentityOf(current.payload) != result.identity then Abort(db, IdentityConflict)
      else WriteTerminal(db, e, evaluation.currentAttemptId, StatusRow(result.status), StatusTaskRow(result.status),
                         result, key, now)
  }

  ghost function CancelTx(db: Db, key: Id, e: Id, result: EvaluationResult, now: UnixMillis, encodes: bool): Tx {
    if result.status != StatusCancelled || result.identity.evaluationId != e then Abort(db, IdentityConflict)
    else if !encodes then Abort(db, CorruptData)
    else if !Joined(db, e) then Abort(db, NotFound)
    else if db.evaluations[e].terminalResult.Some? then AnswerTerminal(db, e, key, result)
    else
      var evaluation := db.evaluations[e];
      var current := db.attempts[evaluation.currentAttemptId];
      if evaluation.state !in {RowQueued, RowLeased} || current.state !in {RowQueued, RowLeased} then
        Abort(db, InvalidTransition)
      else if evaluation.currentAttemptId != result.identity.attemptId
              || IdentityOf(current.payload) != result.identity then Abort(db, IdentityConflict)
      else WriteTerminal(db, e, evaluation.currentAttemptId, RowCancelled, RowCancelled, result, key, now)
  }

  ghost function Apply(db: Db, c: Command): Tx {
    match c
    case Create(r, createdAt, encodes) => CreateTx(db, r, createdAt, encodes)
    case Claim(node, token, now, duration, operation, capabilities, skipped) =>
      ClaimTx(db, node, token, now, duration, operation, capabilities, skipped)
    case Renew(node, e, a, token, now, duration) => RenewTx(db, node, e, a, token, now, duration)
    case Retry(r, now, encodes) => RetryTx(db, r, now, encodes)
    case Submit(key, token, result, now, encodes) => SubmitTx(db, key, token, result, now, encodes)
    case Cancel(key, e, result, now, encodes) => CancelTx(db, key, e, result, now, encodes)
  }

  /** The store after a run: any interleaving of any number of clients is one such sequence. */
  ghost function Exec(db: Db, run: seq<Command>): Db
    decreases |run|
  {
    if run == [] then db else Exec(Apply(db, run[0]).db, run[1..])
  }

  // ---- Reads.

  datatype Snapshot = Snapshot(
    evaluationId: Id,
    state: EvaluationState,
    currentAttemptId: Id,
    attemptNumber: nat,
    attemptState: AttemptState,
    terminalResult: bool)

  /** `evaluation_state_from_str`. */
  function EvaluationStateOf(state: RowState): Result<EvaluationState, StoreError> {
    match state
    case RowQueued => Ok(EvaluationQueued)
    case RowLeased => Ok(EvaluationLeased)
    case RowCompleted => Ok(EvaluationCompleted)
    case RowFailed => Ok(EvaluationFailed)
    case RowCancelled => Ok(EvaluationCancelled)
    case _ => Err(CorruptData)
  }

  /** `attempt_state_from_str`. */
  function AttemptStateOf(state: RowState): Result<AttemptState, StoreError> {
    match state
    case RowQueued => Ok(AttemptQueued)
    case RowLeased => Ok(AttemptLeased)
    case RowCompleted => Ok(AttemptCompleted)
    case RowFailed => Ok(AttemptFailed)
    case RowCancelled => Ok(AttemptCancelled)
    case RowExpired => Ok(AttemptExpired)
    case RowReady => Err(CorruptData)
  }

  /** `evaluation_status`, with its consistency checks. */
  function Status(db: Db, e: Id): Result<Snapshot, StoreError> {
    if !Joined(db, e) then Err(NotFound)
    else
      var evaluation := db.evaluations[e];
      var a := evaluation.currentAttemptId;
      var current := db.attempts[a];
      if current.payload.evaluationId != e || current.payload.attemptId != a
         || current.payload.attemptNumber != current.attemptNumber then Err(CorruptData)
      else if current.attemptNumber > U32_MAX then Err(CorruptData)
      else
        var state :- EvaluationStateOf(evaluation.state);
        var attemptState :- AttemptStateOf(current.state);
        Ok(Snapshot(e, state, a, current.attemptNumber, attemptState, evaluation.terminalResult.Some?))
  }

  /** The answer to the caller: an error, or the status read that follows the commit. */
  function Answer(tx: Tx): Result<Snapshot, StoreError> {
    match tx.out
    case Err(error) => Err(error)
    case Ok(ReadStatus(e)) => Status(tx.db, e)
    case Ok(_) => Err(CorruptData)
  }

  /** The owner read of `judge_submit_result`: a null node column does not decode. */
  function OwnerRead(db: Db, e: Id): Result<Id, StoreError> {
    if !Joined(db, e) then Err(StaleLease)
    else match db.attempts[db.evaluations[e].currentAttemptId].nodeId
         case None => Err(Unavailable)
         case Some(node) => Ok(node)
  }

  /** `judge_submit_result` when nothing falls between its owner read and its transaction. */
  ghost function JudgeSubmitTx(db: Db, node: Id, operation: Id, token: Id, result: EvaluationResult, now: UnixMillis,
                               encodes: bool): Tx
  {
    if result.provenance.nodeId != Some(node) then Abort(db, IdentityConflict)
    else
      match OwnerRead(db, result.identity.evaluationId)
      case Err(error) => Abort(db, error)
      case Ok(owner) =>
        if owner != node then Abort(db, StaleLease) else SubmitTx(db, operation, token, result, now, encodes)
  }

  /** What the replay lookup answers when it reads row `a` for this operation. */
  function ReplayRow(row: AttemptRow, node: Id): Result<TaskLease, StoreError> {
    if row.nodeId.None? then Err(CorruptData)
    else if row.nodeId.value != node then Err(IdempotencyConflict)
    else if row.state != RowLeased then Err(LeaseConflict)
    else if row.leaseToken.None? || row.expiresAt.None? || row.expiresAt.value > MAX_UNIX_MILLIS then Err(CorruptData)
    else Ok(TaskLease(row.payload, node, row.leaseToken.value, row.expiresAt.value))
  }

  ghost predicate OperationAt(db: Db, operation: Id, a: Id) {
    a in db.attempts && db.attempts[a].claimOperation == Some(operation)
  }

  /** `claim_replay` looks the operation up without the node, so any row that carries the operation may answer. */
  ghost predicate ReplayAnswers(db: Db, node: Id, operation: Id, answer: Option<Result<TaskLease, StoreError>>) {
    match answer
    case None => forall a :: !OperationAt(db, operation, a)
    case Some(r) => exists a :: OperationAt(db, operation, a) && r == ReplayRow(db.attempts[a], node)
  }
}
