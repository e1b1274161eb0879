/** The store as the code runs it: tables updated statement by statement inside a transaction that commits or rolls
    back. Every public method is proved against its transaction function. */
module Store {
  import opened Prelude
  import opened Tokens
  import opened Domain
  import opened Spine
  import opened SpineInvariant
  import opened SpineSteps
  import opened SpineRuns
  import opened Claims
  import opened Recovery

  /** The outcome of one SQL statement. */
  datatype Statement = Done | CheckViolation | UniqueViolation

  class PostgresEvaluationStore {
    var evaluations: map<Id, EvaluationRow>
    var attempts: map<Id, AttemptRow>
    var tasks: map<Id, TaskRow>
    var artifacts: map<Id, ArtifactRef>
    var problemVersions: map<Id, ProblemVersionRef>
    var submissions: map<Id, Id>
    var runtimes: map<Id, string>

    function Contents(): Db
      reads this
    {
      Db(evaluations, attempts, tasks, artifacts, problemVersions, submissions, runtimes)
    }

    ghost predicate Valid()
      reads this
    {
      Inv(Contents())
    }

    constructor ()
      ensures Valid() && Contents() == EMPTY
    {
      evaluations, attempts, tasks := map[], map[], map[];
      artifacts, problemVersions, submissions, runtimes := map[], map[], map[], map[];
      new;
      EmptyInv();
    }

    // ---- Statements.

    method Rollback(saved: Db)
      modifies this
      ensures Contents() == saved
    {
      evaluations, attempts, tasks := saved.evaluations, saved.attempts, saved.tasks;
      artifacts, problemVersions := saved.artifacts, saved.problemVersions;
      submissions, runtimes := saved.submissions, saved.runtimes;
    }

    method RegisterArtifact(r: EvaluationRequest) returns (agrees: bool)
      modifies this`artifacts
      ensures artifacts == old(InsertIfAbsent(artifacts, r.submission.source.artifactId, r.submission.source))
      ensures agrees <==> artifacts[r.submission.source.artifactId] == r.submission.source
    {
      var source := r.submission.source;
      if source.artifactId !in artifacts {
        artifacts := artifacts[source.artifactId := source];
      }
      agrees := artifacts[source.artifactId] == source;
    }

    method RegisterProblemVersion(r: EvaluationRequest) returns (agrees: bool)
      modifies this`problemVersions
      ensures problemVersions ==
              old(InsertIfAbsent(problemVersions, r.problemVersion.problemVersionId, r.problemVersion))
      ensures agrees <==> problemVersions[r.problemVersion.problemVersionId] == r.problemVersion
    {
      var reference := r.problemVersion;
      if reference.problemVersionId !in problemVersions {
        problemVersions := problemVersions[reference.problemVersionId := reference];
      }
      agrees := problemVersions[reference.problemVersionId] == reference;
    }

    method RegisterSubmission(r: EvaluationRequest) returns (agrees: bool)
      modifies this`submissions
      ensures submissions ==
              old(InsertIfAbsent(submissions, r.submission.submissionId, r.submission.source.artifactId))
      ensures agrees <==> submissions[r.submission.submissionId] == r.submission.source.artifactId
    {
      var reference := r.submission;
      if reference.submissionId !in submissions {
        submissions := submissions[reference.submissionId := reference.source.artifactId];
      }
      agrees := submissions[reference.submissionId] == reference.source.artifactId;
    }

    method RegisterRuntime(r: EvaluationRequest) returns (agrees: bool)
      modifies this`runtimes
      ensures runtimes == old(InsertIfAbsent(runtimes, r.runtime.runtimeId, r.runtime.digest))
      ensures agrees <==> runtimes[r.runtime.runtimeId] == r.runtime.digest
    {
      if r.runtime.runtimeId !in runtimes {
        runtimes := runtimes[r.runtime.runtimeId := r.runtime.digest];
      }
      agrees := runtimes[r.runtime.runtimeId] == r.runtime.digest;
    }

    method InsertEvaluation(r: EvaluationRequest, createdAt: nat) returns (statement: Statement)
      requires forall e :: !CreationKeyAt(Contents(), r.idempotencyKey, e)
      modifies this`evaluations
      ensures statement == if !EvaluationCheck(NewEvaluationRow(r, createdAt)) then CheckViolation
                           else if r.evaluationId in old(evaluations) then UniqueViolation else Done
      ensures evaluations == if statement.Done? then old(evaluations)[r.evaluationId := NewEvaluationRow(r, createdAt)]
                             else old(evaluations)
    {
      var row := NewEvaluationRow(r, createdAt);
      if !EvaluationCheck(row) {
        return CheckViolation;
      }
      if r.evaluationId in evaluations {
        return UniqueViolation;
      }
      evaluations := evaluations[r.evaluationId := row];
      return Done;
    }

    method InsertAttempt(r: EvaluationRequest, createdAt: nat) returns (statement: Statement)
      modifies this`attempts
      ensures statement == if !AttemptCheck(NewAttemptRow(r, createdAt)) then CheckViolation
                           else if AttemptCollides(old(Contents()), r) then UniqueViolation else Done
      ensures attempts == if statement.Done? then old(attempts)[r.attemptId := NewAttemptRow(r, createdAt)]
                          else old(attempts)
    {
      var row := NewAttemptRow(r, createdAt);
      if !AttemptCheck(row) {
        return CheckViolation;
      }
      if exists a :: a in attempts && (a == r.attemptId || attempts[a].idempotencyKey == r.idempotencyKey
           || (attempts[a].evaluationId == r.evaluationId && attempts[a].attemptNumber == r.attemptNumber)) {
        assert AttemptCollides(Contents(), r) by {
          var a :| a in attempts && (a == r.attemptId || attempts[a].idempotencyKey == r.idempotencyKey
               || (attempts[a].evaluationId == r.evaluationId && attempts[a].attemptNumber == r.attemptNumber));
          assert a == r.attemptId || AttemptKeyAt(Contents(), r.idempotencyKey, a)
                 || AttemptAt(Contents(), r.evaluationId, r.attemptNumber, a);
        }
        return UniqueViolation;
      }
      attempts := attempts[r.attemptId := row];
      return Done;
    }

    method InsertTask(r: EvaluationRequest, createdAt: nat) returns (statement: Statement)
      modifies this`tasks
      ensures statement == if !TaskCheck(NewTaskRow(r, createdAt)) then CheckViolation
                           else if r.attemptId in old(tasks) then UniqueViolation else Done
      ensures tasks == if statement.Done? then old(tasks)[r.attemptId := NewTaskRow(r, createdAt)] else old(tasks)
    {
      var row := NewTaskRow(r, createdAt);
      var accepted := ValidRequiredCapabilities(row.requiredCapabilities);
      if !TimeCheck(row.createdAt, row.updatedAt) || !accepted {
        return CheckViolation;
      }
      if r.attemptId in tasks {
        return UniqueViolation;
      }
      tasks := tasks[r.attemptId := row];
      return Done;
    }

    method UpdateEvaluation(e: Id, row: EvaluationRow) returns (statement: Statement)
      requires e in evaluations
      modifies this`evaluations
      ensures statement == if !EvaluationCheck(row) then CheckViolation
                           else if ResultKeyCollides(old(Contents()), e, row) then UniqueViolation else Done
      ensures evaluations == if statement.Done? then old(evaluations)[e := row] else old(evaluations)
    {
      if !EvaluationCheck(row) {
        return CheckViolation;
      }
      if row.resultKey.Some? && exists f :: f in evaluations && f != e && evaluations[f].resultKey == row.resultKey {
        assert ResultKeyCollides(Contents(), e, row) by {
          var f :| f in evaluations && f != e && evaluations[f].resultKey == row.resultKey;
          assert ResultKeyAt(Contents(), row.resultKey.value, f);
        }
        return UniqueViolation;
      }
      evaluations := evaluations[e := row];
      return Done;
    }

    method UpdateAttempt(a: Id, row: AttemptRow) returns (statement: Statement)
      requires a in attempts
      modifies this`attempts
      ensures statement == if !AttemptCheck(row) then CheckViolation
                           else if OperationCollides(old(Contents()), a, row) then UniqueViolation else Done
      ensures attempts == if statement.Done? then old(attempts)[a := row] else old(attempts)
    {
      if !AttemptCheck(row) {
        return CheckViolation;
      }
      if row.claimOperation.Some? && row.nodeId.Some?
         && exists b :: b in attempts && b != a && attempts[b].nodeId == row.nodeId
                        && attempts[b].claimOperation == row.claimOperation {
        assert OperationCollides(Contents(), a, row) by {
          var b :| b in attempts && b != a && attempts[b].nodeId == row.nodeId
                   && attempts[b].claimOperation == row.claimOperation;
          assert ClaimedBy(Contents(), row.nodeId.value, row.claimOperation.value, b);
        }
        return UniqueViolation;
      }
      attempts := attempts[a := row];
      return Done;
    }

    method UpdateTask(a: Id, state: RowState, now: nat) returns (statement: Statement)
      requires a in tasks
      modifies this`tasks
      ensures statement == if !TaskCheck(old(tasks)[a].(state := state, updatedAt := now)) then CheckViolation else Done
      ensures tasks == if statement.Done? then old(tasks)[a := old(tasks)[a].(state := state, updatedAt := now)]
                       else old(tasks)
    {
      var row := tasks[a].(state := state, updatedAt := now);
      var accepted := ValidRequiredCapabilities(row.requiredCapabilities);
      if row.state !in {RowReady, RowLeased, RowCompleted, RowCancelled, RowExpired}
         || !TimeCheck(row.createdAt, row.updatedAt) || !accepted {
        return CheckViolation;
      }
      tasks := tasks[a := row];
      return Done;
    }

    // ---- Transactions.

    /** The four registrations, up to the first one that finds other metadata. */
    method RegisterReferences(r: EvaluationRequest) returns (agrees: bool)
      modifies this`artifacts, this`problemVersions, this`submissions, this`runtimes
      ensures agrees <==> RegistryAgrees(Register(old(Contents()), r), r)
      ensures agrees ==> Contents() == Register(old(Contents()), r)
    {
      agrees := RegisterArtifact(r);
      if agrees {
        agrees := RegisterProblemVersion(r);
      }
      if agrees {
        agrees := RegisterSubmission(r);
      }
      if agrees {
        agrees := RegisterRuntime(r);
      }
    }

    /** The three insertions of a create, up to the first violation. */
    method InsertRows(r: EvaluationRequest, createdAt: nat, ghost begun: Db) returns (statement: Statement)
      requires Contents() == Register(begun, r)
      requires forall e :: !CreationKeyAt(begun, r.idempotencyKey, e)
      modifies this`evaluations, this`attempts, this`tasks
      ensures statement.Done? ==> InsertNew(begun, r, createdAt) == Tx(Contents(), Ok(ReadStatus(r.evaluationId)))
      ensures !statement.Done? ==>
        InsertNew(begun, r, createdAt) ==
        Abort(begun, if statement.UniqueViolation? then IdentityConflict else Unavailable)
    {
      hide RegistryAgrees, DatabaseAccepts;
      SameRows(begun, r);
      assert forall e :: CreationKeyAt(Contents(), r.idempotencyKey, e) ==> CreationKeyAt(begun, r.idempotencyKey, e);
      statement := InsertEvaluation(r, createdAt);
      if statement.Done? {
        SameAttempts(begun, Contents(), r);
        statement := InsertAttempt(r, createdAt);
      }
      if statement.Done? {
        statement := InsertTask(r, createdAt);
      }
    }

    method CreateEvaluation(r: EvaluationRequest, createdAt: UnixMillis, encodes: bool)
      returns (out: Result<Snapshot, StoreError>)
      requires Valid()
      modifies this
      ensures Valid()
      ensures Contents() == CreateTx(old(Contents()), r, createdAt, encodes).db
      ensures out == Answer(CreateTx(old(Contents()), r, createdAt, encodes))
    {
      hide Inv, RegistryAgrees, Register, InsertNew, Status;
      var begun := Contents();
      StepKeepsInv(begun, Create(r, createdAt, encodes));
      if !encodes {
        return Err(CorruptData);
      }
      if e :| e in evaluations && evaluations[e].creationKey == r.idempotencyKey {
        UniqueCreationKey(begun, r.idempotencyKey, e);
        if evaluations[e].initialRequest != r {
          return Err(IdempotencyConflict);
        }
        return Status(Contents(), e);
      }
      assert forall e :: !CreationKeyAt(begun, r.idempotencyKey, e);
      var agrees := RegisterReferences(r);
      if !agrees {
        Rollback(begun);
        return Err(ImmutableReferenceConflict);
      }
      var statement := InsertRows(r, createdAt, begun);
      if !statement.Done? {
        Rollback(begun);
        return Err(if statement.UniqueViolation? then IdentityConflict else Unavailable);
      }
      return Status(Contents(), r.evaluationId);
    }

    /** The status read behind every answer. */
    method EvaluationStatus(e: Id) returns (out: Result<Snapshot, StoreError>)
      ensures out == Status(Contents(), e)
    {
      return Status(Contents(), e);
    }

    /** The three updates of a claim. */
    method WriteClaim(a: Id, node: Id, token: Id, now: UnixMillis, expiry: nat, operation: Option<Id>)
      returns (statement: Statement)
      requires a in attempts && a in tasks && attempts[a].evaluationId in evaluations
      requires evaluations[attempts[a].evaluationId].resultKey.None?
      modifies this`evaluations, this`attempts, this`tasks
      ensures statement.Done? <==>
        && AttemptCheck(ClaimedDb(old(Contents()), a, node, token, now, expiry, operation).attempts[a])
        && !OperationCollides(old(Contents()), a,
                              ClaimedDb(old(Contents()), a, node, token, now, expiry, operation).attempts[a])
        && EvaluationCheck(ClaimedDb(old(Contents()), a, node, token, now, expiry, operation)
                           .evaluations[old(attempts)[a].evaluationId])
        && TaskCheck(ClaimedDb(old(Contents()), a, node, token, now, expiry, operation).tasks[a])
      ensures statement.Done? ==>
        Contents() == ClaimedDb(old(Contents()), a, node, token, now, expiry, operation)
    {
      var row := attempts[a];
      statement := UpdateAttempt(a, row.(state := RowLeased, nodeId := Some(node), leaseToken := Some(token),
                                         expiresAt := Some(expiry), claimOperation := operation, updatedAt := now));
      if statement.Done? {
        statement := UpdateEvaluation(row.evaluationId,
                                      evaluations[row.evaluationId].(state := RowLeased, updatedAt := now));
      }
      if statement.Done? {
        statement := UpdateTask(a, RowLeased, now);
      }
    }

    /** The claim of a selected attempt: the payload must name it, then the three updates. */
    method ClaimRow(a: Id, node: Id, token: Id, now: UnixMillis, expiry: nat, operation: Option<Id>)
      returns (out: Result<TaskLease, StoreError>)
      requires a in attempts && a in tasks && attempts[a].evaluationId in evaluations
      requires evaluations[attempts[a].evaluationId].resultKey.None?
      modifies this
      ensures var tx := ClaimAttempt(old(Contents()), a, node, token, now, expiry, operation);
              && Contents() == tx.db
              && tx.out == match out case Ok(lease) => Ok(Granted(lease)) case Err(error) => Err(error)
    {
      hide DatabaseAccepts;
      var begun := Contents();
      var row := attempts[a];
      if row.payload.attemptId != a || row.payload.evaluationId != row.evaluationId
         || row.payload.attemptNumber != row.attemptNumber {
        return Err(CorruptData);
      }
      var statement := WriteClaim(a, node, token, now, expiry, operation);
      if !statement.Done? {
        Rollback(begun);
        return Err(Unavailable);
      }
      return Ok(TaskLease(row.payload, node, token, expiry));
    }

    method ClaimTask(node: Id, token: Id, now: UnixMillis, duration: LeaseDuration, operation: Option<Id>,
                     capabilities: Option<set<string>>, skipped: set<Id>)
      returns (out: Result<TaskLease, StoreError>)
      requires Valid()
      modifies this
      ensures Valid()
      ensures var tx := ClaimTx(old(Contents()), node, token, now, duration, operation, capabilities, skipped);
              && Contents() == tx.db
              && tx.out == match out case Ok(lease) => Ok(Granted(lease)) case Err(error) => Err(error)
    {
      hide Inv, EvaluationInv, AttemptInv, Claimable, NextTask, ClaimAttempt;
      var begun := Contents();
      StepKeepsInv(begun, Claim(node, token, now, duration, operation, capabilities, skipped));
      var expiry := CheckedAdd(now, duration);
      if expiry.Err? {
        return Err(InvalidTime);
      }
      if a :| a in tasks && NextTask(Contents(), capabilities, skipped, a) {
        SelectTaskIsLeast(begun, capabilities, skipped, a);
        NextTaskIsStored(begun, capabilities, skipped, a);
        ClaimableIsCurrent(begun, capabilities, skipped, a);
        QueuedHasNoResult(begun, attempts[a].evaluationId);
        out := ClaimRow(a, node, token, now, expiry.value, operation);
        return;
      }
      forall a ensures !NextTask(begun, capabilities, skipped, a) {
        NextTaskIsStored(begun, capabilities, skipped, a);
      }
      return Err(NoTaskAvailable);
    }

    method RenewLease(node: Id, e: Id, attempt: Id, token: Id, now: UnixMillis, duration: LeaseDuration)
      returns (out: Result<Reply, StoreError>)
      requires Valid()
      modifies this
      ensures Valid()
      ensures RenewTx(old(Contents()), node, e, attempt, token, now, duration) == Tx(Contents(), out)
    {
      hide Inv, EvaluationInv, AttemptInv;
      var begun := Contents();
      StepKeepsInv(begun, Renew(node, e, attempt, token, now, duration));
      var expiry := CheckedAdd(now, duration);
      if expiry.Err? {
        return Err(InvalidTime);
      }
      if e !in evaluations || evaluations[e].currentAttemptId !in attempts {
        return Err(NotFound);
      }
      var evaluation := evaluations[e];
      var current := attempts[evaluation.currentAttemptId];
      if evaluation.state == RowCancelled || current.state == RowCancelled {
        return Ok(CancelLease);
      }
      if current.nodeId.None? || current.leaseToken.None? {
        return Err(CorruptData);
      }
      if evaluation.state != RowLeased || current.state != RowLeased || evaluation.currentAttemptId != attempt
         || current.nodeId.value != node || current.leaseToken.value != token {
        return Err(StaleLease);
      }
      var renewed := current.(expiresAt := Some(expiry.value), updatedAt := now);
      OwnOperation(begun, attempt, renewed);
      var statement := UpdateAttempt(attempt, renewed);
      if !statement.Done? {
        return Err(Unavailable);
      }
      return Ok(Continue(expiry.value));
    }

    /** `replace_attempt`: three updates, then the insertion of the successor and its task. */
    method ReplaceRows(a: Id, r: EvaluationRequest, now: UnixMillis) returns (statement: Statement)
      requires a in attempts && a in tasks && r.evaluationId in evaluations
      requires evaluations[r.evaluationId].resultKey.None?
      requires !OperationCollides(Contents(), a, attempts[a])
      modifies this`evaluations, this`attempts, this`tasks
      ensures statement.Done? ==>
        ReplaceAttempt(old(Contents()), a, r, now) == Tx(Contents(), Ok(ReadStatus(r.evaluationId)))
      ensures !statement.Done? ==>
        ReplaceAttempt(old(Contents()), a, r, now) ==
        Abort(old(Contents()), if statement.UniqueViolation? then IdentityConflict else Unavailable)
    {
      hide DatabaseAccepts;
      ghost var begun := Contents();
      statement := UpdateAttempt(a, attempts[a].(state := RowExpired, updatedAt := now));
      if statement.Done? {
        statement := UpdateTask(a, RowExpired, now);
      }
      if statement.Done? {
        statement := UpdateEvaluation(r.evaluationId,
          evaluations[r.evaluationId].(state := RowQueued, currentAttemptId := r.attemptId, updatedAt := now));
      }
      if statement.Done? {
        ExpiryKeepsKeys(begun, Contents(), a, r);
        statement := InsertAttempt(r, now);
      }
      if statement.Done? {
        statement := InsertTask(r, now);
      }
    }

    method RetryExpired(r: EvaluationRequest, now: UnixMillis, encodes: bool)
      returns (out: Result<Snapshot, StoreError>)
      requires Valid()
      modifies this
      ensures Valid()
      ensures Contents() == RetryTx(old(Contents()), r, now, encodes).db
      ensures out == Answer(RetryTx(old(Contents()), r, now, encodes))
    {
      hide Inv, EvaluationInv, AttemptInv, ReplaceAttempt, SameEvaluationSemantics, Status;
      var begun := Contents();
      StepKeepsInv(begun, Retry(r, now, encodes));
      if !encodes {
        return Err(CorruptData);
      }
      if a :| a in attempts && attempts[a].idempotencyKey == r.idempotencyKey {
        UniqueAttemptKey(begun, r.idempotencyKey, a);
        if attempts[a].payload != r {
          return Err(IdempotencyConflict);
        }
        return Status(Contents(), attempts[a].evaluationId);
      }
      assert forall a :: !AttemptKeyAt(begun, r.idempotencyKey, a);
      if r.evaluationId !in evaluations || evaluations[r.evaluationId].currentAttemptId !in attempts {
        return Err(NotFound);
      }
      var a := evaluations[r.evaluationId].currentAttemptId;
      var current := attempts[a];
      if evaluations[r.evaluationId].state != RowLeased || current.state != RowLeased {
        return Err(StoreError.InvalidTransition);
      }
      if current.expiresAt.None? {
        return Err(CorruptData);
      }
      if current.expiresAt.value >= now {
        return Err(LeaseConflict);
      }
      if r.attemptNumber != current.attemptNumber + 1 {
        return Err(StoreError.InvalidTransition);
      }
      if !SameEvaluationSemantics(current.payload, r) {
        return Err(IdentityConflict);
      }
      CurrentTask(begun, r.evaluationId);
      QueuedHasNoResult(begun, r.evaluationId);
      OwnOperation(begun, a, current);
      var statement := ReplaceRows(a, r, now);
      if !statement.Done? {
        Rollback(begun);
        return Err(if statement.UniqueViolation? then IdentityConflict else Unavailable);
      }
      return Status(Contents(), r.evaluationId);
    }

    /** The three updates of `write_terminal`. */
    method WriteTerminalRows(e: Id, state: RowState, taskState: RowState, result: EvaluationResult, key: Id,
                             now: UnixMillis)
      returns (error: Option<StoreError>)
      requires e in evaluations && evaluations[e].currentAttemptId in attempts
      requires evaluations[e].currentAttemptId in tasks
      requires !OperationCollides(Contents(), evaluations[e].currentAttemptId,
                                  attempts[evaluations[e].currentAttemptId])
      modifies this`evaluations, this`attempts, this`tasks
      ensures var tx := WriteTerminal(old(Contents()), e, old(evaluations[e].currentAttemptId), state, taskState,
                                      result, key, now);
              match error
              case None => tx == Tx(Contents(), Ok(ReadStatus(e)))
              case Some(kind) => tx == Abort(old(Contents()), kind)
    {
      hide DatabaseAccepts;
      var a := evaluations[e].currentAttemptId;
      var statement := UpdateEvaluation(e,
        evaluations[e].(state := state, terminalResult := Some(result), resultKey := Some(key), updatedAt := now));
      if statement.UniqueViolation? {
        return Some(IdempotencyConflict);
      }
      if statement.Done? {
        OnlyEvaluations(old(Contents()), Contents(), a, attempts[a].(state := state, updatedAt := now));
        statement := UpdateAttempt(a, attempts[a].(state := state, updatedAt := now));
      }
      if statement.Done? {
        statement := UpdateTask(a, taskState, now);
      }
      return if statement.Done? then None else Some(Unavailable);
    }

    method SubmitResult(key: Id, token: Id, result: EvaluationResult, now: UnixMillis, encodes: bool)
      returns (out: Result<Snapshot, StoreError>)
      requires Valid()
      modifies this
      ensures Valid()
      ensures Contents() == SubmitTx(old(Contents()), key, token, result, now, encodes).db
      ensures out == Answer(SubmitTx(old(Contents()), key, token, result, now, encodes))
    {
      hide Inv, EvaluationInv, AttemptInv, WriteTerminal, Status;
      var begun := Contents();
      StepKeepsInv(begun, Submit(key, token, result, now, encodes));
      var e := result.identity.evaluationId;
      if !encodes {
        return Err(CorruptData);
      }
      if e !in evaluations || evaluations[e].currentAttemptId !in attempts {
        return Err(NotFound);
      }
      var evaluation := evaluations[e];
      if evaluation.terminalResult.Some? {
        if evaluation.resultKey == Some(key) {
          if evaluation.terminalResult.value != result {
            return Err(IdempotencyConflict);
          }
          return Status(Contents(), e);
        }
        return Err(TerminalConflict);
      }
      var current := attempts[evaluation.currentAttemptId];
      if evaluation.state != RowLeased || current.state != RowLeased
         || evaluation.currentAttemptId != result.identity.attemptId {
        return Err(StaleLease);
      }
      if current.leaseToken.None? || current.expiresAt.None? {
        return Err(CorruptData);
      }
      if current.leaseToken.value != token {
        return Err(StaleLease);
      }
      if current.expiresAt.value < now {
        return Err(StaleLease);
      }
      if IdentityOf(current.payload) != result.identity {
        return Err(IdentityConflict);
      }
      CurrentTask(begun, e);
      OwnOperation(begun, evaluation.currentAttemptId, current);
      var error := WriteTerminalRows(e, StatusRow(result.status), StatusTaskRow(result.status), result, key, now);
      if error.Some? {
        Rollback(begun);
        return Err(error.value);
      }
      return Status(Contents(), e);
    }

    method CancelEvaluation(key: Id, e: Id, result: EvaluationResult, now: UnixMillis, encodes: bool)
      returns (out: Result<Snapshot, StoreError>)
      requires Valid()
      modifies this
      ensures Valid()
      ensures Contents() == CancelTx(old(Contents()), key, e, result, now, encodes).db
      ensures out == Answer(CancelTx(old(Contents()), key, e, result, now, encodes))
    {
      hide Inv, EvaluationInv, AttemptInv, WriteTerminal, Status;
      var begun := Contents();
      StepKeepsInv(begun, Cancel(key, e, result, now, encodes));
      if result.status != StatusCancelled || result.identity.evaluationId != e {
        return Err(IdentityConflict);
      }
      if !encodes {
        return Err(CorruptData);
      }
      if e !in evaluations || evaluations[e].currentAttemptId !in attempts {
        return Err(NotFound);
      }
      var evaluation := evaluations[e];
      if evaluation.terminalResult.Some? {
        if evaluation.resultKey == Some(key) {
          if evaluation.terminalResult.value != result {
            return Err(IdempotencyConflict);
          }
          return Status(Contents(), e);
        }
        return Err(TerminalConflict);
      }
      var current := attempts[evaluation.currentAttemptId];
      if evaluation.state !in {RowQueued, RowLeased} || current.state !in {RowQueued, RowLeased} {
        return Err(StoreError.InvalidTransition);
      }
      if evaluation.currentAttemptId != result.identity.attemptId || IdentityOf(current.payload) != result.identity {
        return Err(IdentityConflict);
      }
      CurrentTask(begun, e);
      OwnOperation(begun, evaluation.currentAttemptId, current);
      var error := WriteTerminalRows(e, RowCancelled, RowCancelled, result, key, now);
      if error.Some? {
        Rollback(begun);
        return Err(error.value);
      }
      return Status(Contents(), e);
    }

    // ---- Operations that take several transactions.

    /** `recover_expired`, run alone: every turn scans, builds the successor and retries. */
    method RecoverExpired(now: UnixMillis, draws: seq<Draw>) returns (out: Result<nat, StoreError>)
      requires Valid()
      modifies this
      ensures Valid()
      ensures Recover(old(Contents()), now, draws, 0) == Recovered(Contents(), out)
    {
      hide Inv, RetryTx, Answer, WithNextAttempt;
      ghost var begun := Contents();
      var recovered: nat := 0;
      var turn: nat := 0;
      while true
        invariant turn <= |draws| && Valid()
        invariant Recover(begun, now, draws, 0) == Recover(Contents(), now, draws[turn..], recovered)
        decreases |draws| - turn
      {
        if a :| a in attempts && FirstExpired(Contents(), now, a) {
          forall b | FirstExpired(Contents(), now, b) ensures b == a { FirstExpiredIsUnique(Contents(), now, a, b); }
          if turn == |draws| {
            return Err(Unavailable);
          }
          var draw := draws[turn];
          assert draws[turn..][0] == draw && draws[turn..][1..] == draws[turn + 1..];
          var next := WithNextAttempt(attempts[a].payload, draw.attemptId, draw.key);
          if next.Err? {
            return Err(CorruptData);
          }
          var answer := RetryExpired(next.value, now, true);
          turn := turn + 1;
          match answer {
            case Ok(_) => recovered := SaturatingIncrement(recovered);
            case Err(error) =>
              if !Skips(error) {
                return Err(error);
              }
          }
        } else {
          assert forall b :: FirstExpired(Contents(), now, b) ==> b in attempts;
          return Ok(recovered);
        }
      }
    }

    /** `claim_replay`. */
    method ClaimReplay(node: Id, operation: Id) returns (answer: Option<Result<TaskLease, StoreError>>)
      ensures ReplayAnswers(Contents(), node, operation, answer)
    {
      if a :| a in attempts && attempts[a].claimOperation == Some(operation) {
        assert OperationAt(Contents(), operation, a);
        return Some(ReplayRow(attempts[a], node));
      }
      return None;
    }

    /** `judge_claim_task` without interleaving: the replay answers alone, and only an unknown operation claims. */
    method JudgeClaimTask(node: Id, token: Id, now: UnixMillis, duration: LeaseDuration, operation: Id,
                          capabilities: set<string>, skipped: set<Id>)
      returns (out: Result<TaskLease, StoreError>)
      requires Valid()
      modifies this
      ensures Valid()
      ensures if forall a :: !OperationAt(old(Contents()), operation, a) then
                var tx := ClaimTx(old(Contents()), node, token, now, duration, Some(operation), Some(capabilities),
                                  skipped);
                && Contents() == tx.db
                && tx.out == match out case Ok(lease) => Ok(Granted(lease)) case Err(error) => Err(error)
              else ReplayAnswers(Contents(), node, operation, Some(out)) && Contents() == old(Contents())
    {
      hide Inv, ClaimTx;
      var replayed := ClaimReplay(node, operation);
      if replayed.Some? {
        return replayed.value;
      }
      out := ClaimTask(node, token, now, duration, Some(operation), Some(capabilities), skipped);
    }

    /** `judge_submit_result` without interleaving: provenance, then the owner read, then the transaction. */
    method JudgeSubmitResult(node: Id, operation: Id, token: Id, result: EvaluationResult, now: UnixMillis,
                             encodes: bool)
      returns (out: Result<Snapshot, StoreError>)
      requires Valid()
      modifies this
      ensures Valid()
      ensures Contents() == JudgeSubmitTx(old(Contents()), node, operation, token, result, now, encodes).db
      ensures out == Answer(JudgeSubmitTx(old(Contents()), node, operation, token, result, now, encodes))
    {
      hide Inv, SubmitTx, Status;
      if result.provenance.nodeId != Some(node) {
        return Err(IdentityConflict);
      }
      var owner := OwnerRead(Contents(), result.identity.evaluationId);
      if owner.Err? {
        return Err(owner.error);
      }
      if owner.value != node {
        return Err(StaleLease);
      }
      out := SubmitResult(operation, token, result, now, encodes);
    }
  }

  lemma NextTaskIsStored(db: Db, capabilities: Option<set<string>>, skipped: set<Id>, a: Id)
    ensures NextTask(db, capabilities, skipped, a) ==> a in db.tasks && Claimable(db, capabilities, skipped, a)
  {
  }

  lemma QueuedHasNoResult(db: Db, e: Id)
    requires Inv(db) && e in db.evaluations && db.evaluations[e].state in {RowQueued, RowLeased}
    ensures db.evaluations[e].resultKey.None?
  {
    hide AttemptsInv, CountsInv, Unique;
    assert EvaluationInv(db, e);
  }

  /** Rewriting a row that keeps its own operation never collides with another. */
  lemma OwnOperation(db: Db, a: Id, row: AttemptRow)
    requires Inv(db) && a in db.attempts
    requires row.nodeId == db.attempts[a].nodeId && row.claimOperation == db.attempts[a].claimOperation
    ensures !OperationCollides(db, a, row)
  {
    hide EvaluationsInv, AttemptsInv, CountsInv;
    if row.claimOperation.Some? && row.nodeId.Some? {
      assert ClaimedBy(db, row.nodeId.value, row.claimOperation.value, a);
    }
  }

  lemma OnlyEvaluations(db: Db, db': Db, a: Id, row: AttemptRow)
    requires db'.attempts == db.attempts && a in db.attempts
    requires row.nodeId == db.attempts[a].nodeId && row.claimOperation == db.attempts[a].claimOperation
    requires !OperationCollides(db, a, db.attempts[a])
    ensures !OperationCollides(db', a, row)
  {
    if OperationCollides(db', a, row) {
      var b :| b != a && ClaimedBy(db', row.nodeId.value, row.claimOperation.value, b);
      assert ClaimedBy(db, row.nodeId.value, row.claimOperation.value, b);
    }
  }

  lemma ExpiryKeepsKeys(db: Db, db': Db, a: Id, r: EvaluationRequest)
    requires a in db.attempts && a in db'.attempts && db'.attempts == db.attempts[a := db'.attempts[a]]
    requires db'.attempts[a] == db.attempts[a].(state := db'.attempts[a].state, updatedAt := db'.attempts[a].updatedAt)
    ensures AttemptCollides(db', r) <==> AttemptCollides(db, r)
  {
    forall b ensures AttemptKeyAt(db', r.idempotencyKey, b) <==> AttemptKeyAt(db, r.idempotencyKey, b) {}
    forall b ensures AttemptAt(db', r.evaluationId, r.attemptNumber, b)
                     <==> AttemptAt(db, r.evaluationId, r.attemptNumber, b) {}
  }

  lemma SameRows(db: Db, r: EvaluationRequest)
    ensures Register(db, r).evaluations == db.evaluations && Register(db, r).attempts == db.attempts
    ensures Register(db, r).tasks == db.tasks
  {
  }

  lemma SameAttempts(db: Db, db': Db, r: EvaluationRequest)
    requires db'.attempts == db.attempts
    ensures AttemptCollides(db', r) <==> AttemptCollides(db, r)
  {
    forall a ensures AttemptKeyAt(db', r.idempotencyKey, a) <==> AttemptKeyAt(db, r.idempotencyKey, a) {}
    forall a ensures AttemptAt(db', r.evaluationId, r.attemptNumber, a)
                     <==> AttemptAt(db, r.evaluationId, r.attemptNumber, a) {}
  }

  ghost predicate AttemptCollides(db: Db, r: EvaluationRequest) {
    r.attemptId in db.attempts || AttemptByKey(db, r.idempotencyKey).Some?
    || exists a :: AttemptAt(db, r.evaluationId, r.attemptNumber, a)
  }

  ghost predicate ResultKeyCollides(db: Db, e: Id, row: EvaluationRow) {
    row.resultKey.Some? && exists f :: f != e && ResultKeyAt(db, row.resultKey.value, f)
  }

  ghost predicate OperationCollides(db: Db, a: Id, row: AttemptRow) {
    row.claimOperation.Some? && row.nodeId.Some?
    && exists b :: b != a && ClaimedBy(db, row.nodeId.value, row.claimOperation.value, b)
  }
}
