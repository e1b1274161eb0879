/** What each transaction does to a reachable store: exactly when it commits, that it keeps the invariant, and how a
    row may evolve over one step and over any run. */
module SpineSteps {
  import opened Prelude
  import opened Tokens
  import opened Domain
  import opened Spine
  import opened SpineInvariant

  // ---- Exact commit conditions.

  ghost predicate CreatedWith(db: Db, r: EvaluationRequest) {
    exists e :: CreationKeyAt(db, r.idempotencyKey, e) && db.evaluations[e].initialRequest == r
  }

  lemma CreateEffect(db: Db, r: EvaluationRequest, createdAt: UnixMillis, encodes: bool)
    requires Inv(db)
    ensures var tx := CreateTx(db, r, createdAt, encodes);
            && (tx.db != db <==> encodes && Insertable(db, r))
            && (tx.db != db ==> tx.db == Inserted(db, r, createdAt))
            && (tx.out.Ok? <==> encodes && (Insertable(db, r) || CreatedWith(db, r)))
  {
    hide AttemptInv, EvaluationInv, Counted, GapFree, DatabaseAccepts, RegistryAgrees, Register;
    if exists e :: CreationKeyAt(db, r.idempotencyKey, e) {
    } else if r.evaluationId !in db.evaluations {
      forall a ensures !AttemptAt(db, r.evaluationId, r.attemptNumber, a) {
        if a in db.attempts { NoAttemptYet(db, r.evaluationId, a); }
      }
      if Insertable(db, r) {
        assert r.evaluationId in Inserted(db, r, createdAt).evaluations;
      }
    }
  }

  /** The guards of `retry_expired` before `replace_attempt` runs. */
  ghost predicate Retryable(db: Db, r: EvaluationRequest, now: nat) {
    && Joined(db, r.evaluationId)
    && var evaluation := db.evaluations[r.evaluationId];
    && var current := db.attempts[evaluation.currentAttemptId];
    && evaluation.state == RowLeased && current.state == RowLeased
    && current.expiresAt.Some? && current.expiresAt.value < now
    && r.attemptNumber == current.attemptNumber + 1
    && SameEvaluationSemantics(current.payload, r)
  }

  lemma ReplaceEffect(db: Db, r: EvaluationRequest, now: UnixMillis)
    requires Retryable(db, r, now) && EvaluationInv(db, r.evaluationId)
    requires AttemptInv(db, db.evaluations[r.evaluationId].currentAttemptId)
    requires db.tasks.Keys == db.attempts.Keys
    requires forall b :: !AttemptAt(db, r.evaluationId, r.attemptNumber, b)
    ensures var tx := ReplaceAttempt(db, db.evaluations[r.evaluationId].currentAttemptId, r, now);
            && (tx.out.Ok? <==> Replaceable(db, r, now))
            && (if tx.out.Ok? then tx.db == Replaced(db, r, now) else tx.db == db)
  {
    hide DatabaseAccepts, RegistryAgrees;
  }

  lemma RetryEffect(db: Db, r: EvaluationRequest, now: UnixMillis, encodes: bool)
    requires Inv(db)
    ensures var tx := RetryTx(db, r, now, encodes);
            && (tx.db != db <==> encodes && Replaceable(db, r, now))
            && (tx.db != db ==> Joined(db, r.evaluationId)
                                && db.evaluations[r.evaluationId].currentAttemptId in db.tasks
                                && tx.db == Replaced(db, r, now))
            && (tx.out.Ok? <==> encodes && (Replaceable(db, r, now) || RetriedWith(db, r)))
  {
    hide AttemptInv, Counted, GapFree, DatabaseAccepts, RegistryAgrees, ReplaceAttempt, SameEvaluationSemantics;
    if !(exists a :: AttemptKeyAt(db, r.idempotencyKey, a)) && Joined(db, r.evaluationId) {
      var a := db.evaluations[r.evaluationId].currentAttemptId;
      assert EvaluationInv(db, r.evaluationId) && AttemptInv(db, a);
      LeaseIsSet(db, a);
      if Retryable(db, r, now) {
        forall b ensures !AttemptAt(db, r.evaluationId, r.attemptNumber, b) {
          NumberIsFree(db, r.evaluationId, r.attemptNumber, b);
        }
        ReplaceEffect(db, r, now);
        if Replaceable(db, r, now) {
          assert r.attemptId in Replaced(db, r, now).attempts;
        }
      }
    }
  }

  lemma LeaseIsSet(db: Db, a: Id)
    requires a in db.attempts && AttemptInv(db, a)
    ensures LeaseFields(db.attempts[a]) && AttemptCheck(db.attempts[a]) && a in db.tasks
    ensures Joined(db, db.attempts[a].evaluationId)
  {
  }

  ghost predicate RetriedWith(db: Db, r: EvaluationRequest) {
    exists a :: AttemptKeyAt(db, r.idempotencyKey, a) && db.attempts[a].payload == r
  }

  /** When a claim of attempt `a` is granted. */
  ghost predicate Grantable(db: Db, a: Id, node: Id, now: UnixMillis, duration: LeaseDuration, operation: Option<Id>)
    requires a in db.attempts
  {
    && now + duration <= MAX_UNIX_MILLIS && db.attempts[a].createdAt <= now
    && (operation.Some? ==> forall b :: !ClaimedBy(db, node, operation.value, b))
  }

  function ClaimedDb(db: Db, a: Id, node: Id, token: Id, now: nat, expiry: nat, operation: Option<Id>): Db
    requires a in db.attempts && a in db.tasks && db.attempts[a].evaluationId in db.evaluations
  {
    var e := db.attempts[a].evaluationId;
    Touch(db, e, a,
          db.evaluations[e].(state := RowLeased, updatedAt := now),
          db.attempts[a].(state := RowLeased, nodeId := Some(node), leaseToken := Some(token),
                          expiresAt := Some(expiry), claimOperation := operation, updatedAt := now),
          db.tasks[a].(state := RowLeased, updatedAt := now))
  }

  lemma CurrentInv(db: Db, a: Id)
    requires AttemptsInv(db) && a in db.attempts
    ensures AttemptInv(db, a)
  {
  }

  /** A claimable attempt is the queued current attempt of its own evaluation. */
  lemma ClaimableIsCurrent(db: Db, capabilities: Option<set<string>>, skipped: set<Id>, a: Id)
    requires Inv(db) && Claimable(db, capabilities, skipped, a)
    ensures QueuedAttempt(db, a) && db.attempts[a].nodeId.None?
  {
    hide AttemptsInv, CountsInv, Unique;
    var e :| e in db.evaluations && db.evaluations[e].currentAttemptId == a && db.evaluations[e].state == RowQueued;
    assert EvaluationInv(db, e);
    CurrentInv(db, a);
  }

  /** Attempt `a` is the queued current attempt of its evaluation, and both rows are as the invariant says. */
  ghost predicate QueuedAttempt(db: Db, a: Id) {
    && a in db.attempts && a in db.tasks && Joined(db, db.attempts[a].evaluationId)
    && db.evaluations[db.attempts[a].evaluationId].currentAttemptId == a
    && EvaluationInv(db, db.attempts[a].evaluationId) && AttemptInv(db, a)
    && db.evaluations[db.attempts[a].evaluationId].state == RowQueued
  }

  lemma ClaimEffect(db: Db, a: Id, node: Id, token: Id, now: UnixMillis, duration: LeaseDuration,
                    operation: Option<Id>)
    requires QueuedAttempt(db, a) && now + duration <= MAX_UNIX_MILLIS
    ensures var tx := ClaimAttempt(db, a, node, token, now, now + duration, operation);
            && (tx.out.Ok? <==> Grantable(db, a, node, now, duration, operation))
            && (if tx.out.Ok? then
                  tx.db == ClaimedDb(db, a, node, token, now, now + duration, operation)
                  && tx.out == Ok(Granted(TaskLease(db.attempts[a].payload, node, token, now + duration)))
                else tx == Abort(db, Unavailable))
  {
    hide DatabaseAccepts, RegistryAgrees, SameEvaluationSemantics;
    if operation.Some? {
      assert !ClaimedBy(db, node, operation.value, a);
    }
  }

  lemma ClaimRewrites(db: Db, a: Id, node: Id, token: Id, now: UnixMillis, duration: LeaseDuration,
                      operation: Option<Id>)
    requires QueuedAttempt(db, a) && Grantable(db, a, node, now, duration, operation)
    ensures var e := db.attempts[a].evaluationId;
            Rewrites(db, e, db.evaluations[e].(state := RowLeased, updatedAt := now),
                     db.attempts[a].(state := RowLeased, nodeId := Some(node), leaseToken := Some(token),
                                     expiresAt := Some(now + duration), claimOperation := operation, updatedAt := now),
                     db.tasks[a].(state := RowLeased, updatedAt := now))
  {
    hide DatabaseAccepts, RegistryAgrees, SameEvaluationSemantics;
  }

  lemma ClaimKeepsInv(db: Db, a: Id, node: Id, token: Id, now: UnixMillis, duration: LeaseDuration,
                      operation: Option<Id>)
    requires Inv(db) && QueuedAttempt(db, a) && Grantable(db, a, node, now, duration, operation)
    ensures Inv(ClaimedDb(db, a, node, token, now, now + duration, operation))
  {
    hide Inv, EvaluationInv, AttemptInv, Rewrites, Grantable;
    ClaimRewrites(db, a, node, token, now, duration, operation);
    var e := db.attempts[a].evaluationId;
    RewriteKeepsInv(db, e, db.evaluations[e].(state := RowLeased, updatedAt := now),
                    db.attempts[a].(state := RowLeased, nodeId := Some(node), leaseToken := Some(token),
                                    expiresAt := Some(now + duration), claimOperation := operation, updatedAt := now),
                    db.tasks[a].(state := RowLeased, updatedAt := now));
  }

  /** When a renewal extends the lease: there is no test against the stored expiry. */
  ghost predicate Renewable(db: Db, node: Id, e: Id, attempt: Id, token: Id, now: UnixMillis, duration: LeaseDuration) {
    && now + duration <= MAX_UNIX_MILLIS && Joined(db, e)
    && db.evaluations[e].state == RowLeased && db.evaluations[e].currentAttemptId == attempt
    && db.attempts[attempt].nodeId == Some(node) && db.attempts[attempt].leaseToken == Some(token)
    && db.attempts[attempt].createdAt <= now
  }

  /** What a renewal answers in a reachable store; a queued evaluation is reported as corrupt data. */
  lemma RenewEffect(db: Db, node: Id, e: Id, attempt: Id, token: Id, now: UnixMillis, duration: LeaseDuration)
    requires Inv(db)
    ensures var tx := RenewTx(db, node, e, attempt, token, now, duration);
            && (tx.out == Ok(Continue(now + duration)) <==> Renewable(db, node, e, attempt, token, now, duration))
            && (tx.out == Ok(CancelLease) <==>
                  now + duration <= MAX_UNIX_MILLIS && Joined(db, e) && db.evaluations[e].state == RowCancelled)
            && (tx.out == Err(CorruptData) <==>
                  now + duration <= MAX_UNIX_MILLIS && Joined(db, e) && db.evaluations[e].state == RowQueued)
            && (if Renewable(db, node, e, attempt, token, now, duration) then
                  tx.db == db.(attempts := db.attempts[attempt :=
                    db.attempts[attempt].(expiresAt := Some(now + duration), updatedAt := now)])
                else tx.db == db)
  {
    hide AttemptInv, CountsInv, Unique;
    if Joined(db, e) {
      assert EvaluationInv(db, e) && AttemptInv(db, db.evaluations[e].currentAttemptId);
      LeaseIsSet(db, db.evaluations[e].currentAttemptId);
    }
  }

  lemma RenewRewrites(db: Db, e: Id, renewed: AttemptRow)
    requires Unique(db) && Joined(db, e) && EvaluationInv(db, e)
    requires var current := db.attempts[db.evaluations[e].currentAttemptId];
             && AttemptInv(db, db.evaluations[e].currentAttemptId)
             && current.expiresAt.Some? && AttemptCheck(renewed)
             && renewed == current.(expiresAt := renewed.expiresAt, updatedAt := renewed.updatedAt)
             && renewed.expiresAt.Some? && renewed.createdAt <= renewed.expiresAt.value
    ensures Rewrites(db, e, db.evaluations[e], renewed, db.tasks[db.evaluations[e].currentAttemptId])
  {
    hide DatabaseAccepts, RegistryAgrees, SameEvaluationSemantics;
    var a := db.evaluations[e].currentAttemptId;
    if db.attempts[a].claimOperation.Some? && db.attempts[a].nodeId.Some? {
      assert ClaimedBy(db, db.attempts[a].nodeId.value, db.attempts[a].claimOperation.value, a);
    }
    if db.evaluations[e].resultKey.Some? {
      assert ResultKeyAt(db, db.evaluations[e].resultKey.value, e);
    }
  }

  lemma RenewKeepsInv(db: Db, node: Id, e: Id, attempt: Id, token: Id, now: UnixMillis, duration: LeaseDuration)
    requires Inv(db) && Renewable(db, node, e, attempt, token, now, duration)
    ensures Inv(db.(attempts := db.attempts[attempt :=
              db.attempts[attempt].(expiresAt := Some(now + duration), updatedAt := now)]))
  {
    hide EvaluationInv, AttemptInv, CountsInv, Unique, Rewrites;
    var renewed := db.attempts[attempt].(expiresAt := Some(now + duration), updatedAt := now);
    CurrentFacts(db, e);
    RenewRewrites(db, e, renewed);
    RewriteKeepsInv(db, e, db.evaluations[e], renewed, db.tasks[attempt]);
    assert Touch(db, e, attempt, db.evaluations[e], renewed, db.tasks[attempt]) ==
           db.(attempts := db.attempts[attempt := renewed]);
  }

  /** The rows of an evaluation and of its current attempt, without their definitions. */
  lemma CurrentFacts(db: Db, e: Id)
    requires Inv(db) && e in db.evaluations
    ensures Joined(db, e) && EvaluationInv(db, e)
    ensures var a := db.evaluations[e].currentAttemptId;
            && a in db.tasks && AttemptInv(db, a) && db.attempts[a].evaluationId == e
            && LeaseFields(db.attempts[a]) && AttemptCheck(db.attempts[a])
            && Aligned(db.evaluations[e].state, db.attempts[a].state, db.tasks[a].state)
  {
    hide CountsInv, Unique;
    assert EvaluationInv(db, e) && AttemptInv(db, db.evaluations[e].currentAttemptId);
  }

  // ---- Terminal writes.

  function TerminalDb(db: Db, e: Id, a: Id, state: RowState, taskState: RowState, result: EvaluationResult,
                      key: Id, now: nat): Db
    requires e in db.evaluations && a in db.attempts && a in db.tasks
  {
    Touch(db, e, a,
          db.evaluations[e].(state := state, terminalResult := Some(result), resultKey := Some(key), updatedAt := now),
          db.attempts[a].(state := state, updatedAt := now),
          db.tasks[a].(state := taskState, updatedAt := now))
  }

  ghost predicate KeyIsFree(db: Db, key: Id) {
    forall f :: !ResultKeyAt(db, key, f)
  }

  lemma WriteEffect(db: Db, e: Id, state: RowState, taskState: RowState, result: EvaluationResult, key: Id,
                    now: UnixMillis)
    requires Joined(db, e) && EvaluationInv(db, e) && AttemptInv(db, db.evaluations[e].currentAttemptId)
    requires db.evaluations[e].terminalResult.None? && Aligned(state, state, taskState) && Terminal(state)
    ensures var a := db.evaluations[e].currentAttemptId;
            var tx := WriteTerminal(db, e, a, state, taskState, result, key, now);
            && (tx.out.Ok? <==> db.attempts[a].createdAt <= now && KeyIsFree(db, key))
            && (if tx.out.Ok? then tx.db == TerminalDb(db, e, a, state, taskState, result, key, now)
                                   && tx.out == Ok(ReadStatus(e))
                else tx.db == db)
  {
    hide DatabaseAccepts, RegistryAgrees, SameEvaluationSemantics;
    assert !ResultKeyAt(db, key, e);
  }

  lemma WriteRewrites(db: Db, e: Id, state: RowState, taskState: RowState, result: EvaluationResult, key: Id,
                      now: UnixMillis)
    requires Joined(db, e) && EvaluationInv(db, e) && AttemptInv(db, db.evaluations[e].currentAttemptId)
    requires Unique(db)
    requires db.evaluations[e].terminalResult.None? && Aligned(state, state, taskState)
    requires state == RowCancelled || (Terminal(state) && db.evaluations[e].state == RowLeased)
    requires state == StatusRow(result.status)
    requires result.identity == IdentityOf(db.attempts[db.evaluations[e].currentAttemptId].payload)
    requires db.attempts[db.evaluations[e].currentAttemptId].createdAt <= now && KeyIsFree(db, key)
    ensures var a := db.evaluations[e].currentAttemptId;
            Rewrites(db, e,
                     db.evaluations[e].(state := state, terminalResult := Some(result), resultKey := Some(key),
                                        updatedAt := now),
                     db.attempts[a].(state := state, updatedAt := now),
                     db.tasks[a].(state := taskState, updatedAt := now))
  {
    hide DatabaseAccepts, RegistryAgrees, SameEvaluationSemantics;
    var a := db.evaluations[e].currentAttemptId;
    if db.attempts[a].claimOperation.Some? && db.attempts[a].nodeId.Some? {
      assert ClaimedBy(db, db.attempts[a].nodeId.value, db.attempts[a].claimOperation.value, a);
    }
  }

  lemma WriteKeepsInv(db: Db, e: Id, state: RowState, taskState: RowState, result: EvaluationResult, key: Id,
                      now: UnixMillis)
    requires Inv(db) && Joined(db, e) && db.evaluations[e].currentAttemptId in db.tasks
    requires db.evaluations[e].terminalResult.None? && Aligned(state, state, taskState)
    requires state == RowCancelled || (Terminal(state) && db.evaluations[e].state == RowLeased)
    requires state == StatusRow(result.status)
    requires result.identity == IdentityOf(db.attempts[db.evaluations[e].currentAttemptId].payload)
    requires db.attempts[db.evaluations[e].currentAttemptId].createdAt <= now && KeyIsFree(db, key)
    ensures Inv(TerminalDb(db, e, db.evaluations[e].currentAttemptId, state, taskState, result, key, now))
  {
    hide EvaluationInv, AttemptInv, CountsInv, Unique, Rewrites, KeyIsFree;
    CurrentFacts(db, e);
    WriteRewrites(db, e, state, taskState, result, key, now);
    var a := db.evaluations[e].currentAttemptId;
    RewriteKeepsInv(db, e,
                    db.evaluations[e].(state := state, terminalResult := Some(result), resultKey := Some(key),
                                       updatedAt := now),
                    db.attempts[a].(state := state, updatedAt := now),
                    db.tasks[a].(state := taskState, updatedAt := now));
  }

  /** When a submission commits a terminal result: it names the current attempt, holds its token, and the lease has
      not run out. */
  ghost predicate Submittable(db: Db, key: Id, token: Id, result: EvaluationResult, now: UnixMillis) {
    var e := result.identity.evaluationId;
    && Joined(db, e) && db.evaluations[e].state == RowLeased
    && var a := db.evaluations[e].currentAttemptId;
    && a == result.identity.attemptId && IdentityOf(db.attempts[a].payload) == result.identity
    && db.attempts[a].leaseToken == Some(token)
    && db.attempts[a].expiresAt.Some? && db.attempts[a].createdAt <= now <= db.attempts[a].expiresAt.value
    && KeyIsFree(db, key)
  }

  /** The stored result answers the same key and the same bytes. */
  ghost predicate AlreadyStored(db: Db, e: Id, key: Id, result: EvaluationResult) {
    Joined(db, e) && db.evaluations[e].terminalResult == Some(result) && db.evaluations[e].resultKey == Some(key)
  }

  lemma SubmitEffect(db: Db, key: Id, token: Id, result: EvaluationResult, now: UnixMillis, encodes: bool)
    requires Inv(db)
    ensures var e := result.identity.evaluationId;
            var tx := SubmitTx(db, key, token, result, now, encodes);
            && (tx.db != db <==> encodes && Submittable(db, key, token, result, now))
            && (tx.db != db ==> result.identity.attemptId in db.tasks
                                && tx.db == TerminalDb(db, e, result.identity.attemptId, StatusRow(result.status),
                                                       StatusTaskRow(result.status), result, key, now))
            && (tx.out.Ok? <==> encodes && (Submittable(db, key, token, result, now)
                                            || AlreadyStored(db, e, key, result)))
            && (tx.out.Ok? ==> tx.out == Ok(ReadStatus(e)))
  {
    hide EvaluationInv, AttemptInv, CountsInv, Unique, KeyIsFree, WriteTerminal;
    var e := result.identity.evaluationId;
    if Joined(db, e) {
      CurrentFacts(db, e);
      CurrentTerminal(db, e);
      if db.evaluations[e].terminalResult.None? {
        WriteEffect(db, e, StatusRow(result.status), StatusTaskRow(result.status), result, key, now);
      }
    }
  }

  lemma CurrentTerminal(db: Db, e: Id)
    requires e in db.evaluations && EvaluationInv(db, e)
    ensures db.evaluations[e].terminalResult.Some? <==> Terminal(db.evaluations[e].state)
    ensures db.evaluations[e].terminalResult.Some? <==> db.evaluations[e].resultKey.Some?
  {
  }

  /** When a cancellation commits: the current attempt is named, and no lease is asked for. */
  ghost predicate Cancellable(db: Db, key: Id, e: Id, result: EvaluationResult, now: UnixMillis) {
    && result.status == StatusCancelled && result.identity.evaluationId == e
    && Joined(db, e) && db.evaluations[e].state in {RowQueued, RowLeased}
    && var a := db.evaluations[e].currentAttemptId;
    && a == result.identity.attemptId && IdentityOf(db.attempts[a].payload) == result.identity
    && db.attempts[a].createdAt <= now
    && KeyIsFree(db, key)
  }

  lemma CancelEffect(db: Db, key: Id, e: Id, result: EvaluationResult, now: UnixMillis, encodes: bool)
    requires Inv(db)
    ensures var tx := CancelTx(db, key, e, result, now, encodes);
            && (tx.db != db <==> encodes && Cancellable(db, key, e, result, now))
            && (tx.db != db ==> result.identity.attemptId in db.tasks
                                && tx.db == TerminalDb(db, e, result.identity.attemptId, RowCancelled, RowCancelled,
                                                       result, key, now))
            && (tx.out.Ok? <==> encodes && (Cancellable(db, key, e, result, now)
                                            || (result.status == StatusCancelled && result.identity.evaluationId == e
                                                && AlreadyStored(db, e, key, result))))
            && (tx.out.Ok? ==> tx.out == Ok(ReadStatus(e)))
  {
    hide EvaluationInv, AttemptInv, CountsInv, Unique, KeyIsFree, WriteTerminal;
    if Joined(db, e) {
      CurrentFacts(db, e);
      CurrentTerminal(db, e);
      if db.evaluations[e].terminalResult.None? {
        WriteEffect(db, e, RowCancelled, RowCancelled, result, key, now);
      }
    }
  }

  // ---- Every step keeps the invariant.

  lemma StepKeepsInv(db: Db, c: Command)
    requires Inv(db)
    ensures Inv(Apply(db, c).db)
  {
    hide Inv, EvaluationInv, AttemptInv, CreateTx, RetryTx, RenewTx, SubmitTx, CancelTx, ClaimAttempt;
    match c
    case Create(r, createdAt, encodes) =>
      CreateEffect(db, r, createdAt, encodes);
      if Insertable(db, r) { InsertKeepsInv(db, r, createdAt); }
    case Claim(node, token, now, duration, operation, capabilities, skipped) =>
      var chosen := SelectTask(db, capabilities, skipped);
      if chosen.Some? && now + duration <= MAX_UNIX_MILLIS {
        ClaimableIsCurrent(db, capabilities, skipped, chosen.value);
        ClaimEffect(db, chosen.value, node, token, now, duration, operation);
        if Grantable(db, chosen.value, node, now, duration, operation) {
          ClaimKeepsInv(db, chosen.value, node, token, now, duration, operation);
        }
      }
    case Renew(node, e, a, token, now, duration) =>
      RenewEffect(db, node, e, a, token, now, duration);
      if Renewable(db, node, e, a, token, now, duration) {
        RenewKeepsInv(db, node, e, a, token, now, duration);
      }
    case Retry(r, now, encodes) =>
      RetryEffect(db, r, now, encodes);
      if encodes && Replaceable(db, r, now) { ReplaceKeepsInv(db, r, now); }
    case Submit(key, token, result, now, encodes) =>
      SubmitEffect(db, key, token, result, now, encodes);
      if encodes && Submittable(db, key, token, result, now) {
        CurrentFacts(db, result.identity.evaluationId);
        CurrentTerminal(db, result.identity.evaluationId);
        WriteKeepsInv(db, result.identity.evaluationId, StatusRow(result.status), StatusTaskRow(result.status), result,
                      key, now);
      }
    case Cancel(key, e, result, now, encodes) =>
      CancelEffect(db, key, e, result, now, encodes);
      if encodes && Cancellable(db, key, e, result, now) {
        CurrentFacts(db, e);
        CurrentTerminal(db, e);
        WriteKeepsInv(db, e, RowCancelled, RowCancelled, result, key, now);
      }
  }

  lemma RetryApplies(db: Db, r: EvaluationRequest, now: UnixMillis, encodes: bool)
    ensures Apply(db, Retry(r, now, encodes)) == RetryTx(db, r, now, encodes)
  {
    hide RetryTx;
  }

  /** An aborted transaction leaves the store as it found it, reachable or not. */
  lemma AbortLeavesStore(db: Db, c: Command)
    requires Apply(db, c).out.Err?
    ensures Apply(db, c).db == db
  {
    hide RegistryAgrees, DatabaseAccepts, SameEvaluationSemantics, Claimable, NextTask;
  }

  lemma {:induction false} RunKeepsInv(db: Db, run: seq<Command>)
    requires Inv(db)
    ensures Inv(Exec(db, run))
    decreases |run|
  {
    if run != [] {
      hide Inv, Apply;
      StepKeepsInv(db, run[0]);
      RunKeepsInv(Apply(db, run[0]).db, run[1..]);
    }
  }

  /** Every store that any interleaving of transactions reaches from the empty one. */
  ghost predicate Reachable(db: Db) {
    exists run :: db == Exec(EMPTY, run)
  }

  lemma EmptyInv()
    ensures Inv(EMPTY)
  {
  }

  lemma ReachableInv(db: Db)
    requires Reachable(db)
    ensures Inv(db)
  {
    hide Inv, Apply;
    EmptyInv();
    var run :| db == Exec(EMPTY, run);
    RunKeepsInv(EMPTY, run);
  }

  lemma {:induction false} ExecSplits(db: Db, first: seq<Command>, second: seq<Command>)
    ensures Exec(db, first + second) == Exec(Exec(db, first), second)
    decreases |first|
  {
    if first == [] {
      assert first + second == second;
    } else {
      assert (first + second)[1..] == first[1..] + second;
      ExecSplits(Apply(db, first[0]).db, first[1..], second);
    }
  }

  // ---- How rows evolve.

  ghost predicate EvaluationEvolves(x: EvaluationRow, y: EvaluationRow) {
    && y == x.(state := y.state, currentAttemptId := y.currentAttemptId, terminalResult := y.terminalResult,
               resultKey := y.resultKey, updatedAt := y.updatedAt)
    && (Terminal(x.state) ==> y == x)
  }

  predicate Closed(state: RowState) {
    state in {RowCompleted, RowFailed, RowCancelled, RowExpired}
  }

  ghost predicate AttemptEvolves(x: AttemptRow, y: AttemptRow) {
    && y == x.(state := y.state, nodeId := y.nodeId, leaseToken := y.leaseToken, expiresAt := y.expiresAt,
               claimOperation := y.claimOperation, updatedAt := y.updatedAt)
    && (Closed(x.state) ==> y == x)
    && (x.nodeId.Some? ==> y.nodeId == x.nodeId && y.leaseToken == x.leaseToken
                           && y.claimOperation == x.claimOperation)
    && (x.state == RowLeased ==> y.state == RowLeased || Closed(y.state))
  }

  ghost predicate AttemptRowEvolves(db: Db, db': Db, a: Id)
    requires a in db.attempts
  {
    && a in db'.attempts && AttemptEvolves(db.attempts[a], db'.attempts[a])
    && (a in db.tasks && Closed(db.attempts[a].state) ==> a in db'.tasks && db'.tasks[a] == db.tasks[a])
  }

  ghost predicate EvaluationRowEvolves(db: Db, db': Db, e: Id)
    requires e in db.evaluations
  {
    e in db'.evaluations && EvaluationEvolves(db.evaluations[e], db'.evaluations[e])
  }

  predicate Extends<V(==)>(m: map<Id, V>, m': map<Id, V>) {
    forall k :: k in m ==> k in m' && m'[k] == m[k]
  }

  ghost predicate RegistryGrows(db: Db, db': Db) {
    && Extends(db.artifacts, db'.artifacts) && Extends(db.problemVersions, db'.problemVersions)
    && Extends(db.submissions, db'.submissions) && Extends(db.runtimes, db'.runtimes)
  }

  /** Rows are never removed, their identity and payload never change, closed rows are frozen, a lease keeps its
      holder, and registered references only grow. */
  ghost predicate Evolves(db: Db, db': Db) {
    && (forall e :: e in db.evaluations ==> EvaluationRowEvolves(db, db', e))
    && (forall a :: a in db.attempts ==> AttemptRowEvolves(db, db', a))
    && RegistryGrows(db, db')
  }

  lemma AttemptRowTransitive(x: Db, y: Db, z: Db, a: Id)
    requires a in x.attempts && AttemptRowEvolves(x, y, a) && AttemptRowEvolves(y, z, a)
    ensures AttemptRowEvolves(x, z, a)
  {
  }

  lemma EvaluationRowTransitive(x: Db, y: Db, z: Db, e: Id)
    requires e in x.evaluations && EvaluationRowEvolves(x, y, e) && EvaluationRowEvolves(y, z, e)
    ensures EvaluationRowEvolves(x, z, e)
  {
  }

  lemma EvolvesTransitive(x: Db, y: Db, z: Db)
    requires Evolves(x, y) && Evolves(y, z)
    ensures Evolves(x, z)
  {
    hide AttemptEvolves, EvaluationEvolves;
    forall a | a in x.attempts ensures AttemptRowEvolves(x, z, a) {
      assert AttemptRowEvolves(x, y, a) && AttemptRowEvolves(y, z, a);
      AttemptRowTransitive(x, y, z, a);
    }
    forall e | e in x.evaluations ensures EvaluationRowEvolves(x, z, e) {
      assert EvaluationRowEvolves(x, y, e) && EvaluationRowEvolves(y, z, e);
      EvaluationRowTransitive(x, y, z, e);
    }
  }

  lemma TouchEvolves(db: Db, e: Id, a: Id, evaluation: EvaluationRow, attempt: AttemptRow, task: TaskRow)
    requires e in db.evaluations && a in db.attempts && a in db.tasks
    requires EvaluationEvolves(db.evaluations[e], evaluation) && AttemptEvolves(db.attempts[a], attempt)
    requires !Closed(db.attempts[a].state)
    ensures Evolves(db, Touch(db, e, a, evaluation, attempt, task))
  {
  }

  lemma ReplacedEvolves(db: Db, r: EvaluationRequest, now: UnixMillis)
    requires Replaceable(db, r, now) && db.evaluations[r.evaluationId].currentAttemptId in db.tasks
    ensures Evolves(db, Replaced(db, r, now))
  {
    hide SameEvaluationSemantics, AttemptKeyAt;
  }

  lemma InsertedEvolves(db: Db, r: EvaluationRequest, createdAt: UnixMillis)
    requires Insertable(db, r)
    ensures Evolves(db, Inserted(db, r, createdAt))
  {
    hide RegistryAgrees, DatabaseAccepts, AttemptKeyAt, CreationKeyAt;
  }

  lemma StepEvolves(db: Db, c: Command)
    requires Inv(db)
    ensures Evolves(db, Apply(db, c).db)
  {
    hide Inv, EvaluationInv, AttemptInv, CreateTx, RetryTx, RenewTx, SubmitTx, CancelTx, ClaimAttempt, Evolves;
    EvolvesReflexive(db);
    match c
    case Create(r, createdAt, encodes) =>
      CreateEffect(db, r, createdAt, encodes);
      if Insertable(db, r) { InsertedEvolves(db, r, createdAt); }
    case Claim(node, token, now, duration, operation, capabilities, skipped) =>
      var chosen := SelectTask(db, capabilities, skipped);
      if chosen.Some? && now + duration <= MAX_UNIX_MILLIS {
        ClaimStepEvolves(db, chosen.value, node, token, now, duration, operation, capabilities, skipped);
      }
    case Renew(node, e, a, token, now, duration) =>
      RenewEffect(db, node, e, a, token, now, duration);
      if Renewable(db, node, e, a, token, now, duration) {
        RenewStepEvolves(db, node, e, a, token, now, duration);
      }
    case Retry(r, now, encodes) =>
      RetryEffect(db, r, now, encodes);
      if encodes && Replaceable(db, r, now) { ReplacedEvolves(db, r, now); }
    case Submit(key, token, result, now, encodes) =>
      SubmitEffect(db, key, token, result, now, encodes);
      if encodes && Submittable(db, key, token, result, now) {
        TerminalEvolves(db, result.identity.evaluationId, StatusRow(result.status), StatusTaskRow(result.status),
                        result, key, now);
      }
    case Cancel(key, e, result, now, encodes) =>
      CancelEffect(db, key, e, result, now, encodes);
      if encodes && Cancellable(db, key, e, result, now) {
        TerminalEvolves(db, e, RowCancelled, RowCancelled, result, key, now);
      }
  }

  lemma EvolvesReflexive(db: Db)
    ensures Evolves(db, db)
  {
  }

  lemma ClaimStepEvolves(db: Db, a: Id, node: Id, token: Id, now: UnixMillis, duration: LeaseDuration,
                         operation: Option<Id>, capabilities: Option<set<string>>, skipped: set<Id>)
    requires Inv(db) && Claimable(db, capabilities, skipped, a) && now + duration <= MAX_UNIX_MILLIS
    ensures a in db.attempts && a in db.tasks
            && Evolves(db, ClaimAttempt(db, a, node, token, now, now + duration, operation).db)
  {
    hide Inv, EvaluationInv, AttemptInv, ClaimAttempt, Evolves, Grantable;
    ClaimableIsCurrent(db, capabilities, skipped, a);
    ClaimEffect(db, a, node, token, now, duration, operation);
    EvolvesReflexive(db);
    var e := db.attempts[a].evaluationId;
    CurrentFacts(db, e);
    TouchEvolves(db, e, a,
                 db.evaluations[e].(state := RowLeased, updatedAt := now),
                 db.attempts[a].(state := RowLeased, nodeId := Some(node), leaseToken := Some(token),
                                 expiresAt := Some(now + duration), claimOperation := operation, updatedAt := now),
                 db.tasks[a].(state := RowLeased, updatedAt := now));
  }

  lemma RenewStepEvolves(db: Db, node: Id, e: Id, a: Id, token: Id, now: UnixMillis, duration: LeaseDuration)
    requires Inv(db) && Renewable(db, node, e, a, token, now, duration)
    ensures Evolves(db, db.(attempts := db.attempts[a :=
              db.attempts[a].(expiresAt := Some(now + duration), updatedAt := now)]))
  {
    hide Inv, EvaluationInv, AttemptInv;
    CurrentFacts(db, e);
  }

  lemma TerminalEvolves(db: Db, e: Id, state: RowState, taskState: RowState, result: EvaluationResult, key: Id,
                        now: UnixMillis)
    requires Inv(db) && Joined(db, e) && db.evaluations[e].state in {RowQueued, RowLeased}
    requires Terminal(state) && db.evaluations[e].currentAttemptId in db.tasks
    ensures Evolves(db, TerminalDb(db, e, db.evaluations[e].currentAttemptId, state, taskState, result, key, now))
  {
    hide Inv, EvaluationInv, AttemptInv, Evolves;
    CurrentFacts(db, e);
    var a := db.evaluations[e].currentAttemptId;
    TouchEvolves(db, e, a,
                 db.evaluations[e].(state := state, terminalResult := Some(result), resultKey := Some(key),
                                    updatedAt := now),
                 db.attempts[a].(state := state, updatedAt := now),
                 db.tasks[a].(state := taskState, updatedAt := now));
  }

  lemma {:induction false} RunEvolves(db: Db, run: seq<Command>)
    requires Inv(db)
    ensures Evolves(db, Exec(db, run))
    decreases |run|
  {
    hide Inv, Apply, Evolves;
    if run == [] {
      EvolvesReflexive(db);
    } else {
      StepKeepsInv(db, run[0]);
      StepEvolves(db, run[0]);
      RunEvolves(Apply(db, run[0]).db, run[1..]);
      EvolvesTransitive(db, Apply(db, run[0]).db, Exec(db, run));
    }
  }
}
