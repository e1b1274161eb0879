/** What every reachable store keeps: one lemma per way a transaction may change the tables, then all runs. */
module SpineInvariant {
  import opened Prelude
  import opened Tokens
  import opened Domain
  import opened Spine

  predicate Terminal(state: RowState) {
    state in {RowCompleted, RowFailed, RowCancelled}
  }

  /** The only combinations of an evaluation, its current attempt and that attempt's task. */
  predicate Aligned(evaluation: RowState, attempt: RowState, task: RowState) {
    || (evaluation == RowQueued && attempt == RowQueued && task == RowReady)
    || (evaluation == RowLeased && attempt == RowLeased && task == RowLeased)
    || (evaluation == RowCompleted && attempt == RowCompleted && task == RowCompleted)
    || (evaluation == RowFailed && attempt == RowFailed && task == RowCompleted)
    || (evaluation == RowCancelled && attempt == RowCancelled && task == RowCancelled)
  }

  /** Lease columns are set together, absent while queued, present once leased; only a cancellation may end either. */
  predicate LeaseFields(row: AttemptRow) {
    && (row.nodeId.Some? <==> row.leaseToken.Some?) && (row.leaseToken.Some? <==> row.expiresAt.Some?)
    && (row.state == RowQueued ==> row.nodeId.None?)
    && (row.state in {RowLeased, RowCompleted, RowFailed, RowExpired} ==> row.nodeId.Some?)
    && (row.claimOperation.Some? ==> row.nodeId.Some?)
    && (row.expiresAt.Some? ==> row.createdAt <= row.expiresAt.value)
  }

  /** A stored result is the current attempt's own, and its status is the evaluation's state. */
  predicate ResultFits(evaluation: EvaluationRow, attempt: AttemptRow) {
    evaluation.terminalResult.Some? ==>
      && evaluation.terminalResult.value.identity == IdentityOf(attempt.payload)
      && evaluation.state == StatusRow(evaluation.terminalResult.value.status)
  }

  ghost predicate EvaluationInv(db: Db, e: Id)
    requires e in db.evaluations
  {
    var row := db.evaluations[e];
    var a := row.currentAttemptId;
    && a in db.attempts && a in db.tasks
    && db.attempts[a].evaluationId == e
    && Aligned(row.state, db.attempts[a].state, db.tasks[a].state)
    && (row.terminalResult.Some? <==> Terminal(row.state))
    && ResultFits(row, db.attempts[a])
    && EvaluationCheck(row)
    && row.initialRequest.evaluationId == e
    && row.creationKey == row.initialRequest.idempotencyKey
    && row.initialRequest.attemptNumber <= db.attempts[a].attemptNumber
    && row.createdAt <= db.attempts[a].createdAt
  }

  ghost predicate AttemptInv(db: Db, a: Id)
    requires a in db.attempts
  {
    var row := db.attempts[a];
    && a in db.tasks && Joined(db, row.evaluationId)
    && var evaluation := db.evaluations[row.evaluationId];
    && row.payload.attemptId == a
    && row.payload.evaluationId == row.evaluationId
    && row.payload.attemptNumber == row.attemptNumber
    && row.payload.idempotencyKey == row.idempotencyKey
    && db.tasks[a].requiredCapabilities == row.payload.requiredCapabilities
    && db.tasks[a].createdAt == row.createdAt
    && SameEvaluationSemantics(evaluation.initialRequest, row.payload)
    && evaluation.initialRequest.attemptNumber <= row.attemptNumber
    && (a != evaluation.currentAttemptId ==>
          row.state == RowExpired && db.tasks[a].state == RowExpired
          && row.attemptNumber < db.attempts[evaluation.currentAttemptId].attemptNumber)
    && LeaseFields(row) && AttemptCheck(row) && TaskCheck(db.tasks[a])
    && RegistryAgrees(db, row.payload)
  }

  ghost predicate Unique(db: Db) {
    && (forall k, e, f :: CreationKeyAt(db, k, e) && CreationKeyAt(db, k, f) ==> e == f)
    && (forall k, a, b :: AttemptKeyAt(db, k, a) && AttemptKeyAt(db, k, b) ==> a == b)
    && (forall e, n, a, b :: AttemptAt(db, e, n, a) && AttemptAt(db, e, n, b) ==> a == b)
    && (forall k, e, f :: ResultKeyAt(db, k, e) && ResultKeyAt(db, k, f) ==> e == f)
    && (forall n, o, a, b :: ClaimedBy(db, n, o, a) && ClaimedBy(db, n, o, b) ==> a == b)
  }

  ghost predicate HasAttempt(db: Db, e: Id, n: nat) {
    exists a :: AttemptAt(db, e, n, a)
  }

  /** Attempt numbers leave no gap between the first and the current one. */
  ghost predicate GapFree(db: Db, e: Id)
    requires Joined(db, e)
  {
    forall n :: db.evaluations[e].initialRequest.attemptNumber <= n <= CurrentNumber(db, e) ==> HasAttempt(db, e, n)
  }

  function CurrentNumber(db: Db, e: Id): nat
    requires Joined(db, e)
  {
    db.attempts[db.evaluations[e].currentAttemptId].attemptNumber
  }

  /** The attempts of an evaluation that have expired. */
  ghost function ExpiredAttempts(db: Db, e: Id): set<Id> {
    set a | a in db.attempts && db.attempts[a].evaluationId == e && db.attempts[a].state == RowExpired
  }

  ghost predicate Counted(db: Db, e: Id)
    requires Joined(db, e)
  {
    db.evaluations[e].initialRequest.attemptNumber + |ExpiredAttempts(db, e)| == CurrentNumber(db, e)
  }

  ghost predicate EvaluationsInv(db: Db) {
    forall e :: e in db.evaluations ==> EvaluationInv(db, e)
  }

  ghost predicate AttemptsInv(db: Db) {
    forall a :: a in db.attempts ==> AttemptInv(db, a)
  }

  ghost predicate CountsInv(db: Db) {
    forall e :: e in db.evaluations ==> Joined(db, e) && GapFree(db, e) && Counted(db, e)
  }

  ghost predicate Inv(db: Db) {
    db.tasks.Keys == db.attempts.Keys && EvaluationsInv(db) && AttemptsInv(db) && CountsInv(db) && Unique(db)
  }

  // ---- First way: three rows of one evaluation are rewritten, keys and payloads stay.

  ghost predicate Rewrites(db: Db, e: Id, evaluation: EvaluationRow, attempt: AttemptRow, task: TaskRow)
    requires e in db.evaluations
    requires db.evaluations[e].currentAttemptId in db.attempts && db.evaluations[e].currentAttemptId in db.tasks
  {
    var a := db.evaluations[e].currentAttemptId;
    && evaluation == db.evaluations[e].(state := evaluation.state, terminalResult := evaluation.terminalResult,
                                        resultKey := evaluation.resultKey, updatedAt := evaluation.updatedAt)
    && attempt == db.attempts[a].(state := attempt.state, nodeId := attempt.nodeId, leaseToken := attempt.leaseToken,
                                  expiresAt := attempt.expiresAt, claimOperation := attempt.claimOperation,
                                  updatedAt := attempt.updatedAt)
    && task == db.tasks[a].(state := task.state, updatedAt := task.updatedAt)
    && Aligned(evaluation.state, attempt.state, task.state)
    && (evaluation.terminalResult.Some? <==> Terminal(evaluation.state))
    && ResultFits(evaluation, attempt)
    && EvaluationCheck(evaluation) && AttemptCheck(attempt) && TaskCheck(task) && LeaseFields(attempt)
    && (attempt.claimOperation.Some? && attempt.nodeId.Some? ==>
          forall b :: ClaimedBy(db, attempt.nodeId.value, attempt.claimOperation.value, b) ==> b == a)
    && (evaluation.resultKey.Some? ==> forall f :: ResultKeyAt(db, evaluation.resultKey.value, f) ==> f == e)
  }

  lemma RewriteKeepsEvaluation(db: Db, e: Id, evaluation: EvaluationRow, attempt: AttemptRow, task: TaskRow, f: Id)
    requires e in db.evaluations && EvaluationInv(db, e)
    requires f in db.evaluations && EvaluationInv(db, f)
    requires Rewrites(db, e, evaluation, attempt, task)
    ensures EvaluationInv(Touch(db, e, db.evaluations[e].currentAttemptId, evaluation, attempt, task), f)
  {
  }

  lemma RewriteKeepsAttempt(db: Db, e: Id, evaluation: EvaluationRow, attempt: AttemptRow, task: TaskRow, b: Id)
    requires e in db.evaluations && EvaluationInv(db, e)
    requires b in db.attempts && AttemptInv(db, b)
    requires Rewrites(db, e, evaluation, attempt, task)
    ensures AttemptInv(Touch(db, e, db.evaluations[e].currentAttemptId, evaluation, attempt, task), b)
  {
  }

  lemma RewriteKeepsCounts(db: Db, e: Id, evaluation: EvaluationRow, attempt: AttemptRow, task: TaskRow, f: Id)
    requires e in db.evaluations && EvaluationInv(db, e)
    requires f in db.evaluations && Joined(db, f) && GapFree(db, f) && Counted(db, f)
    requires f != e ==> db.evaluations[f].currentAttemptId != db.evaluations[e].currentAttemptId
    requires db.attempts[db.evaluations[e].currentAttemptId].state != RowExpired
    requires Rewrites(db, e, evaluation, attempt, task)
    ensures var db' := Touch(db, e, db.evaluations[e].currentAttemptId, evaluation, attempt, task);
            Joined(db', f) && GapFree(db', f) && Counted(db', f)
  {
    var a := db.evaluations[e].currentAttemptId;
    var db' := Touch(db, e, a, evaluation, attempt, task);
    assert ExpiredAttempts(db', f) == ExpiredAttempts(db, f);
    forall n | db.evaluations[f].initialRequest.attemptNumber <= n <= CurrentNumber(db, f)
      ensures HasAttempt(db', f, n)
    {
      assert HasAttempt(db, f, n);
      var b :| AttemptAt(db, f, n, b);
      assert AttemptAt(db', f, n, b);
    }
  }

  lemma RewriteKeepsUnique(db: Db, e: Id, evaluation: EvaluationRow, attempt: AttemptRow, task: TaskRow)
    requires Unique(db) && e in db.evaluations && EvaluationInv(db, e)
    requires Rewrites(db, e, evaluation, attempt, task)
    ensures Unique(Touch(db, e, db.evaluations[e].currentAttemptId, evaluation, attempt, task))
  {
    var a := db.evaluations[e].currentAttemptId;
    var db' := Touch(db, e, a, evaluation, attempt, task);
    forall k, f, g | CreationKeyAt(db', k, f) && CreationKeyAt(db', k, g) ensures f == g {
      assert CreationKeyAt(db, k, f) && CreationKeyAt(db, k, g);
    }
    forall k, b, c | AttemptKeyAt(db', k, b) && AttemptKeyAt(db', k, c) ensures b == c {
      assert AttemptKeyAt(db, k, b) && AttemptKeyAt(db, k, c);
    }
    forall f, n, b, c | AttemptAt(db', f, n, b) && AttemptAt(db', f, n, c) ensures b == c {
      assert AttemptAt(db, f, n, b) && AttemptAt(db, f, n, c);
    }
    forall k, f, g | ResultKeyAt(db', k, f) && ResultKeyAt(db', k, g) ensures f == g {
      assert f != e ==> ResultKeyAt(db, k, f);
      assert g != e ==> ResultKeyAt(db, k, g);
    }
    forall n, o, b, c | ClaimedBy(db', n, o, b) && ClaimedBy(db', n, o, c) ensures b == c {
      assert b != a ==> ClaimedBy(db, n, o, b);
      assert c != a ==> ClaimedBy(db, n, o, c);
    }
  }

  lemma RewriteKeepsEvaluations(db: Db, e: Id, evaluation: EvaluationRow, attempt: AttemptRow, task: TaskRow)
    requires EvaluationsInv(db) && e in db.evaluations && Rewrites(db, e, evaluation, attempt, task)
    ensures EvaluationsInv(Touch(db, e, db.evaluations[e].currentAttemptId, evaluation, attempt, task))
  {
    var db' := Touch(db, e, db.evaluations[e].currentAttemptId, evaluation, attempt, task);
    forall f | f in db'.evaluations ensures EvaluationInv(db', f) {
      RewriteKeepsEvaluation(db, e, evaluation, attempt, task, f);
    }
  }

  lemma RewriteKeepsAttempts(db: Db, e: Id, evaluation: EvaluationRow, attempt: AttemptRow, task: TaskRow)
    requires AttemptsInv(db) && e in db.evaluations && EvaluationInv(db, e)
    requires Rewrites(db, e, evaluation, attempt, task)
    ensures AttemptsInv(Touch(db, e, db.evaluations[e].currentAttemptId, evaluation, attempt, task))
  {
    hide AttemptInv, Rewrites;
    var db' := Touch(db, e, db.evaluations[e].currentAttemptId, evaluation, attempt, task);
    forall b | b in db'.attempts ensures AttemptInv(db', b) {
      RewriteKeepsAttempt(db, e, evaluation, attempt, task, b);
    }
  }

  lemma RewriteKeepsAllCounts(db: Db, e: Id, evaluation: EvaluationRow, attempt: AttemptRow, task: TaskRow)
    requires CountsInv(db) && EvaluationsInv(db) && e in db.evaluations && Rewrites(db, e, evaluation, attempt, task)
    ensures CountsInv(Touch(db, e, db.evaluations[e].currentAttemptId, evaluation, attempt, task))
  {
    var db' := Touch(db, e, db.evaluations[e].currentAttemptId, evaluation, attempt, task);
    assert EvaluationInv(db, e);
    forall f | f in db'.evaluations ensures Joined(db', f) && GapFree(db', f) && Counted(db', f) {
      assert EvaluationInv(db, f);
      RewriteKeepsCounts(db, e, evaluation, attempt, task, f);
    }
  }

  lemma RewriteKeepsInv(db: Db, e: Id, evaluation: EvaluationRow, attempt: AttemptRow, task: TaskRow)
    requires Inv(db) && e in db.evaluations && EvaluationInv(db, e)
    requires Rewrites(db, e, evaluation, attempt, task)
    ensures Inv(Touch(db, e, db.evaluations[e].currentAttemptId, evaluation, attempt, task))
  {
    RewriteKeepsUnique(db, e, evaluation, attempt, task);
    RewriteKeepsEvaluations(db, e, evaluation, attempt, task);
    RewriteKeepsAttempts(db, e, evaluation, attempt, task);
    RewriteKeepsAllCounts(db, e, evaluation, attempt, task);
  }

  // ---- Second way: an expired lease gets its successor.

  /** When a retry replaces the current attempt: the guards of the transaction, less those the invariant implies. */
  ghost predicate Replaceable(db: Db, r: EvaluationRequest, now: nat) {
    && Joined(db, r.evaluationId)
    && var evaluation := db.evaluations[r.evaluationId];
    && var current := db.attempts[evaluation.currentAttemptId];
    && evaluation.state == RowLeased && current.state == RowLeased
    && current.expiresAt.Some? && current.expiresAt.value < now
    && r.attemptNumber == current.attemptNumber + 1 <= U32_MAX
    && SameEvaluationSemantics(current.payload, r)
    && r.attemptId !in db.attempts
    && (forall a :: !AttemptKeyAt(db, r.idempotencyKey, a))
  }

  function Replaced(db: Db, r: EvaluationRequest, now: nat): Db
    requires Joined(db, r.evaluationId) && db.evaluations[r.evaluationId].currentAttemptId in db.tasks
  {
    var e := r.evaluationId;
    var a := db.evaluations[e].currentAttemptId;
    db.(evaluations := db.evaluations[e := db.evaluations[e].(state := RowQueued, currentAttemptId := r.attemptId,
                                                              updatedAt := now)],
        attempts := db.attempts[a := db.attempts[a].(state := RowExpired, updatedAt := now)]
                               [r.attemptId := NewAttemptRow(r, now)],
        tasks := db.tasks[a := db.tasks[a].(state := RowExpired, updatedAt := now)][r.attemptId := NewTaskRow(r, now)])
  }

  lemma ReplaceFacts(db: Db, r: EvaluationRequest, now: nat)
    requires Inv(db) && Replaceable(db, r, now)
    ensures r.evaluationId in db.evaluations && EvaluationInv(db, r.evaluationId)
    ensures AttemptInv(db, db.evaluations[r.evaluationId].currentAttemptId)
    ensures r.attemptId !in db.tasks && r.attemptId != db.evaluations[r.evaluationId].currentAttemptId
  {
    hide AttemptInv, Counted, GapFree, Unique;
    assert EvaluationInv(db, r.evaluationId);
  }

  lemma ReplaceKeepsEvaluation(db: Db, r: EvaluationRequest, now: UnixMillis, f: Id)
    requires Replaceable(db, r, now) && EvaluationInv(db, r.evaluationId)
    requires AttemptInv(db, db.evaluations[r.evaluationId].currentAttemptId)
    requires f in db.evaluations && EvaluationInv(db, f)
    ensures EvaluationInv(Replaced(db, r, now), f)
  {
  }

  lemma ReplaceKeepsAttempt(db: Db, r: EvaluationRequest, now: UnixMillis, b: Id)
    requires Replaceable(db, r, now) && EvaluationInv(db, r.evaluationId)
    requires AttemptInv(db, db.evaluations[r.evaluationId].currentAttemptId)
    requires b in db.attempts ==> AttemptInv(db, b)
    requires b in Replaced(db, r, now).attempts
    ensures AttemptInv(Replaced(db, r, now), b)
  {
    var a := db.evaluations[r.evaluationId].currentAttemptId;
    if b == r.attemptId {
      assert RegistryAgrees(db, db.attempts[a].payload);
    }
  }

  lemma ReplaceExpiresOne(db: Db, r: EvaluationRequest, now: UnixMillis, f: Id)
    requires Replaceable(db, r, now) && db.evaluations[r.evaluationId].currentAttemptId in db.tasks
    requires db.attempts[db.evaluations[r.evaluationId].currentAttemptId].evaluationId == r.evaluationId
    ensures ExpiredAttempts(Replaced(db, r, now), f) == ExpiredAttempts(db, f)
            + (if f == r.evaluationId then {db.evaluations[r.evaluationId].currentAttemptId} else {})
    ensures db.evaluations[r.evaluationId].currentAttemptId !in ExpiredAttempts(db, f)
  {
    hide SameEvaluationSemantics, AttemptKeyAt;
  }

  lemma ReplaceCounts(db: Db, r: EvaluationRequest, now: UnixMillis, f: Id)
    requires Replaceable(db, r, now) && db.evaluations[r.evaluationId].currentAttemptId in db.tasks
    requires db.attempts[db.evaluations[r.evaluationId].currentAttemptId].evaluationId == r.evaluationId
    requires Joined(db, f) && Counted(db, f)
    requires f != r.evaluationId ==>
      db.evaluations[f].currentAttemptId != db.evaluations[r.evaluationId].currentAttemptId
    ensures Joined(Replaced(db, r, now), f) && Counted(Replaced(db, r, now), f)
  {
    hide SameEvaluationSemantics, AttemptKeyAt, ExpiredAttempts;
    ReplaceExpiresOne(db, r, now, f);
  }

  lemma ReplaceLeavesNoGap(db: Db, r: EvaluationRequest, now: UnixMillis, f: Id)
    requires Replaceable(db, r, now) && db.evaluations[r.evaluationId].currentAttemptId in db.tasks
    requires Joined(db, f) && GapFree(db, f)
    requires f != r.evaluationId ==>
      db.evaluations[f].currentAttemptId != db.evaluations[r.evaluationId].currentAttemptId
    ensures Joined(Replaced(db, r, now), f) && GapFree(Replaced(db, r, now), f)
  {
    hide SameEvaluationSemantics;
    var db' := Replaced(db, r, now);
    forall n | db'.evaluations[f].initialRequest.attemptNumber <= n <= CurrentNumber(db', f)
      ensures HasAttempt(db', f, n)
    {
      if n <= CurrentNumber(db, f) {
        assert HasAttempt(db, f, n);
        var b :| AttemptAt(db, f, n, b);
        assert AttemptAt(db', f, n, b);
      } else {
        assert AttemptAt(db', f, n, r.attemptId);
      }
    }
  }

  /** No attempt of an evaluation is beyond the current one. */
  lemma NumberIsBounded(db: Db, a: Id)
    requires a in db.attempts && AttemptInv(db, a)
    ensures Joined(db, db.attempts[a].evaluationId)
    ensures db.attempts[a].attemptNumber <= CurrentNumber(db, db.attempts[a].evaluationId)
  {
    hide TaskCheck, RegistryAgrees, SameEvaluationSemantics, AttemptCheck, LeaseFields;
  }

  /** No attempt carries the successor's number, and a new evaluation has no attempt at all. */
  lemma NumberIsFree(db: Db, e: Id, n: nat, a: Id)
    requires AttemptsInv(db) && (Joined(db, e) ==> CurrentNumber(db, e) < n)
    ensures !AttemptAt(db, e, n, a)
  {
    hide AttemptInv;
    if a in db.attempts {
      NumberIsBounded(db, a);
    }
  }

  lemma ReplaceKeepsUnique(db: Db, r: EvaluationRequest, now: UnixMillis)
    requires Unique(db) && Replaceable(db, r, now) && db.evaluations[r.evaluationId].currentAttemptId in db.tasks
    requires forall a :: !AttemptAt(db, r.evaluationId, r.attemptNumber, a)
    ensures Unique(Replaced(db, r, now))
  {
    hide SameEvaluationSemantics;
    var db' := Replaced(db, r, now);
    forall k, f, g | CreationKeyAt(db', k, f) && CreationKeyAt(db', k, g) ensures f == g {
      assert CreationKeyAt(db, k, f) && CreationKeyAt(db, k, g);
    }
    forall k, b, c | AttemptKeyAt(db', k, b) && AttemptKeyAt(db', k, c) ensures b == c {
      assert b != r.attemptId ==> AttemptKeyAt(db, k, b);
      assert c != r.attemptId ==> AttemptKeyAt(db, k, c);
    }
    forall f, n, b, c | AttemptAt(db', f, n, b) && AttemptAt(db', f, n, c) ensures b == c {
      assert b != r.attemptId ==> AttemptAt(db, f, n, b);
      assert c != r.attemptId ==> AttemptAt(db, f, n, c);
    }
    forall k, f, g | ResultKeyAt(db', k, f) && ResultKeyAt(db', k, g) ensures f == g {
      assert ResultKeyAt(db, k, f) && ResultKeyAt(db, k, g);
    }
    forall n, o, b, c | ClaimedBy(db', n, o, b) && ClaimedBy(db', n, o, c) ensures b == c {
      assert ClaimedBy(db, n, o, b) && ClaimedBy(db, n, o, c);
    }
  }

  lemma ReplaceKeepsAttempts(db: Db, r: EvaluationRequest, now: UnixMillis)
    requires AttemptsInv(db) && Replaceable(db, r, now) && EvaluationInv(db, r.evaluationId)
    requires AttemptInv(db, db.evaluations[r.evaluationId].currentAttemptId)
    ensures AttemptsInv(Replaced(db, r, now))
  {
    hide AttemptInv;
    var db' := Replaced(db, r, now);
    forall b | b in db'.attempts ensures AttemptInv(db', b) {
      ReplaceKeepsAttempt(db, r, now, b);
    }
  }

  lemma ReplaceKeepsEvaluations(db: Db, r: EvaluationRequest, now: UnixMillis)
    requires EvaluationsInv(db) && CountsInv(db) && Replaceable(db, r, now)
    requires AttemptInv(db, db.evaluations[r.evaluationId].currentAttemptId)
    ensures EvaluationsInv(Replaced(db, r, now)) && CountsInv(Replaced(db, r, now))
  {
    hide AttemptInv, Counted, GapFree;
    var db' := Replaced(db, r, now);
    assert EvaluationInv(db, r.evaluationId);
    forall f | f in db'.evaluations
      ensures EvaluationInv(db', f) && Joined(db', f) && GapFree(db', f) && Counted(db', f)
    {
      assert EvaluationInv(db, f);
      ReplaceKeepsEvaluation(db, r, now, f);
      ReplaceCounts(db, r, now, f);
      ReplaceLeavesNoGap(db, r, now, f);
    }
  }

  lemma ReplaceKeepsInv(db: Db, r: EvaluationRequest, now: UnixMillis)
    requires Inv(db) && Replaceable(db, r, now)
    requires Joined(db, r.evaluationId) && db.evaluations[r.evaluationId].currentAttemptId in db.tasks
    ensures Inv(Replaced(db, r, now))
  {
    hide AttemptInv, EvaluationInv, Counted, GapFree, Unique;
    ReplaceFacts(db, r, now);
    forall a ensures !AttemptAt(db, r.evaluationId, r.attemptNumber, a) {
      NumberIsFree(db, r.evaluationId, r.attemptNumber, a);
    }
    ReplaceKeepsUnique(db, r, now);
    ReplaceKeepsAttempts(db, r, now);
    ReplaceKeepsEvaluations(db, r, now);
  }

  // ---- Third way: a new evaluation with its first attempt.

  ghost predicate Insertable(db: Db, r: EvaluationRequest) {
    && RegistryAgrees(Register(db, r), r)
    && r.evaluationId !in db.evaluations && r.attemptId !in db.attempts
    && (forall e :: !CreationKeyAt(db, r.idempotencyKey, e))
    && (forall a :: !AttemptKeyAt(db, r.idempotencyKey, a))
    && 1 <= r.attemptNumber <= U32_MAX
    && DatabaseAccepts(r.requiredCapabilities)
  }

  function Inserted(db: Db, r: EvaluationRequest, createdAt: nat): Db {
    Touch(Register(db, r), r.evaluationId, r.attemptId,
          NewEvaluationRow(r, createdAt), NewAttemptRow(r, createdAt), NewTaskRow(r, createdAt))
  }

  lemma InsertKeepsEvaluation(db: Db, r: EvaluationRequest, createdAt: UnixMillis, f: Id)
    requires Insertable(db, r) && f in Inserted(db, r, createdAt).evaluations
    requires f in db.evaluations ==> EvaluationInv(db, f)
    ensures EvaluationInv(Inserted(db, r, createdAt), f)
  {
  }

  lemma InsertKeepsAttempt(db: Db, r: EvaluationRequest, createdAt: UnixMillis, b: Id)
    requires Insertable(db, r) && b in Inserted(db, r, createdAt).attempts
    requires b in db.attempts ==> AttemptInv(db, b)
    ensures AttemptInv(Inserted(db, r, createdAt), b)
  {
    hide DatabaseAccepts;
  }

  lemma InsertKeepsCounts(db: Db, r: EvaluationRequest, createdAt: UnixMillis, f: Id)
    requires Insertable(db, r) && f in Inserted(db, r, createdAt).evaluations
    requires forall a :: a in db.attempts ==> db.attempts[a].evaluationId != r.evaluationId
    requires f in db.evaluations ==> Joined(db, f) && GapFree(db, f) && Counted(db, f)
    ensures Joined(Inserted(db, r, createdAt), f)
    ensures GapFree(Inserted(db, r, createdAt), f) && Counted(Inserted(db, r, createdAt), f)
  {
    hide DatabaseAccepts, RegistryAgrees;
    var db' := Inserted(db, r, createdAt);
    if f == r.evaluationId {
      assert ExpiredAttempts(db', f) == {};
      assert AttemptAt(db', f, r.attemptNumber, r.attemptId);
      assert HasAttempt(db', f, r.attemptNumber);
    } else {
      assert ExpiredAttempts(db', f) == ExpiredAttempts(db, f);
      forall n | db.evaluations[f].initialRequest.attemptNumber <= n <= CurrentNumber(db, f)
        ensures HasAttempt(db', f, n)
      {
        assert HasAttempt(db, f, n);
        var b :| AttemptAt(db, f, n, b);
        assert AttemptAt(db', f, n, b);
      }
    }
  }

  lemma InsertKeepsUnique(db: Db, r: EvaluationRequest, createdAt: UnixMillis)
    requires Unique(db) && Insertable(db, r)
    requires forall a :: a in db.attempts ==> db.attempts[a].evaluationId != r.evaluationId
    ensures Unique(Inserted(db, r, createdAt))
  {
    hide RegistryAgrees, DatabaseAccepts;
    var db' := Inserted(db, r, createdAt);
    forall k, f, g | CreationKeyAt(db', k, f) && CreationKeyAt(db', k, g) ensures f == g {
      assert f != r.evaluationId ==> CreationKeyAt(db, k, f);
      assert g != r.evaluationId ==> CreationKeyAt(db, k, g);
    }
    forall k, b, c | AttemptKeyAt(db', k, b) && AttemptKeyAt(db', k, c) ensures b == c {
      assert b != r.attemptId ==> AttemptKeyAt(db, k, b);
      assert c != r.attemptId ==> AttemptKeyAt(db, k, c);
    }
    forall f, n, b, c | AttemptAt(db', f, n, b) && AttemptAt(db', f, n, c) ensures b == c {
      assert b != r.attemptId ==> AttemptAt(db, f, n, b);
      assert c != r.attemptId ==> AttemptAt(db, f, n, c);
    }
    forall k, f, g | ResultKeyAt(db', k, f) && ResultKeyAt(db', k, g) ensures f == g {
      assert ResultKeyAt(db, k, f) && ResultKeyAt(db, k, g);
    }
    forall n, o, b, c | ClaimedBy(db', n, o, b) && ClaimedBy(db', n, o, c) ensures b == c {
      assert ClaimedBy(db, n, o, b) && ClaimedBy(db, n, o, c);
    }
  }

  lemma InsertKeepsAttempts(db: Db, r: EvaluationRequest, createdAt: UnixMillis)
    requires AttemptsInv(db) && Insertable(db, r)
    ensures AttemptsInv(Inserted(db, r, createdAt))
  {
    hide AttemptInv, DatabaseAccepts, RegistryAgrees;
    var db' := Inserted(db, r, createdAt);
    forall b | b in db'.attempts ensures AttemptInv(db', b) {
      InsertKeepsAttempt(db, r, createdAt, b);
    }
  }

  lemma NoAttemptYet(db: Db, e: Id, a: Id)
    requires AttemptsInv(db) && e !in db.evaluations && a in db.attempts
    ensures db.attempts[a].evaluationId != e
  {
    assert AttemptInv(db, a);
  }

  lemma InsertKeepsInv(db: Db, r: EvaluationRequest, createdAt: UnixMillis)
    requires Inv(db) && Insertable(db, r)
    ensures Inv(Inserted(db, r, createdAt))
  {
    hide AttemptInv, EvaluationInv, Counted, GapFree, Unique, DatabaseAccepts, RegistryAgrees;
    forall a | a in db.attempts ensures db.attempts[a].evaluationId != r.evaluationId {
      NoAttemptYet(db, r.evaluationId, a);
    }
    InsertKeepsUnique(db, r, createdAt);
    InsertKeepsAttempts(db, r, createdAt);
    var db' := Inserted(db, r, createdAt);
    forall f | f in db'.evaluations
      ensures EvaluationInv(db', f) && Joined(db', f) && GapFree(db', f) && Counted(db', f)
    {
      InsertKeepsEvaluation(db, r, createdAt, f);
      InsertKeepsCounts(db, r, createdAt, f);
    }
  }
}
