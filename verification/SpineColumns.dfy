/** What each call on a reachable store answers and writes, said with the columns of the rows alone: the guards that a
    reachable store can never trip have disappeared, and no predicate of the transactions is used. */
module SpineColumns {
  import opened Prelude
  import opened Tokens
  import opened Domain
  import opened Spine
  import opened SpineInvariant
  import opened SpineSteps
  import opened SpineRuns

  // ---- Reads.

  /** What the caller sees of a row and its current attempt. */
  function Shown(e: Id, row: EvaluationRow, number: nat): Snapshot {
    var (state, attemptState) :=
      match row.state
      case RowLeased => (EvaluationLeased, AttemptLeased)
      case RowCompleted => (EvaluationCompleted, AttemptCompleted)
      case RowFailed => (EvaluationFailed, AttemptFailed)
      case RowCancelled => (EvaluationCancelled, AttemptCancelled)
      case _ => (EvaluationQueued, AttemptQueued);
    Snapshot(e, state, row.currentAttemptId, number, attemptState, row.terminalResult.Some?)
  }

  lemma RowsShown(db: Db, e: Id)
    requires Joined(db, e) && EvaluationInv(db, e) && AttemptInv(db, db.evaluations[e].currentAttemptId)
    ensures Status(db, e) ==
            Ok(Shown(e, db.evaluations[e], db.attempts[db.evaluations[e].currentAttemptId].attemptNumber))
  {
    hide RegistryAgrees, DatabaseAccepts, SameEvaluationSemantics;
  }

  /** A status read of a stored evaluation shows the state column of the row, the same state of the attempt, the number
      of the current attempt, and whether there is a result. */
  lemma StatusShows(db: Db, e: Id)
    requires Inv(db) && e in db.evaluations
    ensures var row := db.evaluations[e];
            && row.currentAttemptId in db.attempts
            && Status(db, e) == Ok(Shown(e, row, db.attempts[row.currentAttemptId].attemptNumber))
  {
    hide Inv, EvaluationInv, AttemptInv, Status;
    CurrentFacts(db, e);
    RowsShown(db, e);
  }

  /** In every reachable store the state columns of an evaluation, its current attempt and that attempt's task are what
      the status of the stored result says. */
  lemma StatesTellStatus(db: Db, e: Id)
    requires Reachable(db) && e in db.evaluations
    ensures var row := db.evaluations[e];
            var a := row.currentAttemptId;
            && a in db.attempts && a in db.tasks
            && var states := (row.state, db.attempts[a].state, db.tasks[a].state);
            match row.terminalResult
            case None => states == (RowQueued, RowQueued, RowReady) || states == (RowLeased, RowLeased, RowLeased)
            case Some(result) =>
              states == match result.status
                        case StatusCompleted => (RowCompleted, RowCompleted, RowCompleted)
                        case StatusFailed => (RowFailed, RowFailed, RowCompleted)
                        case StatusCancelled => (RowCancelled, RowCancelled, RowCancelled)
  {
    hide Reachable, Inv, AttemptInv;
    ReachableInv(db);
    CurrentFacts(db, e);
  }

  // ---- Submission and cancellation.

  /** The seven references of a result are those of the request. */
  predicate IsAbout(i: EvaluationIdentity, r: EvaluationRequest) {
    && i.requestId == r.requestId && i.evaluationId == r.evaluationId && i.attemptId == r.attemptId
    && i.problemVersionId == r.problemVersion.problemVersionId && i.submissionId == r.submission.submissionId
    && i.runtimeId == r.runtime.runtimeId && i.runtimeDigest == r.runtime.digest
  }

  lemma AboutIsIdentity(i: EvaluationIdentity, r: EvaluationRequest)
    ensures IdentityOf(r) == i <==> IsAbout(i, r)
  {
  }

  ghost predicate KeyTaken(db: Db, key: Id) {
    exists f :: f in db.evaluations && db.evaluations[f].resultKey == Some(key)
  }

  lemma TakenIsNotFree(db: Db, key: Id)
    ensures KeyTaken(db, key) <==> !KeyIsFree(db, key)
  {
    if f :| f in db.evaluations && db.evaluations[f].resultKey == Some(key) { assert ResultKeyAt(db, key, f); }
    if !KeyIsFree(db, key) {
      var f :| ResultKeyAt(db, key, f);
      assert f in db.evaluations && db.evaluations[f].resultKey == Some(key);
    }
  }

  /** The three rows after a terminal write. */
  function Settled(db: Db, e: Id, result: EvaluationResult, key: Id, now: nat): Db
    requires e in db.evaluations
    requires db.evaluations[e].currentAttemptId in db.attempts && db.evaluations[e].currentAttemptId in db.tasks
  {
    var a := db.evaluations[e].currentAttemptId;
    var (state, taskState) :=
      match result.status
      case StatusCompleted => (RowCompleted, RowCompleted)
      case StatusFailed => (RowFailed, RowCompleted)
      case StatusCancelled => (RowCancelled, RowCancelled);
    db.(evaluations := db.evaluations[e := db.evaluations[e].(state := state, terminalResult := Some(result),
                                                              resultKey := Some(key), updatedAt := now)],
        attempts := db.attempts[a := db.attempts[a].(state := state, updatedAt := now)],
        tasks := db.tasks[a := db.tasks[a].(state := taskState, updatedAt := now)])
  }

  /** The answer that a stored result gives on its own. */
  function Stored(row: EvaluationRow, key: Id, result: EvaluationResult): Option<StoreError> {
    if row.resultKey != Some(key) then Some(TerminalConflict)
    else if row.terminalResult != Some(result) then Some(IdempotencyConflict)
    else None
  }

  /** Why a submission to an evaluation without a result is refused, in the order in which the store finds out. */
  ghost function SubmitRefusal(db: Db, row: EvaluationRow, attempt: AttemptRow, key: Id, token: Id,
                               result: EvaluationResult, now: nat): Option<StoreError>
  {
    if row.state != RowLeased || row.currentAttemptId != result.identity.attemptId || attempt.leaseToken != Some(token)
       || (attempt.expiresAt.Some? && attempt.expiresAt.value < now) then Some(StaleLease)
    else if !IsAbout(result.identity, attempt.payload) then Some(IdentityConflict)
    else if now < row.createdAt then Some(Unavailable)
    else if KeyTaken(db, key) then Some(IdempotencyConflict)
    else if now < attempt.createdAt then Some(Unavailable)
    else None
  }

  /** Every answer of a submission and every store it leaves, for all inputs. */
  lemma SubmitDecides(db: Db, key: Id, token: Id, result: EvaluationResult, now: UnixMillis, encodes: bool)
    requires Reachable(db)
    ensures var e := result.identity.evaluationId;
            var tx := SubmitTx(db, key, token, result, now, encodes);
            if !encodes then tx.db == db && Answer(tx) == Err(CorruptData)
            else if e !in db.evaluations then tx.db == db && Answer(tx) == Err(NotFound)
            else
              var row := db.evaluations[e];
              var a := row.currentAttemptId;
              && a in db.attempts && a in db.tasks
              && var number := db.attempts[a].attemptNumber;
              if row.terminalResult.Some? then
                && tx.db == db
                && Answer(tx) == match Stored(row, key, result)
                                 case Some(error) => Err(error)
                                 case None => Ok(Shown(e, row, number))
              else
                match SubmitRefusal(db, row, db.attempts[a], key, token, result, now)
                case Some(error) => tx.db == db && Answer(tx) == Err(error)
                case None =>
                  && tx.db == Settled(db, e, result, key, now)
                  && Answer(tx) == Ok(Shown(e, Settled(db, e, result, key, now).evaluations[e], number))
  {
    hide Reachable, Inv, EvaluationInv, AttemptInv, KeyTaken, KeyIsFree, Status, Shown, RegistryAgrees, SubmitRefusal;
    ReachableInv(db);
    var e := result.identity.evaluationId;
    if encodes && e in db.evaluations {
      CurrentFacts(db, e);
      CurrentTerminal(db, e);
      StatusShows(db, e);
      var a := db.evaluations[e].currentAttemptId;
      if db.evaluations[e].terminalResult.None? {
        SubmitOpen(db, key, token, result, now);
        var tx := SubmitTx(db, key, token, result, now, true);
        StepKeepsInv(db, Submit(key, token, result, now, true));
        if tx.out.Ok? { StatusShows(tx.db, e); }
      }
    }
  }

  /** A submission to an evaluation without a result. */
  lemma SubmitOpen(db: Db, key: Id, token: Id, result: EvaluationResult, now: UnixMillis)
    requires Joined(db, result.identity.evaluationId)
    requires EvaluationInv(db, result.identity.evaluationId)
    requires AttemptInv(db, db.evaluations[result.identity.evaluationId].currentAttemptId)
    requires db.evaluations[result.identity.evaluationId].terminalResult.None?
    ensures var e := result.identity.evaluationId;
            var row := db.evaluations[e];
            var tx := SubmitTx(db, key, token, result, now, true);
            && row.currentAttemptId in db.tasks
            && match SubmitRefusal(db, row, db.attempts[row.currentAttemptId], key, token, result, now)
               case Some(error) => tx == Abort(db, error)
               case None => tx == Tx(Settled(db, e, result, key, now), Ok(ReadStatus(e)))
  {
    hide DatabaseAccepts, RegistryAgrees, SameEvaluationSemantics, KeyTaken, KeyIsFree;
    var e := result.identity.evaluationId;
    AboutIsIdentity(result.identity, db.attempts[db.evaluations[e].currentAttemptId].payload);
    TakenByAnother(db, e, key);
  }

  lemma TakenByAnother(db: Db, e: Id, key: Id)
    requires e in db.evaluations && db.evaluations[e].resultKey.None?
    ensures KeyTaken(db, key) <==> exists f :: f != e && ResultKeyAt(db, key, f)
  {
    if f :| f in db.evaluations && db.evaluations[f].resultKey == Some(key) { assert ResultKeyAt(db, key, f); }
    if f :| f != e && ResultKeyAt(db, key, f) {
      assert f in db.evaluations && db.evaluations[f].resultKey == Some(key);
    }
  }

  /** Why a cancellation of an evaluation without a result is refused; no lease is asked for. */
  ghost function CancelRefusal(db: Db, row: EvaluationRow, attempt: AttemptRow, key: Id, result: EvaluationResult,
                               now: nat): Option<StoreError>
  {
    if row.currentAttemptId != result.identity.attemptId || !IsAbout(result.identity, attempt.payload) then
      Some(IdentityConflict)
    else if now < row.createdAt then Some(Unavailable)
    else if KeyTaken(db, key) then Some(IdempotencyConflict)
    else if now < attempt.createdAt then Some(Unavailable)
    else None
  }

  lemma CancelOpen(db: Db, key: Id, e: Id, result: EvaluationResult, now: UnixMillis)
    requires result.status == StatusCancelled && result.identity.evaluationId == e && Joined(db, e)
    requires EvaluationInv(db, e) && AttemptInv(db, db.evaluations[e].currentAttemptId)
    requires db.evaluations[e].terminalResult.None?
    ensures var row := db.evaluations[e];
            var tx := CancelTx(db, key, e, result, now, true);
            && row.currentAttemptId in db.tasks
            && match CancelRefusal(db, row, db.attempts[row.currentAttemptId], key, result, now)
               case Some(error) => tx == Abort(db, error)
               case None => tx == Tx(Settled(db, e, result, key, now), Ok(ReadStatus(e)))
  {
    hide DatabaseAccepts, RegistryAgrees, SameEvaluationSemantics, KeyTaken, KeyIsFree;
    AboutIsIdentity(result.identity, db.attempts[db.evaluations[e].currentAttemptId].payload);
    TakenByAnother(db, e, key);
  }

  /** Every answer of a cancellation and every store it leaves, for all inputs. */
  lemma CancelDecides(db: Db, key: Id, e: Id, result: EvaluationResult, now: UnixMillis, encodes: bool)
    requires Reachable(db)
    ensures var tx := CancelTx(db, key, e, result, now, encodes);
            if result.status != StatusCancelled || result.identity.evaluationId != e then
              tx.db == db && Answer(tx) == Err(IdentityConflict)
            else if !encodes then tx.db == db && Answer(tx) == Err(CorruptData)
            else if e !in db.evaluations then tx.db == db && Answer(tx) == Err(NotFound)
            else
              var row := db.evaluations[e];
              var a := row.currentAttemptId;
              && a in db.attempts && a in db.tasks
              && var number := db.attempts[a].attemptNumber;
              if row.terminalResult.Some? then
                && tx.db == db
                && Answer(tx) == match Stored(row, key, result)
                                 case Some(error) => Err(error)
                                 case None => Ok(Shown(e, row, number))
              else
                match CancelRefusal(db, row, db.attempts[a], key, result, now)
                case Some(error) => tx.db == db && Answer(tx) == Err(error)
                case None =>
                  && tx.db == Settled(db, e, result, key, now)
                  && Answer(tx) == Ok(Shown(e, Settled(db, e, result, key, now).evaluations[e], number))
  {
    hide Reachable, Inv, EvaluationInv, AttemptInv, KeyTaken, KeyIsFree, Status, Shown, RegistryAgrees, CancelRefusal;
    ReachableInv(db);
    if result.status == StatusCancelled && result.identity.evaluationId == e && encodes && e in db.evaluations {
      CurrentFacts(db, e);
      CurrentTerminal(db, e);
      StatusShows(db, e);
      if db.evaluations[e].terminalResult.None? {
        CancelOpen(db, key, e, result, now);
        var tx := CancelTx(db, key, e, result, now, true);
        StepKeepsInv(db, Cancel(key, e, result, now, true));
        if tx.out.Ok? { StatusShows(tx.db, e); }
      }
    }
  }

  // ---- Retry.

  /** The request asks for the same work as the payload: only the four names of the attempt differ. */
  predicate SameWork(payload: EvaluationRequest, r: EvaluationRequest) {
    r == payload.(requestId := r.requestId, attemptId := r.attemptId, attemptNumber := r.attemptNumber,
                  idempotencyKey := r.idempotencyKey)
  }

  /** The comparison of semantics looks at every other field. */
  lemma SemanticsAreTheRest(payload: EvaluationRequest, r: EvaluationRequest)
    ensures SameEvaluationSemantics(payload, r) <==> SameWork(payload, r)
  {
  }

  /** In every reachable store all attempts of an evaluation ask for the work of its first request. */
  lemma AttemptsKeepTheWork(db: Db, a: Id)
    requires Reachable(db) && a in db.attempts
    ensures var e := db.attempts[a].evaluationId;
            e in db.evaluations && SameWork(db.evaluations[e].initialRequest, db.attempts[a].payload)
  {
    hide Reachable, Inv, EvaluationInv;
    ReachableInv(db);
    AttemptFacts(db, a);
    SemanticsAreTheRest(db.evaluations[db.attempts[a].evaluationId].initialRequest, db.attempts[a].payload);
    hide TaskCheck, RegistryAgrees, AttemptCheck, LeaseFields, SameEvaluationSemantics;
  }

  /** Why a retry of a stored evaluation with an unknown key is refused, in the order in which the store finds out. */
  ghost function RetryRefusal(db: Db, row: EvaluationRow, attempt: AttemptRow, r: EvaluationRequest, now: nat)
    : Option<StoreError>
  {
    if row.state != RowLeased then Some(StoreError.InvalidTransition)
    else if attempt.expiresAt.Some? && attempt.expiresAt.value >= now then Some(LeaseConflict)
    else if r.attemptNumber != attempt.attemptNumber + 1 then Some(StoreError.InvalidTransition)
    else if !SameWork(attempt.payload, r) then Some(IdentityConflict)
    else if r.attemptNumber > 4294967295 then Some(Unavailable)
    else if r.attemptId in db.attempts then Some(IdentityConflict)
    else None
  }

  /** The attempt row and the task row of a request that was just stored. */
  function QueuedAttemptRow(r: EvaluationRequest, at: nat): AttemptRow {
    AttemptRow(evaluationId := r.evaluationId, requestId := r.requestId, attemptNumber := r.attemptNumber,
               idempotencyKey := r.idempotencyKey, payload := r, state := RowQueued, nodeId := None,
               leaseToken := None, expiresAt := None, claimOperation := None, createdAt := at, updatedAt := at)
  }

  function ReadyTaskRow(r: EvaluationRequest, at: nat): TaskRow {
    TaskRow(state := RowReady, requiredCapabilities := r.requiredCapabilities, createdAt := at, updatedAt := at)
  }

  /** The store after a replacement: the old attempt and task are expired, the new ones stand in the queue. */
  function Requeued(db: Db, r: EvaluationRequest, now: nat): Db
    requires r.evaluationId in db.evaluations
    requires db.evaluations[r.evaluationId].currentAttemptId in db.attempts
    requires db.evaluations[r.evaluationId].currentAttemptId in db.tasks
  {
    var e := r.evaluationId;
    var a := db.evaluations[e].currentAttemptId;
    db.(evaluations := db.evaluations[e := db.evaluations[e].(state := RowQueued, currentAttemptId := r.attemptId,
                                                              updatedAt := now)],
        attempts := db.attempts[a := db.attempts[a].(state := RowExpired, updatedAt := now)]
                               [r.attemptId := QueuedAttemptRow(r, now)],
        tasks := db.tasks[a := db.tasks[a].(state := RowExpired, updatedAt := now)][r.attemptId := ReadyTaskRow(r, now)])
  }

  lemma RetryOpen(db: Db, r: EvaluationRequest, now: UnixMillis)
    requires Inv(db) && r.evaluationId in db.evaluations
    requires forall a :: a in db.attempts ==> db.attempts[a].idempotencyKey != r.idempotencyKey
    ensures var row := db.evaluations[r.evaluationId];
            var a := row.currentAttemptId;
            var tx := RetryTx(db, r, now, true);
            && a in db.attempts && a in db.tasks
            && match RetryRefusal(db, row, db.attempts[a], r, now)
               case Some(error) => tx == Abort(db, error)
               case None => tx == Tx(Requeued(db, r, now), Ok(ReadStatus(r.evaluationId)))
  {
    hide Inv, EvaluationInv, AttemptInv, SameEvaluationSemantics, SameWork, ReplaceAttempt;
    var row := db.evaluations[r.evaluationId];
    CurrentFacts(db, r.evaluationId);
    SemanticsAreTheRest(db.attempts[row.currentAttemptId].payload, r);
    assert forall a :: !AttemptKeyAt(db, r.idempotencyKey, a);
    TaskIsStorable(db, row.currentAttemptId);
    RowIsChecked(db, r.evaluationId);
    LeaseIsOrdered(db.attempts[row.currentAttemptId]);
    if row.state == RowLeased && r.attemptNumber == db.attempts[row.currentAttemptId].attemptNumber + 1 {
      forall b ensures !AttemptAt(db, r.evaluationId, r.attemptNumber, b) { NextIsFree(db, r, b); }
      if SameWork(db.attempts[row.currentAttemptId].payload, r) { WorkKeepsCapabilities(db, row.currentAttemptId, r); }
      ReplacesRows(db, row.currentAttemptId, r, now);
    }
  }

  lemma NextIsFree(db: Db, r: EvaluationRequest, b: Id)
    requires Inv(db) && Joined(db, r.evaluationId) && r.attemptNumber == CurrentNumber(db, r.evaluationId) + 1
    ensures !AttemptAt(db, r.evaluationId, r.attemptNumber, b)
  {
    hide AttemptInv, EvaluationInv;
    NumberIsFree(db, r.evaluationId, r.attemptNumber, b);
  }

  lemma TaskIsStorable(db: Db, a: Id)
    requires Inv(db) && a in db.attempts
    ensures a in db.tasks && DatabaseAccepts(db.attempts[a].payload.requiredCapabilities)
    ensures db.tasks[a].requiredCapabilities == db.attempts[a].payload.requiredCapabilities
    ensures db.tasks.Keys == db.attempts.Keys && TaskCheck(db.tasks[a])
    ensures db.tasks[a].createdAt == db.attempts[a].createdAt
    ensures db.attempts[a].evaluationId in db.evaluations
  {
    hide EvaluationsInv, CountsInv, Unique, RegistryAgrees, DatabaseAccepts, SameEvaluationSemantics;
    assert AttemptInv(db, a);
  }

  lemma RowIsChecked(db: Db, e: Id)
    requires e in db.evaluations && EvaluationInv(db, e)
    ensures EvaluationCheck(db.evaluations[e]) && db.evaluations[e].currentAttemptId in db.attempts
    ensures db.evaluations[e].createdAt <= db.attempts[db.evaluations[e].currentAttemptId].createdAt
  {
  }

  lemma LeaseIsOrdered(row: AttemptRow)
    requires LeaseFields(row)
    ensures row.expiresAt.Some? ==> row.createdAt <= row.expiresAt.value
    ensures row.state == RowLeased ==> row.nodeId.Some? && row.leaseToken.Some? && row.expiresAt.Some?
  {
  }

  lemma WorkKeepsCapabilities(db: Db, a: Id, r: EvaluationRequest)
    requires a in db.attempts && SameWork(db.attempts[a].payload, r)
    ensures r.requiredCapabilities == db.attempts[a].payload.requiredCapabilities
  {
  }

  /** The statements of a replacement meet no constraint but the number's range and the attempt id. */
  lemma ReplacesRows(db: Db, a: Id, r: EvaluationRequest, now: UnixMillis)
    requires r.evaluationId in db.evaluations && a == db.evaluations[r.evaluationId].currentAttemptId
    requires a in db.attempts && a in db.tasks && db.tasks.Keys == db.attempts.Keys
    requires EvaluationCheck(db.evaluations[r.evaluationId]) && db.evaluations[r.evaluationId].state == RowLeased
    requires AttemptCheck(db.attempts[a]) && TaskCheck(db.tasks[a])
    requires db.evaluations[r.evaluationId].createdAt <= db.attempts[a].createdAt == db.tasks[a].createdAt
    requires forall b :: !AttemptAt(db, r.evaluationId, r.attemptNumber, b)
    requires forall b :: !AttemptKeyAt(db, r.idempotencyKey, b)
    requires r.attemptNumber >= 1
    ensures db.attempts[a].createdAt <= now && DatabaseAccepts(r.requiredCapabilities) ==>
            ReplaceAttempt(db, a, r, now) ==
            if r.attemptNumber > 4294967295 then Abort(db, Unavailable)
            else if r.attemptId in db.attempts then Abort(db, IdentityConflict)
            else Tx(Requeued(db, r, now), Ok(ReadStatus(r.evaluationId)))
  {
    hide DatabaseAccepts;
  }

  /** A retry with the key of a stored attempt is answered by that attempt alone. */
  lemma RetryKnown(db: Db, r: EvaluationRequest, now: UnixMillis, k: Id)
    requires Inv(db) && k in db.attempts && db.attempts[k].idempotencyKey == r.idempotencyKey
    ensures var tx := RetryTx(db, r, now, true);
            && tx.db == db
            && if db.attempts[k].payload != r then Answer(tx) == Err(IdempotencyConflict)
               else
                 && r.evaluationId in db.evaluations
                 && db.evaluations[r.evaluationId].currentAttemptId in db.attempts
                 && var row := db.evaluations[r.evaluationId];
                 Answer(tx) == Ok(Shown(r.evaluationId, row, db.attempts[row.currentAttemptId].attemptNumber))
  {
    hide Inv, EvaluationInv, AttemptInv, Status, Shown, SameEvaluationSemantics, ReplaceAttempt;
    assert AttemptKeyAt(db, r.idempotencyKey, k);
    UniqueAttemptKey(db, r.idempotencyKey, k);
    if db.attempts[k].payload == r {
      PayloadNames(db, k);
      StatusShows(db, r.evaluationId);
    }
  }

  /** Every answer of a retry and every store it leaves, for all inputs. */
  lemma RetryDecides(db: Db, r: EvaluationRequest, now: UnixMillis, encodes: bool)
    requires Reachable(db)
    ensures var e := r.evaluationId;
            var tx := RetryTx(db, r, now, encodes);
            if !encodes then tx.db == db && Answer(tx) == Err(CorruptData)
            else if exists k :: k in db.attempts && db.attempts[k].idempotencyKey == r.idempotencyKey then
              && tx.db == db
              && if r !in (set k | k in db.attempts :: db.attempts[k].payload) then
                   Answer(tx) == Err(IdempotencyConflict)
                 else
                   && e in db.evaluations && db.evaluations[e].currentAttemptId in db.attempts
                   && var row := db.evaluations[e];
                   Answer(tx) == Ok(Shown(e, row, db.attempts[row.currentAttemptId].attemptNumber))
            else if e !in db.evaluations then tx.db == db && Answer(tx) == Err(NotFound)
            else
              var row := db.evaluations[e];
              var a := row.currentAttemptId;
              && a in db.attempts && a in db.tasks
              && match RetryRefusal(db, row, db.attempts[a], r, now)
                 case Some(error) => tx.db == db && Answer(tx) == Err(error)
                 case None =>
                   && tx.db == Requeued(db, r, now)
                   && Answer(tx) == Ok(Snapshot(e, EvaluationQueued, r.attemptId, r.attemptNumber, AttemptQueued, false))
  {
    hide Reachable, Inv, EvaluationInv, AttemptInv, Status, SameWork, SameEvaluationSemantics, ReplaceAttempt,
         RetryRefusal;
    ReachableInv(db);
    var tx := RetryTx(db, r, now, encodes);
    if encodes {
      if k :| k in db.attempts && db.attempts[k].idempotencyKey == r.idempotencyKey {
        RetryKnown(db, r, now, k);
        PayloadHasKey(db, r, k);
      } else {
        assert forall a :: !AttemptKeyAt(db, r.idempotencyKey, a);
        if r.evaluationId in db.evaluations {
          RetryOpen(db, r, now);
          StepKeepsInv(db, Retry(r, now, true));
          RetryApplies(db, r, now, true);
          if tx.out.Ok? {
            StatusShows(tx.db, r.evaluationId);
            NoResultWhileLeased(db, r.evaluationId);
          }
        }
      }
    }
  }

  /** Of the attempts only the one with the request's key can carry the request. */
  lemma PayloadHasKey(db: Db, r: EvaluationRequest, k: Id)
    requires Inv(db) && k in db.attempts && db.attempts[k].idempotencyKey == r.idempotencyKey
    ensures r in (set a | a in db.attempts :: db.attempts[a].payload) <==> db.attempts[k].payload == r
  {
    hide Inv;
    if a :| a in db.attempts && db.attempts[a].payload == r {
      AttemptFacts(db, a);
      hide RegistryAgrees, SameEvaluationSemantics, TaskCheck, AttemptCheck, LeaseFields;
      assert AttemptKeyAt(db, r.idempotencyKey, a) && AttemptKeyAt(db, r.idempotencyKey, k);
      UniqueAttemptKey(db, r.idempotencyKey, a);
      UniqueAttemptKey(db, r.idempotencyKey, k);
    }
  }

  lemma PayloadNames(db: Db, a: Id)
    requires Inv(db) && a in db.attempts
    ensures db.attempts[a].payload.evaluationId == db.attempts[a].evaluationId
    ensures db.attempts[a].evaluationId in db.evaluations
  {
    hide EvaluationsInv, CountsInv, Unique;
    assert AttemptInv(db, a);
    hide RegistryAgrees, SameEvaluationSemantics, TaskCheck;
  }

  lemma NoResultWhileLeased(db: Db, e: Id)
    requires Inv(db) && e in db.evaluations
    ensures db.evaluations[e].state in {RowQueued, RowLeased} ==> db.evaluations[e].terminalResult.None?
  {
    hide AttemptsInv, CountsInv, Unique;
    assert EvaluationInv(db, e);
    CurrentTerminal(db, e);
  }

  // ---- Create.

  /** No registered reference of the same name says something else. */
  predicate ReferencesFit(db: Db, r: EvaluationRequest) {
    && (r.submission.source.artifactId in db.artifacts ==>
          db.artifacts[r.submission.source.artifactId] == r.submission.source)
    && (r.problemVersion.problemVersionId in db.problemVersions ==>
          db.problemVersions[r.problemVersion.problemVersionId] == r.problemVersion)
    && (r.submission.submissionId in db.submissions ==>
          db.submissions[r.submission.submissionId] == r.submission.source.artifactId)
    && (r.runtime.runtimeId in db.runtimes ==> db.runtimes[r.runtime.runtimeId] == r.runtime.digest)
  }

  ghost predicate AttemptKeyTaken(db: Db, key: Id) {
    exists a :: a in db.attempts && db.attempts[a].idempotencyKey == key
  }

  /** Why a create with an unknown key is refused, in the order in which the store finds out. */
  ghost function CreateRefusal(db: Db, r: EvaluationRequest): Option<StoreError> {
    if !ReferencesFit(db, r) then Some(ImmutableReferenceConflict)
    else if r.evaluationId in db.evaluations then Some(IdentityConflict)
    else if r.attemptNumber < 1 || r.attemptNumber > 4294967295 then Some(Unavailable)
    else if r.attemptId in db.attempts || AttemptKeyTaken(db, r.idempotencyKey) then Some(IdentityConflict)
    else if !DatabaseAccepts(r.requiredCapabilities) then Some(Unavailable)
    else None
  }

  /** The store after a create: the references are registered, one evaluation with one attempt and one task is new. */
  function Created(db: Db, r: EvaluationRequest, at: nat): Db {
    Db(evaluations := db.evaluations[r.evaluationId := EvaluationRow(
         requestId := r.requestId, creationKey := r.idempotencyKey,
         problemVersionId := r.problemVersion.problemVersionId, submissionId := r.submission.submissionId,
         runtimeId := r.runtime.runtimeId, initialRequest := r, state := RowQueued, currentAttemptId := r.attemptId,
         terminalResult := None, resultKey := None, createdAt := at, updatedAt := at)],
       attempts := db.attempts[r.attemptId := QueuedAttemptRow(r, at)],
       tasks := db.tasks[r.attemptId := ReadyTaskRow(r, at)],
       artifacts := db.artifacts[r.submission.source.artifactId := r.submission.source],
       problemVersions := db.problemVersions[r.problemVersion.problemVersionId := r.problemVersion],
       submissions := db.submissions[r.submission.submissionId := r.submission.source.artifactId],
       runtimes := db.runtimes[r.runtime.runtimeId := r.runtime.digest])
  }

  lemma FitIsAgreement(db: Db, r: EvaluationRequest)
    ensures RegistryAgrees(Register(db, r), r) <==> ReferencesFit(db, r)
    ensures ReferencesFit(db, r) ==>
            && Register(db, r).artifacts == db.artifacts[r.submission.source.artifactId := r.submission.source]
            && Register(db, r).problemVersions ==
               db.problemVersions[r.problemVersion.problemVersionId := r.problemVersion]
            && Register(db, r).submissions == db.submissions[r.submission.submissionId := r.submission.source.artifactId]
            && Register(db, r).runtimes == db.runtimes[r.runtime.runtimeId := r.runtime.digest]
  {
  }

  lemma CreateOpen(db: Db, r: EvaluationRequest, at: UnixMillis)
    requires Inv(db) && forall e :: e in db.evaluations ==> db.evaluations[e].creationKey != r.idempotencyKey
    ensures CreateTx(db, r, at, true) ==
            match CreateRefusal(db, r)
            case Some(error) => Abort(db, error)
            case None => Tx(Created(db, r, at), Ok(ReadStatus(r.evaluationId)))
  {
    hide Inv, EvaluationInv, AttemptInv, RegistryAgrees, Register, ReferencesFit, DatabaseAccepts;
    assert forall e :: !CreationKeyAt(db, r.idempotencyKey, e);
    FitIsAgreement(db, r);
    TablesMatch(db);
    assert (exists a :: AttemptKeyAt(db, r.idempotencyKey, a)) <==> AttemptKeyTaken(db, r.idempotencyKey) by {
      if a :| AttemptKeyAt(db, r.idempotencyKey, a) {
        assert a in db.attempts && db.attempts[a].idempotencyKey == r.idempotencyKey;
      }
      if a :| a in db.attempts && db.attempts[a].idempotencyKey == r.idempotencyKey {
        assert AttemptKeyAt(db, r.idempotencyKey, a);
      }
    }
    if r.evaluationId !in db.evaluations {
      forall a ensures !AttemptAt(db, r.evaluationId, r.attemptNumber, a) {
        if a in db.attempts { NewHasNoAttempt(db, r.evaluationId, a); }
      }
    }
    KeepsRows(db, r);
  }

  lemma KeepsRows(db: Db, r: EvaluationRequest)
    ensures Register(db, r) == db.(artifacts := Register(db, r).artifacts,
                                   problemVersions := Register(db, r).problemVersions,
                                   submissions := Register(db, r).submissions, runtimes := Register(db, r).runtimes)
  {
  }

  lemma TablesMatch(db: Db)
    requires Inv(db)
    ensures db.tasks.Keys == db.attempts.Keys
  {
    hide EvaluationsInv, AttemptsInv, CountsInv, Unique;
  }

  lemma NewHasNoAttempt(db: Db, e: Id, a: Id)
    requires Inv(db) && e !in db.evaluations && a in db.attempts
    ensures db.attempts[a].evaluationId != e
  {
    hide EvaluationsInv, AttemptInv, CountsInv, Unique;
    NoAttemptYet(db, e, a);
  }

  /** A create with the key of a stored evaluation is answered by that evaluation alone. */
  lemma CreateKnown(db: Db, r: EvaluationRequest, createdAt: UnixMillis, e: Id)
    requires Inv(db) && e in db.evaluations && db.evaluations[e].creationKey == r.idempotencyKey
    ensures var tx := CreateTx(db, r, createdAt, true);
            var row := db.evaluations[e];
            && tx.db == db
            && if row.initialRequest != r then Answer(tx) == Err(IdempotencyConflict)
               else row.currentAttemptId in db.attempts && e == r.evaluationId
                    && Answer(tx) == Ok(Shown(e, row, db.attempts[row.currentAttemptId].attemptNumber))
  {
    hide Inv, AttemptInv, Status, Shown, InsertNew, RegistryAgrees, DatabaseAccepts;
    assert CreationKeyAt(db, r.idempotencyKey, e);
    UniqueCreationKey(db, r.idempotencyKey, e);
    StatusShows(db, e);
    CurrentFacts(db, e);
  }

  /** Of the evaluations only the one with the request's key can have the request as its first. */
  lemma FirstRequestHasKey(db: Db, r: EvaluationRequest, e: Id)
    requires Inv(db) && e in db.evaluations && db.evaluations[e].creationKey == r.idempotencyKey
    ensures r in (set f | f in db.evaluations :: db.evaluations[f].initialRequest)
            <==> db.evaluations[e].initialRequest == r
  {
    hide Inv, AttemptInv;
    if f :| f in db.evaluations && db.evaluations[f].initialRequest == r {
      CurrentFacts(db, f);
      assert CreationKeyAt(db, r.idempotencyKey, f) && CreationKeyAt(db, r.idempotencyKey, e);
      UniqueCreationKey(db, r.idempotencyKey, f);
      UniqueCreationKey(db, r.idempotencyKey, e);
    }
  }

  lemma NewIsShown(db: Db, r: EvaluationRequest, createdAt: UnixMillis)
    requires Inv(db) && CreateTx(db, r, createdAt, true) == Tx(Created(db, r, createdAt), Ok(ReadStatus(r.evaluationId)))
    ensures Status(Created(db, r, createdAt), r.evaluationId) ==
            Ok(Snapshot(r.evaluationId, EvaluationQueued, r.attemptId, r.attemptNumber, AttemptQueued, false))
  {
    hide Inv, CreateTx, Status;
    StepKeepsInv(db, Create(r, createdAt, true));
    CreateApplies(db, r, createdAt);
    StatusShows(Created(db, r, createdAt), r.evaluationId);
  }

  /** Every answer of a create and every store it leaves, for all inputs. */
  lemma CreateDecides(db: Db, r: EvaluationRequest, createdAt: UnixMillis, encodes: bool)
    requires Reachable(db)
    ensures var tx := CreateTx(db, r, createdAt, encodes);
            if !encodes then tx.db == db && Answer(tx) == Err(CorruptData)
            else if exists e :: e in db.evaluations && db.evaluations[e].creationKey == r.idempotencyKey then
              && tx.db == db
              && if r !in (set e | e in db.evaluations :: db.evaluations[e].initialRequest) then
                   Answer(tx) == Err(IdempotencyConflict)
                 else
                   && r.evaluationId in db.evaluations
                   && db.evaluations[r.evaluationId].currentAttemptId in db.attempts
                   && var row := db.evaluations[r.evaluationId];
                   Answer(tx) == Ok(Shown(r.evaluationId, row, db.attempts[row.currentAttemptId].attemptNumber))
            else
              match CreateRefusal(db, r)
              case Some(error) => tx.db == db && Answer(tx) == Err(error)
              case None =>
                && tx.db == Created(db, r, createdAt)
                && Answer(tx) == Ok(Snapshot(r.evaluationId, EvaluationQueued, r.attemptId, r.attemptNumber,
                                             AttemptQueued, false))
  {
    hide Reachable, Inv, EvaluationInv, AttemptInv, Status, InsertNew, RegistryAgrees, CreateRefusal;
    ReachableInv(db);
    if encodes {
      if e :| e in db.evaluations && db.evaluations[e].creationKey == r.idempotencyKey {
        hide CreateTx;
        CreateKnown(db, r, createdAt, e);
        FirstRequestHasKey(db, r, e);
      } else {
        hide CreateTx;
        CreateOpen(db, r, createdAt);
        if CreateRefusal(db, r).None? { NewIsShown(db, r, createdAt); }
      }
    } else {
      assert CreateTx(db, r, createdAt, encodes) == Abort(db, CorruptData);
    }
  }

  lemma CreateApplies(db: Db, r: EvaluationRequest, createdAt: UnixMillis)
    ensures Apply(db, Create(r, createdAt, true)) == CreateTx(db, r, createdAt, true)
  {
    hide CreateTx;
  }

  // ---- Renewal.

  /** Every answer of a renewal and every store it leaves, for all inputs. The stored expiry is not looked at, and a
      queued evaluation counts as corrupt. */
  lemma RenewDecides(db: Db, node: Id, e: Id, attempt: Id, token: Id, now: UnixMillis, duration: LeaseDuration)
    requires Reachable(db)
    ensures var tx := RenewTx(db, node, e, attempt, token, now, duration);
            if now + duration > 253402300799999 then tx == Tx(db, Err(InvalidTime))
            else if e !in db.evaluations then tx == Tx(db, Err(NotFound))
            else
              var row := db.evaluations[e];
              && row.currentAttemptId in db.attempts
              && var current := db.attempts[row.currentAttemptId];
              if row.state == RowCancelled then tx == Tx(db, Ok(CancelLease))
              else if row.state == RowQueued then tx == Tx(db, Err(CorruptData))
              else if row.state != RowLeased || row.currentAttemptId != attempt || current.nodeId != Some(node)
                      || current.leaseToken != Some(token) then tx == Tx(db, Err(StaleLease))
              else if now < current.createdAt then tx == Tx(db, Err(Unavailable))
              else
                tx == Tx(db.(attempts := db.attempts[attempt := current.(expiresAt := Some(now + duration),
                                                                         updatedAt := now)]),
                         Ok(Continue(now + duration)))
  {
    hide Reachable, Inv, EvaluationInv, AttemptInv;
    ReachableInv(db);
    if e in db.evaluations { CurrentFacts(db, e); }
  }
}
