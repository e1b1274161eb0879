/** The state columns follow the lifecycle graphs of the domain, and what a run spends on retries is what the attempt
    numbers say; registered references agree for ever. */
module SpineLifecycle {
  import opened Prelude
  import opened Tokens
  import opened Domain
  import opened Spine
  import opened SpineInvariant
  import opened SpineSteps
  import opened SpineRuns

  /** Either no move or an edge of `EvaluationState::transition_to`. */
  predicate EvaluationEdge(x: RowState, y: RowState) {
    x == y || (EvaluationStateOf(x).Ok? && EvaluationStateOf(y).Ok?
               && EvaluationStateOf(x).value.TransitionTo(EvaluationStateOf(y).value).Ok?)
  }

  /** Either no move or an edge of `AttemptState::transition_to`. */
  predicate AttemptEdge(x: RowState, y: RowState) {
    x == y || (AttemptStateOf(x).Ok? && AttemptStateOf(y).Ok?
               && AttemptStateOf(x).value.TransitionTo(AttemptStateOf(y).value).Ok?)
  }

  /** The edges, written out: an evaluation is leased or cancelled from the queue, and from the lease it goes back to the
      queue or ends; an attempt does the same, but expires instead of going back. */
  lemma EdgesWrittenOut(x: RowState, y: RowState)
    ensures EvaluationEdge(x, y) <==>
            || x == y
            || (x == RowQueued && y in {RowLeased, RowCancelled})
            || (x == RowLeased && y in {RowQueued, RowCompleted, RowFailed, RowCancelled})
    ensures AttemptEdge(x, y) <==>
            || x == y
            || (x == RowQueued && y in {RowLeased, RowCancelled})
            || (x == RowLeased && y in {RowExpired, RowCompleted, RowFailed, RowCancelled})
  {
  }

  ghost predicate EvaluationMoves(db: Db, db': Db, e: Id) {
    e in db'.evaluations ==>
      if e in db.evaluations then EvaluationEdge(db.evaluations[e].state, db'.evaluations[e].state)
      else db'.evaluations[e].state == RowQueued
  }

  ghost predicate AttemptMoves(db: Db, db': Db, a: Id) {
    a in db'.attempts ==>
      if a in db.attempts then AttemptEdge(db.attempts[a].state, db'.attempts[a].state)
      else db'.attempts[a].state == RowQueued
  }

  /** The step rewrote evaluation `e` and its current attempt, along edges of the graphs and without a requeue. */
  ghost predicate Wrote(db: Db, db': Db, e: Id) {
    && Joined(db, e) && e in db'.evaluations
    && var a := db.evaluations[e].currentAttemptId;
    && a in db'.attempts
    && db'.evaluations == db.evaluations[e := db'.evaluations[e]]
    && db'.attempts == db.attempts[a := db'.attempts[a]]
    && EvaluationEdge(db.evaluations[e].state, db'.evaluations[e].state)
    && AttemptEdge(db.attempts[a].state, db'.attempts[a].state)
    && db.attempts[a].state != RowExpired && db'.attempts[a].state != RowExpired
    && (db.evaluations[e].state == RowLeased ==> db'.evaluations[e].state != RowQueued)
  }

  datatype Shape = Unchanged | Insertion(request: EvaluationRequest, at: UnixMillis)
                 | Replacement(request: EvaluationRequest, at: UnixMillis) | Writing(evaluation: Id)

  ghost predicate HasShape(db: Db, db': Db, shape: Shape) {
    match shape
    case Unchanged => db' == db
    case Insertion(r, at) => Insertable(db, r) && db' == Inserted(db, r, at)
    case Replacement(r, at) =>
      && Replaceable(db, r, at) && db.evaluations[r.evaluationId].currentAttemptId in db.tasks
      && db.attempts[db.evaluations[r.evaluationId].currentAttemptId].evaluationId == r.evaluationId
      && db' == Replaced(db, r, at)
    case Writing(e) => Wrote(db, db', e)
  }

  lemma ClaimWrites(db: Db, a: Id, node: Id, token: Id, now: UnixMillis, expiry: nat, operation: Option<Id>)
    requires a in db.attempts && a in db.tasks && Joined(db, db.attempts[a].evaluationId)
    requires db.evaluations[db.attempts[a].evaluationId].currentAttemptId == a
    requires db.evaluations[db.attempts[a].evaluationId].state == RowQueued && db.attempts[a].state == RowQueued
    ensures Wrote(db, ClaimedDb(db, a, node, token, now, expiry, operation), db.attempts[a].evaluationId)
  {
  }

  lemma TerminalWritesRows(db: Db, e: Id, a: Id, state: RowState, taskState: RowState, result: EvaluationResult,
                           key: Id, now: nat)
    requires Joined(db, e) && db.evaluations[e].currentAttemptId == a && a in db.tasks
    requires db.evaluations[e].state == db.attempts[a].state && Terminal(state)
    requires db.attempts[a].state == RowLeased || (db.attempts[a].state == RowQueued && state == RowCancelled)
    ensures Wrote(db, TerminalDb(db, e, a, state, taskState, result, key, now), e)
  {
  }

  lemma RenewWrites(db: Db, e: Id, a: Id, renewed: AttemptRow)
    requires Joined(db, e) && db.evaluations[e].currentAttemptId == a
    requires renewed.state == db.attempts[a].state == RowLeased
    ensures Wrote(db, db.(attempts := db.attempts[a := renewed]), e)
  {
    assert db.evaluations[e := db.evaluations[e]] == db.evaluations;
  }

  lemma ClaimShape(db: Db, a: Id, node: Id, token: Id, now: UnixMillis, duration: LeaseDuration, operation: Option<Id>)
    requires Inv(db) && QueuedAttempt(db, a) && now + duration <= MAX_UNIX_MILLIS
    ensures var db' := ClaimAttempt(db, a, node, token, now, now + duration, operation).db;
            db' == db || Wrote(db, db', db.attempts[a].evaluationId)
  {
    hide Inv, EvaluationInv, AttemptInv, ClaimAttempt, Wrote, Grantable;
    CurrentFacts(db, db.attempts[a].evaluationId);
    ClaimEffect(db, a, node, token, now, duration, operation);
    ClaimWrites(db, a, node, token, now, now + duration, operation);
  }

  lemma RenewShape(db: Db, node: Id, e: Id, a: Id, token: Id, now: UnixMillis, duration: LeaseDuration)
    requires Inv(db)
    ensures var db' := RenewTx(db, node, e, a, token, now, duration).db;
            db' == db || Wrote(db, db', e)
  {
    hide Inv, EvaluationInv, AttemptInv, RenewTx, Wrote;
    RenewEffect(db, node, e, a, token, now, duration);
    if Renewable(db, node, e, a, token, now, duration) {
      CurrentFacts(db, e);
      RenewWrites(db, e, a, db.attempts[a].(expiresAt := Some(now + duration), updatedAt := now));
    }
  }

  lemma SubmitShape(db: Db, key: Id, token: Id, result: EvaluationResult, now: UnixMillis, encodes: bool)
    requires Inv(db)
    ensures var db' := SubmitTx(db, key, token, result, now, encodes).db;
            db' == db || Wrote(db, db', result.identity.evaluationId)
  {
    hide Inv, EvaluationInv, AttemptInv, SubmitTx, Wrote, KeyIsFree;
    SubmitEffect(db, key, token, result, now, encodes);
    if Submittable(db, key, token, result, now) {
      CurrentFacts(db, result.identity.evaluationId);
      TerminalWritesRows(db, result.identity.evaluationId, result.identity.attemptId, StatusRow(result.status),
                         StatusTaskRow(result.status), result, key, now);
    }
  }

  lemma CancelShape(db: Db, key: Id, e: Id, result: EvaluationResult, now: UnixMillis, encodes: bool)
    requires Inv(db)
    ensures var db' := CancelTx(db, key, e, result, now, encodes).db;
            db' == db || Wrote(db, db', e)
  {
    hide Inv, EvaluationInv, AttemptInv, CancelTx, Wrote, KeyIsFree;
    CancelEffect(db, key, e, result, now, encodes);
    if Cancellable(db, key, e, result, now) {
      CurrentFacts(db, e);
      TerminalWritesRows(db, e, result.identity.attemptId, RowCancelled, RowCancelled, result, key, now);
    }
  }

  /** Every transaction leaves the store alone, inserts one evaluation, replaces one expired lease, or rewrites the rows
      of one evaluation and its current attempt. */
  lemma StepShape(db: Db, c: Command) returns (shape: Shape)
    requires Inv(db)
    ensures HasShape(db, Apply(db, c).db, shape)
    ensures shape.Insertion? ==> c.Create? && c.request == shape.request
    ensures shape.Replacement? ==> c.Retry? && c.request == shape.request && c.now == shape.at
  {
    hide Inv, EvaluationInv, AttemptInv, CreateTx, RetryTx, RenewTx, SubmitTx, CancelTx, ClaimAttempt, Insertable,
         QueuedAttempt, Wrote;
    shape := Unchanged;
    match c
    case Create(r, createdAt, encodes) =>
      CreateEffect(db, r, createdAt, encodes);
      if encodes && Insertable(db, r) { shape := Insertion(r, createdAt); }
    case Claim(node, token, now, duration, operation, capabilities, skipped) =>
      var chosen := SelectTask(db, capabilities, skipped);
      if chosen.Some? && now + duration <= MAX_UNIX_MILLIS && Apply(db, c).db != db {
        ClaimableIsCurrent(db, capabilities, skipped, chosen.value);
        ClaimShape(db, chosen.value, node, token, now, duration, operation);
        shape := Writing(db.attempts[chosen.value].evaluationId);
      }
    case Renew(node, e, a, token, now, duration) =>
      RenewShape(db, node, e, a, token, now, duration);
      if Apply(db, c).db != db { shape := Writing(e); }
    case Retry(r, now, encodes) =>
      RetryEffect(db, r, now, encodes);
      if encodes && Replaceable(db, r, now) {
        CurrentFacts(db, r.evaluationId);
        shape := Replacement(r, now);
      }
    case Submit(key, token, result, now, encodes) =>
      SubmitShape(db, key, token, result, now, encodes);
      if Apply(db, c).db != db { shape := Writing(result.identity.evaluationId); }
    case Cancel(key, e, result, now, encodes) =>
      CancelShape(db, key, e, result, now, encodes);
      if Apply(db, c).db != db { shape := Writing(e); }
  }

  /** Every row that a step writes moves along an edge of the domain graphs; a new row starts queued. */
  lemma StepFollowsLifecycle(db: Db, c: Command, e: Id, a: Id)
    requires Inv(db)
    ensures EvaluationMoves(db, Apply(db, c).db, e) && AttemptMoves(db, Apply(db, c).db, a)
  {
    hide Inv, Apply, Insertable, SameEvaluationSemantics, AttemptKeyAt;
    var shape := StepShape(db, c);
    if shape.Insertion? { InsertedMoves(db, shape.request, shape.at, e, a); }
  }

  lemma InsertedMoves(db: Db, r: EvaluationRequest, createdAt: UnixMillis, e: Id, a: Id)
    requires Insertable(db, r)
    ensures EvaluationMoves(db, Inserted(db, r, createdAt), e) && AttemptMoves(db, Inserted(db, r, createdAt), a)
  {
    hide RegistryAgrees, DatabaseAccepts;
  }

  // ---- Counting retries.

  /** A step that takes evaluation `e` from leased back to queued. */
  ghost predicate Requeues(db: Db, db': Db, e: Id) {
    && e in db.evaluations && e in db'.evaluations
    && db.evaluations[e].state == RowLeased && db'.evaluations[e].state == RowQueued
  }

  ghost function RequeueCount(db: Db, run: seq<Command>, e: Id): nat
    decreases |run|
  {
    if run == [] then 0
    else (if Requeues(db, Apply(db, run[0]).db, e) then 1 else 0) + RequeueCount(Apply(db, run[0]).db, run[1..], e)
  }

  /** One step expires one attempt of `e` exactly when it requeues `e`. */
  lemma StepRequeues(db: Db, c: Command, e: Id)
    requires Inv(db)
    ensures |ExpiredAttempts(Apply(db, c).db, e)| ==
            |ExpiredAttempts(db, e)| + (if Requeues(db, Apply(db, c).db, e) then 1 else 0)
  {
    hide Inv, Apply, Insertable, SameEvaluationSemantics, AttemptKeyAt, ExpiredAttempts;
    var shape := StepShape(db, c);
    match shape
    case Unchanged =>
    case Insertion(r, at) => InsertedExpires(db, r, at, e);
    case Replacement(r, at) => ReplaceExpiresOne(db, r, at, e);
    case Writing(f) => TouchExpires(db, Apply(db, c).db, db.evaluations[f].currentAttemptId, e);
  }

  lemma TouchExpires(db: Db, db': Db, a: Id, e: Id)
    requires db' == db || (a in db.attempts && a in db'.attempts && db'.attempts == db.attempts[a := db'.attempts[a]]
                           && db.attempts[a].state != RowExpired && db'.attempts[a].state != RowExpired)
    ensures ExpiredAttempts(db', e) == ExpiredAttempts(db, e)
  {
  }

  lemma InsertedExpires(db: Db, r: EvaluationRequest, createdAt: UnixMillis, e: Id)
    requires Insertable(db, r)
    ensures ExpiredAttempts(Inserted(db, r, createdAt), e) == ExpiredAttempts(db, e)
    ensures !Requeues(db, Inserted(db, r, createdAt), e)
  {
    hide RegistryAgrees, DatabaseAccepts;
  }

  lemma {:induction false} RunRequeues(db: Db, run: seq<Command>, e: Id)
    requires Inv(db)
    ensures |ExpiredAttempts(Exec(db, run), e)| == |ExpiredAttempts(db, e)| + RequeueCount(db, run, e)
    decreases |run|
  {
    hide Inv, Apply, ExpiredAttempts, Requeues;
    if run != [] {
      StepKeepsInv(db, run[0]);
      StepRequeues(db, run[0], e);
      RunRequeues(Apply(db, run[0]).db, run[1..], e);
    }
  }

  /** Over any run from the empty store: moves from leased to queued, expired attempts, and the distance between the
      first and the current attempt number are one and the same count. */
  lemma RetriesAreCounted(run: seq<Command>, e: Id)
    requires e in Exec(EMPTY, run).evaluations
    ensures var db := Exec(EMPTY, run);
            && Joined(db, e)
            && RequeueCount(EMPTY, run, e) == |ExpiredAttempts(db, e)|
            && CurrentNumber(db, e) == db.evaluations[e].initialRequest.attemptNumber + |ExpiredAttempts(db, e)|
            && forall n :: db.evaluations[e].initialRequest.attemptNumber <= n <= CurrentNumber(db, e) ==>
                 HasAttempt(db, e, n)
  {
    hide Apply, EvaluationInv, AttemptInv, Unique;
    EmptyInv();
    RunKeepsInv(EMPTY, run);
    RunRequeues(EMPTY, run, e);
    assert ExpiredAttempts(EMPTY, e) == {};
  }

  // ---- References.

  /** The request of any attempt, at any time, agrees with every later registry row, so two accepted requests that
      share a reference id agree on all of its metadata. */
  lemma ReferencesAgree(db: Db, a: Id, run: seq<Command>, b: Id)
    requires Reachable(db) && a in db.attempts && b in Exec(db, run).attempts
    ensures RegistryAgrees(Exec(db, run), db.attempts[a].payload)
    ensures var x := db.attempts[a].payload;
            var y := Exec(db, run).attempts[b].payload;
            && (x.submission.source.artifactId == y.submission.source.artifactId ==>
                  x.submission.source == y.submission.source)
            && (x.problemVersion.problemVersionId == y.problemVersion.problemVersionId ==>
                  x.problemVersion == y.problemVersion)
            && (x.submission.submissionId == y.submission.submissionId ==>
                  x.submission.source.artifactId == y.submission.source.artifactId)
            && (x.runtime.runtimeId == y.runtime.runtimeId ==> x.runtime == y.runtime)
  {
    hide Inv, Reachable, EvaluationInv;
    ReachableInv(db);
    RunKeepsInv(db, run);
    RunEvolves(db, run);
    AttemptFacts(db, a);
    AttemptFacts(Exec(db, run), b);
    hide TaskCheck, AttemptCheck, SameEvaluationSemantics, LeaseFields;
  }
}
