/** Safety of the control spine over whole runs: consistent reads, corrupt data, fencing, renewal, the first terminal
    result, and replay at a distance. */
module SpineRuns {
  import opened Prelude
  import opened Tokens
  import opened Domain
  import opened Spine
  import opened SpineInvariant
  import opened SpineSteps

  // ---- Reads and corrupt data.

  /** A snapshot that names its evaluation, repeats the rows, and whose two states agree. */
  predicate Consistent(db: Db, e: Id, s: Snapshot)
    requires Joined(db, e)
  {
    && s.evaluationId == e
    && s.currentAttemptId == db.evaluations[e].currentAttemptId
    && s.attemptNumber == CurrentNumber(db, e)
    && (s.terminalResult <==> s.state in {EvaluationCompleted, EvaluationFailed, EvaluationCancelled})
    && match s.state
       case EvaluationQueued => s.attemptState == AttemptQueued
       case EvaluationLeased => s.attemptState == AttemptLeased
       case EvaluationCompleted => s.attemptState == AttemptCompleted
       case EvaluationFailed => s.attemptState == AttemptFailed
       case EvaluationCancelled => s.attemptState == AttemptCancelled
  }

  lemma StatusOfRows(db: Db, e: Id)
    requires Joined(db, e) && EvaluationInv(db, e) && AttemptInv(db, db.evaluations[e].currentAttemptId)
    ensures Status(db, e).Ok? && Consistent(db, e, Status(db, e).value)
  {
    hide RegistryAgrees, DatabaseAccepts, SameEvaluationSemantics;
  }

  /** A status read finds every stored evaluation, and finds it consistent. */
  lemma StatusIsConsistent(db: Db, e: Id)
    requires Reachable(db)
    ensures e !in db.evaluations ==> Status(db, e) == Err(NotFound)
    ensures e in db.evaluations ==> Joined(db, e) && Status(db, e).Ok? && Consistent(db, e, Status(db, e).value)
  {
    hide Inv, EvaluationInv, AttemptInv, Reachable, Consistent;
    ReachableInv(db);
    if e in db.evaluations {
      CurrentFacts(db, e);
      StatusOfRows(db, e);
    }
  }

  /** The only commands that a reachable store answers with corrupt data: a payload that does not encode, and the
      renewal of an evaluation that is queued, whose lease columns are null. */
  ghost predicate AnsweredCorrupt(db: Db, c: Command) {
    match c
    case Create(_, _, encodes) => !encodes
    case Claim(_, _, _, _, _, _, _) => false
    case Renew(_, e, _, _, now, duration) =>
      now + duration <= MAX_UNIX_MILLIS && e in db.evaluations && db.evaluations[e].state == RowQueued
    case Retry(_, _, encodes) => !encodes
    case Submit(_, _, _, _, encodes) => !encodes
    case Cancel(_, e, result, _, encodes) =>
      !encodes && result.status == StatusCancelled && result.identity.evaluationId == e
  }

  lemma CorruptDataExactly(db: Db, c: Command)
    requires Reachable(db)
    ensures Apply(db, c).out == Err(CorruptData) <==> AnsweredCorrupt(db, c)
  {
    hide Inv, Reachable, AttemptInv, EvaluationInv, CreateTx, ClaimAttempt, RetryTx, SubmitTx, CancelTx, RenewTx;
    ReachableInv(db);
    match c
    case Create(r, createdAt, encodes) => CreateCorrupt(db, r, createdAt, encodes);
    case Claim(node, token, now, duration, operation, capabilities, skipped) =>
      var chosen := SelectTask(db, capabilities, skipped);
      if chosen.Some? && now + duration <= MAX_UNIX_MILLIS {
        ClaimableIsCurrent(db, capabilities, skipped, chosen.value);
        ClaimEffect(db, chosen.value, node, token, now, duration, operation);
      }
    case Renew(node, e, a, token, now, duration) =>
      RenewEffect(db, node, e, a, token, now, duration);
      if e in db.evaluations { CurrentFacts(db, e); }
    case Retry(r, now, encodes) =>
      if Joined(db, r.evaluationId) { CurrentFacts(db, r.evaluationId); }
      RetryCorrupt(db, r, now, encodes);
    case Submit(key, token, result, now, encodes) =>
      if Joined(db, result.identity.evaluationId) { CurrentFacts(db, result.identity.evaluationId); }
      SubmitCorrupt(db, key, token, result, now, encodes);
    case Cancel(key, e, result, now, encodes) =>
      CancelCorrupt(db, key, e, result, now, encodes);
  }

  lemma CreateCorrupt(db: Db, r: EvaluationRequest, createdAt: UnixMillis, encodes: bool)
    ensures CreateTx(db, r, createdAt, encodes).out == Err(CorruptData) <==> !encodes
  {
    hide RegistryAgrees, Register, TaskCheck;
  }

  lemma RetryCorrupt(db: Db, r: EvaluationRequest, now: UnixMillis, encodes: bool)
    requires Joined(db, r.evaluationId) ==> LeaseFields(db.attempts[db.evaluations[r.evaluationId].currentAttemptId])
    ensures RetryTx(db, r, now, encodes).out == Err(CorruptData) <==> !encodes
  {
    hide ReplaceAttempt, SameEvaluationSemantics;
    NoCorruptReplacement(db, r, now);
  }

  lemma SubmitCorrupt(db: Db, key: Id, token: Id, result: EvaluationResult, now: UnixMillis, encodes: bool)
    requires var e := result.identity.evaluationId;
             Joined(db, e) ==> LeaseFields(db.attempts[db.evaluations[e].currentAttemptId])
    ensures SubmitTx(db, key, token, result, now, encodes).out == Err(CorruptData) <==> !encodes
  {
    hide WriteTerminal;
    var e := result.identity.evaluationId;
    if Joined(db, e) {
      NoCorruptWrite(db, e, StatusRow(result.status), StatusTaskRow(result.status), result, key, now);
    }
  }

  lemma CancelCorrupt(db: Db, key: Id, e: Id, result: EvaluationResult, now: UnixMillis, encodes: bool)
    ensures CancelTx(db, key, e, result, now, encodes).out == Err(CorruptData) <==>
            !encodes && result.status == StatusCancelled && result.identity.evaluationId == e
  {
    hide WriteTerminal;
    if Joined(db, e) { NoCorruptWrite(db, e, RowCancelled, RowCancelled, result, key, now); }
  }

  lemma NoCorruptReplacement(db: Db, r: EvaluationRequest, now: UnixMillis)
    ensures Joined(db, r.evaluationId) ==>
      ReplaceAttempt(db, db.evaluations[r.evaluationId].currentAttemptId, r, now).out != Err(CorruptData)
  {
    hide TaskCheck;
  }

  lemma NoCorruptWrite(db: Db, e: Id, state: RowState, taskState: RowState, result: EvaluationResult, key: Id,
                       now: UnixMillis)
    requires Joined(db, e)
    ensures WriteTerminal(db, e, db.evaluations[e].currentAttemptId, state, taskState, result, key, now).out
            != Err(CorruptData)
  {
    hide TaskCheck;
  }

  // ---- Fencing.

  /** The command refers to attempt `a`, or tries to give `a` a successor that it already has. */
  ghost predicate Names(db: Db, c: Command, a: Id)
    requires a in db.attempts
  {
    match c
    case Create(r, _, _) => r.attemptId == a
    case Claim(_, _, _, _, _, _, _) => false
    case Renew(_, _, attempt, _, _, _) => attempt == a
    case Retry(r, _, _) =>
      r.attemptId == a
      || (r.evaluationId == db.attempts[a].evaluationId && r.attemptNumber <= db.attempts[a].attemptNumber + 1)
    case Submit(_, _, result, _, _) => result.identity.attemptId == a
    case Cancel(_, _, result, _, _) => result.identity.attemptId == a
  }

  lemma ReplacedIsBehind(db: Db, a: Id)
    requires Inv(db) && a in db.attempts && db.attempts[a].state == RowExpired
    ensures Behind(db, a)
  {
    hide Inv, EvaluationInv, AttemptInv;
    AttemptFacts(db, a);
    ExpiredIsOlder(db, a);
    forall e | e in db.evaluations ensures db.evaluations[e].currentAttemptId != a {
      CurrentFacts(db, e);
    }
  }

  lemma ExpiredIsOlder(db: Db, a: Id)
    requires a in db.attempts && AttemptInv(db, a) && db.attempts[a].state == RowExpired
    ensures Joined(db, db.attempts[a].evaluationId)
    ensures db.evaluations[db.attempts[a].evaluationId].currentAttemptId != a ==>
              db.attempts[a].attemptNumber < CurrentNumber(db, db.attempts[a].evaluationId)
  {
    hide TaskCheck, RegistryAgrees, SameEvaluationSemantics, AttemptCheck, LeaseFields;
  }

  /** The facts about a replaced attempt that fencing rests on. */
  ghost predicate Behind(db: Db, a: Id) {
    && a in db.attempts && Joined(db, db.attempts[a].evaluationId)
    && (forall e :: e in db.evaluations ==> db.evaluations[e].currentAttemptId != a)
    && db.attempts[a].attemptNumber < CurrentNumber(db, db.attempts[a].evaluationId)
  }

  lemma FencedStep(db: Db, a: Id, c: Command)
    requires Inv(db) && Behind(db, a) && Names(db, c, a)
    ensures Apply(db, c).db == db
    ensures c.Submit? ==> Apply(db, c).out.Err?
  {
    hide Inv, EvaluationInv, AttemptInv, CreateTx, RetryTx, RenewTx, SubmitTx, CancelTx, ClaimTx, KeyIsFree,
         SameEvaluationSemantics, RegistryAgrees, DatabaseAccepts;
    match c
    case Create(r, createdAt, encodes) => CreateEffect(db, r, createdAt, encodes);
    case Renew(node, e, attempt, token, now, duration) => RenewEffect(db, node, e, attempt, token, now, duration);
    case Retry(r, now, encodes) => RetryEffect(db, r, now, encodes);
    case Submit(key, token, result, now, encodes) =>
      SubmitEffect(db, key, token, result, now, encodes);
      if AlreadyStored(db, result.identity.evaluationId, key, result) {
        StoredIsCurrent(db, result.identity.evaluationId);
      }
    case Cancel(key, e, result, now, encodes) => CancelEffect(db, key, e, result, now, encodes);
  }

  lemma StoredIsCurrent(db: Db, e: Id)
    requires Inv(db) && e in db.evaluations && db.evaluations[e].terminalResult.Some?
    ensures db.evaluations[e].terminalResult.value.identity.attemptId == db.evaluations[e].currentAttemptId
    ensures db.evaluations[e].terminalResult.value.identity.evaluationId == e
  {
    hide CountsInv, Unique;
    assert EvaluationInv(db, e) && AttemptInv(db, db.evaluations[e].currentAttemptId);
  }

  lemma FrozenAttempt(db: Db, later: Db, a: Id)
    requires Inv(db) && Evolves(db, later) && a in db.attempts && Closed(db.attempts[a].state)
    ensures a in later.attempts && later.attempts[a] == db.attempts[a]
    ensures a in db.tasks && a in later.tasks && later.tasks[a] == db.tasks[a]
  {
    hide EvaluationsInv, AttemptsInv, CountsInv, Unique;
    assert AttemptRowEvolves(db, later, a);
  }

  /** Once replaced, an attempt keeps its rows for ever, and no command that names it changes any later store. */
  lemma ReplacedAttemptIsFenced(db: Db, a: Id, run: seq<Command>, c: Command)
    requires Reachable(db) && a in db.attempts && db.attempts[a].state == RowExpired
    ensures var later := Exec(db, run);
            && a in later.attempts && later.attempts[a] == db.attempts[a]
            && a in db.tasks && a in later.tasks && later.tasks[a] == db.tasks[a]
            && (Names(later, c, a) ==> Apply(later, c).db == later)
            && (Names(later, c, a) && c.Submit? ==> Apply(later, c).out.Err?)
  {
    hide Inv, Evolves, Reachable, Apply, Names;
    ReachableInv(db);
    RunKeepsInv(db, run);
    RunEvolves(db, run);
    FrozenAttempt(db, Exec(db, run), a);
    ReplacedIsBehind(Exec(db, run), a);
    if Names(Exec(db, run), c, a) { FencedStep(Exec(db, run), a, c); }
  }

  /** At no instant are a submission and a replacement of the same lease both possible. */
  lemma SubmitExcludesRetry(db: Db, key: Id, token: Id, result: EvaluationResult, r: EvaluationRequest,
                            now: UnixMillis, encodes: bool)
    requires Reachable(db) && r.evaluationId == result.identity.evaluationId
    ensures SubmitTx(db, key, token, result, now, encodes).db == db || RetryTx(db, r, now, encodes).db == db
  {
    hide Reachable, Inv, SubmitTx, RetryTx;
    ReachableInv(db);
    SubmitEffect(db, key, token, result, now, encodes);
    RetryEffect(db, r, now, encodes);
  }

  // ---- Renewal.

  /** The design says that an expired lease is not extended. The code does not look at the stored expiry: the holder's
      renewal is accepted at exactly the instants from the attempt's creation on that leave room for the duration,
      expired or not, and from then on a replacement at that instant is refused. */
  lemma HolderRenewsExpiredOrNot(db: Db, e: Id, now: UnixMillis, duration: LeaseDuration)
    requires Reachable(db) && e in db.evaluations && db.evaluations[e].state == RowLeased
    ensures Joined(db, e)
    ensures var a := db.evaluations[e].currentAttemptId;
            var row := db.attempts[a];
            && row.nodeId.Some? && row.leaseToken.Some? && row.expiresAt.Some?
            && var tx := RenewTx(db, row.nodeId.value, e, a, row.leaseToken.value, now, duration);
            && (tx.out == Ok(Continue(now + duration)) <==> row.createdAt <= now && now + duration <= MAX_UNIX_MILLIS)
            && (tx.out == Ok(Continue(now + duration)) ==> forall r: EvaluationRequest, encodes ::
                  r.evaluationId == e ==> RetryTx(tx.db, r, now, encodes).db == tx.db)
  {
    hide Reachable, Inv, EvaluationInv, AttemptInv, RenewTx, RetryTx;
    ReachableInv(db);
    CurrentFacts(db, e);
    var a := db.evaluations[e].currentAttemptId;
    var row := db.attempts[a];
    RenewEffect(db, row.nodeId.value, e, a, row.leaseToken.value, now, duration);
    var tx := RenewTx(db, row.nodeId.value, e, a, row.leaseToken.value, now, duration);
    if Renewable(db, row.nodeId.value, e, a, row.leaseToken.value, now, duration) {
      RenewKeepsInv(db, row.nodeId.value, e, a, row.leaseToken.value, now, duration);
    }
    forall r: EvaluationRequest, encodes: bool | r.evaluationId == e
      ensures RetryTx(tx.db, r, now, encodes).db == tx.db || tx.out != Ok(Continue(now + duration))
    {
      if tx.out == Ok(Continue(now + duration)) { RetryEffect(tx.db, r, now, encodes); }
    }
  }

  // ---- First terminal result wins.

  /** The evaluation row, and with it state, result, key and current attempt, is frozen by the first result. */
  lemma FirstTerminalWins(db: Db, e: Id, run: seq<Command>)
    requires Reachable(db) && e in db.evaluations && db.evaluations[e].terminalResult.Some?
    ensures var a := db.evaluations[e].currentAttemptId;
            var later := Exec(db, run);
            && e in later.evaluations && later.evaluations[e] == db.evaluations[e]
            && a in db.attempts && a in later.attempts && later.attempts[a] == db.attempts[a]
            && a in db.tasks && a in later.tasks && later.tasks[a] == db.tasks[a]
            && Status(later, e) == Status(db, e)
  {
    hide Reachable, Inv, EvaluationInv, AttemptInv;
    ReachableInv(db);
    RunEvolves(db, run);
    CurrentFacts(db, e);
    CurrentTerminal(db, e);
    assert EvaluationRowEvolves(db, Exec(db, run), e);
    assert AttemptRowEvolves(db, Exec(db, run), db.evaluations[e].currentAttemptId);
  }

  /** The number of steps of a run that write a terminal result into `e`. */
  ghost function TerminalWrites(db: Db, run: seq<Command>, e: Id): nat
    decreases |run|
  {
    if run == [] then 0
    else
      var next := Apply(db, run[0]).db;
      (if HasResult(next, e) && (e !in db.evaluations || next.evaluations[e] != db.evaluations[e]) then 1 else 0)
      + TerminalWrites(next, run[1..], e)
  }

  predicate HasResult(db: Db, e: Id) {
    e in db.evaluations && db.evaluations[e].terminalResult.Some?
  }

  lemma ResultStep(db: Db, c: Command, e: Id)
    requires Inv(db) && HasResult(db, e)
    ensures HasResult(Apply(db, c).db, e) && Apply(db, c).db.evaluations[e] == db.evaluations[e]
  {
    hide Inv, Apply, Evolves;
    StepEvolves(db, c);
    ResultStays(db, Apply(db, c).db, e);
  }

  lemma {:induction false} AtMostOneTerminalWrite(db: Db, run: seq<Command>, e: Id)
    requires Inv(db)
    ensures TerminalWrites(db, run, e) <= (if HasResult(db, e) then 0 else 1)
    decreases |run|
  {
    hide Inv, Apply;
    if run != [] {
      StepKeepsInv(db, run[0]);
      if HasResult(db, e) { ResultStep(db, run[0], e); }
      AtMostOneTerminalWrite(Apply(db, run[0]).db, run[1..], e);
    }
  }

  lemma ResultStays(db: Db, next: Db, e: Id)
    requires Inv(db) && Evolves(db, next) && HasResult(db, e)
    ensures HasResult(next, e) && next.evaluations[e] == db.evaluations[e]
  {
    hide AttemptsInv, CountsInv, Unique;
    assert EvaluationInv(db, e);
    assert EvaluationRowEvolves(db, next, e);
  }

  // ---- Replay at a distance.

  /** An accepted create is accepted by every later store, changes nothing and reads the same evaluation. */
  lemma CreateReplays(db: Db, r: EvaluationRequest, createdAt: UnixMillis, run: seq<Command>, again: UnixMillis)
    requires Reachable(db) && CreateTx(db, r, createdAt, true).out.Ok?
    ensures var later := Exec(CreateTx(db, r, createdAt, true).db, run);
            CreateTx(later, r, again, true) == Tx(later, CreateTx(db, r, createdAt, true).out)
  {
    hide Reachable, Inv, EvaluationInv, AttemptInv, Insertable, RegistryAgrees;
    ReachableInv(db);
    CreateEffect(db, r, createdAt, true);
    var next := CreateTx(db, r, createdAt, true).db;
    StepKeepsInv(db, Create(r, createdAt, true));
    var e := CreateTx(db, r, createdAt, true).out.value.evaluationId;
    CreatedRow(db, r, createdAt);
    RunKeepsInv(next, run);
    RunEvolves(next, run);
    var later := Exec(next, run);
    assert EvaluationRowEvolves(next, later, e);
    assert CreationKeyAt(later, r.idempotencyKey, e);
    UniqueCreationKey(later, r.idempotencyKey, e);
  }

  lemma CreatedRow(db: Db, r: EvaluationRequest, createdAt: UnixMillis)
    requires Inv(db) && CreateTx(db, r, createdAt, true).out.Ok?
    ensures var tx := CreateTx(db, r, createdAt, true);
            && tx.out.value.ReadStatus?
            && CreationKeyAt(tx.db, r.idempotencyKey, tx.out.value.evaluationId)
            && tx.db.evaluations[tx.out.value.evaluationId].initialRequest == r
  {
    hide Inv, RegistryAgrees, DatabaseAccepts;
  }

  lemma UniqueCreationKey(db: Db, key: Id, e: Id)
    requires Inv(db) && CreationKeyAt(db, key, e)
    ensures EvaluationByCreationKey(db, key) == Some(e)
  {
    hide EvaluationsInv, AttemptsInv, CountsInv;
  }

  lemma UniqueAttemptKey(db: Db, key: Id, a: Id)
    requires Inv(db) && AttemptKeyAt(db, key, a)
    ensures AttemptByKey(db, key) == Some(a)
  {
    hide EvaluationsInv, AttemptsInv, CountsInv;
  }

  lemma RetriedNow(db: Db, r: EvaluationRequest, now: UnixMillis)
    requires RetryTx(db, r, now, true).out.Ok? && AttemptByKey(db, r.idempotencyKey).None?
    ensures RetryTx(db, r, now, true).out == Ok(ReadStatus(r.evaluationId))
    ensures AttemptKeyAt(RetryTx(db, r, now, true).db, r.idempotencyKey, r.attemptId)
    ensures RetryTx(db, r, now, true).db.attempts[r.attemptId].payload == r
  {
    hide SameEvaluationSemantics, TaskCheck;
  }

  lemma RetriedBefore(db: Db, r: EvaluationRequest, now: UnixMillis, a: Id)
    requires RetryTx(db, r, now, true).out.Ok? && AttemptByKey(db, r.idempotencyKey) == Some(a)
    requires AttemptInv(db, a)
    ensures RetryTx(db, r, now, true) == Tx(db, Ok(ReadStatus(r.evaluationId)))
    ensures AttemptKeyAt(db, r.idempotencyKey, a) && db.attempts[a].payload == r
  {
    hide SameEvaluationSemantics, TaskCheck, RegistryAgrees, ReplaceAttempt;
  }

  lemma RetriedRow(db: Db, r: EvaluationRequest, now: UnixMillis)
    requires Inv(db) && RetryTx(db, r, now, true).out.Ok?
    ensures RetryTx(db, r, now, true).out == Ok(ReadStatus(r.evaluationId))
    ensures RetriedWith(RetryTx(db, r, now, true).db, r)
  {
    hide Inv, AttemptInv, RetryTx;
    match AttemptByKey(db, r.idempotencyKey)
    case None => RetriedNow(db, r, now);
    case Some(a) =>
      assert AttemptInv(db, a) by { AttemptFacts(db, a); }
      RetriedBefore(db, r, now, a);
  }

  lemma AttemptFacts(db: Db, a: Id)
    requires Inv(db) && a in db.attempts
    ensures AttemptInv(db, a)
  {
    hide EvaluationsInv, CountsInv, Unique;
  }

  /** An accepted retry is accepted by every later store without a second replacement. */
  lemma RetryReplays(db: Db, r: EvaluationRequest, now: UnixMillis, run: seq<Command>, again: UnixMillis)
    requires Reachable(db) && RetryTx(db, r, now, true).out.Ok?
    ensures var later := Exec(RetryTx(db, r, now, true).db, run);
            RetryTx(later, r, again, true) == Tx(later, Ok(ReadStatus(r.evaluationId)))
  {
    hide Reachable, Inv, EvaluationInv, AttemptInv;
    ReachableInv(db);
    RetriedRow(db, r, now);
    StepKeepsInv(db, Retry(r, now, true));
    var next := RetryTx(db, r, now, true).db;
    assert RetriedWith(next, r);
    var a :| AttemptKeyAt(next, r.idempotencyKey, a) && next.attempts[a].payload == r;
    RunKeepsInv(next, run);
    RunEvolves(next, run);
    var later := Exec(next, run);
    assert AttemptRowEvolves(next, later, a);
    UniqueAttemptKey(later, r.idempotencyKey, a);
    RetryEffect(later, r, again, true);
    RetriedRow(later, r, again);
  }

  lemma SubmittedRow(db: Db, key: Id, token: Id, result: EvaluationResult, now: UnixMillis)
    requires Inv(db) && SubmitTx(db, key, token, result, now, true).out.Ok?
    ensures var tx := SubmitTx(db, key, token, result, now, true);
            && tx.out == Ok(ReadStatus(result.identity.evaluationId))
            && AlreadyStored(tx.db, result.identity.evaluationId, key, result)
  {
    hide Inv, SubmitTx, KeyIsFree;
    SubmitEffect(db, key, token, result, now, true);
    if Submittable(db, key, token, result, now) {
      CurrentTask(db, result.identity.evaluationId);
      SubmittedNow(db, key, token, result, now);
    }
  }

  lemma CurrentTask(db: Db, e: Id)
    requires Inv(db) && e in db.evaluations
    ensures Joined(db, e) && db.evaluations[e].currentAttemptId in db.tasks
  {
    hide EvaluationInv, AttemptInv, CountsInv, Unique;
    CurrentFacts(db, e);
  }

  lemma SubmittedNow(db: Db, key: Id, token: Id, result: EvaluationResult, now: UnixMillis)
    requires Submittable(db, key, token, result, now)
    requires db.evaluations[result.identity.evaluationId].currentAttemptId in db.tasks
    ensures db.evaluations[result.identity.evaluationId].currentAttemptId == result.identity.attemptId
    ensures var e := result.identity.evaluationId;
            AlreadyStored(TerminalDb(db, e, db.evaluations[e].currentAttemptId, StatusRow(result.status),
                                     StatusTaskRow(result.status), result, key, now), e, key, result)
  {
    hide KeyIsFree;
  }

  /** An accepted submission, whether it wrote the result or found it, is accepted by every later store with any
      token, changes nothing and answers the same snapshot. */
  lemma SubmitReplays(db: Db, key: Id, token: Id, result: EvaluationResult, now: UnixMillis, run: seq<Command>,
                      again: UnixMillis, anyToken: Id)
    requires Reachable(db) && SubmitTx(db, key, token, result, now, true).out.Ok?
    ensures var e := result.identity.evaluationId;
            var next := SubmitTx(db, key, token, result, now, true).db;
            var later := Exec(next, run);
            && SubmitTx(later, key, anyToken, result, again, true) == Tx(later, Ok(ReadStatus(e)))
            && Status(later, e) == Status(next, e)
  {
    hide Inv, SubmitTx, Status;
    StepStaysReachable(db, Submit(key, token, result, now, true));
    hide Reachable;
    ReachableInv(db);
    SubmittedRow(db, key, token, result, now);
    StepKeepsInv(db, Submit(key, token, result, now, true));
    var next := SubmitTx(db, key, token, result, now, true).db;
    FirstTerminalWins(next, result.identity.evaluationId, run);
    RunKeepsInv(next, run);
    SubmitEffect(Exec(next, run), key, anyToken, result, again, true);
    StoredIsSettled(Exec(next, run), result.identity.evaluationId);
  }

  lemma CancelledRow(db: Db, key: Id, e: Id, result: EvaluationResult, now: UnixMillis)
    requires Inv(db) && CancelTx(db, key, e, result, now, true).out.Ok?
    ensures var tx := CancelTx(db, key, e, result, now, true);
            && tx.out == Ok(ReadStatus(e)) && result.status == StatusCancelled && result.identity.evaluationId == e
            && AlreadyStored(tx.db, e, key, result)
  {
    hide Inv, CancelTx, KeyIsFree;
    CancelEffect(db, key, e, result, now, true);
    if Cancellable(db, key, e, result, now) {
      CurrentTask(db, e);
      CancelledNow(db, key, e, result, now);
    }
  }

  lemma CancelledNow(db: Db, key: Id, e: Id, result: EvaluationResult, now: UnixMillis)
    requires Cancellable(db, key, e, result, now) && db.evaluations[e].currentAttemptId in db.tasks
    ensures result.status == StatusCancelled && result.identity.evaluationId == e
    ensures db.evaluations[e].currentAttemptId == result.identity.attemptId
    ensures AlreadyStored(TerminalDb(db, e, db.evaluations[e].currentAttemptId, RowCancelled, RowCancelled, result,
                                     key, now), e, key, result)
  {
    hide KeyIsFree;
  }

  lemma CancelReplays(db: Db, key: Id, e: Id, result: EvaluationResult, now: UnixMillis, run: seq<Command>,
                      again: UnixMillis)
    requires Reachable(db) && CancelTx(db, key, e, result, now, true).out.Ok?
    ensures var next := CancelTx(db, key, e, result, now, true).db;
            var later := Exec(next, run);
            && CancelTx(later, key, e, result, again, true) == Tx(later, Ok(ReadStatus(e)))
            && Status(later, e) == Status(next, e)
  {
    hide Inv, CancelTx, Status;
    StepStaysReachable(db, Cancel(key, e, result, now, true));
    hide Reachable;
    ReachableInv(db);
    CancelledRow(db, key, e, result, now);
    StepKeepsInv(db, Cancel(key, e, result, now, true));
    var next := CancelTx(db, key, e, result, now, true).db;
    FirstTerminalWins(next, e, run);
    RunKeepsInv(next, run);
    CancelEffect(Exec(next, run), key, e, result, again, true);
    StoredIsSettled(Exec(next, run), e);
  }

  lemma StoredIsSettled(db: Db, e: Id)
    requires Inv(db) && Joined(db, e) && db.evaluations[e].terminalResult.Some?
    ensures Terminal(db.evaluations[e].state)
  {
    hide AttemptsInv, CountsInv, Unique;
    assert EvaluationInv(db, e);
  }

  lemma {:induction false} StepStaysReachable(db: Db, c: Command)
    requires Reachable(db)
    ensures Reachable(Apply(db, c).db)
  {
    hide Apply;
    var run :| db == Exec(EMPTY, run);
    ExecSplits(EMPTY, run, [c]);
    assert Exec(db, [c]) == Apply(db, c).db by {
      assert [c][1..] == [];
    }
    assert Apply(db, c).db == Exec(EMPTY, run + [c]);
  }

  /** A key that is already bound refuses other bytes: a create or retry with the key of a stored request, and a
      submission or cancellation with the key of a stored result. */
  lemma SameKeyOtherBytes(db: Db, r: EvaluationRequest, key: Id, token: Id, result: EvaluationResult,
                          now: UnixMillis)
    requires Reachable(db)
    ensures (exists e :: CreationKeyAt(db, r.idempotencyKey, e) && db.evaluations[e].initialRequest != r) ==>
              CreateTx(db, r, now, true) == Abort(db, IdempotencyConflict)
    ensures (exists a :: AttemptKeyAt(db, r.idempotencyKey, a) && db.attempts[a].payload != r) ==>
              RetryTx(db, r, now, true) == Abort(db, IdempotencyConflict)
    ensures var e := result.identity.evaluationId;
            HasResult(db, e) && db.evaluations[e].terminalResult.value != result ==>
              SubmitTx(db, key, token, result, now, true) ==
              Abort(db, if db.evaluations[e].resultKey == Some(key) then IdempotencyConflict else TerminalConflict)
    ensures var e := result.identity.evaluationId;
            HasResult(db, e) && db.evaluations[e].terminalResult.value != result && result.status == StatusCancelled ==>
              CancelTx(db, key, e, result, now, true) ==
              Abort(db, if db.evaluations[e].resultKey == Some(key) then IdempotencyConflict else TerminalConflict)
  {
    hide Inv, EvaluationInv, AttemptInv, Reachable, InsertNew, RegistryAgrees, WriteTerminal, ReplaceAttempt;
    ReachableInv(db);
    if e :| CreationKeyAt(db, r.idempotencyKey, e) && db.evaluations[e].initialRequest != r {
      UniqueCreationKey(db, r.idempotencyKey, e);
    }
    if a :| AttemptKeyAt(db, r.idempotencyKey, a) && db.attempts[a].payload != r {
      UniqueAttemptKey(db, r.idempotencyKey, a);
    }
    var e := result.identity.evaluationId;
    if HasResult(db, e) { CurrentFacts(db, e); }
  }
}
