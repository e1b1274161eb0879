/** The ordinary journey of one evaluation: create, claim, submit. It shows that the theorems about reachable stores are
    about stores with leased and finished work. */
module SpineJourney {
  import opened Prelude
  import opened Tokens
  import opened Domain
  import opened Spine
  import opened SpineInvariant
  import opened SpineSteps
  import opened SpineRuns
  import opened Claims
  import opened ControlPlane

  /** What the database needs to store the request. */
  ghost predicate Storable(r: EvaluationRequest) {
    1 <= r.attemptNumber <= U32_MAX && DatabaseAccepts(r.requiredCapabilities)
  }

  /** The run: create at `created`, claim at `claimed`, submit at `finished`. */
  ghost function Journey(r: EvaluationRequest, created: UnixMillis, node: Id, token: Id, claimed: UnixMillis,
                         duration: LeaseDuration, key: Id, result: EvaluationResult, finished: UnixMillis)
    : seq<Command>
  {
    [Create(r, created, true), Claim(node, token, claimed, duration, None, None, {}),
     Submit(key, token, result, finished, true)]
  }

  lemma Creates(r: EvaluationRequest, created: UnixMillis)
    requires Storable(r)
    ensures CreateTx(EMPTY, r, created, true).db == Inserted(EMPTY, r, created) && Inv(Inserted(EMPTY, r, created))
  {
    hide Inv, CreateTx, DatabaseAccepts;
    EmptyInv();
    assert RegistryAgrees(Register(EMPTY, r), r);
    assert Insertable(EMPTY, r);
    CreateEffect(EMPTY, r, created, true);
    InsertKeepsInv(EMPTY, r, created);
    assert r.evaluationId in Inserted(EMPTY, r, created).evaluations;
  }

  lemma OnlyTask(r: EvaluationRequest, created: UnixMillis)
    ensures var db := Inserted(EMPTY, r, created);
            && NextTask(db, None, {}, r.attemptId) && Claimable(db, None, {}, r.attemptId)
            && r.evaluationId in db.evaluations && db.evaluations[r.evaluationId] == NewEvaluationRow(r, created)
            && db.attempts[r.attemptId] == NewAttemptRow(r, created)
            && (forall f :: f in db.evaluations ==> f == r.evaluationId)
  {
    var db := Inserted(EMPTY, r, created);
    assert db.evaluations[r.evaluationId].currentAttemptId == r.attemptId;
  }

  /** The store after the claim, as far as the submission needs it. */
  ghost predicate LeasedTo(db: Db, r: EvaluationRequest, created: nat, token: Id, expiry: nat) {
    && Joined(db, r.evaluationId) && db.evaluations[r.evaluationId].currentAttemptId == r.attemptId
    && db.evaluations[r.evaluationId].state == RowLeased
    && (forall f :: f in db.evaluations ==> db.evaluations[f].resultKey.None?)
    && db.attempts[r.attemptId].payload == r && db.attempts[r.attemptId].createdAt == created
    && db.attempts[r.attemptId].leaseToken == Some(token) && db.attempts[r.attemptId].expiresAt == Some(expiry)
  }

  lemma Leases(r: EvaluationRequest, created: UnixMillis, node: Id, token: Id, claimed: UnixMillis,
               duration: LeaseDuration)
    requires Storable(r) && created <= claimed && claimed + duration <= MAX_UNIX_MILLIS
    ensures var db := Inserted(EMPTY, r, created);
            var tx := ClaimTx(db, node, token, claimed, duration, None, None, {});
            && tx.out == Ok(Granted(TaskLease(r, node, token, claimed + duration)))
            && LeasedTo(tx.db, r, created, token, claimed + duration)
  {
    hide Inv, EvaluationInv, AttemptInv, Claimable, NextTask, SelectTask, ClaimAttempt, QueuedAttempt, Inserted;
    var db := Inserted(EMPTY, r, created);
    Creates(r, created);
    OnlyTask(r, created);
    SelectTaskIsLeast(db, None, {}, r.attemptId);
    ClaimableIsCurrent(db, None, {}, r.attemptId);
    LeasesTheOnly(db, r, created, node, token, claimed, duration);
  }

  lemma LeasesTheOnly(db: Db, r: EvaluationRequest, created: UnixMillis, node: Id, token: Id, claimed: UnixMillis,
                      duration: LeaseDuration)
    requires QueuedAttempt(db, r.attemptId) && db.attempts[r.attemptId] == NewAttemptRow(r, created)
    requires forall f :: f in db.evaluations ==> db.evaluations[f] == NewEvaluationRow(r, created)
    requires created <= claimed && claimed + duration <= MAX_UNIX_MILLIS
    ensures var tx := ClaimAttempt(db, r.attemptId, node, token, claimed, claimed + duration, None);
            && tx.out == Ok(Granted(TaskLease(r, node, token, claimed + duration)))
            && LeasedTo(tx.db, r, created, token, claimed + duration)
  {
    hide EvaluationInv, AttemptInv, ClaimAttempt;
    ClaimEffect(db, r.attemptId, node, token, claimed, duration, None);
  }

  lemma Submits(db: Db, r: EvaluationRequest, created: nat, token: Id, expiry: nat, key: Id, result: EvaluationResult,
                finished: UnixMillis)
    requires Inv(db) && LeasedTo(db, r, created, token, expiry)
    requires created <= finished <= expiry && result.identity == IdentityOf(r)
    ensures var tx := SubmitTx(db, key, token, result, finished, true);
            && tx.out == Ok(ReadStatus(r.evaluationId)) && AlreadyStored(tx.db, r.evaluationId, key, result)
            && tx.db.evaluations[r.evaluationId].state == StatusRow(result.status)
  {
    hide Inv, SubmitTx;
    assert KeyIsFree(db, key);
    SubmitEffect(db, key, token, result, finished, true);
    SubmittedRow(db, key, token, result, finished);
  }

  lemma JourneyRuns(r: EvaluationRequest, created: UnixMillis, node: Id, token: Id, claimed: UnixMillis,
                    duration: LeaseDuration, key: Id, result: EvaluationResult, finished: UnixMillis)
    ensures var db1 := CreateTx(EMPTY, r, created, true).db;
            var db2 := ClaimTx(db1, node, token, claimed, duration, None, None, {}).db;
            Exec(EMPTY, Journey(r, created, node, token, claimed, duration, key, result, finished))
            == SubmitTx(db2, key, token, result, finished, true).db
  {
    hide CreateTx, ClaimTx, SubmitTx, EMPTY;
    var run := Journey(r, created, node, token, claimed, duration, key, result, finished);
    var rest := run[1..];
    var last := rest[1..];
    assert rest[0] == run[1] && last[0] == run[2] && last[1..] == [];
    var db1 := CreateTx(EMPTY, r, created, true).db;
    var db2 := ClaimTx(db1, node, token, claimed, duration, None, None, {}).db;
    assert Exec(db2, last) == Apply(db2, last[0]).db;
    assert Exec(db1, rest) == Exec(db2, last);
  }

  /** For every request that the database can store and any times that respect the lease: create, claim and submit all
      succeed, the lease is for this request, and the reachable store that results holds exactly the submitted result. */
  lemma EveryRequestCanFinish(r: EvaluationRequest, created: UnixMillis, node: Id, token: Id, claimed: UnixMillis,
                              duration: LeaseDuration, key: Id, result: EvaluationResult, finished: UnixMillis)
    requires Storable(r) && created <= claimed && claimed + duration <= MAX_UNIX_MILLIS
    requires created <= finished <= claimed + duration && result.identity == IdentityOf(r)
    ensures var db := Exec(EMPTY, Journey(r, created, node, token, claimed, duration, key, result, finished));
            && Reachable(db) && r.evaluationId in db.evaluations
            && db.evaluations[r.evaluationId].terminalResult == Some(result)
            && db.evaluations[r.evaluationId].state == StatusRow(result.status)
            && Status(db, r.evaluationId).Ok?
  {
    hide Inv, CreateTx, ClaimTx, SubmitTx, Exec, Journey, Inserted, Storable, LeasedTo, Status, Consistent;
    var run := Journey(r, created, node, token, claimed, duration, key, result, finished);
    JourneyRuns(r, created, node, token, claimed, duration, key, result, finished);
    Creates(r, created);
    Leases(r, created, node, token, claimed, duration);
    var db1 := Inserted(EMPTY, r, created);
    var claim := Claim(node, token, claimed, duration, None, None, {});
    StepKeepsInv(db1, claim);
    ClaimApplies(db1, claim);
    Submits(ClaimTx(db1, node, token, claimed, duration, None, None, {}).db, r, created, token, claimed + duration, key,
            result, finished);
    assert Reachable(Exec(EMPTY, run));
    StatusIsConsistent(Exec(EMPTY, run), r.evaluationId);
  }

  // ---- Requests that no create can store.

  /** A create with fresh identifiers and agreeing references stores a domain-valid request exactly when its capability
      list is non-empty, sorted and free of the two separators that only the domain knows. */
  lemma CreateStoresIff(db: Db, r: EvaluationRequest, createdAt: UnixMillis)
    requires Inv(db) && r.Valid() && RegistryAgrees(Register(db, r), r)
    requires r.evaluationId !in db.evaluations && r.attemptId !in db.attempts
    requires forall e :: !CreationKeyAt(db, r.idempotencyKey, e)
    requires forall a :: !AttemptKeyAt(db, r.idempotencyKey, a)
    ensures CreateTx(db, r, createdAt, true).db != db <==>
            && r.requiredCapabilities != [] && StrictlyIncreasing(r.requiredCapabilities)
            && forall c :: c in r.requiredCapabilities ==> '_' !in c && ':' !in c
  {
    hide Inv, CreateTx, RegistryAgrees, Register, DatabaseAccepts, ValidCapability;
    CreateEffect(db, r, createdAt, true);
    DatabaseAcceptsIff(r.requiredCapabilities);
  }

  lemma RefusedByTaskCheck(db: Db, r: EvaluationRequest, createdAt: UnixMillis, encodes: bool)
    requires !DatabaseAccepts(r.requiredCapabilities)
    ensures CreateTx(db, r, createdAt, encodes).db == db
  {
    hide DatabaseAccepts, RegistryAgrees, Register;
  }

  /** Every valid request turns into one that its constructor accepts and that no store ever takes, by giving it any of
      these three lists. */
  lemma UnstorableRequests(db: Db, r: EvaluationRequest, capabilities: seq<string>, createdAt: UnixMillis,
                           encodes: bool)
    requires r.Valid() && (capabilities == ["a_b"] || capabilities == ["b", "a"] || capabilities == [])
    ensures var q := r.(requiredCapabilities := capabilities);
            && NewRequest(q) == Ok(q) && q.Valid()
            && CreateTx(db, q, createdAt, encodes).db == db
  {
    hide CreateTx, DatabaseAccepts, ValidCapability, ValidId, ValidKey, ValidDigest, ArtifactRef.Valid,
         ResourcePolicy.Valid;
    DatabaseRefusesDomainCapabilities();
    var q := r.(requiredCapabilities := capabilities);
    assert "b"[0] != "a"[0];
    RefusedByTaskCheck(db, q, createdAt, encodes);
  }
}
