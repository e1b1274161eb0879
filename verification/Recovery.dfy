/** The recovery loop: scan the first expired lease, build its successor, retry, repeat. */
module Recovery {
  import opened Prelude
  import opened Tokens
  import opened Domain
  import opened Spine
  import opened SpineInvariant
  import opened SpineSteps
  import opened SpineRuns
  import opened SpineLifecycle

  /** The rows that the recovery scan joins and filters, named by the attempt. */
  predicate ExpiredLease(db: Db, now: nat, a: Id) {
    && a in db.attempts && db.attempts[a].state == RowLeased
    && db.attempts[a].expiresAt.Some? && db.attempts[a].expiresAt.value < now
    && exists e :: e in db.evaluations && db.evaluations[e].currentAttemptId == a
                   && db.evaluations[e].state == RowLeased
  }

  /** `ORDER BY lease_expires_at_ms, attempt_id LIMIT 1`. */
  predicate FirstExpired(db: Db, now: nat, a: Id) {
    && ExpiredLease(db, now, a)
    && forall b :: b in db.attempts && ExpiredLease(db, now, b) ==>
         a == b || StampBefore(db.attempts[a].expiresAt.value, a, db.attempts[b].expiresAt.value, b)
  }

  ghost function ExpiredLeases(db: Db, now: nat): set<Id> {
    set a | a in db.attempts && ExpiredLease(db, now, a)
  }

  lemma FirstExpiredIsUnique(db: Db, now: nat, a: Id, b: Id)
    requires FirstExpired(db, now, a) && FirstExpired(db, now, b)
    ensures a == b
  {
    StampOrderIsTotal(db.attempts[a].expiresAt.value, a, db.attempts[b].expiresAt.value, b);
  }

  lemma SomeExpiredIsFirst(db: Db, now: nat)
    requires ExpiredLeases(db, now) != {}
    ensures exists a :: FirstExpired(db, now, a)
  {
    var stamps := map b | b in db.attempts && ExpiredLease(db, now, b) :: db.attempts[b].expiresAt.value;
    assert stamps.Keys == ExpiredLeases(db, now);
    var first := FirstExists(stamps);
    forall b | b in db.attempts && ExpiredLease(db, now, b)
      ensures first == b || StampBefore(db.attempts[first].expiresAt.value, first, db.attempts[b].expiresAt.value, b)
    {
      assert b in stamps;
    }
    assert FirstExpired(db, now, first);
  }

  function SaturatingIncrement(count: nat): nat {
    if count < U32_MAX then count + 1 else U32_MAX
  }

  /** The errors that the loop takes as "someone else was faster". */
  predicate Skips(error: StoreError) {
    error in {LeaseConflict, StoreError.InvalidTransition, IdentityConflict, NotFound}
  }

  /** One attempt id and one key from the random source. */
  datatype Draw = Draw(attemptId: Id, key: Id)

  datatype Recovered = Recovered(db: Db, count: Result<nat, StoreError>)

  /** `recover_expired` on values. `draws` is what the random source yields, one id and one key a turn; a source that
      runs dry answers `Unavailable`. */
  ghost function Recover(db: Db, now: UnixMillis, draws: seq<Draw>, count: nat): Recovered
    decreases |draws|
  {
    if a :| FirstExpired(db, now, a) then
      if draws == [] then Recovered(db, Err(Unavailable))
      else
        match WithNextAttempt(db.attempts[a].payload, draws[0].attemptId, draws[0].key)
        case Err(_) => Recovered(db, Err(CorruptData))
        case Ok(next) =>
          var tx := RetryTx(db, next, now, true);
          match Answer(tx)
          case Ok(_) => Recover(tx.db, now, draws[1..], SaturatingIncrement(count))
          case Err(error) =>
            if Skips(error) then Recover(tx.db, now, draws[1..], count) else Recovered(tx.db, Err(error))
    else Recovered(db, Ok(count))
  }

  // ---- Hypotheses.

  /** The generated ids and keys are new to the store and to each other. */
  ghost predicate Fresh(db: Db, draws: seq<Draw>) {
    && (forall i :: 0 <= i < |draws| ==> draws[i].attemptId !in db.attempts && KeyIsUnused(db, draws[i].key))
    && (forall i, j :: 0 <= i < j < |draws| ==> draws[i].attemptId != draws[j].attemptId && draws[i].key != draws[j].key)
  }

  ghost predicate KeyIsUnused(db: Db, key: Id) {
    forall a :: !AttemptKeyAt(db, key, a)
  }

  /** Every stored request went through its constructor. */
  ghost predicate PayloadsConstructed(db: Db) {
    forall a :: a in db.attempts ==> NewRequest(db.attempts[a].payload).Ok?
  }

  /** No expired lease has reached the largest attempt number. */
  ghost predicate NoneExhausted(db: Db, now: nat) {
    forall a :: a in ExpiredLeases(db, now) ==> db.attempts[a].attemptNumber < U32_MAX
  }

  // ---- One turn of the loop.

  ghost predicate Successor(row: AttemptRow, next: EvaluationRequest) {
    next == row.payload.(attemptId := next.attemptId, attemptNumber := row.attemptNumber + 1,
                         idempotencyKey := next.idempotencyKey)
  }

  lemma ScannedRow(db: Db, now: nat, a: Id)
    requires Inv(db) && ExpiredLease(db, now, a)
    ensures var e := db.attempts[a].evaluationId;
            && e in db.evaluations && db.evaluations[e].currentAttemptId == a && db.evaluations[e].state == RowLeased
            && a in db.tasks && db.attempts[a].payload.evaluationId == e
            && db.attempts[a].payload.attemptNumber == db.attempts[a].attemptNumber
            && (forall f :: f in db.evaluations && db.evaluations[f].currentAttemptId == a ==> f == e)
  {
    hide Inv, EvaluationInv;
    AttemptFacts(db, a);
    hide TaskCheck, RegistryAgrees, SameEvaluationSemantics, AttemptCheck, LeaseFields;
    forall f | f in db.evaluations && db.evaluations[f].currentAttemptId == a
      ensures f == db.attempts[a].evaluationId
    {
      CurrentFacts(db, f);
    }
  }

  /** The next request exists exactly while the number fits, and then the retry replaces the scanned attempt. */
  lemma TurnReplaces(db: Db, now: UnixMillis, a: Id, id: Id, key: Id)
    requires Inv(db) && ExpiredLease(db, now, a) && id !in db.attempts && KeyIsUnused(db, key)
    requires NewRequest(db.attempts[a].payload).Ok?
    ensures var next := WithNextAttempt(db.attempts[a].payload, id, key);
            && (next.Ok? <==> db.attempts[a].attemptNumber < U32_MAX)
            && (next.Ok? ==> Successor(db.attempts[a], next.value) && next.value.attemptId == id
                             && next.value.idempotencyKey == key && NewRequest(next.value).Ok?
                             && Replaceable(db, next.value, now))
  {
    hide Inv;
    ScannedRow(db, now, a);
  }

  lemma TurnAnswers(db: Db, now: UnixMillis, next: EvaluationRequest)
    requires Inv(db) && Replaceable(db, next, now)
    ensures RetryTx(db, next, now, true).out == Ok(ReadStatus(next.evaluationId))
    ensures Answer(RetryTx(db, next, now, true)).Ok?
    ensures Joined(db, next.evaluationId) && db.evaluations[next.evaluationId].currentAttemptId in db.tasks
    ensures RetryTx(db, next, now, true).db == Replaced(db, next, now) && Inv(Replaced(db, next, now))
  {
    hide Inv, RetryTx, Replaceable, Status, EvaluationInv, AttemptInv, Consistent;
    RetryEffect(db, next, now, true);
    RetriedRow(db, next, now);
    StepKeepsInv(db, Retry(next, now, true));
    var db' := RetryTx(db, next, now, true).db;
    assert next.evaluationId in db'.evaluations;
    CurrentFacts(db', next.evaluationId);
    StatusOfRows(db', next.evaluationId);
  }

  lemma TurnShrinks(db: Db, now: UnixMillis, a: Id, next: EvaluationRequest)
    requires Inv(db) && ExpiredLease(db, now, a) && Successor(db.attempts[a], next) && Replaceable(db, next, now)
    requires db.evaluations[next.evaluationId].currentAttemptId in db.tasks
    ensures ExpiredLeases(Replaced(db, next, now), now) == ExpiredLeases(db, now) - {a}
  {
    hide Inv, Replaceable, SameEvaluationSemantics;
    ScannedRow(db, now, a);
    var db' := Replaced(db, next, now);
    assert next.attemptId !in db.attempts by { NewAttempt(db, next, now); }
    forall b | b != a && b != next.attemptId ensures ExpiredLease(db', now, b) <==> ExpiredLease(db, now, b) {
      if ExpiredLease(db, now, b) {
        var f :| f in db.evaluations && db.evaluations[f].currentAttemptId == b && db.evaluations[f].state == RowLeased;
        assert f in db'.evaluations && db'.evaluations[f] == db.evaluations[f];
      }
    }
  }

  lemma NewAttempt(db: Db, next: EvaluationRequest, now: nat)
    requires Replaceable(db, next, now)
    ensures next.attemptId !in db.attempts
  {
  }

  lemma TurnStaysFresh(db: Db, now: UnixMillis, next: EvaluationRequest, draws: seq<Draw>)
    requires Fresh(db, draws) && draws != [] && next.attemptId == draws[0].attemptId && next.idempotencyKey == draws[0].key
    requires Joined(db, next.evaluationId) && db.evaluations[next.evaluationId].currentAttemptId in db.tasks
    ensures Fresh(Replaced(db, next, now), draws[1..])
  {
    var db' := Replaced(db, next, now);
    var rest := draws[1..];
    forall i | 0 <= i < |rest| ensures rest[i].attemptId !in db'.attempts && KeyIsUnused(db', rest[i].key) {
      assert rest[i] == draws[i + 1];
      forall a ensures !AttemptKeyAt(db', rest[i].key, a) {
        assert !AttemptKeyAt(db, rest[i].key, a);
      }
    }
  }

  // ---- What a run of the loop does to every row.

  ghost predicate EvaluationRecovered(db: Db, db': Db, now: nat, done: set<Id>, e: Id)
    requires e in db.evaluations
  {
    && e in db'.evaluations
    && var row := db.evaluations[e];
    && var row' := db'.evaluations[e];
    if row.currentAttemptId !in done then row' == row
    else
      && row' == row.(state := RowQueued, currentAttemptId := row'.currentAttemptId, updatedAt := now)
      && row.currentAttemptId in db.attempts && row'.currentAttemptId in db'.attempts
      && row'.currentAttemptId !in db.attempts
      && Successor(db.attempts[row.currentAttemptId], db'.attempts[row'.currentAttemptId].payload)
      && db'.attempts[row'.currentAttemptId] == NewAttemptRow(db'.attempts[row'.currentAttemptId].payload, now)
  }

  ghost predicate AttemptRecovered(db: Db, db': Db, now: nat, done: set<Id>, a: Id)
    requires a in db.attempts && a in db.tasks
  {
    && a in db'.attempts && a in db'.tasks
    && db'.attempts[a] == (if a in done then db.attempts[a].(state := RowExpired, updatedAt := now)
                           else db.attempts[a])
    && db'.tasks[a] == (if a in done then db.tasks[a].(state := RowExpired, updatedAt := now) else db.tasks[a])
  }

  /** The attempts in `done` are expired and have a queued successor; every other row is as before, and no row beside
      the successors is new. */
  ghost predicate RecoveredFrom(db: Db, db': Db, now: nat, done: set<Id>)
    requires db.tasks.Keys == db.attempts.Keys
  {
    && db'.evaluations.Keys == db.evaluations.Keys
    && (forall e :: e in db.evaluations ==> EvaluationRecovered(db, db', now, done, e))
    && (forall a :: a in db.attempts ==> AttemptRecovered(db, db', now, done, a))
    && |db'.attempts| == |db.attempts| + |done|
    && db'.artifacts == db.artifacts && db'.problemVersions == db.problemVersions
    && db'.submissions == db.submissions && db'.runtimes == db.runtimes
  }

  lemma TurnRecovers(db: Db, now: UnixMillis, a: Id, next: EvaluationRequest)
    requires Inv(db) && ExpiredLease(db, now, a) && Successor(db.attempts[a], next) && Replaceable(db, next, now)
    requires db.evaluations[next.evaluationId].currentAttemptId in db.tasks
    ensures db.tasks.Keys == db.attempts.Keys && RecoveredFrom(db, Replaced(db, next, now), now, {a})
  {
    hide Inv, ExpiredLease, Replaceable, EvaluationRecovered, AttemptRecovered, Replaced;
    TasksMatch(db);
    ScannedRow(db, now, a);
    NewAttempt(db, next, now);
    var db' := Replaced(db, next, now);
    ReplacedTables(db, next, now);
    forall e | e in db.evaluations ensures EvaluationRecovered(db, db', now, {a}, e) {
      TurnRecoversEvaluation(db, now, a, next, e);
    }
    forall b | b in db.attempts ensures AttemptRecovered(db, db', now, {a}, b) {
      TurnRecoversAttempt(db, now, a, next, b);
    }
  }

  lemma TasksMatch(db: Db)
    requires Inv(db)
    ensures db.tasks.Keys == db.attempts.Keys
  {
    hide EvaluationsInv, AttemptsInv, CountsInv, Unique;
  }

  lemma ReplacedTables(db: Db, next: EvaluationRequest, now: nat)
    requires Joined(db, next.evaluationId) && db.evaluations[next.evaluationId].currentAttemptId in db.tasks
    requires next.attemptId !in db.attempts
    ensures var db' := Replaced(db, next, now);
            && db'.evaluations.Keys == db.evaluations.Keys && |db'.attempts| == |db.attempts| + 1
            && db'.artifacts == db.artifacts && db'.problemVersions == db.problemVersions
            && db'.submissions == db.submissions && db'.runtimes == db.runtimes
  {
    var db' := Replaced(db, next, now);
    assert db'.attempts.Keys == db.attempts.Keys + {next.attemptId};
  }

  lemma TurnRecoversEvaluation(db: Db, now: UnixMillis, a: Id, next: EvaluationRequest, e: Id)
    requires e in db.evaluations && a in db.attempts && Successor(db.attempts[a], next)
    requires Joined(db, next.evaluationId) && db.evaluations[next.evaluationId].currentAttemptId == a && a in db.tasks
    requires db.evaluations[e].currentAttemptId == a ==> e == next.evaluationId
    requires next.attemptId !in db.attempts
    ensures EvaluationRecovered(db, Replaced(db, next, now), now, {a}, e)
  {
  }

  lemma TurnRecoversAttempt(db: Db, now: UnixMillis, a: Id, next: EvaluationRequest, b: Id)
    requires b in db.attempts && b in db.tasks && next.attemptId !in db.attempts
    requires Joined(db, next.evaluationId) && db.evaluations[next.evaluationId].currentAttemptId == a && a in db.tasks
    ensures AttemptRecovered(db, Replaced(db, next, now), now, {a}, b)
  {
  }

  lemma RecoveredCompose(db: Db, mid: Db, db': Db, now: nat, a: Id, done: set<Id>)
    requires db.tasks.Keys == db.attempts.Keys && mid.tasks.Keys == mid.attempts.Keys
    requires RecoveredFrom(db, mid, now, {a}) && RecoveredFrom(mid, db', now, done)
    requires a in db.attempts && a !in done && (forall b :: b in done ==> b in db.attempts)
    ensures RecoveredFrom(db, db', now, {a} + done)
  {
    forall b | b in db.attempts ensures b in mid.attempts {
      assert AttemptRecovered(db, mid, now, {a}, b);
    }
    forall e | e in db.evaluations ensures EvaluationRecovered(db, db', now, {a} + done, e) {
      assert EvaluationRecovered(db, mid, now, {a}, e) && EvaluationRecovered(mid, db', now, done, e);
      var row := db.evaluations[e];
      if row.currentAttemptId in db.attempts {
        assert AttemptRecovered(db, mid, now, {a}, row.currentAttemptId);
      }
      var row' := mid.evaluations[e];
      if row'.currentAttemptId in mid.attempts {
        assert AttemptRecovered(mid, db', now, done, row'.currentAttemptId);
      }
    }
    forall b | b in db.attempts ensures AttemptRecovered(db, db', now, {a} + done, b) {
      assert AttemptRecovered(db, mid, now, {a}, b);
      assert AttemptRecovered(mid, db', now, done, b);
    }
  }

  lemma NothingRecovered(db: Db, now: nat)
    requires db.tasks.Keys == db.attempts.Keys
    ensures RecoveredFrom(db, db, now, {})
  {
  }

  lemma TurnKeepsConstructed(db: Db, now: UnixMillis, next: EvaluationRequest)
    requires PayloadsConstructed(db) && NewRequest(next).Ok?
    requires Joined(db, next.evaluationId) && db.evaluations[next.evaluationId].currentAttemptId in db.tasks
    ensures PayloadsConstructed(Replaced(db, next, now))
  {
  }

  /** Run alone with fresh ids, the loop needs one turn for each expired lease. It succeeds exactly when none of them
      is at the largest attempt number; then it returns their (saturated) number and leaves none. Otherwise it stops at
      the first exhausted one with corrupt data. In both cases every other row is untouched. */
  lemma {:induction false} RecoverEffect(db: Db, now: UnixMillis, draws: seq<Draw>, count: nat)
    requires Inv(db) && PayloadsConstructed(db) && Fresh(db, draws)
    requires |ExpiredLeases(db, now)| <= |draws| && count <= U32_MAX
    ensures var after := Recover(db, now, draws, count);
            var due := ExpiredLeases(db, now);
            && Inv(after.db) && db.tasks.Keys == db.attempts.Keys
            && RecoveredFrom(db, after.db, now, due - ExpiredLeases(after.db, now))
            && ExpiredLeases(after.db, now) <= due
            && (after.count.Ok? <==> NoneExhausted(db, now))
            && (after.count.Ok? ==>
                  ExpiredLeases(after.db, now) == {}
                  && after.count.value == if count + |due| < U32_MAX then count + |due| else U32_MAX)
            && (after.count.Err? ==>
                  after.count.error == CorruptData
                  && exists a :: FirstExpired(after.db, now, a) && after.db.attempts[a].attemptNumber >= U32_MAX)
    decreases |draws|
  {
    hide Inv, RetryTx, Replaceable, Successor, RecoveredFrom, Fresh, PayloadsConstructed, ExpiredLease, Answer,
         Replaced, ExpiredLeases, NoneExhausted, WithNextAttempt;
    TasksMatch(db);
    NothingRecovered(db, now);
    var due := ExpiredLeases(db, now);
    assert due - due == {};
    if a :| FirstExpired(db, now, a) {
      forall b | FirstExpired(db, now, b) ensures b == a { FirstExpiredIsUnique(db, now, a, b); }
      FirstIsDue(db, now, a);
      var draw := draws[0];
      FirstDraw(db, now, draws, a);
      TurnReplaces(db, now, a, draw.attemptId, draw.key);
      var made := WithNextAttempt(db.attempts[a].payload, draw.attemptId, draw.key);
      if made.Ok? {
        var next := made.value;
        TurnAnswers(db, now, next);
        TurnShrinks(db, now, a, next);
        TurnStaysFresh(db, now, next, draws);
        TurnKeepsConstructed(db, now, next);
        TurnRecovers(db, now, a, next);
        var mid := Replaced(db, next, now);
        TasksMatch(mid);
        assert due == ExpiredLeases(mid, now) + {a};
        RecoverEffect(mid, now, draws[1..], SaturatingIncrement(count));
        RecoverTurn(db, mid, Recover(mid, now, draws[1..], SaturatingIncrement(count)).db, now, a);
      }
    } else {
      if due != {} { SomeExpiredIsFirst(db, now); }
      assert NoneExhausted(db, now) by { NoneIsExhausted(db, now); }
    }
  }

  lemma NoneIsExhausted(db: Db, now: nat)
    requires ExpiredLeases(db, now) == {}
    ensures NoneExhausted(db, now)
  {
  }

  lemma FirstIsDue(db: Db, now: nat, a: Id)
    requires FirstExpired(db, now, a)
    ensures a in ExpiredLeases(db, now) && a in db.attempts && ExpiredLease(db, now, a)
    ensures db.attempts[a].attemptNumber >= U32_MAX ==> !NoneExhausted(db, now)
  {
  }

  lemma FirstDraw(db: Db, now: nat, draws: seq<Draw>, a: Id)
    requires Fresh(db, draws) && draws != [] && PayloadsConstructed(db) && a in db.attempts
    ensures draws[0].attemptId !in db.attempts && KeyIsUnused(db, draws[0].key)
    ensures NewRequest(db.attempts[a].payload).Ok?
  {
  }

  /** One turn and the rest of the loop, taken together. */
  lemma RecoverTurn(db: Db, mid: Db, db': Db, now: nat, a: Id)
    requires db.tasks.Keys == db.attempts.Keys && mid.tasks.Keys == mid.attempts.Keys
    requires a in db.attempts && a in ExpiredLeases(db, now)
    requires ExpiredLeases(mid, now) == ExpiredLeases(db, now) - {a}
    requires ExpiredLeases(db', now) <= ExpiredLeases(mid, now)
    requires RecoveredFrom(db, mid, now, {a})
    requires RecoveredFrom(mid, db', now, ExpiredLeases(mid, now) - ExpiredLeases(db', now))
    ensures RecoveredFrom(db, db', now, ExpiredLeases(db, now) - ExpiredLeases(db', now))
    ensures NoneExhausted(db, now) <==> db.attempts[a].attemptNumber < U32_MAX && NoneExhausted(mid, now)
  {
    hide ExpiredLeases, RecoveredFrom;
    var done := ExpiredLeases(mid, now) - ExpiredLeases(db', now);
    DueAreStored(db, now);
    RecoveredCompose(db, mid, db', now, a, done);
    assert {a} + done == ExpiredLeases(db, now) - ExpiredLeases(db', now);
    SameNumbers(db, mid, now, a);
  }

  lemma SameNumbers(db: Db, mid: Db, now: nat, a: Id)
    requires db.tasks.Keys == db.attempts.Keys && a in db.attempts && RecoveredFrom(db, mid, now, {a})
    requires a in ExpiredLeases(db, now) && ExpiredLeases(mid, now) == ExpiredLeases(db, now) - {a}
    ensures NoneExhausted(db, now) <==> db.attempts[a].attemptNumber < U32_MAX && NoneExhausted(mid, now)
  {
    hide ExpiredLease, EvaluationRecovered;
    forall b | b in db.attempts
      ensures b in mid.attempts && mid.attempts[b].attemptNumber == db.attempts[b].attemptNumber
    {
      assert AttemptRecovered(db, mid, now, {a}, b);
    }
  }

  lemma DueAreStored(db: Db, now: nat)
    ensures ExpiredLeases(db, now) <= db.attempts.Keys
  {
  }

  // ---- The hypothesis about payloads holds of every run whose requests were constructed.

  predicate CommandConstructed(c: Command) {
    match c
    case Create(r, _, _) => NewRequest(r).Ok?
    case Retry(r, _, _) => NewRequest(r).Ok?
    case _ => true
  }

  lemma StepKeepsConstructed(db: Db, c: Command)
    requires Inv(db) && PayloadsConstructed(db) && CommandConstructed(c)
    ensures PayloadsConstructed(Apply(db, c).db)
  {
    hide Inv, Apply, Insertable, SameEvaluationSemantics, NewRequest;
    var shape := StepShape(db, c);
    StepEvolves(db, c);
    var db' := Apply(db, c).db;
    forall a | a in db'.attempts ensures NewRequest(db'.attempts[a].payload).Ok? {
      if a in db.attempts {
        assert AttemptRowEvolves(db, db', a);
      } else if shape.Insertion? {
        assert db'.attempts[a].payload == c.request;
      } else if shape.Replacement? {
        assert db'.attempts[a].payload == c.request;
      }
    }
  }

  lemma {:induction false} RunKeepsConstructed(db: Db, run: seq<Command>)
    requires Inv(db) && PayloadsConstructed(db) && forall i :: 0 <= i < |run| ==> CommandConstructed(run[i])
    ensures PayloadsConstructed(Exec(db, run))
    decreases |run|
  {
    if run != [] {
      hide Inv, Apply, PayloadsConstructed, CommandConstructed;
      StepKeepsInv(db, run[0]);
      StepKeepsConstructed(db, run[0]);
      var rest := run[1..];
      assert forall i :: 0 <= i < |rest| ==> rest[i] == run[i + 1];
      RunKeepsConstructed(Apply(db, run[0]).db, rest);
    }
  }
}
