/** What a recovery leaves behind, said with the columns of the rows and without its scan. */
module RecoveryOutcome {
  import opened Prelude
  import opened Tokens
  import opened Domain
  import opened Spine
  import opened SpineInvariant
  import opened SpineSteps
  import opened SpineRuns
  import opened SpineLifecycle
  import opened SpineColumns
  import opened Recovery
  import opened Sweepers

  /** The attempts that are leased and whose lease ran out before `now`. */
  function Overdue(db: Db, now: nat): set<Id> {
    set a | a in db.attempts && db.attempts[a].state == RowLeased
            && db.attempts[a].expiresAt.Some? && db.attempts[a].expiresAt.value < now
  }

  // ---- The scan.

  /** The join of the scan finds exactly the overdue attempts. */
  lemma ScanFindsOverdue(db: Db, now: nat)
    requires Inv(db)
    ensures ExpiredLeases(db, now) == Overdue(db, now)
    ensures forall a :: ExpiredLease(db, now, a) <==> a in Overdue(db, now)
  {
    hide Inv, ExpiredLease;
    forall a ensures ExpiredLease(db, now, a) <==> a in Overdue(db, now) { LeaseIsScanned(db, now, a); }
    forall a | ExpiredLease(db, now, a) ensures a in db.attempts { LeaseIsScanned(db, now, a); }
  }

  lemma LeaseIsScanned(db: Db, now: nat, a: Id)
    requires Inv(db)
    ensures ExpiredLease(db, now, a) <==> a in Overdue(db, now)
  {
    hide Inv, EvaluationInv;
    if a in db.attempts {
      AttemptFacts(db, a);
      CurrentFacts(db, db.attempts[a].evaluationId);
    }
    hide TaskCheck, RegistryAgrees, SameEvaluationSemantics, AttemptCheck, LeaseFields;
  }

  /** The overdue attempt whose lease ran out first; of two at once the one whose name comes first. */
  ghost predicate FirstOverdue(db: Db, now: nat, a: Id) {
    && a in Overdue(db, now)
    && forall b :: b in Overdue(db, now) && b != a ==>
         var (s, t) := (db.attempts[a].expiresAt.value, db.attempts[b].expiresAt.value);
         s < t || (s == t && Before(a.text, b.text))
  }

  lemma ScanIsFirstOverdue(db: Db, now: nat, a: Id)
    requires Inv(db)
    ensures FirstExpired(db, now, a) <==> FirstOverdue(db, now, a)
  {
    hide Inv, ExpiredLease, LexLess, Before;
    ScanFindsOverdue(db, now);
    forall b: Id ensures LexLess(a.text, b.text) <==> Before(a.text, b.text) { LessIsBefore(a.text, b.text); }
  }

  /** An idle sweeper comes back from its scan with nothing exactly when no lease is overdue or the first one that ran
      out has the largest number; otherwise it holds the next request of that first attempt. */
  lemma ScanDecides(w: World, i: nat, now: UnixMillis, draw: Draw)
    requires Inv(w.db) && PayloadsConstructed(w.db) && i < |w.sweepers| && w.sweepers[i].holding.None?
    ensures var w' := Perform(w, Scan(i, now, draw));
            && w'.db == w.db
            && if Overdue(w.db, now) == {} then w' == w
               else exists a ::
                 && FirstOverdue(w.db, now, a)
                 && var n := w.db.attempts[a].attemptNumber;
                 if n >= 4294967295 then w' == w
                 else w'.sweepers == w.sweepers[i := w.sweepers[i].(holding := Some(Scanned(
                        w.db.attempts[a].payload.(attemptId := draw.attemptId, attemptNumber := n + 1,
                                                  idempotencyKey := draw.key), now)))]
  {
    hide Inv, ExpiredLease, FirstExpired, Before, Overdue;
    ScanFindsOverdue(w.db, now);
    if a :| FirstExpired(w.db, now, a) {
      forall b | FirstExpired(w.db, now, b) ensures b == a { FirstExpiredIsUnique(w.db, now, a, b); }
      ScanIsFirstOverdue(w.db, now, a);
      FirstIsDue(w.db, now, a);
      PayloadNumber(w.db, a);
    } else if ExpiredLeases(w.db, now) != {} {
      SomeExpiredIsFirst(w.db, now);
    }
  }

  lemma PayloadNumber(db: Db, a: Id)
    requires Inv(db) && a in db.attempts
    ensures db.attempts[a].payload.attemptNumber == db.attempts[a].attemptNumber
  {
    hide Inv;
    AttemptFacts(db, a);
    hide TaskCheck, RegistryAgrees, SameEvaluationSemantics, AttemptCheck, LeaseFields;
  }

  // ---- The loop, with any ids and keys.

  /** One turn replaces the scanned attempt or leaves the store alone, and it counts exactly in the first case. */
  lemma TurnDecides(db: Db, now: UnixMillis, a: Id, draw: Draw)
    requires Inv(db) && a in db.attempts && ExpiredLease(db, now, a)
    requires WithNextAttempt(db.attempts[a].payload, draw.attemptId, draw.key).Ok?
    ensures var next := WithNextAttempt(db.attempts[a].payload, draw.attemptId, draw.key).value;
            var tx := RetryTx(db, next, now, true);
            && Successor(db.attempts[a], next) && Inv(tx.db)
            && if Answer(tx).Ok? then
                 && Replaceable(db, next, now) && Joined(db, next.evaluationId)
                 && db.evaluations[next.evaluationId].currentAttemptId in db.tasks && tx.db == Replaced(db, next, now)
               else tx.db == db
  {
    hide Inv, RetryTx, Answer, Replaceable, ExpiredLease;
    var next := WithNextAttempt(db.attempts[a].payload, draw.attemptId, draw.key).value;
    PayloadNumber(db, a);
    RetryEffect(db, next, now, true);
    StepKeepsInv(db, Retry(next, now, true));
    RetryApplies(db, next, now, true);
    if Replaceable(db, next, now) {
      TurnAnswers(db, now, next);
    } else {
      NextIsNew(db, now, a, next);
      ErrorAnswersError(db, next, now);
    }
  }

  /** No stored attempt is the successor already, so the retry of a scanned attempt is never a replay. */
  lemma NextIsNew(db: Db, now: UnixMillis, a: Id, next: EvaluationRequest)
    requires Inv(db) && ExpiredLease(db, now, a) && Successor(db.attempts[a], next)
    ensures !RetriedWith(db, next)
  {
    hide Inv, AttemptInv;
    ScannedRow(db, now, a);
    forall b | AttemptKeyAt(db, next.idempotencyKey, b) ensures db.attempts[b].payload != next {
      AttemptFacts(db, b);
      NumberIsBounded(db, b);
      PayloadNumber(db, b);
      PayloadNames(db, b);
    }
  }

  /** Whenever the loop succeeds, whatever the random source yields: every overdue attempt was replaced, once, by its
      successor, none is overdue any more, the returned number counts them, and every other row is as it was. */
  lemma {:induction false} SuccessReplacesOverdue(db: Db, now: UnixMillis, draws: seq<Draw>, count: nat)
    requires Inv(db) && count <= U32_MAX && Recover(db, now, draws, count).count.Ok?
    ensures var after := Recover(db, now, draws, count);
            && Inv(after.db) && db.tasks.Keys == db.attempts.Keys
            && RecoveredFrom(db, after.db, now, Overdue(db, now)) && Overdue(after.db, now) == {}
            && after.count.value ==
               if count + |Overdue(db, now)| < U32_MAX then count + |Overdue(db, now)| else U32_MAX
    decreases |draws|
  {
    hide Inv, RetryTx, Replaceable, Successor, RecoveredFrom, ExpiredLease, Answer, Replaced, Overdue, WithNextAttempt;
    TasksMatch(db);
    ScanFindsOverdue(db, now);
    if a :| FirstExpired(db, now, a) {
      forall b | FirstExpired(db, now, b) ensures b == a { FirstExpiredIsUnique(db, now, a, b); }
      FirstIsDue(db, now, a);
      TurnDecides(db, now, a, draws[0]);
      var next := WithNextAttempt(db.attempts[a].payload, draws[0].attemptId, draws[0].key).value;
      var tx := RetryTx(db, next, now, true);
      if Answer(tx).Ok? {
        SuccessReplacesOverdue(tx.db, now, draws[1..], SaturatingIncrement(count));
        TurnShrinks(db, now, a, next);
        TurnRecovers(db, now, a, next);
        ScanFindsOverdue(tx.db, now);
        assert Overdue(db, now) == {a} + Overdue(tx.db, now);
        DueAreStored(db, now);
        RecoveredCompose(db, tx.db, Recover(tx.db, now, draws[1..], SaturatingIncrement(count)).db, now, a,
                         Overdue(tx.db, now));
      } else {
        SuccessReplacesOverdue(db, now, draws[1..], count);
      }
    } else {
      if ExpiredLeases(db, now) != {} { SomeExpiredIsFirst(db, now); }
      NothingRecovered(db, now);
    }
  }

  /** A sweeper that comes too late goes on: whatever happened since the scan of attempt `k`, as long as nobody else used
      the drawn key, its retry either replaces or is refused with an error that the loop skips. */
  lemma LateRetryIsSkipped(db: Db, k: Id, draw: Draw, next: EvaluationRequest, run: seq<Command>, now: UnixMillis)
    requires Inv(db) && k in db.attempts && BuiltFrom(db, k, draw, next)
    requires !AttemptKeyTaken(Exec(db, run), draw.key)
    ensures var answer := Answer(RetryTx(Exec(db, run), next, now, true));
            answer.Ok? || (Skips(answer.error)
                           && answer.error in {LeaseConflict, StoreError.InvalidTransition, IdentityConflict})
  {
    hide Inv, RetryTx, Answer, SameWork, Status, Evolves;
    BuiltNumber(db, k, draw, next);
    RunKeepsInv(db, run);
    RunEvolves(db, run);
    var later := Exec(db, run);
    AttemptKept(db, later, k);
    PayloadNames(later, k);
    RetryOpen(later, next, now);
    RefusedAnswers(later, next, now);
    if RetryTx(later, next, now, true).out.Ok? {
      StepKeepsInv(later, Retry(next, now, true));
      RetryApplies(later, next, now, true);
      StatusShows(RetryTx(later, next, now, true).db, next.evaluationId);
      ReadsBack(later, next, now);
    }
  }

  lemma RefusedAnswers(db: Db, r: EvaluationRequest, now: UnixMillis)
    ensures RetryTx(db, r, now, true).out.Err? ==>
              Answer(RetryTx(db, r, now, true)) == Err(RetryTx(db, r, now, true).out.error)
  {
    hide RetryTx, Status;
  }

  lemma ReadsBack(db: Db, r: EvaluationRequest, now: UnixMillis)
    requires RetryTx(db, r, now, true).out == Ok(ReadStatus(r.evaluationId))
    ensures Answer(RetryTx(db, r, now, true)) == Status(RetryTx(db, r, now, true).db, r.evaluationId)
  {
    hide RetryTx, Status;
  }

  // ---- In terms of evaluations.

  /** The evaluations whose current attempt is overdue. */
  function OverdueEvaluations(db: Db, now: nat): set<Id> {
    set e | e in db.evaluations && db.evaluations[e].state == RowLeased
            && db.evaluations[e].currentAttemptId in db.attempts
            && db.attempts[db.evaluations[e].currentAttemptId].expiresAt.Some?
            && db.attempts[db.evaluations[e].currentAttemptId].expiresAt.value < now
  }

  lemma OverdueByEvaluation(db: Db, now: nat, e: Id)
    requires Inv(db) && e in db.evaluations
    ensures db.evaluations[e].currentAttemptId in db.attempts
    ensures e in OverdueEvaluations(db, now) <==> db.evaluations[e].currentAttemptId in Overdue(db, now)
    ensures db.evaluations[e].state == RowLeased ==>
              var row := db.attempts[db.evaluations[e].currentAttemptId];
              row.expiresAt.Some? && (e !in OverdueEvaluations(db, now) ==> row.expiresAt.value >= now)
  {
    hide Inv, EvaluationInv, AttemptInv;
    CurrentFacts(db, e);
  }

  /** Each overdue attempt is the current one of one overdue evaluation, so there are as many of either. */
  lemma AsManyEvaluations(db: Db, now: nat)
    requires Inv(db)
    ensures |OverdueEvaluations(db, now)| == |Overdue(db, now)|
  {
    hide Inv, EvaluationInv, AttemptInv, OverdueEvaluations, Overdue;
    var es := OverdueEvaluations(db, now);
    EvaluationsAreStored(db, now);
    forall e | e in es ensures db.evaluations[e].currentAttemptId in Overdue(db, now) {
      OverdueByEvaluation(db, now, e);
    }
    forall e, f | e in es && f in es && db.evaluations[e].currentAttemptId == db.evaluations[f].currentAttemptId
      ensures e == f
    {
      CurrentFacts(db, e);
      CurrentFacts(db, f);
    }
    forall a | a in Overdue(db, now)
      ensures exists e :: e in es && db.evaluations[e].currentAttemptId == a
    {
      ScanFindsOverdue(db, now);
      ScannedRow(db, now, a);
      OverdueByEvaluation(db, now, db.attempts[a].evaluationId);
    }
    SameSize(es, Overdue(db, now), map e | e in es :: db.evaluations[e].currentAttemptId);
  }

  lemma EvaluationsAreStored(db: Db, now: nat)
    ensures OverdueEvaluations(db, now) <= db.evaluations.Keys
  {
  }

  lemma {:induction false} SameSize(xs: set<Id>, ys: set<Id>, f: map<Id, Id>)
    requires f.Keys == xs && forall x :: x in xs ==> f[x] in ys
    requires forall x, y :: x in xs && y in xs && f[x] == f[y] ==> x == y
    requires forall y :: y in ys ==> exists x :: x in xs && f[x] == y
    ensures |xs| == |ys|
  {
    if x :| x in xs {
      var rest := f - {x};
      forall y | y in ys - {f[x]} ensures exists z :: z in xs - {x} && rest[z] == y {
        var z :| z in xs && f[z] == y;
        assert z in xs - {x} && rest[z] == y;
      }
      SameSize(xs - {x}, ys - {f[x]}, rest);
    } else {
      assert xs == {} && ys == {};
    }
  }

  /** Whenever a recovery succeeds: no evaluation is left with a lease that has run out; each one
      that had such a lease is queued again on a new attempt, which asks for the same work under the next number, while
      the old attempt and its task are expired; the answer is the (saturated) number of these evaluations; and every
      other evaluation is as it was, with its attempt. */
  lemma RecoveryLeavesNoneOverdue(db: Db, now: UnixMillis, draws: seq<Draw>)
    requires Reachable(db) && Recover(db, now, draws, 0).count.Ok?
    ensures var after := Recover(db, now, draws, 0).db;
            && after.evaluations.Keys == db.evaluations.Keys
            && (forall e :: e in after.evaluations && after.evaluations[e].state == RowLeased ==>
                  && after.evaluations[e].currentAttemptId in after.attempts
                  && after.attempts[after.evaluations[e].currentAttemptId].expiresAt.Some?
                  && after.attempts[after.evaluations[e].currentAttemptId].expiresAt.value >= now)
            && (forall e :: e in OverdueEvaluations(db, now) ==> QueuedAgain(db, after, now, e))
            && (forall e :: e in db.evaluations && e !in OverdueEvaluations(db, now) ==> LeftAlone(db, after, e))
    ensures var n := |OverdueEvaluations(db, now)|;
            Recover(db, now, draws, 0).count.value == if n < 4294967295 then n else 4294967295
  {
    hide Reachable, Inv, Recover, RecoveredFrom, Overdue, OverdueEvaluations, QueuedAgain, LeftAlone, EvaluationInv,
         AttemptInv;
    ReachableInv(db);
    SuccessReplacesOverdue(db, now, draws, 0);
    AsManyEvaluations(db, now);
    EvaluationsAreStored(db, now);
    var after := Recover(db, now, draws, 0).db;
    RecoveredKeys(db, after, now, Overdue(db, now));
    forall e | e in after.evaluations
      ensures after.evaluations[e].state == RowLeased ==>
                && after.evaluations[e].currentAttemptId in after.attempts
                && after.attempts[after.evaluations[e].currentAttemptId].expiresAt.Some?
                && after.attempts[after.evaluations[e].currentAttemptId].expiresAt.value >= now
    {
      OverdueByEvaluation(after, now, e);
    }
    forall e | e in db.evaluations
      ensures if e in OverdueEvaluations(db, now) then QueuedAgain(db, after, now, e) else LeftAlone(db, after, e)
    {
      OverdueByEvaluation(db, now, e);
      CurrentFacts(db, e);
      RecoveredOne(db, after, now, Overdue(db, now), e);
    }
  }

  ghost predicate QueuedAgain(db: Db, db': Db, now: nat, e: Id) {
    && e in db.evaluations && e in db'.evaluations
    && var row := db.evaluations[e];
    && var (was, successor) := (row.currentAttemptId, db'.evaluations[e].currentAttemptId);
    && was in db.attempts && was in db.tasks && successor !in db.attempts && successor in db'.attempts
    && was in db'.attempts && was in db'.tasks
    && db'.evaluations[e] == row.(state := RowQueued, currentAttemptId := successor, updatedAt := now)
    && db'.attempts[was] == db.attempts[was].(state := RowExpired, updatedAt := now)
    && db'.tasks[was] == db.tasks[was].(state := RowExpired, updatedAt := now)
    && var next := db'.attempts[successor].payload;
    && db'.attempts[successor] == QueuedAttemptRow(next, now)
    && SameWork(db.attempts[was].payload, next) && next.requestId == db.attempts[was].payload.requestId
    && next.attemptNumber == db.attempts[was].attemptNumber + 1
  }

  ghost predicate LeftAlone(db: Db, db': Db, e: Id) {
    && e in db.evaluations && e in db'.evaluations && db'.evaluations[e] == db.evaluations[e]
    && var a := db.evaluations[e].currentAttemptId;
    && a in db.attempts && a in db'.attempts && db'.attempts[a] == db.attempts[a]
    && a in db.tasks && a in db'.tasks && db'.tasks[a] == db.tasks[a]
  }

  lemma RecoveredKeys(db: Db, db': Db, now: nat, done: set<Id>)
    requires db.tasks.Keys == db.attempts.Keys && RecoveredFrom(db, db', now, done)
    ensures db'.evaluations.Keys == db.evaluations.Keys
  {
    hide EvaluationRecovered, AttemptRecovered;
  }

  lemma RecoveredOne(db: Db, db': Db, now: nat, done: set<Id>, e: Id)
    requires db.tasks.Keys == db.attempts.Keys && RecoveredFrom(db, db', now, done)
    requires e in db.evaluations && db.evaluations[e].currentAttemptId in db.attempts
    ensures if db.evaluations[e].currentAttemptId in done then QueuedAgain(db, db', now, e) else LeftAlone(db, db', e)
  {
    assert EvaluationRecovered(db, db', now, done, e);
    assert AttemptRecovered(db, db', now, done, db.evaluations[e].currentAttemptId);
  }
}
