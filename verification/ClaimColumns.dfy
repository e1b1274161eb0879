/** What a claim, its replay and a judge submission answer on a reachable store, said with the columns of the rows. */
module ClaimColumns {
  import opened Prelude
  import opened Tokens
  import opened Domain
  import opened Spine
  import opened SpineInvariant
  import opened SpineSteps
  import opened SpineRuns
  import opened SpineColumns
  import opened Claims

  // ---- Claim.

  /** The attempt is queued, nobody holds its row locked, and the declared set covers what its request requires. */
  predicate Offered(db: Db, capabilities: Option<set<string>>, skipped: set<Id>, a: Id) {
    && a in db.attempts && db.attempts[a].state == RowQueued && a !in skipped
    && (capabilities.Some? ==>
          forall c :: c in db.attempts[a].payload.requiredCapabilities ==> c in capabilities.value)
  }

  /** The oldest attempt on offer; of two with the same age the one whose name comes first. */
  ghost predicate Oldest(db: Db, capabilities: Option<set<string>>, skipped: set<Id>, a: Id) {
    && Offered(db, capabilities, skipped, a)
    && forall b :: Offered(db, capabilities, skipped, b) && b != a ==>
         || db.attempts[a].createdAt < db.attempts[b].createdAt
         || (db.attempts[a].createdAt == db.attempts[b].createdAt && Before(a.text, b.text))
  }

  /** The join of the claim query finds exactly the attempts on offer. */
  lemma ClaimableIsOffered(db: Db, capabilities: Option<set<string>>, skipped: set<Id>, a: Id)
    requires Inv(db)
    ensures Claimable(db, capabilities, skipped, a) <==> Offered(db, capabilities, skipped, a)
    ensures Offered(db, capabilities, skipped, a) ==> a in db.tasks && db.tasks[a].createdAt == db.attempts[a].createdAt
  {
    hide Inv, EvaluationInv;
    if a in db.attempts {
      AttemptFacts(db, a);
      CurrentFacts(db, db.attempts[a].evaluationId);
    }
    hide TaskCheck, RegistryAgrees, SameEvaluationSemantics, AttemptCheck, LeaseFields;
  }

  lemma NextIsOldest(db: Db, capabilities: Option<set<string>>, skipped: set<Id>, a: Id)
    requires Inv(db)
    ensures NextTask(db, capabilities, skipped, a) <==> Oldest(db, capabilities, skipped, a)
  {
    hide Inv, Claimable, Offered, LexLess, Before;
    forall b ensures Claimable(db, capabilities, skipped, b) <==> Offered(db, capabilities, skipped, b)
             ensures Offered(db, capabilities, skipped, b) ==>
                       b in db.attempts && b in db.tasks && db.tasks[b].createdAt == db.attempts[b].createdAt
             ensures LexLess(a.text, b.text) <==> Before(a.text, b.text)
    {
      ClaimableIsOffered(db, capabilities, skipped, b);
      OfferedIsStored(db, capabilities, skipped, b);
      LessIsBefore(a.text, b.text);
    }
  }

  lemma OfferedIsStored(db: Db, capabilities: Option<set<string>>, skipped: set<Id>, a: Id)
    ensures Offered(db, capabilities, skipped, a) ==> a in db.attempts
  {
  }

  /** The node has used the operation for some attempt. */
  ghost predicate OperationUsed(db: Db, node: Id, operation: Id) {
    exists b :: b in db.attempts && db.attempts[b].nodeId == Some(node) && db.attempts[b].claimOperation == Some(operation)
  }

  lemma UsedIsClaimed(db: Db, node: Id, operation: Id)
    ensures OperationUsed(db, node, operation) <==> exists b :: ClaimedBy(db, node, operation, b)
  {
    if OperationUsed(db, node, operation) {
      var b :| b in db.attempts && db.attempts[b].nodeId == Some(node)
               && db.attempts[b].claimOperation == Some(operation);
      assert ClaimedBy(db, node, operation, b);
    }
    if b :| ClaimedBy(db, node, operation, b) {
      assert b in db.attempts && db.attempts[b].nodeId == Some(node) && db.attempts[b].claimOperation == Some(operation);
    }
  }

  /** The store after attempt `a` was leased. */
  function Leased(db: Db, a: Id, node: Id, token: Id, now: nat, expiry: nat, operation: Option<Id>): Db
    requires a in db.attempts && a in db.tasks && db.attempts[a].evaluationId in db.evaluations
  {
    var e := db.attempts[a].evaluationId;
    db.(evaluations := db.evaluations[e := db.evaluations[e].(state := RowLeased, updatedAt := now)],
        attempts := db.attempts[a := db.attempts[a].(state := RowLeased, nodeId := Some(node),
                                                     leaseToken := Some(token), expiresAt := Some(expiry),
                                                     claimOperation := operation, updatedAt := now)],
        tasks := db.tasks[a := db.tasks[a].(state := RowLeased, updatedAt := now)])
  }

  /** Every answer of a claim and every store it leaves, for all inputs. */
  lemma ClaimDecides(db: Db, node: Id, token: Id, now: UnixMillis, duration: LeaseDuration, operation: Option<Id>,
                     capabilities: Option<set<string>>, skipped: set<Id>)
    requires Reachable(db)
    ensures var tx := ClaimTx(db, node, token, now, duration, operation, capabilities, skipped);
            if now + duration > 253402300799999 then tx == Tx(db, Err(InvalidTime))
            else if forall a :: !Offered(db, capabilities, skipped, a) then tx == Tx(db, Err(NoTaskAvailable))
            else exists a ::
              && Oldest(db, capabilities, skipped, a)
              && a in db.attempts && a in db.tasks && db.attempts[a].evaluationId in db.evaluations
              && if now < db.attempts[a].createdAt || (operation.Some? && OperationUsed(db, node, operation.value)) then
                   tx == Tx(db, Err(Unavailable))
                 else
                   tx == Tx(Leased(db, a, node, token, now, now + duration, operation),
                            Ok(Granted(TaskLease(db.attempts[a].payload, node, token, now + duration))))
  {
    hide Reachable, Inv, EvaluationInv, AttemptInv, Claimable, NextTask, Offered, Oldest, ClaimAttempt, QueuedAttempt,
         OperationUsed, ClaimedBy;
    ReachableInv(db);
    if now + duration <= MAX_UNIX_MILLIS {
      var chosen := SelectTask(db, capabilities, skipped);
      if chosen.Some? {
        var a := chosen.value;
        SelectedIsNext(db, capabilities, skipped, a);
        NextIsOldest(db, capabilities, skipped, a);
        ClaimableIsOffered(db, capabilities, skipped, a);
        ClaimableIsCurrent(db, capabilities, skipped, a);
        ClaimEffect(db, a, node, token, now, duration, operation);
        if operation.Some? { UsedIsClaimed(db, node, operation.value); }
        QueuedIsStored(db, a);
      } else {
        forall a ensures !Offered(db, capabilities, skipped, a) {
          SelectTaskIsLeast(db, capabilities, skipped, a);
          ClaimableIsOffered(db, capabilities, skipped, a);
        }
      }
    }
  }

  lemma SelectedIsNext(db: Db, capabilities: Option<set<string>>, skipped: set<Id>, a: Id)
    requires SelectTask(db, capabilities, skipped) == Some(a)
    ensures NextTask(db, capabilities, skipped, a) && Claimable(db, capabilities, skipped, a)
  {
  }

  lemma QueuedIsStored(db: Db, a: Id)
    requires QueuedAttempt(db, a)
    ensures a in db.attempts && a in db.tasks && db.attempts[a].evaluationId in db.evaluations
  {
    hide EvaluationInv, AttemptInv;
  }

  // ---- Replay.

  /** What a stored attempt answers to the replay of its operation: another node's use conflicts, a lease that is no
      longer held cannot be handed out again, and a held one comes back as it stands. */
  function Replayed(row: AttemptRow, node: Id): Result<TaskLease, StoreError> {
    match (row.nodeId, row.leaseToken, row.expiresAt)
    case (Some(holder), Some(token), Some(expiry)) =>
      if holder != node then Err(IdempotencyConflict)
      else if row.state == RowLeased then Ok(TaskLease(row.payload, holder, token, expiry))
      else Err(LeaseConflict)
    case _ => Err(CorruptData)
  }

  /** Every answer of a replay lookup: nothing exactly when no attempt carries the operation, and otherwise what one of
      the carriers answers, which is never corrupt data. */
  lemma ReplayDecides(db: Db, node: Id, operation: Id, answer: Option<Result<TaskLease, StoreError>>)
    requires Reachable(db)
    ensures ReplayAnswers(db, node, operation, answer) <==>
            match answer
            case None => forall a :: a in db.attempts ==> db.attempts[a].claimOperation != Some(operation)
            case Some(r) =>
              exists a :: a in db.attempts && db.attempts[a].claimOperation == Some(operation)
                          && r == Replayed(db.attempts[a], node) && r != Err(CorruptData)
  {
    hide Reachable, Inv, ReplayRow, Replayed;
    ReachableInv(db);
    forall a | a in db.attempts && db.attempts[a].claimOperation == Some(operation)
      ensures OperationAt(db, operation, a)
      ensures ReplayRow(db.attempts[a], node) == Replayed(db.attempts[a], node) != Err(CorruptData)
    {
      CarrierReplays(db, node, a);
    }
    if answer.Some? {
      if ReplayAnswers(db, node, operation, answer) {
        var a :| OperationAt(db, operation, a) && answer.value == ReplayRow(db.attempts[a], node);
        assert a in db.attempts && db.attempts[a].claimOperation == Some(operation)
               && answer.value == Replayed(db.attempts[a], node) && answer.value != Err(CorruptData);
      }
      if a :| a in db.attempts && db.attempts[a].claimOperation == Some(operation)
              && answer.value == Replayed(db.attempts[a], node) && answer.value != Err(CorruptData) {
        assert OperationAt(db, operation, a) && answer.value == ReplayRow(db.attempts[a], node);
      }
    } else if a :| OperationAt(db, operation, a) {
      assert a in db.attempts && db.attempts[a].claimOperation == Some(operation);
    }
  }

  lemma CarrierReplays(db: Db, node: Id, a: Id)
    requires Inv(db) && a in db.attempts && db.attempts[a].claimOperation.Some?
    ensures ReplayRow(db.attempts[a], node) == Replayed(db.attempts[a], node) != Err(CorruptData)
  {
    hide Inv, EvaluationInv, AttemptInv;
    AttemptFacts(db, a);
    LeaseIsSet(db, a);
  }

  // ---- The judge's submission.

  /** The judge submission between its two queries, over the node column of the current attempt: provenance and holder
      are checked before anything is written, and only the holder gets as far as the submission itself. */
  lemma JudgeSubmitDecides(db: Db, node: Id, operation: Id, token: Id, result: EvaluationResult, now: UnixMillis,
                           encodes: bool)
    requires Reachable(db)
    ensures var e := result.identity.evaluationId;
            var tx := JudgeSubmitTx(db, node, operation, token, result, now, encodes);
            if result.provenance.nodeId != Some(node) then tx == Tx(db, Err(IdentityConflict))
            else if e !in db.evaluations then tx == Tx(db, Err(StaleLease))
            else
              var a := db.evaluations[e].currentAttemptId;
              && a in db.attempts
              && if db.attempts[a].nodeId == None then tx == Tx(db, Err(Unavailable))
                 else if db.attempts[a].nodeId != Some(node) then tx == Tx(db, Err(StaleLease))
                 else tx == SubmitTx(db, operation, token, result, now, encodes)
  {
    hide Reachable, Inv, EvaluationInv, AttemptInv, SubmitTx;
    ReachableInv(db);
    if result.identity.evaluationId in db.evaluations { CurrentFacts(db, result.identity.evaluationId); }
  }

  /** So whenever a judge submission changes the store, its caller held the lease, is the node that the result names, and
      is credited in the row that is written. */
  lemma JudgeSubmitCredits(db: Db, node: Id, operation: Id, token: Id, result: EvaluationResult, now: UnixMillis,
                           encodes: bool)
    requires Reachable(db)
    requires JudgeSubmitTx(db, node, operation, token, result, now, encodes).db != db
    ensures var e := result.identity.evaluationId;
            var after := JudgeSubmitTx(db, node, operation, token, result, now, encodes).db;
            && e in db.evaluations && e in after.evaluations
            && var a := db.evaluations[e].currentAttemptId;
            && a in db.attempts && a in after.attempts && after.evaluations[e].currentAttemptId == a
            && db.attempts[a].state == RowLeased && db.attempts[a].leaseToken == Some(token)
            && Some(node) == result.provenance.nodeId == db.attempts[a].nodeId == after.attempts[a].nodeId
            && after.evaluations[e].terminalResult == Some(result)
  {
    hide Reachable, SubmitTx, JudgeSubmitTx, IsAbout, KeyTaken;
    JudgeSubmitDecides(db, node, operation, token, result, now, encodes);
    SubmitDecides(db, operation, token, result, now, encodes);
    StatesTellStatus(db, result.identity.evaluationId);
  }
}
