/** Claim order and claim replay: the chosen task is the unique least eligible one, and one node's operation binds at
    most one attempt however lookups and claims interleave. */
module Claims {
  import opened Prelude
  import opened Tokens
  import opened Domain
  import opened Spine
  import opened SpineInvariant
  import opened SpineSteps
  import opened SpineRuns

  lemma ClaimableIsStored(db: Db, capabilities: Option<set<string>>, skipped: set<Id>, a: Id)
    requires Claimable(db, capabilities, skipped, a)
    ensures a in db.tasks && a in db.attempts
  {
  }

  /** The selected task is the least claimable one, and a task is selected whenever one is claimable. */
  lemma SelectTaskIsLeast(db: Db, capabilities: Option<set<string>>, skipped: set<Id>, a: Id)
    ensures SelectTask(db, capabilities, skipped) == Some(a) <==> NextTask(db, capabilities, skipped, a)
    ensures Claimable(db, capabilities, skipped, a) ==> SelectTask(db, capabilities, skipped).Some?
  {
    hide Claimable;
    if Claimable(db, capabilities, skipped, a) {
      assert a in db.tasks by { ClaimableIsStored(db, capabilities, skipped, a); }
      var stamps := map b | b in db.tasks && Claimable(db, capabilities, skipped, b) :: db.tasks[b].createdAt;
      assert a in stamps;
      var first := FirstExists(stamps);
      forall b | b in db.tasks && Claimable(db, capabilities, skipped, b)
        ensures b == first || TaskBefore(db, first, b)
      {
        assert b in stamps;
      }
      assert NextTask(db, capabilities, skipped, first);
    }
    forall b, c | NextTask(db, capabilities, skipped, b) && NextTask(db, capabilities, skipped, c) ensures b == c {
      ClaimableIsStored(db, capabilities, skipped, b);
      ClaimableIsStored(db, capabilities, skipped, c);
      StampOrderIsTotal(db.tasks[b].createdAt, b, db.tasks[c].createdAt, c);
    }
  }

  /** What a granted claim hands out: the request of the least eligible task, whose requirements the declared set
      covers, leased to the caller until `now + duration`; the attempt then carries exactly that lease. */
  lemma ClaimGrants(db: Db, node: Id, token: Id, now: UnixMillis, duration: LeaseDuration, operation: Option<Id>,
                    capabilities: Option<set<string>>, skipped: set<Id>, lease: TaskLease)
    requires Inv(db)
    requires ClaimTx(db, node, token, now, duration, operation, capabilities, skipped).out == Ok(Granted(lease))
    ensures var a := lease.request.attemptId;
            var db' := ClaimTx(db, node, token, now, duration, operation, capabilities, skipped).db;
            && NextTask(db, capabilities, skipped, a) && lease.request == db.attempts[a].payload
            && (capabilities.Some? ==> forall c :: c in lease.request.requiredCapabilities ==> c in capabilities.value)
            && lease.nodeId == node && lease.leaseToken == token && lease.expiresAt == now + duration
            && a in db'.attempts && db'.attempts[a].state == RowLeased
            && ReplayRow(db'.attempts[a], node) == Ok(lease)
            && db'.attempts[a].claimOperation == operation
  {
    hide Inv, EvaluationInv, ClaimAttempt;
    var a := SelectTask(db, capabilities, skipped).value;
    ClaimableIsCurrent(db, capabilities, skipped, a);
    ClaimEffect(db, a, node, token, now, duration, operation);
    hide TaskCheck, RegistryAgrees, SameEvaluationSemantics;
  }

  /** A claim fails with `NoTaskAvailable` exactly when no task is eligible. */
  lemma NoTaskExactly(db: Db, node: Id, token: Id, now: UnixMillis, duration: LeaseDuration, operation: Option<Id>,
                      capabilities: Option<set<string>>, skipped: set<Id>)
    requires Inv(db) && now + duration <= MAX_UNIX_MILLIS
    ensures ClaimTx(db, node, token, now, duration, operation, capabilities, skipped).out == Err(NoTaskAvailable) <==>
            forall a :: !Claimable(db, capabilities, skipped, a)
  {
    hide Inv, EvaluationInv, AttemptInv, ClaimAttempt, Claimable, Grantable;
    var chosen := SelectTask(db, capabilities, skipped);
    if chosen.Some? {
      ClaimableIsCurrent(db, capabilities, skipped, chosen.value);
      ClaimEffect(db, chosen.value, node, token, now, duration, operation);
    } else {
      forall a ensures !Claimable(db, capabilities, skipped, a) {
        SelectTaskIsLeast(db, capabilities, skipped, a);
      }
    }
  }

  /** However replay lookups and claims interleave, one (node, operation) pair marks at most one attempt for ever. */
  lemma OneAttemptPerOperation(db: Db, node: Id, operation: Id, a: Id, run: seq<Command>, b: Id)
    requires Reachable(db) && ClaimedBy(db, node, operation, a) && ClaimedBy(Exec(db, run), node, operation, b)
    ensures a == b
  {
    hide Inv, Reachable, Evolves;
    ReachableInv(db);
    RunKeepsInv(db, run);
    RunEvolves(db, run);
    ClaimStays(db, Exec(db, run), node, operation, a);
    UniqueClaim(Exec(db, run), node, operation, a, b);
  }

  lemma ClaimStays(db: Db, later: Db, node: Id, operation: Id, a: Id)
    requires Evolves(db, later) && ClaimedBy(db, node, operation, a)
    ensures ClaimedBy(later, node, operation, a)
    ensures later.attempts[a].leaseToken == db.attempts[a].leaseToken
    ensures later.attempts[a].payload == db.attempts[a].payload
  {
    assert AttemptRowEvolves(db, later, a);
  }

  lemma UniqueClaim(db: Db, node: Id, operation: Id, a: Id, b: Id)
    requires Inv(db) && ClaimedBy(db, node, operation, a) && ClaimedBy(db, node, operation, b)
    ensures a == b
  {
    hide EvaluationsInv, AttemptsInv, CountsInv;
  }

  /** A replay at any later store answers the same request, node and token while the attempt is leased, provided no
      other node has used the operation id; the expiry is the renewed one. */
  lemma ReplayReturnsTheLease(db: Db, node: Id, operation: Id, a: Id, run: seq<Command>,
                              answer: Option<Result<TaskLease, StoreError>>)
    requires Reachable(db) && ClaimedBy(db, node, operation, a) && db.attempts[a].leaseToken.Some?
    requires ReplayAnswers(Exec(db, run), node, operation, answer)
    requires a in Exec(db, run).attempts && Exec(db, run).attempts[a].state == RowLeased
    requires forall b :: OperationAt(Exec(db, run), operation, b) ==> Exec(db, run).attempts[b].nodeId == Some(node)
    ensures answer.Some? && answer.value.Ok?
    ensures answer.value.value.request == db.attempts[a].payload
    ensures answer.value.value.nodeId == node && Some(answer.value.value.leaseToken) == db.attempts[a].leaseToken
    ensures Some(answer.value.value.expiresAt) == Exec(db, run).attempts[a].expiresAt
  {
    hide Inv, Reachable, Evolves, AttemptInv;
    ReachableInv(db);
    RunKeepsInv(db, run);
    RunEvolves(db, run);
    var later := Exec(db, run);
    ClaimStays(db, later, node, operation, a);
    assert OperationAt(later, operation, a);
    assert answer.Some?;
    var b :| OperationAt(later, operation, b) && answer.value == ReplayRow(later.attempts[b], node);
    UniqueClaim(later, node, operation, a, b);
    AttemptFacts(later, a);
    LeaseIsSet(later, a);
  }

  /** The replay lookup does not select by node, so it is sure to return the lease if and only if no attempt of another
      node carries the same operation id. */
  lemma ReplayIsSureIff(db: Db, node: Id, operation: Id, a: Id)
    requires Reachable(db) && ClaimedBy(db, node, operation, a) && db.attempts[a].state == RowLeased
    ensures (forall answer :: ReplayAnswers(db, node, operation, answer) ==>
               answer == Some(ReplayRow(db.attempts[a], node)) && answer.value.Ok?)
            <==> (forall b :: OperationAt(db, operation, b) ==> db.attempts[b].nodeId == Some(node))
  {
    hide Inv, Reachable, AttemptInv;
    ReachableInv(db);
    AttemptFacts(db, a);
    LeaseIsSet(db, a);
    assert OperationAt(db, operation, a);
    if forall b :: OperationAt(db, operation, b) ==> db.attempts[b].nodeId == Some(node) {
      forall answer | ReplayAnswers(db, node, operation, answer)
        ensures answer == Some(ReplayRow(db.attempts[a], node)) && answer.value.Ok?
      {
        if answer.Some? {
          var b :| OperationAt(db, operation, b) && answer.value == ReplayRow(db.attempts[b], node);
          UniqueClaim(db, node, operation, a, b);
        }
      }
    } else {
      var b :| OperationAt(db, operation, b) && db.attempts[b].nodeId != Some(node);
      assert ReplayAnswers(db, node, operation, Some(ReplayRow(db.attempts[b], node)));
      assert ReplayRow(db.attempts[b], node).Err?;
    }
  }
}
