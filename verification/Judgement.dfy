/** The components together: a task is claimed, judged by the executor and submitted through the control plane. */
module Judgement {
  import opened Prelude
  import opened Tokens
  import opened Domain
  import opened Spine
  import opened SpineInvariant
  import opened SpineSteps
  import opened SpineRuns
  import opened Claims
  import opened ControlPlane
  import opened Ownership
  import opened Results
  import opened PipelineOutcome
  import opened WireResult
  import opened WireValidator
  import E = Executor
  import V = ExecutorVerdicts

  /** What the executor returns for a leased request: valid on the wire, about this request, and signed by the node. */
  lemma ExecutedResultIsOwn(h: E.Host, w: E.Outside, request: EvaluationRequest, node: Id)
    requires request.Valid() && ValidId(node) && E.Executed(h, w, request, node).1.Ok?
    ensures var result := E.Executed(h, w, request, node).1.value;
            && result.identity == IdentityOf(request) && result.provenance.nodeId == Some(node)
            && ResultValid(result) && ResultSemantics(ResultToValue(result)).Ok?
  {
    hide E.Executed, ResultSemantics, ResultToValue, ResultValid;
    V.ExecutedIsEvaluated(h, w, request, node);
    forall i: nat ensures V.AsExecutor(h, w, node).execute(i).Constructed() {
      V.ScriptIsConstructed(E.Begun(h), w, i);
    }
    EvaluatedIsValid(request, V.AsExecutor(h, w, node));
  }

  /** An attempt that still holds a lease is its evaluation's current one. */
  lemma LeasedIsCurrent(db: Db, a: Id)
    requires Inv(db) && a in db.attempts && db.attempts[a].state == RowLeased
    ensures var e := db.attempts[a].evaluationId;
            && Joined(db, e) && db.evaluations[e].currentAttemptId == a && db.evaluations[e].state == RowLeased
            && db.evaluations[e].terminalResult.None? && db.attempts[a].payload.evaluationId == e
            && db.attempts[a].payload.attemptId == a && db.attempts[a].expiresAt.Some?
  {
    hide Inv, EvaluationInv;
    AttemptFacts(db, a);
    CurrentFacts(db, db.attempts[a].evaluationId);
    CurrentTerminal(db, db.attempts[a].evaluationId);
    hide TaskCheck, RegistryAgrees, SameEvaluationSemantics;
  }

  lemma SubmitsForHolder(db: Db, a: Id, node: Id, operation: Id, token: Id, result: EvaluationResult, now: UnixMillis)
    requires Inv(db) && a in db.attempts && db.attempts[a].state == RowLeased
    requires db.attempts[a].nodeId == Some(node) && db.attempts[a].leaseToken == Some(token)
    requires db.attempts[a].expiresAt.Some? && db.attempts[a].createdAt <= now <= db.attempts[a].expiresAt.value
    requires result.identity == IdentityOf(db.attempts[a].payload) && result.provenance.nodeId == Some(node)
    requires KeyIsFree(db, operation)
    ensures var e := db.attempts[a].evaluationId;
            var tx := JudgeSubmitTx(db, node, operation, token, result, now, true);
            && tx.out == Ok(ReadStatus(e)) && HasResult(tx.db, e)
            && tx.db.evaluations[e].terminalResult == Some(result)
            && tx.db.evaluations[e].state == StatusRow(result.status)
            && Holder(tx.db, e) == Some(node)
  {
    hide Inv, SubmitTx, KeyIsFree;
    LeasedIsCurrent(db, a);
    SubmitEffect(db, operation, token, result, now, true);
    assert Submittable(db, operation, token, result, now);
  }

  /** From claim to result: a node is granted a lease, anything at all happens in the store meanwhile, the executor
      returns a result for the leased request against any guest. If the attempt still holds its lease and the submission
      is in time with a free operation id, the judge submission is accepted; the evaluation then holds exactly this
      result and state, for ever, and its provenance is that of the node that held the lease. */
  lemma JudgedResultIsStored(db: Db, node: Id, token: Id, claimed: UnixMillis, duration: LeaseDuration,
                             operation: Option<Id>, capabilities: Option<set<string>>, skipped: set<Id>,
                             lease: TaskLease, run: seq<Command>, h: E.Host, w: E.Outside, key: Id, now: UnixMillis,
                             after: seq<Command>)
    requires Reachable(db) && ValidId(node) && lease.request.Valid()
    requires ClaimTx(db, node, token, claimed, duration, operation, capabilities, skipped).out == Ok(Granted(lease))
    requires E.Executed(h, w, lease.request, node).1.Ok?
    requires var later := Exec(ClaimTx(db, node, token, claimed, duration, operation, capabilities, skipped).db, run);
             var a := lease.request.attemptId;
             && a in later.attempts && later.attempts[a].state == RowLeased && later.attempts[a].expiresAt.Some?
             && later.attempts[a].createdAt <= now <= later.attempts[a].expiresAt.value && KeyIsFree(later, key)
    ensures var later := Exec(ClaimTx(db, node, token, claimed, duration, operation, capabilities, skipped).db, run);
            var result := E.Executed(h, w, lease.request, node).1.value;
            var e := lease.request.evaluationId;
            var tx := JudgeSubmitTx(later, node, key, token, result, now, true);
            var final := Exec(tx.db, after);
            && ResultSemantics(ResultToValue(result)).Ok? && tx.out == Ok(ReadStatus(e))
            && HasResult(final, e) && final.evaluations[e].terminalResult == Some(result)
            && final.evaluations[e].state == StatusRow(result.status)
            && Holder(final, e) == Some(node) == result.provenance.nodeId
  {
    hide Reachable, Inv, ClaimTx, JudgeSubmitTx, NextTask, E.Executed, ResultSemantics, ResultToValue, ResultValid,
         KeyIsFree, Apply, Status;
    ReachableInv(db);
    var c := Claim(node, token, claimed, duration, operation, capabilities, skipped);
    ClaimApplies(db, c);
    var granted := ClaimTx(db, node, token, claimed, duration, operation, capabilities, skipped).db;
    StepKeepsInv(db, c);
    StepStaysReachable(db, c);
    ClaimGrants(db, node, token, claimed, duration, operation, capabilities, skipped, lease);
    var a := lease.request.attemptId;
    RunEvolves(granted, run);
    var later := Exec(granted, run);
    RunKeepsInv(granted, run);
    HolderStays(granted, later, a);
    ExecutedResultIsOwn(h, w, lease.request, node);
    var result := E.Executed(h, w, lease.request, node).1.value;
    LeasedIsCurrent(later, a);
    SubmitsForHolder(later, a, node, key, token, result, now);
    ResultIsFinal(later, node, key, token, result, now, after);
  }

  lemma ResultIsFinal(db: Db, node: Id, key: Id, token: Id, result: EvaluationResult, now: UnixMillis,
                      after: seq<Command>)
    requires Inv(db)
    requires var tx := JudgeSubmitTx(db, node, key, token, result, now, true);
             HasResult(tx.db, result.identity.evaluationId)
    ensures var e := result.identity.evaluationId;
            var stored := JudgeSubmitTx(db, node, key, token, result, now, true).db;
            && HasResult(Exec(stored, after), e)
            && Exec(stored, after).evaluations[e] == stored.evaluations[e]
            && Holder(Exec(stored, after), e) == Holder(stored, e)
  {
    hide Inv, SubmitTx, Evolves, EvaluationInv, AttemptInv;
    var c := Submit(key, token, result, now, true);
    StepKeepsInv(db, c);
    SubmitApplies(db, c);
    var stored := JudgeSubmitTx(db, node, key, token, result, now, true).db;
    var e := result.identity.evaluationId;
    RunEvolves(stored, after);
    ResultStays(stored, Exec(stored, after), e);
    CurrentFacts(stored, e);
    CurrentTerminal(stored, e);
    FrozenAttempt(stored, Exec(stored, after), stored.evaluations[e].currentAttemptId);
  }

  lemma SubmitApplies(db: Db, c: Command)
    requires c.Submit?
    ensures Apply(db, c) == SubmitTx(db, c.key, c.token, c.result, c.now, c.encodes)
  {
    hide SubmitTx;
  }
}
