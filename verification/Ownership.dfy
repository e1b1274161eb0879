/** The judge submission reads the owner in one query and submits in a later transaction that checks only the token.
    When the committed provenance is the lease holder's, and when it need not be. */
module Ownership {
  import opened Prelude
  import opened Tokens
  import opened Domain
  import opened Spine
  import opened SpineInvariant
  import opened SpineSteps
  import opened SpineRuns
  import opened Claims
  import opened Recovery
  import opened ControlPlane

  /** The node that holds the current attempt of `e`. */
  function Holder(db: Db, e: Id): Option<Id> {
    if Joined(db, e) then db.attempts[db.evaluations[e].currentAttemptId].nodeId else None
  }

  /** Once claimed, an attempt keeps its node and token for ever. */
  lemma HolderNeverChanges(db: Db, a: Id, run: seq<Command>)
    requires Inv(db) && a in db.attempts && db.attempts[a].nodeId.Some?
    ensures var later := Exec(db, run);
            && a in later.attempts && later.attempts[a].nodeId == db.attempts[a].nodeId
            && later.attempts[a].leaseToken == db.attempts[a].leaseToken
  {
    hide Inv, Evolves;
    RunEvolves(db, run);
    HolderStays(db, Exec(db, run), a);
  }

  /** If the current attempt is the same at the owner read and at the transaction, a committed result carries the
      provenance of the node that holds the lease. */
  lemma SameAttemptKeepsOwnership(db: Db, run: seq<Command>, node: Id, key: Id, token: Id, result: EvaluationResult,
                                  now: UnixMillis, encodes: bool)
    requires Inv(db) && OwnerRead(db, result.identity.evaluationId) == Ok(node)
    requires result.provenance.nodeId == Some(node)
    requires var e := result.identity.evaluationId;
             var later := Exec(db, run);
             && SubmitTx(later, key, token, result, now, encodes).db != later
             && e in later.evaluations && later.evaluations[e].currentAttemptId == db.evaluations[e].currentAttemptId
    ensures var e := result.identity.evaluationId;
            var after := SubmitTx(Exec(db, run), key, token, result, now, encodes).db;
            && e in after.evaluations && after.evaluations[e].terminalResult == Some(result)
            && Holder(after, e) == result.provenance.nodeId
  {
    hide Inv, Apply, SubmitTx, KeyIsFree;
    var e := result.identity.evaluationId;
    var later := Exec(db, run);
    RunKeepsInv(db, run);
    SubmitEffect(later, key, token, result, now, encodes);
    HolderNeverChanges(db, db.evaluations[e].currentAttemptId, run);
  }

  // ---- Fresh tokens.

  /** Every token in use belongs to the node that the issuer `owner` names. */
  ghost predicate TokensBelong(db: Db, owner: Id -> Id) {
    forall a :: a in db.attempts && db.attempts[a].leaseToken.Some? ==>
      db.attempts[a].nodeId == Some(owner(db.attempts[a].leaseToken.value))
  }

  ghost predicate ClaimsOwnToken(c: Command, owner: Id -> Id) {
    c.Claim? ==> owner(c.token) == c.node
  }

  lemma NewTokenClaimed(db: Db, c: Command, a: Id)
    requires Inv(db) && a in Apply(db, c).db.attempts && Apply(db, c).db.attempts[a].leaseToken.Some?
    requires a in db.attempts ==> db.attempts[a].leaseToken.None?
    ensures c.Claim? && Apply(db, c).db.attempts[a].leaseToken == Some(c.token)
    ensures Apply(db, c).db.attempts[a].nodeId == Some(c.node)
  {
    hide Inv, EvaluationInv, AttemptInv, CreateTx, RetryTx, RenewTx, SubmitTx, CancelTx, ClaimAttempt, Insertable,
         QueuedAttempt, KeyIsFree, SameEvaluationSemantics;
    match c
    case Create(r, createdAt, encodes) => CreateEffect(db, r, createdAt, encodes);
    case Claim(node, token, now, duration, operation, capabilities, skipped) =>
      var chosen := SelectTask(db, capabilities, skipped);
      if chosen.Some? && now + duration <= MAX_UNIX_MILLIS {
        ClaimableIsCurrent(db, capabilities, skipped, chosen.value);
        ClaimEffect(db, chosen.value, node, token, now, duration, operation);
      }
    case Renew(node, e, attempt, token, now, duration) => RenewEffect(db, node, e, attempt, token, now, duration);
    case Retry(r, now, encodes) => RetryEffect(db, r, now, encodes);
    case Submit(key, token, result, now, encodes) => SubmitEffect(db, key, token, result, now, encodes);
    case Cancel(key, e, result, now, encodes) => CancelEffect(db, key, e, result, now, encodes);
  }

  lemma StepKeepsTokens(db: Db, c: Command, owner: Id -> Id)
    requires Inv(db) && TokensBelong(db, owner) && ClaimsOwnToken(c, owner)
    ensures TokensBelong(Apply(db, c).db, owner)
  {
    hide Inv, Apply, Evolves;
    StepEvolves(db, c);
    var db' := Apply(db, c).db;
    forall a | a in db'.attempts && db'.attempts[a].leaseToken.Some?
      ensures db'.attempts[a].nodeId == Some(owner(db'.attempts[a].leaseToken.value))
    {
      if a in db.attempts && db.attempts[a].leaseToken.Some? {
        HolderStays(db, db', a);
      } else {
        NewTokenClaimed(db, c, a);
      }
    }
  }

  lemma {:induction false} RunKeepsTokens(db: Db, run: seq<Command>, owner: Id -> Id)
    requires Inv(db) && TokensBelong(db, owner) && forall i :: 0 <= i < |run| ==> ClaimsOwnToken(run[i], owner)
    ensures TokensBelong(Exec(db, run), owner)
    decreases |run|
  {
    if run != [] {
      hide Inv, Apply, TokensBelong, ClaimsOwnToken;
      StepKeepsInv(db, run[0]);
      StepKeepsTokens(db, run[0], owner);
      var rest := run[1..];
      assert forall i :: 0 <= i < |rest| ==> rest[i] == run[i + 1];
      RunKeepsTokens(Apply(db, run[0]).db, rest, owner);
    }
  }

  /** If claims use their own tokens, then whatever falls between owner read and transaction, a submission that commits
      does so on a lease of the node that its token was issued to. The committed provenance is therefore the holder's if
      and only if it names that node, which a caller can tell before the call. */
  lemma CommittedProvenanceIff(run: seq<Command>, owner: Id -> Id, key: Id, token: Id, result: EvaluationResult,
                               now: UnixMillis, encodes: bool)
    requires forall i :: 0 <= i < |run| ==> ClaimsOwnToken(run[i], owner)
    requires var later := Exec(EMPTY, run); SubmitTx(later, key, token, result, now, encodes).db != later
    ensures var e := result.identity.evaluationId;
            var after := SubmitTx(Exec(EMPTY, run), key, token, result, now, encodes).db;
            && e in after.evaluations && after.evaluations[e].terminalResult == Some(result)
            && Holder(after, e) == Some(owner(token))
            && (Holder(after, e) == result.provenance.nodeId <==> result.provenance.nodeId == Some(owner(token)))
  {
    hide Inv, Apply, SubmitTx, KeyIsFree;
    EmptyInv();
    RunKeepsInv(EMPTY, run);
    RunKeepsTokens(EMPTY, run, owner);
    SubmitEffect(Exec(EMPTY, run), key, token, result, now, encodes);
  }

  /** So a node that submits with its own token is credited rightly in every interleaving. */
  lemma OwnTokensKeepOwnership(run: seq<Command>, owner: Id -> Id, node: Id, key: Id, token: Id,
                               result: EvaluationResult, now: UnixMillis, encodes: bool)
    requires forall i :: 0 <= i < |run| ==> ClaimsOwnToken(run[i], owner)
    requires owner(token) == node && result.provenance.nodeId == Some(node)
    requires var later := Exec(EMPTY, run); SubmitTx(later, key, token, result, now, encodes).db != later
    ensures var e := result.identity.evaluationId;
            var after := SubmitTx(Exec(EMPTY, run), key, token, result, now, encodes).db;
            && e in after.evaluations && after.evaluations[e].terminalResult == Some(result)
            && Holder(after, e) == result.provenance.nodeId
  {
    hide Inv, Exec, SubmitTx;
    CommittedProvenanceIff(run, owner, key, token, result, now, encodes);
  }

  // ---- A submission with another node's token.

  /** The steps that overtake an owner read: a sweeper replaces the expired lease, another node claims. */
  ghost function Overtake(db: Db, next: EvaluationRequest, now: UnixMillis, other: Id, token: Id,
                          duration: LeaseDuration): seq<Command>
  {
    [Retry(next, now, true), Claim(other, token, now, duration, None, None, db.attempts.Keys)]
  }

  lemma OvertakeRuns(db: Db, next: EvaluationRequest, now: UnixMillis, other: Id, token: Id, duration: LeaseDuration)
    ensures Exec(db, Overtake(db, next, now, other, token, duration)) ==
            ClaimTx(RetryTx(db, next, now, true).db, other, token, now, duration, None, None, db.attempts.Keys).db
  {
    hide RetryTx, ClaimTx;
    var run := Overtake(db, next, now, other, token, duration);
    var rest := run[1..];
    assert rest == [Claim(other, token, now, duration, None, None, db.attempts.Keys)] && rest[1..] == [];
    RetryApplies(db, next, now, true);
    var mid := RetryTx(db, next, now, true).db;
    ClaimApplies(mid, rest[0]);
    assert Exec(mid, rest) == Apply(mid, rest[0]).db;
  }

  ghost predicate Overtaken(db: Db, later: Db, next: EvaluationRequest, now: nat, other: Id, token: Id, expiry: nat) {
    && Joined(later, next.evaluationId)
    && later.evaluations[next.evaluationId].currentAttemptId == next.attemptId
    && later.evaluations[next.evaluationId].state == RowLeased
    && later.evaluations.Keys == db.evaluations.Keys
    && (forall f :: f in db.evaluations ==> later.evaluations[f].resultKey == db.evaluations[f].resultKey)
    && later.attempts[next.attemptId] ==
       NewAttemptRow(next, now).(state := RowLeased, nodeId := Some(other), leaseToken := Some(token),
                                 expiresAt := Some(expiry))
  }

  lemma ReplacedThenClaimed(db: Db, next: EvaluationRequest, now: UnixMillis, other: Id, token: Id,
                            duration: LeaseDuration)
    requires Inv(db) && Replaceable(db, next, now) && now + duration <= MAX_UNIX_MILLIS
    ensures var later := Exec(db, Overtake(db, next, now, other, token, duration));
            Inv(later) && Overtaken(db, later, next, now, other, token, now + duration)
  {
    hide Inv, RetryTx, Replaceable, EvaluationInv, AttemptInv, Claimable, SelectTask, NextTask, Answer, Exec, Overtake,
         Replaced, ClaimAttempt, QueuedAttempt;
    OvertakeRuns(db, next, now, other, token, duration);
    RunKeepsInv(db, Overtake(db, next, now, other, token, duration));
    TurnAnswers(db, now, next);
    NewAttempt(db, next, now);
    var mid := Replaced(db, next, now);
    OnlyTheNew(db, next, now);
    SelectTaskIsLeast(mid, None, db.attempts.Keys, next.attemptId);
    ClaimableIsCurrent(mid, None, db.attempts.Keys, next.attemptId);
    ClaimedByOther(db, mid, next, now, other, token, duration);
  }

  lemma ClaimedByOther(db: Db, mid: Db, next: EvaluationRequest, now: UnixMillis, other: Id, token: Id,
                       duration: LeaseDuration)
    requires QueuedAttempt(mid, next.attemptId) && now + duration <= MAX_UNIX_MILLIS
    requires mid.attempts[next.attemptId] == NewAttemptRow(next, now)
    requires mid.evaluations.Keys == db.evaluations.Keys
    requires forall f :: f in db.evaluations ==> mid.evaluations[f].resultKey == db.evaluations[f].resultKey
    ensures Overtaken(db, ClaimAttempt(mid, next.attemptId, other, token, now, now + duration, None).db, next, now,
                      other, token, now + duration)
  {
    hide EvaluationInv, AttemptInv, ClaimAttempt;
    ClaimEffect(mid, next.attemptId, other, token, now, duration, None);
  }

  /** With all older tasks locked by others, the successor is the only task that a claim sees. */
  lemma OnlyTheNew(db: Db, next: EvaluationRequest, now: UnixMillis)
    requires Joined(db, next.evaluationId) && db.evaluations[next.evaluationId].currentAttemptId in db.tasks
    requires next.attemptId !in db.attempts && Inv(Replaced(db, next, now))
    ensures NextTask(Replaced(db, next, now), None, db.attempts.Keys, next.attemptId)
    ensures Claimable(Replaced(db, next, now), None, db.attempts.Keys, next.attemptId)
    ensures Replaced(db, next, now).attempts[next.attemptId] == NewAttemptRow(next, now)
    ensures Replaced(db, next, now).evaluations[next.evaluationId].currentAttemptId == next.attemptId
    ensures Replaced(db, next, now).evaluations.Keys == db.evaluations.Keys
    ensures forall f :: f in db.evaluations ==>
      Replaced(db, next, now).evaluations[f].resultKey == db.evaluations[f].resultKey
  {
    hide Inv;
    var mid := Replaced(db, next, now);
    assert mid.evaluations[next.evaluationId].currentAttemptId == next.attemptId;
    forall b | Claimable(mid, None, db.attempts.Keys, b) ensures b == next.attemptId {}
  }

  /** The token alone decides: for every node that owns a lease which can be replaced, there is an interleaving after
      which its owner read is still positive, another node holds the lease, and the submission with that node's token
      commits a result that claims the first node. */
  lemma SharedTokenBreaksOwnership(db: Db, next: EvaluationRequest, now: UnixMillis, node: Id, other: Id, token: Id,
                                   duration: LeaseDuration, key: Id, result: EvaluationResult)
    requires Inv(db) && Replaceable(db, next, now) && now + duration <= MAX_UNIX_MILLIS && KeyIsFree(db, key)
    requires OwnerRead(db, next.evaluationId) == Ok(node) && other != node
    requires result.identity == IdentityOf(next) && result.provenance.nodeId == Some(node)
    ensures var later := Exec(db, Overtake(db, next, now, other, token, duration));
            var after := SubmitTx(later, key, token, result, now, true).db;
            && after != later && next.evaluationId in after.evaluations
            && after.evaluations[next.evaluationId].terminalResult == Some(result)
            && Holder(after, next.evaluationId) == Some(other) && Some(other) != result.provenance.nodeId
  {
    hide Inv, SubmitTx, Replaceable, Exec, Overtake;
    ReplacedThenClaimed(db, next, now, other, token, duration);
    var later := Exec(db, Overtake(db, next, now, other, token, duration));
    forall f ensures !ResultKeyAt(later, key, f) {
      assert !ResultKeyAt(db, key, f);
    }
    SubmitEffect(later, key, token, result, now, true);
  }
}
