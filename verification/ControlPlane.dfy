/** The control plane in front of the store: the node allowlist, negotiation, and the claim they authorize. */
module ControlPlane {
  import opened Prelude
  import opened Tokens
  import opened Domain
  import opened Spine
  import opened SpineInvariant
  import opened SpineSteps
  import opened SpineRuns
  import opened SpineLifecycle
  import opened Claims
  import opened ClaimColumns
  import opened Store

  const CLIENT_PROTOCOL_VERSION: string := "openoj.judge.control/v0alpha1"
  const MAX_DECLARED_CAPABILITIES: nat := 64

  datatype PolicyError = InvalidRenewSchedule | DuplicateNode | InvalidCapabilities | IdentityDenied | CapabilityDenied

  datatype NodeEntry = NodeEntry(node: Id, capabilities: seq<string>)

  type NodePolicy = map<Id, set<string>>

  function Elements(items: seq<string>): set<string> {
    set c | c in items
  }

  /** Comparing sizes, as the code does, finds exactly the duplicates. */
  lemma {:induction false} SizeTellsDuplicates(items: seq<string>)
    ensures |Elements(items)| <= |items|
    ensures |Elements(items)| == |items| <==> NoDuplicates(items)
  {
    hide NoDuplicates;
    if items == [] {
      NoneRepeat(items);
    } else {
      var last := items[|items| - 1];
      var rest := items[..|items| - 1];
      SizeTellsDuplicates(rest);
      LastRepeats(rest, last);
      assert items == rest + [last];
      if last in rest {
        assert Elements(items) == Elements(rest);
      } else {
        assert Elements(items) == Elements(rest) + {last};
      }
    }
  }

  lemma NoneRepeat(items: seq<string>)
    requires items == []
    ensures NoDuplicates(items) && Elements(items) == {}
  {
  }

  lemma LastRepeats(rest: seq<string>, last: string)
    ensures NoDuplicates(rest + [last]) <==> NoDuplicates(rest) && last !in rest
  {
    var items := rest + [last];
    assert forall i :: 0 <= i < |rest| ==> items[i] == rest[i];
    assert items[|rest|] == last;
    if last in rest {
      var i :| 0 <= i < |rest| && rest[i] == last;
      assert items[i] == items[|rest|];
    }
    if NoDuplicates(items) {
      forall i, j | 0 <= i < j < |rest| ensures rest[i] != rest[j] {
        assert items[i] != items[j];
      }
    }
  }

  predicate ValidEntry(entry: NodeEntry) {
    1 <= |entry.capabilities| <= MAX_DECLARED_CAPABILITIES && NoDuplicates(entry.capabilities)
  }

  predicate NewNode(nodes: seq<NodeEntry>, i: nat)
    requires i < |nodes|
  {
    forall j :: 0 <= j < i ==> nodes[j].node != nodes[i].node
  }

  /** `NodePolicy::new`. */
  method NewNodePolicy(nodes: seq<NodeEntry>) returns (r: Result<NodePolicy, PolicyError>)
    ensures r.Ok? <==> forall i :: 0 <= i < |nodes| ==> ValidEntry(nodes[i]) && NewNode(nodes, i)
    ensures r.Ok? ==> forall n :: n in r.value ==> exists i :: 0 <= i < |nodes| && nodes[i].node == n
    ensures r.Ok? ==> forall i :: 0 <= i < |nodes| ==>
      nodes[i].node in r.value && r.value[nodes[i].node] == Elements(nodes[i].capabilities)
    ensures r.Err? ==> exists i :: 0 <= i < |nodes| && r.error == (if ValidEntry(nodes[i]) then DuplicateNode
                                                                  else InvalidCapabilities)
                                   && !(ValidEntry(nodes[i]) && NewNode(nodes, i))
                                   && forall j :: 0 <= j < i ==> ValidEntry(nodes[j]) && NewNode(nodes, j)
  {
    var allowed: NodePolicy := map[];
    for i := 0 to |nodes|
      invariant forall j :: 0 <= j < i ==> ValidEntry(nodes[j]) && NewNode(nodes, j)
      invariant forall n :: n in allowed ==> exists j :: 0 <= j < i && nodes[j].node == n
      invariant forall j :: 0 <= j < i ==>
        nodes[j].node in allowed && allowed[nodes[j].node] == Elements(nodes[j].capabilities)
    {
      var unique := Elements(nodes[i].capabilities);
      SizeTellsDuplicates(nodes[i].capabilities);
      assert |unique| == 0 ==> nodes[i].capabilities == [] by {
        if nodes[i].capabilities != [] { assert nodes[i].capabilities[0] in unique; }
      }
      if |unique| == 0 || |unique| > MAX_DECLARED_CAPABILITIES || |unique| != |nodes[i].capabilities| {
        return Err(InvalidCapabilities);
      }
      if nodes[i].node in allowed {
        return Err(DuplicateNode);
      }
      allowed := allowed[nodes[i].node := unique];
    }
    return Ok(allowed);
  }

  /** `NodePolicy::authorize`. */
  function Authorize(policy: NodePolicy, node: Id, declared: seq<string>): Result<(), PolicyError> {
    if node !in policy then Err(IdentityDenied)
    else if declared == [] then Err(CapabilityDenied)
    else if |Elements(declared)| != |declared| || !(Elements(declared) <= policy[node]) then Err(CapabilityDenied)
    else Ok(())
  }

  /** Default deny: only a known node that declares a non-empty, duplicate-free part of its allowlist passes. */
  lemma AuthorizedIff(policy: NodePolicy, node: Id, declared: seq<string>)
    ensures Authorize(policy, node, declared).Ok? <==>
            node in policy && declared != [] && NoDuplicates(declared) && forall c :: c in declared ==> c in policy[node]
    ensures Authorize(policy, node, declared) == Err(IdentityDenied) <==> node !in policy
  {
    SizeTellsDuplicates(declared);
    assert forall c :: c in Elements(declared) <==> c in declared;
  }

  datatype ControlStatus = UnsupportedVersion | InvalidMessage | DeniedCapability | DeniedIdentity
                         | StoreFailed(error: StoreError)

  datatype NodeSession = NodeSession(node: Id, capabilities: seq<string>)

  /** `validate_capabilities`: every entry parses and none repeats; the empty list passes here. */
  predicate ValidateCapabilities(capabilities: seq<string>) {
    |capabilities| <= MAX_DECLARED_CAPABILITIES && (forall c :: c in capabilities ==> ValidCapability(c))
    && |Elements(capabilities)| == |capabilities|
  }

  /** `negotiate_request`. */
  function Negotiate(policy: NodePolicy, version: string, node: Id, capabilities: seq<string>)
    : Result<NodeSession, ControlStatus>
  {
    if version != CLIENT_PROTOCOL_VERSION then Err(UnsupportedVersion)
    else if !ValidId(node) then Err(InvalidMessage)
    else if !ValidateCapabilities(capabilities) then Err(DeniedCapability)
    else
      match Authorize(policy, node, capabilities)
      case Err(IdentityDenied) => Err(DeniedIdentity)
      case Err(_) => Err(DeniedCapability)
      case Ok(_) => Ok(NodeSession(node, capabilities))
  }

  /** Every answer of a negotiation, for all inputs: version, format of the identity, format of the declaration, and then
      the allowlist, from which an empty declaration is refused. */
  lemma NegotiateDecides(policy: NodePolicy, version: string, node: Id, capabilities: seq<string>)
    ensures Negotiate(policy, version, node, capabilities) ==
            if version != "openoj.judge.control/v0alpha1" then Err(UnsupportedVersion)
            else if !ValidId(node) then Err(InvalidMessage)
            else if |capabilities| > 64 || !NoDuplicates(capabilities)
                    || (exists c :: c in capabilities && !ValidCapability(c)) then Err(DeniedCapability)
            else if node !in policy then Err(DeniedIdentity)
            else if capabilities == [] || (exists c :: c in capabilities && c !in policy[node]) then
              Err(DeniedCapability)
            else Ok(NodeSession(node, capabilities))
  {
    hide ValidId, ValidCapability;
    AuthorizedIff(policy, node, capabilities);
    SizeTellsDuplicates(capabilities);
  }

  // ---- Every lease stays within its node's allowlist.

  /** Whoever holds or held a lease was allowed everything that its task requires. */
  ghost predicate WithinPolicy(db: Db, policy: NodePolicy) {
    forall a :: a in db.attempts && db.attempts[a].nodeId.Some? ==>
      db.attempts[a].nodeId.value in policy
      && forall c :: c in db.attempts[a].payload.requiredCapabilities ==> c in policy[db.attempts[a].nodeId.value]
  }

  /** A claim that went through negotiation. */
  predicate Negotiated(c: Command, policy: NodePolicy) {
    c.Claim? ==> c.node in policy && c.capabilities.Some? && c.capabilities.value <= policy[c.node]
  }

  /** Only a claim gives an attempt a holder, and then the caller. */
  lemma NewHolderClaimed(db: Db, c: Command, a: Id)
    requires Inv(db) && a in Apply(db, c).db.attempts && Apply(db, c).db.attempts[a].nodeId.Some?
    requires a in db.attempts ==> db.attempts[a].nodeId.None?
    ensures c.Claim? && a in db.attempts && a in db.tasks && Claimable(db, c.capabilities, c.skipped, a)
    ensures Apply(db, c).db.attempts[a].nodeId == Some(c.node)
    ensures db.tasks[a].requiredCapabilities == db.attempts[a].payload.requiredCapabilities
    ensures Apply(db, c).db.attempts[a].payload == db.attempts[a].payload
  {
    hide Inv, EvaluationInv, AttemptInv, CreateTx, RetryTx, RenewTx, SubmitTx, CancelTx, ClaimAttempt, Insertable,
         QueuedAttempt, KeyIsFree, SameEvaluationSemantics;
    match c
    case Create(r, createdAt, encodes) => CreateEffect(db, r, createdAt, encodes);
    case Claim(node, token, now, duration, operation, capabilities, skipped) =>
      var chosen := SelectTask(db, capabilities, skipped);
      if chosen.Some? && now + duration <= MAX_UNIX_MILLIS {
        ClaimableIsCurrent(db, capabilities, skipped, chosen.value);
        ClaimEffect(db, chosen.value, node, token, now, duration, operation);
        StoredRequirements(db, chosen.value);
      }
    case Renew(node, e, attempt, token, now, duration) => RenewEffect(db, node, e, attempt, token, now, duration);
    case Retry(r, now, encodes) => RetryEffect(db, r, now, encodes);
    case Submit(key, token, result, now, encodes) => SubmitEffect(db, key, token, result, now, encodes);
    case Cancel(key, e, result, now, encodes) => CancelEffect(db, key, e, result, now, encodes);
  }

  lemma StoredRequirements(db: Db, a: Id)
    requires Inv(db) && a in db.attempts
    ensures a in db.tasks && db.tasks[a].requiredCapabilities == db.attempts[a].payload.requiredCapabilities
  {
    hide Inv;
    AttemptFacts(db, a);
    hide TaskCheck, RegistryAgrees, SameEvaluationSemantics, LeaseFields, AttemptCheck;
  }

  lemma StepStaysWithinPolicy(db: Db, c: Command, policy: NodePolicy)
    requires Inv(db) && WithinPolicy(db, policy) && Negotiated(c, policy)
    ensures WithinPolicy(Apply(db, c).db, policy)
  {
    hide Inv, Apply, Evolves;
    StepEvolves(db, c);
    var db' := Apply(db, c).db;
    forall a | a in db'.attempts && db'.attempts[a].nodeId.Some?
      ensures db'.attempts[a].nodeId.value in policy
      ensures forall k :: k in db'.attempts[a].payload.requiredCapabilities ==>
                k in policy[db'.attempts[a].nodeId.value]
    {
      if a in db.attempts && db.attempts[a].nodeId.Some? {
        HolderStays(db, db', a);
      } else {
        NewHolderClaimed(db, c, a);
      }
    }
  }

  lemma HolderStays(db: Db, later: Db, a: Id)
    requires Evolves(db, later) && a in db.attempts && db.attempts[a].nodeId.Some?
    ensures a in later.attempts && later.attempts[a].nodeId == db.attempts[a].nodeId
    ensures later.attempts[a].leaseToken == db.attempts[a].leaseToken
    ensures later.attempts[a].payload == db.attempts[a].payload
  {
    assert AttemptRowEvolves(db, later, a);
  }

  /** In any store that is reached with every claim negotiated, no node ever holds a lease beyond its allowlist. */
  lemma {:induction false} RunStaysWithinPolicy(db: Db, run: seq<Command>, policy: NodePolicy)
    requires Inv(db) && WithinPolicy(db, policy) && forall i :: 0 <= i < |run| ==> Negotiated(run[i], policy)
    ensures WithinPolicy(Exec(db, run), policy)
    decreases |run|
  {
    if run != [] {
      hide Inv, Apply, WithinPolicy, Negotiated;
      StepKeepsInv(db, run[0]);
      StepStaysWithinPolicy(db, run[0], policy);
      var rest := run[1..];
      assert forall i :: 0 <= i < |rest| ==> rest[i] == run[i + 1];
      RunStaysWithinPolicy(Apply(db, run[0]).db, rest, policy);
    }
  }

  /** The lease is what attempt `a` holds under the operation. */
  ghost predicate HoldsUnder(db: Db, operation: Id, node: Id, lease: TaskLease) {
    exists a :: OperationAt(db, operation, a) && ReplayRow(db.attempts[a], node) == Ok(lease)
  }

  lemma GrantIsHeld(db: Db, c: Command, operation: Id, lease: TaskLease)
    requires Inv(db) && c.Claim? && c.operation == Some(operation) && c.capabilities.Some?
    requires ClaimTx(db, c.node, c.token, c.now, c.duration, c.operation, c.capabilities, c.skipped).out
             == Ok(Granted(lease))
    ensures HoldsUnder(ClaimTx(db, c.node, c.token, c.now, c.duration, c.operation, c.capabilities, c.skipped).db,
                       operation, c.node, lease)
    ensures forall k :: k in lease.request.requiredCapabilities ==> k in c.capabilities.value
    ensures Oldest(db, c.capabilities, c.skipped, lease.request.attemptId)
  {
    hide Inv, ClaimTx, NextTask, Oldest;
    NextIsOldest(db, c.capabilities, c.skipped, lease.request.attemptId);
    ClaimGrants(db, c.node, c.token, c.now, c.duration, c.operation, c.capabilities, c.skipped, lease);
    assert OperationAt(ClaimTx(db, c.node, c.token, c.now, c.duration, c.operation, c.capabilities, c.skipped).db,
                       operation, lease.request.attemptId);
  }

  lemma NothingClaimable(db: Db, c: Command, operation: Id, out: Result<TaskLease, StoreError>)
    requires Inv(db) && c.Claim? && out == Err(NoTaskAvailable)
    requires ReplayAnswers(db, c.node, operation, Some(out))
             || ClaimTx(db, c.node, c.token, c.now, c.duration, c.operation, c.capabilities, c.skipped).out
                == Err(NoTaskAvailable)
    ensures forall a :: !Offered(db, c.capabilities, c.skipped, a)
    ensures ClaimTx(db, c.node, c.token, c.now, c.duration, c.operation, c.capabilities, c.skipped).db == db
  {
    hide Inv, Claimable, Offered, ClaimTx;
    forall a ensures Claimable(db, c.capabilities, c.skipped, a) <==> Offered(db, c.capabilities, c.skipped, a) {
      ClaimableIsOffered(db, c.capabilities, c.skipped, a);
    }
    if c.now + c.duration <= MAX_UNIX_MILLIS {
      NoTaskExactly(db, c.node, c.token, c.now, c.duration, c.operation, c.capabilities, c.skipped);
    } else {
      TooLateToClaim(db, c);
    }
    ClaimApplies(db, c);
    AbortLeavesStore(db, c);
  }

  lemma TooLateToClaim(db: Db, c: Command)
    requires c.Claim? && c.now + c.duration > MAX_UNIX_MILLIS
    ensures ClaimTx(db, c.node, c.token, c.now, c.duration, c.operation, c.capabilities, c.skipped)
            == Abort(db, InvalidTime)
  {
  }

  lemma HeldIsWithinPolicy(db: Db, policy: NodePolicy, operation: Id, node: Id, lease: TaskLease)
    requires WithinPolicy(db, policy) && HoldsUnder(db, operation, node, lease)
    ensures lease.nodeId == node && node in policy
    ensures forall c :: c in lease.request.requiredCapabilities ==> c in policy[node]
  {
  }

  // ---- The service.

  datatype ClaimResponse = Leased(lease: TaskLease) | NoTask

  class JudgeControlService {
    const policy: NodePolicy
    const leaseDuration: LeaseDuration
    const store: PostgresEvaluationStore

    ghost predicate Valid()
      reads store
    {
      store.Valid() && WithinPolicy(store.Contents(), policy)
    }

    constructor (policy: NodePolicy, leaseDuration: LeaseDuration, store: PostgresEvaluationStore)
      requires store.Valid() && WithinPolicy(store.Contents(), policy)
      ensures Valid() && this.policy == policy && this.leaseDuration == leaseDuration && this.store == store
    {
      this.policy := policy;
      this.leaseDuration := leaseDuration;
      this.store := store;
    }

    /** `claim`: a lease that is handed out, new or replayed, is the caller's and within its allowlist; the declared set
        covers a new one. Without negotiation the store is not touched. */
    method Claim(version: string, node: Id, capabilities: seq<string>, operation: Id, token: Id, now: UnixMillis,
                 skipped: set<Id>)
      returns (out: Result<ClaimResponse, ControlStatus>)
      requires Valid()
      modifies store
      ensures Valid()
      ensures Negotiate(policy, version, node, capabilities).Err? ==>
        out == Err(Negotiate(policy, version, node, capabilities).error)
      ensures Negotiate(policy, version, node, capabilities).Err? || !ValidId(operation) ==>
        out.Err? && store.Contents() == old(store.Contents())
      ensures Negotiate(policy, version, node, capabilities).Ok? && !ValidId(operation) ==> out == Err(InvalidMessage)
      ensures Negotiate(policy, version, node, capabilities).Ok? && ValidId(operation)
              && (forall a :: !OperationAt(old(store.Contents()), operation, a)) ==>
        var tx := ClaimTx(old(store.Contents()), node, token, now, leaseDuration, Some(operation),
                          Some(Elements(capabilities)), skipped);
        store.Contents() == tx.db
        && match tx.out
           case Ok(Granted(lease)) => out == Ok(Leased(lease))
           case Ok(_) => false
           case Err(NoTaskAvailable) => out == Ok(NoTask)
           case Err(error) => out == Err(StoreFailed(error))
      ensures Negotiate(policy, version, node, capabilities).Ok? && ValidId(operation)
              && !(forall a :: !OperationAt(old(store.Contents()), operation, a)) ==>
        && store.Contents() == old(store.Contents())
        && match out
           case Ok(Leased(lease)) => ReplayAnswers(store.Contents(), node, operation, Some(Ok(lease)))
           case Ok(NoTask) => ReplayAnswers(store.Contents(), node, operation, Some(Err(NoTaskAvailable)))
           case Err(status) =>
             status.StoreFailed? && ReplayAnswers(store.Contents(), node, operation, Some(Err(status.error)))
      ensures out == Ok(NoTask) ==>
        && store.Contents() == old(store.Contents())
        && forall a :: !Offered(store.Contents(), Some(Elements(capabilities)), skipped, a)
      ensures out.Ok? && out.value.Leased? ==>
        && HoldsUnder(store.Contents(), operation, node, out.value.lease)
        && node in policy && out.value.lease.nodeId == node
        && Elements(capabilities) <= policy[node]
        && (forall c :: c in out.value.lease.request.requiredCapabilities ==> c in policy[node])
        && (store.Contents() != old(store.Contents()) ==>
              && Oldest(old(store.Contents()), Some(Elements(capabilities)), skipped, out.value.lease.request.attemptId)
              && forall c :: c in out.value.lease.request.requiredCapabilities ==> c in capabilities)
    {
      hide Inv, WithinPolicy, ClaimTx, Offered, Oldest, ReplayRow;
      var session := Negotiate(policy, version, node, capabilities);
      if session.Err? {
        return Err(session.error);
      }
      if !ValidId(operation) {
        return Err(InvalidMessage);
      }
      AuthorizedIff(policy, node, capabilities);
      ghost var begun := store.Contents();
      var declared := Elements(capabilities);
      var claimed := store.JudgeClaimTask(node, token, now, leaseDuration, operation, declared, skipped);
      ghost var c := Command.Claim(node, token, now, leaseDuration, Some(operation), Some(declared), skipped);
      StepStaysWithinPolicy(begun, c, policy);
      ClaimApplies(begun, c);
      match claimed
      case Err(NoTaskAvailable) =>
        NothingClaimable(begun, c, operation, claimed);
        return Ok(NoTask);
      case Err(error) => return Err(StoreFailed(error));
      case Ok(lease) =>
        if forall a :: !OperationAt(begun, operation, a) {
          GrantIsHeld(begun, c, operation, lease);
        }
        HeldIsWithinPolicy(store.Contents(), policy, operation, node, lease);
        return Ok(Leased(lease));
    }
  }

  lemma ClaimApplies(db: Db, c: Command)
    requires c.Claim?
    ensures Apply(db, c) == ClaimTx(db, c.node, c.token, c.now, c.duration, c.operation, c.capabilities, c.skipped)
  {
    hide ClaimTx;
  }
}
