/** The Firecracker executor: one session and one VM at a time, driven through the stage plan against any guest and any
    host failure. */
module Executor {
  import opened Prelude
  import opened Tokens
  import opened Domain
  import opened Results
  import opened Pipeline
  import opened PipelineOutcome
  import opened Evaluator
  import G = Guest
  import M = Machine

  /** Everything outside the executor: how the n-th VM's bootstrap goes, if the runtime runs it at all; whether its guest
      channel connects; whether the runtime runs its termination; whether the n-th message can be sent; what comes back. */
  datatype Outside = Outside(
    boots: nat -> Option<M.Boot>,
    connects: nat -> bool,
    terminates: nat -> bool,
    jailed: bool,
    sends: nat -> bool,
    replies: nat -> Option<G.Message>,
    upper: string -> string)

  datatype StageExit = StageExit(stage: StageKind, code: G.I32)

  /** A VM handle with its number in launch order. */
  datatype HeldVm = HeldVm(id: nat, machine: M.Vm)

  /** The executor's fields, with the VMs launched and released so far, what remains of each released one, and the stage
      outputs of this attempt. A VM is released when it is told to terminate and then dropped. */
  datatype Host = Host(
    session: Option<nat>,
    vm: Option<HeldVm>,
    negotiated: bool,
    lastRunExit: Option<G.I32>,
    terminated: bool,
    launched: nat,
    exchanges: nat,
    released: multiset<nat>,
    remains: map<nat, M.Vm>,
    exits: seq<StageExit>)

  const NEW_HOST: Host := Host(None, None, false, None, false, 0, 0, multiset{}, map[], [])

  const STAGE_FAILED: StageExecution := Failure(NO_USAGE, [], [])

  const STAGE_PASSED: StageExecution := Success(NO_USAGE, [], [], None)

  const CAPABILITY: string := "algorithm.batch"

  // ---- The executor on values.

  /** A new handle after its bootstrap; production is never requested. */
  function BootedVm(w: Outside, id: nat): (M.Vm, bool) {
    match w.boots(id)
    case None => (M.NEW_VM, false)
    case Some(boot) => M.Bootstrapped(M.NEW_VM, w.jailed, false, boot)
  }

  /** The handle after it was told to terminate and was dropped. */
  function ReleasedVm(w: Outside, held: HeldVm): M.Vm {
    M.Dropped(if w.terminates(held.id) then M.Reclaimed(held.machine) else held.machine)
  }

  function Released(h: Host, w: Outside, held: HeldVm): Host {
    h.(released := h.released + multiset{held.id}, remains := h.remains[held.id := ReleasedVm(w, held)])
  }

  function EnsuredSession(h: Host, w: Outside): (Host, bool) {
    if h.session.Some? then (h, true)
    else
      var id := h.launched;
      var (machine, started) := BootedVm(w, id);
      var held := HeldVm(id, machine);
      if started && machine.phase.CanCommunicate() && w.connects(id) then
        (h.(launched := id + 1, session := Some(id), vm := Some(held)), true)
      else (Released(h.(launched := id + 1), w, held), false)
  }

  /** One message out, one message in. */
  function Exchanged(h: Host, w: Outside): (Host, Option<G.Message>) {
    (h.(exchanges := h.exchanges + 1), if w.sends(h.exchanges) then w.replies(h.exchanges) else None)
  }

  function EnsuredNegotiated(h: Host, w: Outside): (Host, bool) {
    if h.negotiated then (h, true)
    else if h.session.None? then (h, false)
    else
      var (next, reply) := Exchanged(h, w);
      if reply == Some(G.Negotiated(true)) then (next.(negotiated := true), true) else (next, false)
  }

  function GuestStage(h: Host, w: Outside, stage: StageKind): (Host, Option<StageExecution>) {
    var (ready, active) := EnsuredSession(h, w);
    if !active then (ready, None)
    else
      var (agreed, supported) := EnsuredNegotiated(ready, w);
      if !supported || agreed.session.None? then (agreed, None)
      else
        var (next, reply) := Exchanged(agreed, w);
        if reply.None? || !reply.value.StageOutput? then (next, None)
        else
          var m := reply.value;
          var noted := next.(exits := next.exits + [StageExit(stage, m.exitCode)],
                             lastRunExit := if stage == Run then Some(m.exitCode) else next.lastRunExit);
          match ExecutionForStageOutput(stage, m.exitCode, m.outputDigest, m.outputBytes, m.usage, m.diagnostics,
                                        w.upper)
          case Err(_) => (noted, None)
          case Ok(execution) => (noted, Some(execution))
  }

  function TornDown(h: Host, w: Outside): Host {
    var rest := match h.vm case None => h case Some(held) => Released(h, w, held);
    rest.(session := None, vm := None, terminated := true)
  }

  function Begun(h: Host): Host {
    var next := h.(exits := []);
    if h.terminated then next.(negotiated := false, lastRunExit := None, terminated := false) else next
  }

  /** `StageExecutor::execute`: any host error tears down and reports a failed stage. */
  function StageExecuted(h: Host, w: Outside, stage: StageKind): (Host, StageExecution) {
    if h.terminated then (h, STAGE_FAILED)
    else
      var (next, outcome) :=
        match stage
        case Prepare => (h, Some(STAGE_PASSED))
        case Aggregate => (h, Some(STAGE_PASSED))
        case Build => GuestStage(h, w, Build)
        case Run => GuestStage(h, w, Run)
        case Check =>
          (h,
           match h.lastRunExit
           case None => None
           case Some(code) =>
             match HostCheckDecision(code)
             case Err(_) => None
             case Ok(decision) => Some(Success(NO_USAGE, [], [], Some(decision))));
      match outcome
      case None => (TornDown(next, w), STAGE_FAILED)
      case Some(execution) => (next, execution)
  }

  function EvaluatedFrom(h: Host, w: Outside, request: EvaluationRequest, provenance: ExecutionProvenance, index: nat,
                         p: Progress): (Host, Result<EvaluationResult, ApplicationError>)
    decreases |request.plan.stages| - index
  {
    if index >= |request.plan.stages| then (h, FinishedSuccess(request, provenance, p))
    else
      var (next, outcome) := StageExecuted(h, w, request.plan.stages[index]);
      match Recorded(p, request.plan.stages, index, outcome)
      case Err(error) => (next, Err(error))
      case Ok((progress, Some(terminal))) => (next, Finished(request, provenance, progress, terminal))
      case Ok((progress, None)) => EvaluatedFrom(next, w, request, provenance, index + 1, progress)
  }

  /** `JudgeExecutor::execute`: begin, evaluate, tear down. */
  function Executed(h: Host, w: Outside, request: EvaluationRequest, node: Id)
    : (Host, Result<EvaluationResult, ApplicationError>)
  {
    var begun := Begun(h);
    if exists c :: c in request.requiredCapabilities && c != CAPABILITY then
      (TornDown(begun, w), Err(UnsupportedCapability))
    else
      match NewProvenance(Firecracker, false, request.runtime.digest, Some(node))
      case Err(error) => (TornDown(begun, w), Err(DomainFault(error)))
      case Ok(provenance) =>
        var (last, r) := EvaluatedFrom(begun, w, request, provenance, 0, NO_PROGRESS);
        (TornDown(last, w), r)
  }

  // ---- The executor as it runs.

  class FirecrackerExecutor {
    const node: Id
    const outside: Outside
    var session: Option<nat>
    var vm: Option<HeldVm>
    var negotiated: bool
    var lastRunExit: Option<G.I32>
    var terminated: bool
    var launched: nat
    var exchanges: nat
    ghost var released: multiset<nat>
    ghost var remains: map<nat, M.Vm>
    ghost var exits: seq<StageExit>

    ghost function State(): Host
      reads this
    {
      Host(session, vm, negotiated, lastRunExit, terminated, launched, exchanges, released, remains, exits)
    }

    constructor (node: Id, outside: Outside)
      ensures State() == NEW_HOST && this.node == node && this.outside == outside
    {
      this.node := node;
      this.outside := outside;
      session, vm, negotiated, lastRunExit, terminated := None, None, false, None, false;
      launched, exchanges, released, remains, exits := 0, 0, multiset{}, map[], [];
    }

    method EnsureSession() returns (ok: bool)
      modifies this
      ensures (State(), ok) == EnsuredSession(old(State()), outside)
    {
      if session.Some? {
        return true;
      }
      var id := launched;
      launched := launched + 1;
      var (machine, started) := BootedVm(outside, id);
      var held := HeldVm(id, machine);
      if !started {
        Release(held);
        return false;
      }
      if !(machine.phase.CanCommunicate() && outside.connects(id)) {
        Release(held);
        return false;
      }
      ActivateSession(held);
      return true;
    }

    ghost method Release(held: HeldVm)
      modifies this`released, this`remains
      ensures State() == Released(old(State()), outside, held)
    {
      released := released + multiset{held.id};
      remains := remains[held.id := ReleasedVm(outside, held)];
    }

    method ActivateSession(held: HeldVm)
      modifies this`vm, this`session
      ensures vm == Some(held) && session == Some(held.id)
    {
      vm := Some(held);
      session := Some(held.id);
    }

    method Exchange() returns (reply: Option<G.Message>)
      modifies this`exchanges
      ensures (State(), reply) == Exchanged(old(State()), outside)
    {
      var n := exchanges;
      exchanges := exchanges + 1;
      return if outside.sends(n) then outside.replies(n) else None;
    }

    method EnsureNegotiated() returns (ok: bool)
      modifies this
      ensures (State(), ok) == EnsuredNegotiated(old(State()), outside)
    {
      if negotiated {
        return true;
      }
      if session.None? {
        return false;
      }
      var reply := Exchange();
      if reply != Some(G.Negotiated(true)) {
        return false;
      }
      negotiated := true;
      return true;
    }

    method RunGuestStage(stage: StageKind) returns (outcome: Option<StageExecution>)
      modifies this
      ensures (State(), outcome) == GuestStage(old(State()), outside, stage)
    {
      hide ExecutionForStageOutput;
      var ok := EnsureSession();
      if !ok {
        return None;
      }
      ok := EnsureNegotiated();
      if !ok || session.None? {
        return None;
      }
      var reply := Exchange();
      if reply.None? || !reply.value.StageOutput? {
        return None;
      }
      var m := reply.value;
      exits := exits + [StageExit(stage, m.exitCode)];
      if stage == Run {
        lastRunExit := Some(m.exitCode);
      }
      var execution := ExecutionForStageOutput(stage, m.exitCode, m.outputDigest, m.outputBytes, m.usage,
                                               m.diagnostics, outside.upper);
      return if execution.Ok? then Some(execution.value) else None;
    }

    method Teardown()
      modifies this
      ensures State() == TornDown(old(State()), outside)
    {
      session := None;
      if vm.Some? {
        Release(vm.value);
        vm := None;
      }
      terminated := true;
    }

    method BeginAttempt()
      modifies this
      ensures State() == Begun(old(State()))
    {
      exits := [];
      if terminated {
        negotiated := false;
        lastRunExit := None;
        terminated := false;
      }
    }

    method ExecuteStage(stage: StageKind) returns (execution: StageExecution)
      modifies this
      ensures (State(), execution) == StageExecuted(old(State()), outside, stage)
    {
      hide GuestStage, HostCheckDecision;
      if terminated {
        return STAGE_FAILED;
      }
      var outcome: Option<StageExecution>;
      match stage {
        case Prepare => outcome := Some(STAGE_PASSED);
        case Aggregate => outcome := Some(STAGE_PASSED);
        case Build => outcome := RunGuestStage(Build);
        case Run => outcome := RunGuestStage(Run);
        case Check =>
          if lastRunExit.None? {
            outcome := None;
          } else {
            var decision := HostCheckDecision(lastRunExit.value);
            outcome := if decision.Ok? then Some(Success(NO_USAGE, [], [], Some(decision.value))) else None;
          }
      }
      if outcome.None? {
        Teardown();
        return STAGE_FAILED;
      }
      return outcome.value;
    }

    method EvaluateRequest(request: EvaluationRequest) returns (r: Result<EvaluationResult, ApplicationError>)
      modifies this
      ensures if exists c :: c in request.requiredCapabilities && c != CAPABILITY then
                r == Err(UnsupportedCapability) && State() == old(State())
              else
                (State(), r) == EvaluatedFrom(old(State()), outside, request,
                                              ExecutionProvenance(Firecracker, false, request.runtime.digest, Some(node)),
                                              0, NO_PROGRESS)
    {
      hide StageExecuted, Recorded, Finished, FinishedSuccess;
      if exists c :: c in request.requiredCapabilities && c != CAPABILITY {
        return Err(UnsupportedCapability);
      }
      var provenance := NewProvenance(Firecracker, false, request.runtime.digest, Some(node));
      ghost var begun := State();
      var run := new EvaluationRun(request, provenance.value);
      for index := 0 to |request.plan.stages|
        invariant run.request == request && run.provenance == provenance.value
        invariant EvaluatedFrom(begun, outside, request, provenance.value, 0, NO_PROGRESS) ==
                  EvaluatedFrom(State(), outside, request, provenance.value, index, run.Gathered())
      {
        var execution := ExecuteStage(request.plan.stages[index]);
        var terminal := run.Record(index, execution);
        if terminal.Err? {
          return Err(terminal.error);
        }
        if terminal.value.Some? {
          r := run.Finish(terminal.value.value);
          return;
        }
      }
      r := run.FinishSuccess();
    }

    method Execute(request: EvaluationRequest) returns (r: Result<EvaluationResult, ApplicationError>)
      modifies this
      ensures (State(), r) == Executed(old(State()), outside, request, node)
    {
      hide EvaluatedFrom;
      BeginAttempt();
      r := EvaluateRequest(request);
      Teardown();
    }
  }

  // ---- Ownership of VMs.

  /** Nothing of the VM's process is left: what was spawned, at most one process, was killed. */
  predicate Gone(m: M.Vm) {
    m.child.None? && m.killed == m.spawned <= 1
  }

  /** Session and VM go together, the held VM owns its process, and every launched VM except the held one is released
      exactly once and leaves no process behind. */
  ghost predicate Owns(h: Host) {
    && (h.session.Some? <==> h.vm.Some?)
    && (h.vm.Some? ==> h.session == Some(h.vm.value.id) && h.vm.value.id < h.launched && M.Owned(h.vm.value.machine))
    && (forall id: nat :: h.released[id] == if id < h.launched && !Holds(h, id) then 1 else 0)
    && (forall id: nat :: id < h.launched && !Holds(h, id) ==> id in h.remains && Gone(h.remains[id]))
    && (h.terminated ==> h.vm.None?)
  }

  predicate Holds(h: Host, id: nat) {
    h.vm.Some? && h.vm.value.id == id
  }

  lemma BootedIsOwned(w: Outside, id: nat)
    ensures M.Owned(BootedVm(w, id).0)
  {
    if w.boots(id).Some? { M.CallKeepsOwned(M.NEW_VM, w.jailed, M.Bootstrap(false, w.boots(id).value)); }
  }

  lemma ReleasedIsGone(w: Outside, held: HeldVm)
    requires M.Owned(held.machine)
    ensures Gone(ReleasedVm(w, held))
  {
  }

  /** What holds at any point of an attempt that began with `before` VMs launched: at most one more was launched, and an
      attempt that is not over and holds none has launched none; a remembered exit code is this attempt's own. */
  ghost predicate Within(h: Host, before: nat) {
    && Owns(h) && before <= h.launched <= before + 1
    && (!h.terminated && h.vm.None? ==> h.launched == before)
    && (h.lastRunExit.Some? ==> StageExit(Run, h.lastRunExit.value) in h.exits)
  }

  lemma SessionOwns(h: Host, w: Outside, before: nat)
    requires Within(h, before) && !h.terminated
    ensures var (next, ok) := EnsuredSession(h, w);
            Within(if ok then next else TornDown(next, w), before) && !next.terminated && next.exits == h.exits
            && next.lastRunExit == h.lastRunExit && (ok ==> next.vm.Some?)
            && (!ok ==> next.vm.None? && Owns(next))
  {
    hide M.Owned, Gone, ReleasedVm, BootedVm;
    if h.session.None? {
      var (machine, started) := BootedVm(w, h.launched);
      BootedIsOwned(w, h.launched);
      ReleasedIsGone(w, HeldVm(h.launched, machine));
    }
  }

  /** Talking to the guest touches neither the VM nor the exit codes. */
  predicate SameHolding(h: Host, next: Host) {
    next == h.(negotiated := next.negotiated, exchanges := next.exchanges)
  }

  lemma NegotiationKeepsHolding(h: Host, w: Outside)
    ensures SameHolding(h, EnsuredNegotiated(h, w).0)
  {
  }

  lemma HoldingKeepsWithin(h: Host, w: Outside, next: Host, exits: seq<StageExit>, exit: Option<G.I32>, before: nat)
    requires Within(h, before) && SameHolding(h, next)
    requires exit.Some? ==> StageExit(Run, exit.value) in exits
    ensures Within(next.(exits := exits, lastRunExit := exit), before)
    ensures Within(TornDown(next.(exits := exits, lastRunExit := exit), w), before)
  {
    hide M.Owned, Gone, ReleasedVm;
    if h.vm.Some? { ReleasedIsGone(w, h.vm.value); }
  }

  lemma GuestStageStaysWithin(h: Host, w: Outside, stage: StageKind, before: nat)
    requires Within(h, before) && !h.terminated
    ensures var (next, outcome) := GuestStage(h, w, stage);
            if outcome.Some? then Within(next, before) else Within(TornDown(next, w), before)
  {
    hide EnsuredSession, EnsuredNegotiated, ExecutionForStageOutput, Within, TornDown;
    SessionOwns(h, w, before);
    var (active, ok) := EnsuredSession(h, w);
    if ok {
      RunExitIsOwn(active, before);
      NegotiationKeepsHolding(active, w);
      var (agreed, supported) := EnsuredNegotiated(active, w);
      HoldingKeepsWithin(active, w, agreed, active.exits, active.lastRunExit, before);
      assert agreed.(exits := active.exits, lastRunExit := active.lastRunExit) == agreed;
      if supported && agreed.session.Some? {
        var (next, reply) := Exchanged(agreed, w);
        HoldingKeepsWithin(active, w, next, active.exits, active.lastRunExit, before);
        assert next.(exits := active.exits, lastRunExit := active.lastRunExit) == next;
        if reply.Some? && reply.value.StageOutput? {
          HoldingKeepsWithin(active, w, next, active.exits + [StageExit(stage, reply.value.exitCode)],
                             if stage == Run then Some(reply.value.exitCode) else active.lastRunExit, before);
        }
      }
    }
  }

  lemma RunExitIsOwn(h: Host, before: nat)
    requires Within(h, before)
    ensures h.lastRunExit.Some? ==> StageExit(Run, h.lastRunExit.value) in h.exits
  {
  }

  /** Whatever a stage meets, the executor stays within the attempt's single VM. */
  lemma StageStaysWithin(h: Host, w: Outside, stage: StageKind, before: nat)
    requires Within(h, before)
    ensures Within(StageExecuted(h, w, stage).0, before)
  {
    hide GuestStage, HostCheckDecision, Within, TornDown;
    TeardownReleases(h, w, before);
    if !h.terminated {
      if stage == Build || stage == Run {
        GuestStageStaysWithin(h, w, stage, before);
        var (next, outcome) := GuestStage(h, w, stage);
        assert StageExecuted(h, w, stage).0 == if outcome.Some? then next else TornDown(next, w);
      }
    }
  }

  lemma TeardownReleases(h: Host, w: Outside, before: nat)
    requires Within(h, before)
    ensures Within(TornDown(h, w), before) && TornDown(h, w).vm.None? && TornDown(h, w).terminated
  {
    hide M.Owned, Gone, ReleasedVm;
    if h.vm.Some? { ReleasedIsGone(w, h.vm.value); }
  }

  lemma {:induction false} EvaluationStaysWithin(h: Host, w: Outside, request: EvaluationRequest,
                                                 provenance: ExecutionProvenance, index: nat, p: Progress, before: nat)
    requires Within(h, before)
    ensures Within(EvaluatedFrom(h, w, request, provenance, index, p).0, before)
    decreases |request.plan.stages| - index
  {
    hide StageExecuted, Recorded, Finished, FinishedSuccess, Within;
    if index < |request.plan.stages| {
      StageStaysWithin(h, w, request.plan.stages[index], before);
      var (next, outcome) := StageExecuted(h, w, request.plan.stages[index]);
      var recorded := Recorded(p, request.plan.stages, index, outcome);
      if recorded.Ok? && recorded.value.1.None? {
        EvaluationStaysWithin(next, w, request, provenance, index + 1, recorded.value.0, before);
      }
    }
  }

  /** Every launched VM was released once, and nothing is left of its process. */
  ghost predicate AllReleased(h: Host) {
    && (forall id: nat :: h.released[id] == if id < h.launched then 1 else 0)
    && (forall id: nat :: id < h.launched ==> id in h.remains && Gone(h.remains[id]))
  }

  /** Between attempts nothing is held, and what an earlier attempt left behind is marked for reset. */
  ghost predicate Between(h: Host) {
    Owns(h) && h.vm.None? && (h.terminated || (!h.negotiated && h.lastRunExit.None?))
  }

  lemma BeginsWithin(h: Host)
    requires Between(h)
    ensures Within(Begun(h), h.launched)
    ensures Begun(h).lastRunExit.None? && !Begun(h).negotiated && !Begun(h).terminated && Begun(h).exits == []
  {
  }

  lemma TeardownEndsClean(h: Host, w: Outside, before: nat)
    requires Within(h, before)
    ensures var after := TornDown(h, w);
            Between(after) && AllReleased(after) && after.session.None? && before <= after.launched <= before + 1
  {
    hide M.Owned, Gone, ReleasedVm;
    TeardownReleases(h, w, before);
  }

  /** For every request and every outside behaviour, an attempt launches at most one VM, holds none when it returns, and
      by then every VM ever launched has been released exactly once and its process, if one was spawned, killed; so the
      next attempt starts clean. */
  lemma AttemptReleasesItsVm(h: Host, w: Outside, request: EvaluationRequest, node: Id)
    requires Between(h)
    ensures var after := Executed(h, w, request, node).0;
            && Between(after) && after.vm.None? && after.session.None?
            && h.launched <= after.launched <= h.launched + 1
            && AllReleased(after)
  {
    hide EvaluatedFrom, Begun, TornDown, Within, Owns, AllReleased;
    BeginsWithin(h);
    TeardownEndsClean(Begun(h), w, h.launched);
    var provenance := NewProvenance(Firecracker, false, request.runtime.digest, Some(node)).value;
    EvaluationStaysWithin(Begun(h), w, request, provenance, 0, NO_PROGRESS, h.launched);
    TeardownEndsClean(EvaluatedFrom(Begun(h), w, request, provenance, 0, NO_PROGRESS).0, w, h.launched);
  }

  function ExecutedAll(h: Host, w: Outside, requests: seq<EvaluationRequest>, node: Id): Host
    decreases |requests|
  {
    if requests == [] then h else ExecutedAll(Executed(h, w, requests[0], node).0, w, requests[1..], node)
  }

  /** Over any sequence of attempts from a new executor: no more VMs than attempts, each released exactly once. */
  lemma {:induction false} AttemptsReleaseTheirVms(h: Host, w: Outside, requests: seq<EvaluationRequest>, node: Id)
    requires Between(h)
    ensures var after := ExecutedAll(h, w, requests, node);
            Between(after) && after.launched <= h.launched + |requests| && AllReleased(after)
    decreases |requests|
  {
    hide Executed;
    if requests != [] {
      AttemptReleasesItsVm(h, w, requests[0], node);
      AttemptsReleaseTheirVms(Executed(h, w, requests[0], node).0, w, requests[1..], node);
    }
  }

  /** A new executor is between attempts, so the theorem above starts there. */
  lemma NewHostIsBetween()
    ensures Between(NEW_HOST)
  {
    var h := NEW_HOST;
    forall id: nat ensures h.released[id] == if id < h.launched && !Holds(h, id) then 1 else 0 {
      assert h.released == multiset{} && id !in h.released;
    }
    assert Owns(h);
  }
}
