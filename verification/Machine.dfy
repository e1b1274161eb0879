/** One microVM process: its lifecycle, its bootstrap against any failure, and its reclamation. */
module Machine {
  import opened Prelude

  datatype VmPhase = Idle | Launching | Configuring | Started | Running | Terminating | Terminated | Failed {
    predicate NeedsTeardown() {
      Launching? || Configuring? || Started? || Running? || Terminating? || Failed?
    }

    predicate CanCommunicate() {
      Started? || Running?
    }
  }

  datatype TeardownReason = UnexpectedExit | ControlApi | GuestStage | Cancelled | ResourceLimit

  const ALLOWED: seq<(VmPhase, VmPhase)> := [
    (Idle, Launching), (Launching, Configuring), (Configuring, Started), (Started, Running), (Running, Terminating),
    (Started, Terminating), (Configuring, Terminating), (Launching, Terminating)]

  // ---- The lifecycle object.

  class Lifecycle {
    var phase: VmPhase
    var teardowns: nat
    var reason: Option<TeardownReason>

    constructor ()
      ensures phase == Idle && teardowns == 0 && reason == None
    {
      phase, teardowns, reason := Idle, 0, None;
    }

    method Transition(target: VmPhase) returns (ok: bool)
      modifies this`phase
      ensures ok <==> (old(phase), target) in ALLOWED
      ensures phase == if ok then target else old(phase)
    {
      if (phase, target) !in ALLOWED {
        return false;
      }
      phase := target;
      return true;
    }

    method Launch() returns (ok: bool)
      modifies this`phase
      ensures ok <==> old(phase) == Idle
      ensures phase == if ok then Launching else old(phase)
    {
      ok := Transition(Launching);
    }

    method Configure() returns (ok: bool)
      modifies this`phase
      ensures ok <==> old(phase) == Launching
      ensures phase == if ok then Configuring else old(phase)
    {
      if phase != Launching {
        return false;
      }
      phase := Configuring;
      return true;
    }

    method Start() returns (ok: bool)
      modifies this`phase
      ensures ok <==> old(phase) == Configuring
      ensures phase == if ok then Started else old(phase)
    {
      if phase != Configuring {
        return false;
      }
      phase := Started;
      return true;
    }

    method FailWith(why: TeardownReason)
      modifies this`phase, this`reason
      ensures phase == Failed && reason == Some(why)
    {
      phase, reason := Failed, Some(why);
    }

    /** Everything but a finished lifecycle accepts a teardown request, and counts it. */
    method Teardown() returns (ok: bool)
      modifies this`phase, this`teardowns
      ensures ok <==> old(phase) != Terminated
      ensures teardowns == old(teardowns) + if ok then 1 else 0
      ensures phase == if old(phase) == Idle || old(phase) == Terminated then Terminated else Terminating
    {
      match phase
      case Idle =>
        teardowns, phase := teardowns + 1, Terminated;
        return true;
      case Terminating =>
        teardowns := teardowns + 1;
        return true;
      case Terminated => return false;
      case _ =>
        teardowns, phase := teardowns + 1, Terminating;
        return true;
    }

    method Reclaimed()
      modifies this`phase
      ensures phase == Terminated
    {
      phase := Terminated;
    }
  }

  // ---- The machine on values.

  datatype SocketWait = SocketAppears | ChildExits | WaitTimesOut | WaitAbandoned

  datatype Outcome = Succeeds | Fails | Abandoned

  /** How the host meets one bootstrap: whether the process spawns, what the wait for the control socket finds, and how
      the five control requests end. At each of its waits the caller may abandon the bootstrap. */
  datatype Boot = Boot(spawns: bool, socket: SocketWait, requests: nat -> Outcome)

  const CONFIGURE_REQUESTS: nat := 4

  /** The handle's fields, with the processes spawned and killed so far. */
  datatype Vm = Vm(phase: VmPhase, teardowns: nat, reason: Option<TeardownReason>, child: Option<nat>, spawned: nat,
                   killed: nat)

  const NEW_VM: Vm := Vm(Idle, 0, None, None, 0, 0)

  /** The control requests `from` up to `upTo`: the first that does not succeed decides. */
  function RequestsEnd(requests: nat -> Outcome, from: nat, upTo: nat): Outcome
    requires from <= upTo
    decreases upTo - from
  {
    if from == upTo then Succeeds
    else if requests(from) != Succeeds then requests(from)
    else RequestsEnd(requests, from + 1, upTo)
  }

  lemma {:induction false} RequestsSplit(requests: nat -> Outcome, from: nat, mid: nat, upTo: nat)
    requires from <= mid <= upTo
    ensures RequestsEnd(requests, from, upTo) ==
            if RequestsEnd(requests, from, mid) != Succeeds then RequestsEnd(requests, from, mid)
            else RequestsEnd(requests, mid, upTo)
    decreases mid - from
  {
    if from < mid { RequestsSplit(requests, from + 1, mid, upTo); }
  }

  function Bootstrapped(m: Vm, jailed: bool, production: bool, boot: Boot): (Vm, bool) {
    if m.phase != Idle then (m, false)
    else if production && !jailed then (m.(phase := Failed, reason := Some(ControlApi)), false)
    else if !boot.spawns then (m.(phase := Launching), false)
    else
      var spawned := m.(phase := Launching, child := Some(m.spawned), spawned := m.spawned + 1);
      match boot.socket
      case WaitAbandoned => (spawned, false)
      case ChildExits => (spawned.(phase := Failed, reason := Some(UnexpectedExit)), false)
      case WaitTimesOut => (spawned.(phase := Failed, reason := Some(UnexpectedExit)), false)
      case SocketAppears =>
        match RequestsEnd(boot.requests, 0, CONFIGURE_REQUESTS + 1)
        case Abandoned => (spawned.(phase := Configuring), false)
        case Fails => (spawned.(phase := Failed, reason := Some(ControlApi)), false)
        case Succeeds => (spawned.(phase := Started), true)
  }

  function Reclaimed(m: Vm): Vm {
    if m.phase == Terminated then m
    else m.(phase := Terminated, teardowns := m.teardowns + 1, child := None,
            killed := m.killed + if m.child.Some? then 1 else 0)
  }

  function Dropped(m: Vm): Vm {
    if m.phase.NeedsTeardown() then m.(child := None, killed := m.killed + if m.child.Some? then 1 else 0) else m
  }

  // ---- The machine as it runs.

  class FirecrackerVm {
    const jailed: bool
    const lifecycle: Lifecycle
    var child: Option<nat>
    ghost var spawned: nat
    ghost var killed: nat

    ghost function State(): Vm
      reads this, lifecycle
    {
      Vm(lifecycle.phase, lifecycle.teardowns, lifecycle.reason, child, spawned, killed)
    }

    constructor (jailed: bool)
      ensures State() == NEW_VM && this.jailed == jailed && fresh(lifecycle)
    {
      this.jailed := jailed;
      lifecycle := new Lifecycle();
      child, spawned, killed := None, 0, 0;
    }

    method SpawnProcess(spawns: bool, pid: nat) returns (ok: bool)
      requires pid == spawned
      modifies this
      ensures ok == spawns && killed == old(killed)
      ensures child == (if spawns then Some(pid) else old(child))
      ensures spawned == old(spawned) + if spawns then 1 else 0
    {
      if !spawns {
        return false;
      }
      child := Some(pid);
      spawned := spawned + 1;
      return true;
    }

    method WaitForSocket(socket: SocketWait) returns (ok: bool)
      modifies lifecycle
      ensures ok <==> socket == SocketAppears
      ensures lifecycle.teardowns == old(lifecycle.teardowns)
      ensures if socket == ChildExits || socket == WaitTimesOut then
                lifecycle.phase == Failed && lifecycle.reason == Some(UnexpectedExit)
              else lifecycle.phase == old(lifecycle.phase) && lifecycle.reason == old(lifecycle.reason)
    {
      if socket == WaitAbandoned {
        return false;
      }
      if socket != SocketAppears {
        lifecycle.FailWith(UnexpectedExit);
        return false;
      }
      return true;
    }

    /** The control requests `from` up to `upTo`, one after the other; a failure marks the lifecycle failed. */
    method Requests(requests: nat -> Outcome, from: nat, upTo: nat) returns (end: Outcome)
      requires from <= upTo
      modifies lifecycle
      ensures end == RequestsEnd(requests, from, upTo)
      ensures lifecycle.teardowns == old(lifecycle.teardowns)
      ensures if end == Fails then lifecycle.phase == Failed && lifecycle.reason == Some(ControlApi)
              else lifecycle.phase == old(lifecycle.phase) && lifecycle.reason == old(lifecycle.reason)
    {
      for i := from to upTo
        invariant RequestsEnd(requests, from, upTo) == RequestsEnd(requests, i, upTo)
        invariant lifecycle.phase == old(lifecycle.phase) && lifecycle.reason == old(lifecycle.reason)
        invariant lifecycle.teardowns == old(lifecycle.teardowns)
      {
        if requests(i) == Fails {
          lifecycle.FailWith(ControlApi);
        }
        if requests(i) != Succeeds {
          return requests(i);
        }
      }
      return Succeeds;
    }

    method Bootstrap(production: bool, boot: Boot, pid: nat) returns (ok: bool)
      requires pid == spawned
      modifies this, lifecycle
      ensures (State(), ok) == Bootstrapped(old(State()), jailed, production, boot)
    {
      ok := lifecycle.Launch();
      if !ok {
        return;
      }
      if production && !jailed {
        lifecycle.FailWith(ControlApi);
        return false;
      }
      ok := SpawnProcess(boot.spawns, pid);
      if !ok {
        return;
      }
      ok := WaitForSocket(boot.socket);
      if !ok {
        return;
      }
      ok := lifecycle.Configure();
      RequestsSplit(boot.requests, 0, CONFIGURE_REQUESTS, CONFIGURE_REQUESTS + 1);
      var end := Requests(boot.requests, 0, CONFIGURE_REQUESTS);
      if end != Succeeds {
        return false;
      }
      end := Requests(boot.requests, CONFIGURE_REQUESTS, CONFIGURE_REQUESTS + 1);
      if end != Succeeds {
        return false;
      }
      ok := lifecycle.Start();
    }

    method OpenGuestChannel(connects: bool) returns (ok: bool)
      ensures ok <==> State().phase.CanCommunicate() && connects
    {
      if !lifecycle.phase.CanCommunicate() {
        return false;
      }
      return connects;
    }

    method Terminate() returns (ok: bool)
      modifies this, lifecycle
      ensures ok && State() == Reclaimed(old(State()))
    {
      if lifecycle.phase == Terminated {
        return true;
      }
      ok := lifecycle.Teardown();
      if child.Some? {
        child := None;
        killed := killed + 1;
      }
      lifecycle.Reclaimed();
    }

    method Drop()
      modifies this, lifecycle
      ensures State() == Dropped(old(State()))
    {
      if lifecycle.phase.NeedsTeardown() {
        if child.Some? {
          child := None;
          killed := killed + 1;
        }
      }
    }
  }

  // ---- Any sequence of calls.

  datatype Call = Bootstrap(production: bool, boot: Boot) | Terminate

  function Called(m: Vm, jailed: bool, call: Call): Vm {
    match call
    case Bootstrap(production, boot) => Bootstrapped(m, jailed, production, boot).0
    case Terminate => Reclaimed(m)
  }

  function CalledAll(m: Vm, jailed: bool, calls: seq<Call>): Vm
    decreases |calls|
  {
    if calls == [] then m else CalledAll(Called(m, jailed, calls[0]), jailed, calls[1..])
  }

  /** A spawned process is either held or killed, there is at most one, it is held only in a phase that asks for
      teardown, and nothing is spawned before a launch. */
  predicate Owned(m: Vm) {
    && m.spawned == m.killed + (if m.child.Some? then 1 else 0)
    && m.spawned <= 1
    && (m.child.Some? ==> m.phase.NeedsTeardown())
    && (m.phase == Idle ==> m.spawned == 0 && m.teardowns == 0)
    && m.teardowns == (if m.phase == Terminated then 1 else 0)
    && (m.reason.Some? ==> m.phase == Failed || m.phase == Terminated)
    && m.phase in {Idle, Launching, Configuring, Started, Failed, Terminated}
  }

  lemma CallKeepsOwned(m: Vm, jailed: bool, call: Call)
    requires Owned(m)
    ensures Owned(Called(m, jailed, call))
  {
  }

  lemma {:induction false} CallsKeepOwned(m: Vm, jailed: bool, calls: seq<Call>)
    requires Owned(m)
    ensures Owned(CalledAll(m, jailed, calls))
    decreases |calls|
  {
    if calls != [] {
      CallKeepsOwned(m, jailed, calls[0]);
      CallsKeepOwned(Called(m, jailed, calls[0]), jailed, calls[1..]);
    }
  }

  /** Once terminated, no call changes the handle any more. */
  lemma {:induction false} CallsAfterTermination(m: Vm, jailed: bool, calls: seq<Call>)
    requires m.phase == Terminated
    ensures CalledAll(m, jailed, calls) == m
    decreases |calls|
  {
    if calls != [] { CallsAfterTermination(m, jailed, calls[1..]); }
  }

  /** After any calls on a new handle, abandoned bootstraps included: at most one process was ever spawned; dropping the
      handle leaves none alive; terminating ends in the terminated phase with the process killed, whatever happened
      before; and nothing that is called afterwards, a bootstrap or a second termination or the drop, changes that. */
  lemma ProcessIsOwned(jailed: bool, calls: seq<Call>, later: seq<Call>)
    ensures var m := CalledAll(NEW_VM, jailed, calls);
            && m.spawned <= 1 && (m.child.Some? ==> m.phase.NeedsTeardown())
            && Dropped(m).child.None? && Dropped(m).killed == m.spawned
            && Reclaimed(m).phase == Terminated && Reclaimed(m).child.None? && Reclaimed(m).killed == m.spawned
            && Reclaimed(m).teardowns == 1
            && CalledAll(Reclaimed(m), jailed, later) == Reclaimed(m) && Dropped(Reclaimed(m)) == Reclaimed(m)
  {
    CallsKeepOwned(NEW_VM, jailed, calls);
    CallsAfterTermination(Reclaimed(CalledAll(NEW_VM, jailed, calls)), jailed, later);
  }

  // ---- What one call does, without following it.

  /** Of the control requests below `upTo` the `k`-th is the first that does not succeed. */
  predicate StopsAtRequest(requests: nat -> Outcome, upTo: nat, k: nat) {
    k < upTo && requests(k) != Succeeds && forall i :: 0 <= i < k ==> requests(i) == Succeeds
  }

  lemma {:induction false} RequestsEndExactly(requests: nat -> Outcome, from: nat, upTo: nat)
    requires from <= upTo && forall i :: 0 <= i < from ==> requests(i) == Succeeds
    ensures RequestsEnd(requests, from, upTo) == Succeeds <==> forall i :: 0 <= i < upTo ==> requests(i) == Succeeds
    ensures RequestsEnd(requests, from, upTo) != Succeeds ==>
              exists k :: StopsAtRequest(requests, upTo, k) && RequestsEnd(requests, from, upTo) == requests(k)
    decreases upTo - from
  {
    if from < upTo {
      if requests(from) == Succeeds {
        RequestsEndExactly(requests, from + 1, upTo);
      } else {
        assert StopsAtRequest(requests, upTo, from);
      }
    }
  }

  /** A bootstrap succeeds exactly on a new handle, with a jailer if it is for production, when the process spawns, the
      socket appears and all five control requests go through; then one process is held and the VM is started. Any other
      end leaves at most that process, still held, in a phase and for a reason that tell where it stopped. */
  lemma BootstrapDecides(m: Vm, jailed: bool, production: bool, boot: Boot)
    ensures var (after, ok) := Bootstrapped(m, jailed, production, boot);
            var held := m.(child := Some(m.spawned), spawned := m.spawned + 1);
            && (ok <==> m.phase == Idle && (production ==> jailed) && boot.spawns && boot.socket == SocketAppears
                        && forall i :: 0 <= i < 5 ==> boot.requests(i) == Succeeds)
            && (ok ==> after == held.(phase := Started))
            && if m.phase != Idle then after == m
               else if production && !jailed then after == m.(phase := Failed, reason := Some(ControlApi))
               else if !boot.spawns then after == m.(phase := Launching)
               else if boot.socket == WaitAbandoned then after == held.(phase := Launching)
               else if boot.socket != SocketAppears then
                 after == held.(phase := Failed, reason := Some(UnexpectedExit))
               else
                 && (forall k :: StopsAtRequest(boot.requests, 5, k) && boot.requests(k) == Fails ==>
                       after == held.(phase := Failed, reason := Some(ControlApi)))
                 && (forall k :: StopsAtRequest(boot.requests, 5, k) && boot.requests(k) == Abandoned ==>
                       after == held.(phase := Configuring))
  {
    RequestsEndExactly(boot.requests, 0, 5);
    forall j, k | StopsAtRequest(boot.requests, 5, j) && StopsAtRequest(boot.requests, 5, k) ensures j == k {}
  }

  /** Terminating changes the phase, the count of teardowns and the process, and a finished handle not at all; dropping
      a handle that was started or failed kills its process and leaves everything else. */
  lemma ReleaseDecides(m: Vm)
    ensures m.phase != Terminated ==>
              Reclaimed(m) == Vm(Terminated, m.teardowns + 1, m.reason, None, m.spawned,
                                 if m.child.Some? then m.killed + 1 else m.killed)
    ensures m.phase == Terminated ==> Reclaimed(m) == m
    ensures Dropped(m) == if m.phase in {Idle, Terminated} || m.child == None then m
                          else m.(child := None, killed := m.killed + 1)
  {
  }

  /** The allowed moves: one step along the life of a VM, or from any phase with a process straight to termination. */
  lemma AllowedMoves(x: VmPhase, y: VmPhase)
    ensures (x, y) in ALLOWED <==> (Rank(y) == Rank(x) + 1 && Rank(x) < 5) || (y == Terminating && 1 <= Rank(x) <= 4)
  {
    assert ALLOWED[0] == (Idle, Launching) && ALLOWED[1] == (Launching, Configuring);
    assert ALLOWED[2] == (Configuring, Started) && ALLOWED[3] == (Started, Running);
    assert ALLOWED[4] == (Running, Terminating) && ALLOWED[5] == (Started, Terminating);
    assert ALLOWED[6] == (Configuring, Terminating) && ALLOWED[7] == (Launching, Terminating);
  }

  function Rank(phase: VmPhase): nat {
    match phase
    case Idle => 0
    case Launching => 1
    case Configuring => 2
    case Started => 3
    case Running => 4
    case Terminating => 5
    case Terminated => 6
    case Failed => 7
  }
}
