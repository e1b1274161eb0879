/** What an attempt of the Firecracker executor comes to, told from the outside world alone: how the VM boots, whether the
    channel opens, and what is sent and heard on it. */
module ExecutorOutcome {
  import opened Prelude
  import opened Tokens
  import opened Domain
  import opened Results
  import opened Pipeline
  import opened PipelineOutcome
  import opened Evaluator
  import opened Executor
  import opened ExecutorVerdicts
  import G = Guest
  import M = Machine

  // ---- The outside world.

  /** VM number `id` boots, all five control requests included, and its guest channel connects. */
  predicate Starts(w: Outside, id: nat) {
    && w.boots(id).Some? && w.boots(id).value.spawns && w.boots(id).value.socket == M.SocketAppears
    && (forall i :: 0 <= i < 5 ==> w.boots(id).value.requests(i) == M.Succeeds)
    && w.connects(id)
  }

  /** What comes back for the `n`-th message, if it could be sent. */
  function Heard(w: Outside, n: nat): Option<G.Message> {
    if w.sends(n) then w.replies(n) else None
  }

  predicate HearsOutput(w: Outside, n: nat) {
    Heard(w, n).Some? && Heard(w, n).value.StageOutput?
  }

  /** The `n`-th answer is a stage output that the host accepts. */
  predicate Usable(w: Outside, n: nat) {
    && HearsOutput(w, n)
    && var m := Heard(w, n).value;
    OutputAccepted(m.outputDigest, m.outputBytes, m.usage, m.diagnostics, w.upper)
  }

  /** The VM starts and the guest answers the negotiation with yes. */
  predicate Agrees(w: Outside, id: nat, n: nat) {
    Starts(w, id) && Heard(w, n) == Some(G.Negotiated(true))
  }

  datatype Ending = Ending(status: EvaluationStatus, verdict: Verdict, score: Score, exits: seq<StageExit>)

  /** How an attempt ends that launches VM `id` and sends its first message as number `n`. */
  function EndingOf(w: Outside, id: nat, n: nat): Ending {
    if !Agrees(w, id, n) || !HearsOutput(w, n + 1) then Ending(StatusFailed, SystemError, Score(0, 1), [])
    else
      var built := Heard(w, n + 1).value.exitCode;
      if !Usable(w, n + 1) then Ending(StatusFailed, SystemError, Score(0, 1), [StageExit(Build, built)])
      else if built != 0 then Ending(StatusCompleted, CompileError, Score(0, 1), [StageExit(Build, built)])
      else if !HearsOutput(w, n + 2) then Ending(StatusFailed, SystemError, Score(0, 1), [StageExit(Build, 0)])
      else
        var ran := Heard(w, n + 2).value.exitCode;
        var exits := [StageExit(Build, 0), StageExit(Run, ran)];
        if !Usable(w, n + 2) then Ending(StatusFailed, SystemError, Score(0, 1), exits)
        else if ran == 0 then Ending(StatusCompleted, Accepted, Score(1, 1), exits)
        else if ran == 124 then Ending(StatusCompleted, TimeLimitExceeded, Score(0, 1), exits)
        else Ending(StatusCompleted, RuntimeError, Score(0, 1), exits)
  }

  /** Both stages are accepted and their usage adds up to more than a result may report. */
  predicate UsageOverflows(w: Outside, id: nat, n: nat) {
    && Agrees(w, id, n) && Usable(w, n + 1) && Heard(w, n + 1).value.exitCode == 0 && Usable(w, n + 2)
    && var (u, v) := (Heard(w, n + 1).value.usage, Heard(w, n + 2).value.usage);
    || u.cpuTimeMs + v.cpuTimeMs > 86400000 || u.wallTimeMs + v.wallTimeMs > 86400000
    || u.outputBytes + v.outputBytes > 1073741824
  }

  // ---- One stage.

  lemma BootsExactly(w: Outside, id: nat)
    ensures BootedVm(w, id).1 && BootedVm(w, id).0.phase.CanCommunicate() && w.connects(id) <==> Starts(w, id)
  {
    if w.boots(id).Some? { M.BootstrapDecides(M.NEW_VM, w.jailed, false, w.boots(id).value); }
  }

  /** What a guest stage makes of the `n`-th answer. */
  ghost predicate Makes(w: Outside, stage: StageKind, n: nat, outcome: Option<StageExecution>) {
    if !Usable(w, n) then outcome.None?
    else
      var m := Heard(w, n).value;
      && outcome.Some? && outcome.value.Constructed()
      && outcome.value.usage == ResourceUsage(m.usage.cpuTimeMs, m.usage.wallTimeMs, m.usage.memoryPeakBytes,
                                              m.usage.outputBytes)
      && |outcome.value.evidence| == 1 && |outcome.value.diagnostics| == |m.diagnostics|
      && if m.exitCode == 0 then outcome.value.Success? && outcome.value.decision.None?
         else outcome.value.Rejection?
              && outcome.value.verdict == if stage == Build then CompileError
                                          else if m.exitCode == 124 then TimeLimitExceeded
                                          else RuntimeError
  }

  function Noted(w: Outside, stage: StageKind, n: nat): seq<StageExit> {
    if HearsOutput(w, n) then [StageExit(stage, Heard(w, n).value.exitCode)] else []
  }

  lemma MakesOutcome(w: Outside, stage: StageKind, n: nat)
    requires stage == Build || stage == Run
    requires HearsOutput(w, n)
    ensures var m := Heard(w, n).value;
            var r := ExecutionForStageOutput(stage, m.exitCode, m.outputDigest, m.outputBytes, m.usage, m.diagnostics,
                                             w.upper);
            Makes(w, stage, n, if r.Ok? then Some(r.value) else None)
  {
    hide ExecutionForStageOutput, OutputAccepted;
    var m := Heard(w, n).value;
    StageOutputExactly(stage, m.exitCode, m.outputDigest, m.outputBytes, m.usage, m.diagnostics, w.upper);
  }

  /** The first guest stage of an attempt: it boots, connects, negotiates and exchanges. */
  lemma FirstStage(h: Host, w: Outside)
    requires h.session.None? && !h.negotiated && !h.terminated
    ensures var (next, outcome) := GuestStage(h, w, Build);
            var n := h.exchanges;
            && (if Agrees(w, h.launched, n) then Makes(w, Build, n + 1, outcome) else outcome.None?)
            && next.exits == h.exits + (if Agrees(w, h.launched, n) then Noted(w, Build, n + 1) else [])
            && (outcome.Some? ==> next.session.Some? && next.negotiated && !next.terminated && next.exchanges == n + 2)
  {
    hide ExecutionForStageOutput, Makes, BootedVm, OutputAccepted, Starts;
    BootsExactly(w, h.launched);
    if Agrees(w, h.launched, h.exchanges) && HearsOutput(w, h.exchanges + 1) {
      MakesOutcome(w, Build, h.exchanges + 1);
    } else {
      MakesNothing(w, Build, h.exchanges + 1);
    }
  }

  lemma MakesNothing(w: Outside, stage: StageKind, n: nat)
    ensures !HearsOutput(w, n) ==> Makes(w, stage, n, None)
  {
  }

  /** A later guest stage: it only exchanges. */
  lemma NextStage(h: Host, w: Outside)
    requires h.session.Some? && h.negotiated && !h.terminated
    ensures var (next, outcome) := GuestStage(h, w, Run);
            var n := h.exchanges;
            && Makes(w, Run, n, outcome) && next.exits == h.exits + Noted(w, Run, n)
            && (outcome.Some? ==> !next.terminated && next.lastRunExit == Some(Heard(w, n).value.exitCode))
  {
    hide ExecutionForStageOutput, Makes, OutputAccepted;
    if HearsOutput(w, h.exchanges) { MakesOutcome(w, Run, h.exchanges); } else { MakesNothing(w, Run, h.exchanges); }
  }

  // ---- The script of a fresh attempt.

  /** Nothing of an earlier attempt is left. */
  predicate Clean(h: Host) {
    h.session.None? && h.vm.None? && !h.negotiated && !h.terminated && h.lastRunExit.None? && h.exits == []
  }

  lemma BuildExecuted(h: Host, w: Outside)
    requires Clean(h)
    ensures var (next, outcome) := StageExecuted(h, w, Build);
            var n := h.exchanges;
            && next.exits == (if Agrees(w, h.launched, n) then Noted(w, Build, n + 1) else [])
            && if Agrees(w, h.launched, n) && Usable(w, n + 1) then
                 && Makes(w, Build, n + 1, Some(outcome))
                 && next.session.Some? && next.negotiated && !next.terminated && next.exchanges == n + 2
               else outcome == STAGE_FAILED
  {
    hide GuestStage, Usable, Agrees, Noted;
    FirstStage(h, w);
    MadeIsUsable(w, Build, h.exchanges + 1, GuestStage(h, w, Build).1);
    hide Makes;
  }

  lemma MadeIsUsable(w: Outside, stage: StageKind, n: nat, outcome: Option<StageExecution>)
    ensures Makes(w, stage, n, outcome) ==> (outcome.Some? <==> Usable(w, n))
  {
    hide Usable;
  }

  lemma RunExecuted(h: Host, w: Outside)
    requires h.session.Some? && h.negotiated && !h.terminated
    ensures var (next, outcome) := StageExecuted(h, w, Run);
            var n := h.exchanges;
            && next.exits == h.exits + Noted(w, Run, n)
            && if Usable(w, n) then
                 && Makes(w, Run, n, Some(outcome))
                 && !next.terminated && next.lastRunExit == Some(Heard(w, n).value.exitCode)
               else outcome == STAGE_FAILED
  {
    hide GuestStage, Usable, Noted;
    NextStage(h, w);
    MadeIsUsable(w, Run, h.exchanges, GuestStage(h, w, Run).1);
    hide Makes;
  }

  /** The script stops where the ending says, with its verdict and its exit codes. */
  ghost predicate EndsLike(h: Host, w: Outside, ending: Ending) {
    var script := Script(h, w);
    var k := StopFrom(script, 0);
    && StateBefore(h, w, StagesRun(script)).exits == ending.exits
    && match ending.verdict
       case Accepted => k == 5 && script(3).Success? && script(3).decision == Some(Decision(Accepted, Score(1, 1)))
       case SystemError => k < 5 && script(k) == STAGE_FAILED
       case _ => k < 5 && script(k).Rejection? && script(k).verdict == ending.verdict
  }

  /** The usages of the script add up to those of the two guest stages that were accepted. */
  ghost predicate SumsLike(h: Host, w: Outside) {
    var script := Script(h, w);
    Totals(UsagesOf(script, StagesRun(script))).Valid() <==> !UsageOverflows(w, h.launched, h.exchanges)
  }

  lemma StepSum(usages: seq<ResourceUsage>, u: ResourceUsage)
    ensures var t := Totals(usages);
            Totals(usages + [u]) ==
            ResourceUsage(t.cpuTimeMs + u.cpuTimeMs, t.wallTimeMs + u.wallTimeMs,
                          if t.memoryPeakBytes < u.memoryPeakBytes then u.memoryPeakBytes else t.memoryPeakBytes,
                          t.outputBytes + u.outputBytes)
  {
    assert (usages + [u])[..|usages|] == usages;
  }

  lemma SumsOfScript(script: nat -> StageExecution)
    requires script(0).usage == NO_USAGE
    ensures Totals(UsagesOf(script, 2)) == script(1).usage
    ensures var (u, v) := (script(1).usage, script(2).usage);
            Totals(UsagesOf(script, 3)) ==
            ResourceUsage(u.cpuTimeMs + v.cpuTimeMs, u.wallTimeMs + v.wallTimeMs,
                          if u.memoryPeakBytes < v.memoryPeakBytes then v.memoryPeakBytes else u.memoryPeakBytes,
                          u.outputBytes + v.outputBytes)
    ensures script(3).usage == script(4).usage == NO_USAGE ==>
              Totals(UsagesOf(script, 5)) == Totals(UsagesOf(script, 3))
  {
    hide Totals;
    assert UsagesOf(script, 0) == [] && Totals([]) == NO_USAGE by { NothingSums(); }
    assert UsagesOf(script, 1) == UsagesOf(script, 0) + [script(0).usage];
    assert UsagesOf(script, 2) == UsagesOf(script, 1) + [script(1).usage];
    assert UsagesOf(script, 3) == UsagesOf(script, 2) + [script(2).usage];
    assert UsagesOf(script, 4) == UsagesOf(script, 3) + [script(3).usage];
    assert UsagesOf(script, 5) == UsagesOf(script, 4) + [script(4).usage];
    StepSum(UsagesOf(script, 0), script(0).usage);
    StepSum(UsagesOf(script, 1), script(1).usage);
    StepSum(UsagesOf(script, 2), script(2).usage);
    StepSum(UsagesOf(script, 3), script(3).usage);
    StepSum(UsagesOf(script, 4), script(4).usage);
  }

  lemma NothingSums()
    ensures Totals([]) == NO_USAGE
  {
  }

  /** The states and answers of the first three stages. */
  ghost predicate Opening(h: Host, w: Outside) {
    var script := Script(h, w);
    var n := h.exchanges;
    var started := Agrees(w, h.launched, n);
    && script(0) == STAGE_PASSED
    && StateBefore(h, w, 2).exits == (if started then Noted(w, Build, n + 1) else [])
    && (if started && Usable(w, n + 1) then Makes(w, Build, n + 1, Some(script(1))) else script(1) == STAGE_FAILED)
    && (started && Usable(w, n + 1) ==>
          && StateBefore(h, w, 3).exits == StateBefore(h, w, 2).exits + Noted(w, Run, n + 2)
          && if Usable(w, n + 2) then
               && Makes(w, Run, n + 2, Some(script(2)))
               && !StateBefore(h, w, 3).terminated
               && StateBefore(h, w, 3).lastRunExit == Some(Heard(w, n + 2).value.exitCode)
             else script(2) == STAGE_FAILED)
  }

  lemma Opens(h: Host, w: Outside)
    requires Clean(h)
    ensures Opening(h, w)
  {
    hide StageExecuted, Usable, Agrees, Noted, Makes;
    StateAfter(h, w, 0);
    StateAfter(h, w, 1);
    StateAfter(h, w, 2);
    PrepareExecuted(h, w);
    var built := StateBefore(h, w, 2);
    hide StateBefore;
    BuildExecuted(h, w);
    if Agrees(w, h.launched, h.exchanges) && Usable(w, h.exchanges + 1) { RunExecuted(built, w); }
  }

  lemma EndsAtBuild(h: Host, w: Outside)
    requires Opening(h, w) && !Script(h, w)(1).Success?
    ensures EndsLike(h, w, EndingOf(w, h.launched, h.exchanges)) && SumsLike(h, w)
  {
    hide StateBefore, OutputAccepted, Agrees, Totals, Script;
    SumsOfScript(Script(h, w));
    StopIsLater(Script(h, w), 1);
  }

  lemma EndsAtRun(h: Host, w: Outside)
    requires Opening(h, w) && Script(h, w)(1).Success? && !Script(h, w)(2).Success?
    ensures EndsLike(h, w, EndingOf(w, h.launched, h.exchanges)) && SumsLike(h, w)
  {
    hide StateBefore, OutputAccepted, Agrees, Totals, Script;
    SumsOfScript(Script(h, w));
    StopIsLater(Script(h, w), 2);
  }

  lemma EndsAccepted(h: Host, w: Outside)
    requires Opening(h, w) && Script(h, w)(1).Success? && Script(h, w)(2).Success?
    ensures EndsLike(h, w, EndingOf(w, h.launched, h.exchanges)) && SumsLike(h, w)
  {
    hide StateBefore, OutputAccepted, Agrees, Totals, Script;
    SumsOfScript(Script(h, w));
    RunPassed(h, w);
    StopIsLater(Script(h, w), 5);
  }

  lemma CleanScript(h: Host, w: Outside)
    requires Clean(h)
    ensures EndsLike(h, w, EndingOf(w, h.launched, h.exchanges)) && SumsLike(h, w)
  {
    hide EndsLike, SumsLike, EndingOf, Opening, Script;
    Opens(h, w);
    if !Script(h, w)(1).Success? {
      EndsAtBuild(h, w);
    } else if !Script(h, w)(2).Success? {
      EndsAtRun(h, w);
    } else {
      EndsAccepted(h, w);
    }
  }

  lemma PrepareExecuted(h: Host, w: Outside)
    requires !h.terminated
    ensures StateBefore(h, w, 1) == h && Script(h, w)(0) == STAGE_PASSED
  {
  }

  // ---- The attempt.

  lemma BegunIsClean(h: Host)
    requires Between(h)
    ensures Clean(Begun(h)) && Begun(h).launched == h.launched && Begun(h).exchanges == h.exchanges
  {
  }

  /** The status, verdict and score of the expected result are those of the ending. */
  lemma ExpectedEnds(h: Host, w: Outside, request: EvaluationRequest, provenance: ExecutionProvenance, ending: Ending)
    requires EndsLike(h, w, ending) && Acceptable(Script(h, w))
    requires ending == EndingOf(w, h.launched, h.exchanges)
    ensures var x := Expected(request, provenance, Script(h, w));
            && x.status == ending.status && x.verdict == ending.verdict && x.score == ending.score
            && StateBefore(h, w, StagesRun(Script(h, w))).exits == ending.exits
  {
    hide StateBefore, Script, StageFits, Usable, Agrees, HearsOutput, Totals;
  }

  lemma FittingIsAcceptable(h: Host, w: Outside)
    requires ScriptTells(h, w) && SumsLike(h, w)
    ensures Acceptable(Script(h, w)) <==> !UsageOverflows(w, h.launched, h.exchanges)
  {
    hide Script, StateBefore, StageFits, UsageOverflows, Totals;
  }

  /** For every request that asks only for what the executor supports, and every outside world: the attempt returns a
      result unless the usage of two accepted stages overflows, and its status, verdict, score and exit codes are what
      boot, channel, negotiation and guest replies say. In particular it is accepted exactly when the VM starts, the
      guest agrees, and both stages answer with an output that the host accepts and exit code zero; and without an
      agreeing guest no stage output is taken at all. */
  lemma AttemptDecides(h: Host, w: Outside, request: EvaluationRequest, node: Id)
    requires Between(h) && request.Valid() && RepliesDecoded(w)
    requires forall c :: c in request.requiredCapabilities ==> c == "algorithm.batch"
    ensures var (after, r) := Executed(h, w, request, node);
            var ending := EndingOf(w, h.launched, h.exchanges);
            if UsageOverflows(w, h.launched, h.exchanges) then r == Err(DomainFault(DomainError.OutOfRange))
            else
              && r.Ok? && r.value.status == ending.status && r.value.verdict == ending.verdict
              && r.value.score == ending.score && after.exits == ending.exits
  {
    hide StateBefore, Script, ScriptTells, EndsLike, SumsLike, EvaluatedFrom, EvaluateFrom, Acceptable, Expected,
         EndingOf, UsageOverflows, Begun, Clean, Between, Explained;
    BegunIsClean(h);
    var begun := Begun(h);
    var ending := EndingOf(w, h.launched, h.exchanges);
    CleanScript(begun, w);
    CleanIsFresh(begun);
    FreshScript(begun, w);
    FittingIsAcceptable(begun, w);
    var provenance := ExecutionProvenance(Firecracker, false, request.runtime.digest, Some(node));
    forall i: nat ensures Script(begun, w)(i).Constructed() { ScriptIsConstructed(begun, w, i); }
    StartsAtFirst(begun, w);
    RunsTheScript(begun, w, request, provenance, 0, NO_PROGRESS);
    StartsWithNothing(Script(begun, w));
    EvaluatesFrom(request, provenance, Script(begun, w), 0);
    if Acceptable(Script(begun, w)) {
      ExpectedEnds(begun, w, request, provenance, ending);
    } else {
      OnlyTotalsFail(request, provenance, begun, w);
    }
  }

  lemma CleanIsFresh(h: Host)
    requires Clean(h)
    ensures Fresh(h)
  {
  }
}
