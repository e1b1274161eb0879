/** What the Firecracker executor can answer: every verdict is explained by the exit codes of this attempt's own stages,
    whatever the guest replies and wherever the host fails. */
module ExecutorVerdicts {
  import opened Prelude
  import opened Tokens
  import opened Domain
  import opened Results
  import opened Pipeline
  import opened PipelineOutcome
  import opened Evaluator
  import opened Executor
  import opened GuestChannel
  import G = Guest

  /** The message came out of the guest decoder; nothing else is asked of it. */
  ghost predicate Decoded(m: G.Message) {
    exists v :: G.MessageFromValue(v) == Ok(m)
  }

  /** Every reply that reaches the executor was decoded from some JSON value. */
  ghost predicate RepliesDecoded(w: Outside) {
    forall n :: w.replies(n).Some? ==> Decoded(w.replies(n).value)
  }

  /** What a stage needs of that: the decoder bounds the number of diagnostics. */
  lemma DecodedDiagnostics(m: G.Message)
    requires Decoded(m) && m.StageOutput?
    ensures |m.diagnostics| <= G.MAX_DIAGNOSTICS
  {
    hide G.MessageFromValue;
    var v :| G.MessageFromValue(v) == Ok(m);
    DecodedEncodes(v);
  }

  predicate Fresh(h: Host) {
    !h.terminated && h.lastRunExit.None? && h.exits == []
  }

  // ---- The stateful run is a run of the pipeline over the executor's own script.

  function StateBefore(h: Host, w: Outside, i: nat): Host
    requires i <= STAGE_COUNT
  {
    if i == 0 then h else StageExecuted(StateBefore(h, w, i - 1), w, ALGORITHM_BATCH_STAGES[i - 1]).0
  }

  function Answer(h: Host, w: Outside, i: nat): StageExecution {
    if i < STAGE_COUNT then StageExecuted(StateBefore(h, w, i), w, ALGORITHM_BATCH_STAGES[i]).1 else STAGE_FAILED
  }

  function Script(h: Host, w: Outside): nat -> StageExecution {
    (i: nat) => Answer(h, w, i)
  }

  /** The result is that of the pipeline over the script, and a successful run ends in the state after the stages that
      the pipeline ran. */
  lemma {:induction false} RunsTheScript(h: Host, w: Outside, request: EvaluationRequest,
                                         provenance: ExecutionProvenance, i: nat, p: Progress)
    requires request.plan.stages == ALGORITHM_BATCH_STAGES && i <= STAGE_COUNT
    requires forall j :: 0 <= j < i ==> Script(h, w)(j).Success?
    ensures var (last, r) := EvaluatedFrom(StateBefore(h, w, i), w, request, provenance, i, p);
            && r == EvaluateFrom(request, provenance, Script(h, w), i, p)
            && (r.Ok? ==> last == StateBefore(h, w, StagesRun(Script(h, w))))
    decreases STAGE_COUNT - i
  {
    hide StageExecuted, Finished, FinishedSuccess, Recorded, StateBefore;
    StopIsLater(Script(h, w), i);
    if i < STAGE_COUNT {
      StateAfter(h, w, i);
      var outcome := Script(h, w)(i);
      var recorded := Recorded(p, ALGORITHM_BATCH_STAGES, i, outcome);
      if recorded.Ok? {
        TerminalTellsSuccess(p, i, outcome);
        if outcome.Success? { RunsTheScript(h, w, request, provenance, i + 1, recorded.value.0); }
      }
    }
  }

  lemma StateAfter(h: Host, w: Outside, i: nat)
    requires i < STAGE_COUNT
    ensures StateBefore(h, w, i + 1) == StageExecuted(StateBefore(h, w, i), w, ALGORITHM_BATCH_STAGES[i]).0
  {
    hide StageExecuted;
  }

  lemma TerminalTellsSuccess(p: Progress, i: nat, outcome: StageExecution)
    requires i < STAGE_COUNT && Recorded(p, ALGORITHM_BATCH_STAGES, i, outcome).Ok?
    ensures Recorded(p, ALGORITHM_BATCH_STAGES, i, outcome).value.1.None? <==> outcome.Success?
  {
  }

  // ---- One guest stage.

  ghost predicate Passed(h: Host, next: Host, stage: StageKind, outcome: StageExecution) {
    && outcome.Success? && outcome.decision.None? && !next.terminated
    && next.exits == h.exits + [StageExit(stage, 0)]
    && next.lastRunExit == if stage == Run then Some(0) else h.lastRunExit
  }

  ghost predicate Refused(h: Host, next: Host, stage: StageKind, outcome: StageExecution) {
    && outcome.Rejection? && |next.exits| == |h.exits| + 1
    && var code := next.exits[|h.exits|].code;
    && code != 0 && next.exits == h.exits + [StageExit(stage, code)]
    && outcome.verdict == RejectionVerdict(stage, code)
  }

  /** A guest stage passes with exit code zero, is refused with another one, or fails on the host; each answer can be
      recorded. */
  lemma GuestStageAnswers(h: Host, w: Outside, stage: StageKind)
    requires !h.terminated && (stage == Build || stage == Run) && RepliesDecoded(w)
    ensures var (next, outcome) := StageExecuted(h, w, stage);
            && (Passed(h, next, stage, outcome) || Refused(h, next, stage, outcome) || outcome == STAGE_FAILED)
            && StageFits(stage, outcome) && outcome.Constructed()
  {
    hide EnsuredSession, EnsuredNegotiated, ExecutionForStageOutput, TornDown, Diagnostic.Valid, EvidenceRef.Valid,
         OutputAccepted;
    SessionLeavesExits(h, w);
    var (active, ok) := EnsuredSession(h, w);
    NegotiationKeepsHolding(active, w);
    var (agreed, supported) := EnsuredNegotiated(active, w);
    if ok && supported && agreed.session.Some? {
      var (next, reply) := Exchanged(agreed, w);
      if reply.Some? && reply.value.StageOutput? {
        var m := reply.value;
        DecodedDiagnostics(m);
        StageOutputExactly(stage, m.exitCode, m.outputDigest, m.outputBytes, m.usage, m.diagnostics, w.upper);
      }
    }
  }

  /** A stage output with a diagnostic beyond the host bound fails the stage and ends the attempt's VM. */
  lemma LongDiagnosticFailsStage(h: Host, w: Outside, stage: StageKind)
    requires !h.terminated && (stage == Build || stage == Run)
    requires EnsuredSession(h, w).1 && EnsuredNegotiated(EnsuredSession(h, w).0, w).1
    requires var reply := Exchanged(EnsuredNegotiated(EnsuredSession(h, w).0, w).0, w).1;
             reply.Some? && reply.value.StageOutput? && HasLongDiagnostic(reply.value)
    ensures var (next, outcome) := StageExecuted(h, w, stage);
            outcome == STAGE_FAILED && next.terminated && next.vm.None? && next.session.None?
  {
    hide EnsuredSession, EnsuredNegotiated, ExecutionForStageOutput;
    var m := Exchanged(EnsuredNegotiated(EnsuredSession(h, w).0, w).0, w).1.value;
    StageOutputExactly(stage, m.exitCode, m.outputDigest, m.outputBytes, m.usage, m.diagnostics, w.upper);
    var i :| 0 <= i < |m.diagnostics| && |m.diagnostics[i].message| > MAX_DIAGNOSTIC_MESSAGE_LENGTH;
    assert !DiagnosticAccepted(m.diagnostics[i], w.upper);
  }

  lemma SessionLeavesExits(h: Host, w: Outside)
    ensures var next := EnsuredSession(h, w).0;
            next.exits == h.exits && next.lastRunExit == h.lastRunExit && next.terminated == h.terminated
  {
  }

  // ---- The whole script.

  const ACCEPTED: Decision := Decision(Accepted, Score(1, 1))

  /** How far the script of a fresh attempt gets, and the exit codes that its state then shows. */
  ghost predicate ScriptTells(h: Host, w: Outside) {
    var script := Script(h, w);
    var k := StopFrom(script, 0);
    var exits := StateBefore(h, w, StagesRun(script)).exits;
    && (forall i :: 0 <= i < StagesRun(script) ==> StageFits(ALGORITHM_BATCH_STAGES[i], script(i)))
    && (k == STAGE_COUNT ==>
          exits == [StageExit(Build, 0), StageExit(Run, 0)] && script(3).decision == Some(ACCEPTED))
    && (k < STAGE_COUNT && script(k) != STAGE_FAILED ==>
          script(k).Rejection?
          && ((k == 1 && |exits| == 1 && exits[0].stage == Build && exits[0].code != 0
               && script(k).verdict == CompileError)
              || (k == 2 && |exits| == 2 && exits[0] == StageExit(Build, 0) && exits[1].stage == Run
                  && exits[1].code != 0 && script(k).verdict == RejectionVerdict(Run, exits[1].code))))
  }

  lemma FreshScript(h: Host, w: Outside)
    requires Fresh(h) && RepliesDecoded(w)
    ensures ScriptTells(h, w)
  {
    hide GuestStage, TornDown;
    var script := Script(h, w);
    StateAfter(h, w, 0);
    StateAfter(h, w, 1);
    StateAfter(h, w, 2);
    var built := StateBefore(h, w, 2);
    var ran := StateBefore(h, w, 3);
    assert StateBefore(h, w, 1) == h && script(0) == STAGE_PASSED;
    hide StateBefore;
    GuestStageAnswers(h, w, Build);
    hide StageExecuted;
    StopIsLater(script, 1);
    if script(1).Success? {
      assert built.exits == [StageExit(Build, 0)];
      GuestStageAnswers(built, w, Run);
      StopIsLater(script, 2);
      if script(2).Success? {
        assert ran.exits == [StageExit(Build, 0), StageExit(Run, 0)];
        StopIsLater(script, 3);
        RunPassed(h, w);
        StopIsLater(script, 5);
        FitsAll(script);
      } else {
        FitsThree(script);
      }
    } else {
      FitsTwo(script);
    }
  }

  lemma FitsTwo(script: nat -> StageExecution)
    requires StageFits(Prepare, script(0)) && StageFits(Build, script(1))
    ensures forall i :: 0 <= i < 2 ==> StageFits(ALGORITHM_BATCH_STAGES[i], script(i))
  {
  }

  lemma FitsThree(script: nat -> StageExecution)
    requires StageFits(Prepare, script(0)) && StageFits(Build, script(1)) && StageFits(Run, script(2))
    ensures forall i :: 0 <= i < 3 ==> StageFits(ALGORITHM_BATCH_STAGES[i], script(i))
  {
  }

  lemma FitsAll(script: nat -> StageExecution)
    requires StageFits(Prepare, script(0)) && StageFits(Build, script(1)) && StageFits(Run, script(2))
    requires StageFits(Check, script(3)) && StageFits(Aggregate, script(4))
    ensures forall i :: 0 <= i < 5 ==> StageFits(ALGORITHM_BATCH_STAGES[i], script(i))
  {
  }

  /** After a run that passed, the check reads its exit code and accepts, and the last stage passes. */
  lemma RunPassed(h: Host, w: Outside)
    requires !StateBefore(h, w, 3).terminated && StateBefore(h, w, 3).lastRunExit == Some(0)
    ensures Script(h, w)(3) == Success(NO_USAGE, [], [], Some(ACCEPTED)) && Script(h, w)(4) == STAGE_PASSED
    ensures StateBefore(h, w, 5) == StateBefore(h, w, 3)
  {
    hide GuestStage, TornDown, HostCheckDecision, StateBefore;
    DecisionExactly(0);
    StateAfter(h, w, 3);
    StateAfter(h, w, 4);
  }

  lemma ScriptIsConstructed(h: Host, w: Outside, i: nat)
    ensures Script(h, w)(i).Constructed()
  {
    hide StateBefore;
    if i < STAGE_COUNT { AnswersAreConstructed(StateBefore(h, w, i), w, ALGORITHM_BATCH_STAGES[i]); }
  }

  lemma AnswersAreConstructed(h: Host, w: Outside, stage: StageKind)
    ensures StageExecuted(h, w, stage).1.Constructed()
  {
    hide EnsuredSession, EnsuredNegotiated, ExecutionForStageOutput, TornDown, HostCheckDecision, OutputAccepted,
         Diagnostic.Valid, EvidenceRef.Valid;
    if h.lastRunExit.Some? { DecisionExactly(h.lastRunExit.value); }
    if stage == Build || stage == Run {
      var agreed := EnsuredNegotiated(EnsuredSession(h, w).0, w).0;
      var reply := Exchanged(agreed, w).1;
      if reply.Some? && reply.value.StageOutput? {
        var m := reply.value;
        StageOutputExactly(stage, m.exitCode, m.outputDigest, m.outputBytes, m.usage, m.diagnostics, w.upper);
      }
    }
  }

  /** The executor as the pipeline sees it in this attempt. */
  function AsExecutor(h: Host, w: Outside, node: Id): Pipeline.Executor {
    Pipeline.Executor(Firecracker, false, Some(node), c => c == CAPABILITY, Script(Begun(h), w))
  }

  /** An attempt's result is the pipeline's over the attempt's own script, so all theorems about the pipeline apply. */
  lemma ExecutedIsEvaluated(h: Host, w: Outside, request: EvaluationRequest, node: Id)
    requires request.plan.stages == ALGORITHM_BATCH_STAGES
    ensures Executed(h, w, request, node).1 == Evaluated(request, AsExecutor(h, w, node))
  {
    hide StateBefore, Script, EvaluatedFrom, EvaluateFrom, Begun;
    var provenance := ExecutionProvenance(Firecracker, false, request.runtime.digest, Some(node));
    StartsAtFirst(Begun(h), w);
    RunsTheScript(Begun(h), w, request, provenance, 0, NO_PROGRESS);
  }

  // ---- Verdicts.

  /** The verdict is what the exit codes of this attempt say. */
  predicate Explained(result: EvaluationResult, exits: seq<StageExit>) {
    match result.verdict
    case Accepted => result.status == StatusCompleted && exits == [StageExit(Build, 0), StageExit(Run, 0)]
    case CompileError =>
      result.status == StatusCompleted && |exits| == 1 && exits[0].stage == Build && exits[0].code != 0
    case TimeLimitExceeded =>
      result.status == StatusCompleted
      && exits == [StageExit(Build, 0), StageExit(Run, GUEST_TIMEOUT_EXIT_CODE)]
    case RuntimeError =>
      result.status == StatusCompleted && |exits| == 2 && exits[0] == StageExit(Build, 0) && exits[1].stage == Run
      && exits[1].code != 0 && exits[1].code != GUEST_TIMEOUT_EXIT_CODE
    case SystemError => result.status == StatusFailed
    case _ => false
  }

  lemma ExpectedIsExplained(h: Host, w: Outside, request: EvaluationRequest, provenance: ExecutionProvenance)
    requires ScriptTells(h, w) && Acceptable(Script(h, w))
    ensures Explained(Expected(request, provenance, Script(h, w)), StateBefore(h, w, StagesRun(Script(h, w))).exits)
  {
    hide StateBefore, StageFits, Script, StopFrom, StagesRun;
    var script := Script(h, w);
    var exits := StateBefore(h, w, StagesRun(script)).exits;
    if |exits| == 2 { assert exits == [exits[0], exits[1]]; }
  }

  /** For every request and every outside behaviour: the executor either reports a result whose verdict is explained by
      the exit codes of this very attempt — accepted exactly after a build and a run that both exited with zero, and
      never a wrong answer — or one of two errors: a capability it lacks, or usage totals out of bounds. */
  lemma VerdictsAreExplained(h: Host, w: Outside, request: EvaluationRequest, node: Id)
    requires Between(h) && request.Valid() && RepliesDecoded(w)
    ensures var (after, r) := Executed(h, w, request, node);
            && (r.Ok? ==> Explained(r.value, after.exits))
            && (r == Err(UnsupportedCapability) <==> exists c :: c in request.requiredCapabilities && c != CAPABILITY)
            && (r.Err? ==> r.error == UnsupportedCapability || r.error == DomainFault(DomainError.OutOfRange))
  {
    hide StateBefore, Script, ScriptTells, Explained, EvaluatedFrom, EvaluateFrom, Acceptable, Expected, StageError;
    BeginsWithin(h);
    var begun := Begun(h);
    assert Fresh(begun);
    FreshScript(begun, w);
    var provenance := ExecutionProvenance(Firecracker, false, request.runtime.digest, Some(node));
    var script := Script(begun, w);
    forall i: nat ensures script(i).Constructed() { ScriptIsConstructed(begun, w, i); }
    StartsAtFirst(begun, w);
    RunsTheScript(begun, w, request, provenance, 0, NO_PROGRESS);
    StartsWithNothing(script);
    EvaluatesFrom(request, provenance, script, 0);
    if Acceptable(script) {
      ExpectedIsExplained(begun, w, request, provenance);
    } else {
      OnlyTotalsFail(request, provenance, begun, w);
    }
  }

  lemma StartsAtFirst(h: Host, w: Outside)
    ensures StateBefore(h, w, 0) == h
  {
  }

  lemma StartsWithNothing(execute: nat -> StageExecution)
    ensures Proceeds(execute, 0) && GatheredBefore(execute, 0) == NO_PROGRESS
  {
  }

  /** With answers that can all be recorded, the pipeline fails only when the usage totals run out of bounds. */
  lemma {:induction false} FailsOnTotals(request: EvaluationRequest, provenance: ExecutionProvenance,
                                         execute: nat -> StageExecution, i: nat)
    requires request.plan.stages == ALGORITHM_BATCH_STAGES && provenance.runtimeDigest == request.runtime.digest
    requires i <= STAGE_COUNT && Proceeds(execute, i) && forall j: nat :: execute(j).Constructed()
    requires forall j :: 0 <= j < StagesRun(execute) ==> StageFits(ALGORITHM_BATCH_STAGES[j], execute(j))
    requires EvaluateFrom(request, provenance, execute, i, GatheredBefore(execute, i)).Err?
    ensures EvaluateFrom(request, provenance, execute, i, GatheredBefore(execute, i))
            == Err(DomainFault(DomainError.OutOfRange))
    decreases STAGE_COUNT - i
  {
    hide StageExecution.Constructed, Recorded, NewResult, Totals, ResourceUsage.Valid, RejectionFits, Finished, Expected,
         StageFits;
    EvaluatesFrom(request, provenance, execute, i);
    StopIsLater(execute, i);
    if i < STAGE_COUNT {
      RecordsStage(execute, i);
      var recorded := Recorded(GatheredBefore(execute, i), ALGORITHM_BATCH_STAGES, i, execute(i));
      if recorded.Err? {
        FitsSoTotals(execute, i);
      } else if execute(i).Success? {
        FailsOnTotals(request, provenance, execute, i + 1);
      }
    }
  }

  lemma FitsSoTotals(execute: nat -> StageExecution, i: nat)
    requires i < STAGE_COUNT && Proceeds(execute, i) && StageFits(ALGORITHM_BATCH_STAGES[i], execute(i))
    ensures var r := Recorded(GatheredBefore(execute, i), ALGORITHM_BATCH_STAGES, i, execute(i));
            r.Err? ==> r.error == DomainFault(DomainError.OutOfRange)
  {
  }

  lemma OnlyTotalsFail(request: EvaluationRequest, provenance: ExecutionProvenance, h: Host, w: Outside)
    requires request.plan.stages == ALGORITHM_BATCH_STAGES && provenance.runtimeDigest == request.runtime.digest
    requires ScriptTells(h, w) && forall j: nat :: Script(h, w)(j).Constructed()
    requires EvaluateFrom(request, provenance, Script(h, w), 0, NO_PROGRESS).Err?
    ensures EvaluateFrom(request, provenance, Script(h, w), 0, NO_PROGRESS)
            == Err(DomainFault(DomainError.OutOfRange))
  {
    hide EvaluateFrom, Script, StateBefore, StageFits;
    StartsWithNothing(Script(h, w));
    FailsOnTotals(request, provenance, Script(h, w), 0);
  }
}
