/** What the pipeline answers, for every request and every executor behaviour, without following it step by step. */
module PipelineOutcome {
  import opened Prelude
  import opened Tokens
  import opened Domain
  import opened Results
  import opened Pipeline
  import opened WireResult
  import opened WireValidator

  const STAGE_COUNT: nat := 5

  /** The executor's answer can be recorded for this stage. */
  predicate StageFits(stage: StageKind, outcome: StageExecution) {
    && (outcome.Success? ==> (stage == Check <==> outcome.decision.Some?))
    && (outcome.Rejection? ==> RejectionFits(stage, outcome.verdict))
    && |outcome.diagnostics| <= MAX_STAGE_DIAGNOSTICS && |outcome.evidence| <= MAX_STAGE_EVIDENCE
  }

  /** The first stage from `i` on that does not succeed, or the number of stages. */
  function StopFrom(execute: nat -> StageExecution, i: nat): (k: nat)
    requires i <= STAGE_COUNT
    ensures i <= k <= STAGE_COUNT
    ensures forall j :: i <= j < k ==> execute(j).Success?
    ensures k < STAGE_COUNT ==> !execute(k).Success?
    decreases STAGE_COUNT - i
  {
    if i == STAGE_COUNT || !execute(i).Success? then i else StopFrom(execute, i + 1)
  }

  /** How many stages run: up to and with the one that stops the pipeline. */
  function StagesRun(execute: nat -> StageExecution): (n: nat)
    ensures 1 <= n <= STAGE_COUNT
  {
    var k := StopFrom(execute, 0);
    if k < STAGE_COUNT then k + 1 else STAGE_COUNT
  }

  function UsagesOf(execute: nat -> StageExecution, n: nat): seq<ResourceUsage> {
    seq(n, i requires 0 <= i < n => execute(i).usage)
  }

  function ReportsOf(execute: nat -> StageExecution, n: nat): seq<StageReport>
    requires n <= STAGE_COUNT
  {
    seq(n, i requires 0 <= i < n =>
      StageReport(ALGORITHM_BATCH_STAGES[i], StatusOf(execute(i)), execute(i).usage, execute(i).diagnostics,
                  execute(i).evidence))
  }

  /** Every answer that is asked for can be recorded, and the one-shot totals are in bounds. */
  predicate Acceptable(execute: nat -> StageExecution) {
    && (forall i :: 0 <= i < StagesRun(execute) ==> StageFits(ALGORITHM_BATCH_STAGES[i], execute(i)))
    && Totals(UsagesOf(execute, StagesRun(execute))).Valid()
  }

  /** The result in one piece. */
  function Expected(request: EvaluationRequest, provenance: ExecutionProvenance, execute: nat -> StageExecution)
    : EvaluationResult
    requires Acceptable(execute)
  {
    var k := StopFrom(execute, 0);
    var n := StagesRun(execute);
    var reports := ReportsOf(execute, n) + Skips(ALGORITHM_BATCH_STAGES[n..]);
    var usage := Totals(UsagesOf(execute, n));
    if k < STAGE_COUNT then
      var t := TerminalOf(execute(k)).value;
      EvaluationResult(IdentityOf(request), t.status, t.verdict, t.score, reports, usage, [], [], provenance)
    else
      assert StageFits(ALGORITHM_BATCH_STAGES[3], execute(3));
      var d := execute(3).decision.value;
      EvaluationResult(IdentityOf(request), StatusCompleted, d.verdict, d.score, reports, usage, [], [], provenance)
  }

  // ---- The expected result satisfies the constructor.

  lemma ExpectedShape(execute: nat -> StageExecution)
    requires Acceptable(execute)
    ensures var n := StagesRun(execute);
            var reports := ReportsOf(execute, n) + Skips(ALGORITHM_BATCH_STAGES[n..]);
            && Kinds(reports) == ALGORITHM_BATCH_STAGES
            && |Statuses(reports)| == STAGE_COUNT
            && Totals(Usages(reports)) == Totals(UsagesOf(execute, n))
            && (forall i :: 0 <= i < n ==> Statuses(reports)[i] == StatusOf(execute(i)))
            && (forall i :: n <= i < STAGE_COUNT ==> Statuses(reports)[i] == Skipped)
  {
    var n := StagesRun(execute);
    var reports := ReportsOf(execute, n) + Skips(ALGORITHM_BATCH_STAGES[n..]);
    assert Usages(reports) == UsagesOf(execute, n) + seq(STAGE_COUNT - n, i => NO_USAGE);
    TotalsOfIdle(UsagesOf(execute, n), STAGE_COUNT - n);
  }

  lemma ExpectedIsLegitimate(request: EvaluationRequest, provenance: ExecutionProvenance,
                             execute: nat -> StageExecution)
    requires Acceptable(execute) && forall i: nat :: execute(i).Constructed()
    ensures var x := Expected(request, provenance, execute);
            Legitimate(x.status, x.verdict, x.score.earned, Statuses(x.stages)) && x.score.Valid()
  {
    ExpectedShape(execute);
    var k := StopFrom(execute, 0);
    var x := Expected(request, provenance, execute);
    var statuses := Statuses(x.stages);
    if k < STAGE_COUNT {
      assert StageFits(ALGORITHM_BATCH_STAGES[k], execute(k));
      assert StopsAt(statuses, k, StatusOf(execute(k)));
    } else {
      assert execute(3).Constructed() && StageFits(ALGORITHM_BATCH_STAGES[3], execute(3));
    }
  }

  /** `EvaluationResult::new` accepts the expected result, and its parts are valid. */
  lemma ExpectedConstructs(request: EvaluationRequest, provenance: ExecutionProvenance, execute: nat -> StageExecution)
    requires Acceptable(execute) && forall i: nat :: execute(i).Constructed()
    requires provenance.runtimeDigest == request.runtime.digest
    ensures NewResult(Expected(request, provenance, execute)) == Ok(Expected(request, provenance, execute))
  {
    hide Legitimate, TerminalSemantics, StopsAt;
    ExpectedShape(execute);
    ExpectedIsLegitimate(request, provenance, execute);
    var x := Expected(request, provenance, execute);
    assert |Kinds(x.stages)| == |x.stages|;
    DomainValidatorExactly(x.status, x.verdict, x.score, x.stages);
  }

  // ---- The step-by-step run arrives there.

  /** What the run has gathered before stage `i`, as long as every earlier stage succeeded. */
  function GatheredBefore(execute: nat -> StageExecution, i: nat): Progress
    requires i <= STAGE_COUNT
    requires i > 3 ==> execute(3).Success?
  {
    Progress(ReportsOf(execute, i), Totals(UsagesOf(execute, i)), if i > 3 then execute(3).decision else None)
  }

  predicate Proceeds(execute: nat -> StageExecution, i: nat)
    requires i <= STAGE_COUNT
  {
    && (forall j :: 0 <= j < i ==> execute(j).Success? && StageFits(ALGORITHM_BATCH_STAGES[j], execute(j)))
    && Totals(UsagesOf(execute, i)).Valid()
  }

  lemma {:induction false} StopIsLater(execute: nat -> StageExecution, i: nat)
    requires i <= STAGE_COUNT && forall j :: 0 <= j < i ==> execute(j).Success?
    ensures StopFrom(execute, 0) == StopFrom(execute, i)
  {
    if i > 0 { StopIsLater(execute, i - 1); }
  }

  lemma {:induction false} TotalsGrow(execute: nat -> StageExecution, i: nat, n: nat)
    requires i <= n && Totals(UsagesOf(execute, n)).Valid()
    ensures Totals(UsagesOf(execute, i)).Valid()
    decreases n
  {
    if i < n {
      assert UsagesOf(execute, n) == UsagesOf(execute, n - 1) + [execute(n - 1).usage];
      CheckedAddIsTotal(UsagesOf(execute, n - 1), execute(n - 1).usage);
      TotalsGrow(execute, i, n - 1);
    }
  }

  /** Recording stage `i`: it works exactly when the answer fits and the totals stay in bounds. */
  lemma RecordsStage(execute: nat -> StageExecution, i: nat)
    requires i < STAGE_COUNT && Proceeds(execute, i)
    ensures var r := Recorded(GatheredBefore(execute, i), ALGORITHM_BATCH_STAGES, i, execute(i));
            && (r.Ok? <==> StageFits(ALGORITHM_BATCH_STAGES[i], execute(i))
                           && Totals(UsagesOf(execute, i + 1)).Valid())
            && (r.Err? ==> StageError(r.error))
            && (r.Ok? ==> r.value.1 == TerminalOf(execute(i)))
            && (r.Ok? && execute(i).Success? ==>
                  Proceeds(execute, i + 1) && r.value.0 == GatheredBefore(execute, i + 1))
            && (r.Ok? && !execute(i).Success? ==>
                  r.value.0.reports == ReportsOf(execute, i + 1) + Skips(ALGORITHM_BATCH_STAGES[i + 1..])
                  && r.value.0.usage == Totals(UsagesOf(execute, i + 1)))
  {
    hide Totals, ResourceUsage.Valid, ResourceUsage.CheckedAdd;
    assert UsagesOf(execute, i + 1) == UsagesOf(execute, i) + [execute(i).usage];
    CheckedAddIsTotal(UsagesOf(execute, i), execute(i).usage);
    assert ReportsOf(execute, i + 1) == ReportsOf(execute, i) + [ReportsOf(execute, i + 1)[i]];
  }

  /** The errors that recording a stage can end in. */
  predicate StageError(error: ApplicationError) {
    error in {MisplacedDecision, InconsistentRejection, DomainFault(DomainError.OutOfRange), DomainFault(TooManyItems)}
  }

  lemma {:induction false} EvaluatesFrom(request: EvaluationRequest, provenance: ExecutionProvenance,
                                         execute: nat -> StageExecution, i: nat)
    requires request.plan.stages == ALGORITHM_BATCH_STAGES && provenance.runtimeDigest == request.runtime.digest
    requires i <= STAGE_COUNT && Proceeds(execute, i) && forall j: nat :: execute(j).Constructed()
    ensures var r := EvaluateFrom(request, provenance, execute, i, GatheredBefore(execute, i));
            && (r.Ok? <==> Acceptable(execute))
            && (r.Ok? ==> r.value == Expected(request, provenance, execute))
            && (r.Err? ==> StageError(r.error))
    decreases STAGE_COUNT - i
  {
    hide StageExecution.Constructed, Recorded, NewResult, Totals, ResourceUsage.Valid, RejectionFits;
    StopIsLater(execute, i);
    if i == STAGE_COUNT {
      assert StageFits(ALGORITHM_BATCH_STAGES[3], execute(3));
      ExpectedConstructs(request, provenance, execute);
      assert ReportsOf(execute, 5) + Skips(ALGORITHM_BATCH_STAGES[5..]) == ReportsOf(execute, 5);
    } else {
      RecordsStage(execute, i);
      var n := StagesRun(execute);
      if Acceptable(execute) {
        assert StageFits(ALGORITHM_BATCH_STAGES[i], execute(i));
        TotalsGrow(execute, i + 1, n);
      }
      if Recorded(GatheredBefore(execute, i), ALGORITHM_BATCH_STAGES, i, execute(i)).Ok? {
        if execute(i).Success? {
          EvaluatesFrom(request, provenance, execute, i + 1);
        } else {
          assert Acceptable(execute);
          ExpectedConstructs(request, provenance, execute);
        }
      }
    }
  }

  /** For every request and every executor: the pipeline succeeds exactly when the capabilities are supported, the
      provenance is eligible, every answer up to the stop can be recorded and the one-shot totals are in bounds. The
      result is then the expected one. A failure never comes from a missing decision or from the result's constructor. */
  lemma EvaluateExactly(request: EvaluationRequest, executor: Executor)
    requires request.Valid() && forall j: nat :: executor.execute(j).Constructed()
    ensures var r := Evaluated(request, executor);
            var provenance := ExecutionProvenance(executor.kind, executor.eligible, request.runtime.digest, executor.node);
            && (r.Ok? <==> (forall c :: c in request.requiredCapabilities ==> executor.supports(c))
                           && provenance.Eligible() && Acceptable(executor.execute))
            && (r.Ok? ==> r.value == Expected(request, provenance, executor.execute))
            && (r.Err? ==> r.error in {UnsupportedCapability, DomainFault(IneligibleProvenance)} || StageError(r.error))
  {
    hide StageExecution.Constructed, Acceptable, Expected, StageError, EvaluateFrom;
    var provenance := ExecutionProvenance(executor.kind, executor.eligible, request.runtime.digest, executor.node);
    assert GatheredBefore(executor.execute, 0) == NO_PROGRESS;
    EvaluatesFrom(request, provenance, executor.execute, 0);
  }

  /** Whatever the pipeline returns has valid parts and passes both validators, its usage is the one-shot total over
      its own stage reports, and it survives the wire. */
  lemma EvaluatedIsValid(request: EvaluationRequest, executor: Executor)
    requires request.Valid() && forall j: nat :: executor.execute(j).Constructed()
    requires executor.node.Some? ==> ValidId(executor.node.value)
    requires Evaluated(request, executor).Ok?
    ensures ResultValid(Evaluated(request, executor).value)
    ensures Evaluated(request, executor).value.usage == Totals(Usages(Evaluated(request, executor).value.stages))
    ensures Evaluated(request, executor).value.identity == IdentityOf(request)
    ensures Evaluated(request, executor).value.provenance ==
            ExecutionProvenance(executor.kind, executor.eligible, request.runtime.digest, executor.node)
    ensures ResultSemantics(ResultToValue(Evaluated(request, executor).value)).Ok?
    ensures ResultFromValue(ResultToValue(Evaluated(request, executor).value)) ==
            Result.Ok(Evaluated(request, executor).value)
  {
    hide ResultSemantics, ResultToValue, ResultFromValue, PartsValid, Expected, Totals, NewResult, Acceptable;
    EvaluateExactly(request, executor);
    var provenance := ExecutionProvenance(executor.kind, executor.eligible, request.runtime.digest, executor.node);
    ExpectedConstructs(request, provenance, executor.execute);
    ExpectedPartsValid(request, provenance, executor.execute);
    ExpectedShape(executor.execute);
    ExpectedSums(request, provenance, executor.execute);
    var result := Evaluated(request, executor).value;
    ValidatorsAgree(result);
    ResultRoundTrip(result);
  }

  lemma ExpectedSums(request: EvaluationRequest, provenance: ExecutionProvenance, execute: nat -> StageExecution)
    requires Acceptable(execute)
    ensures var x := Expected(request, provenance, execute);
            && x.usage == Totals(Usages(x.stages)) && x.identity == IdentityOf(request)
            && x.diagnostics == [] && x.evidence == [] && x.provenance == provenance
  {
    hide Totals;
    ExpectedShape(execute);
  }

  lemma ExpectedPartsValid(request: EvaluationRequest, provenance: ExecutionProvenance,
                           execute: nat -> StageExecution)
    requires request.Valid() && Acceptable(execute) && forall j: nat :: execute(j).Constructed()
    requires provenance.Valid()
    ensures PartsValid(Expected(request, provenance, execute))
  {
    hide ValidId, ValidDigest, ValidDiagnosticCode, ValidEvidenceKind;
    ExpectedIsLegitimate(request, provenance, execute);
    hide Legitimate;
    var x := Expected(request, provenance, execute);
    var n := StagesRun(execute);
    forall i | 0 <= i < |x.stages| ensures x.stages[i].Valid() {
      if i < n { assert execute(i).Constructed() && StageFits(ALGORITHM_BATCH_STAGES[i], execute(i)); }
    }
  }
}
