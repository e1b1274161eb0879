/** What the pipeline answers, written out report by report: no helper of the pipeline, no fold and no search is used. */
module PipelineReports {
  import opened Prelude
  import opened Tokens
  import opened Domain
  import opened Results
  import opened Pipeline
  import opened PipelineOutcome

  /** The executor stops the pipeline at call `k`, or not at all if `k` is five. */
  predicate StopsWith(execute: nat -> StageExecution, k: nat) {
    k <= 5 && (forall i :: 0 <= i < k ==> execute(i).Success?) && (k < 5 ==> !execute(k).Success?)
  }

  /** The `i`-th answer is one that stage `i` may give: only the check decides, and only build and run reject. */
  predicate Placed(i: nat, outcome: StageExecution) {
    && (match outcome
        case Success(_, _, _, decision) => decision.Some? <==> i == 3
        case Rejection(verdict, _, _, _) =>
          || (i == 1 && verdict == CompileError)
          || (i == 2 && verdict in {RuntimeError, TimeLimitExceeded, MemoryLimitExceeded, OutputLimitExceeded})
        case _ => true)
    && |outcome.diagnostics| <= 64 && |outcome.evidence| <= 256
  }

  /** The usage of call `i` if it was made. */
  function Used(execute: nat -> StageExecution, last: nat, i: nat): ResourceUsage {
    if i <= last then execute(i).usage else ResourceUsage(0, 0, 0, 0)
  }

  function Larger(a: nat, b: nat): nat {
    if a < b then b else a
  }

  /** The usage of the calls up to `last`, added up. */
  function Sum(execute: nat -> StageExecution, last: nat): ResourceUsage {
    var (a, b, c) := (Used(execute, last, 0), Used(execute, last, 1), Used(execute, last, 2));
    var (d, e) := (Used(execute, last, 3), Used(execute, last, 4));
    ResourceUsage(
      a.cpuTimeMs + b.cpuTimeMs + c.cpuTimeMs + d.cpuTimeMs + e.cpuTimeMs,
      a.wallTimeMs + b.wallTimeMs + c.wallTimeMs + d.wallTimeMs + e.wallTimeMs,
      Larger(Larger(Larger(Larger(a.memoryPeakBytes, b.memoryPeakBytes), c.memoryPeakBytes), d.memoryPeakBytes),
             e.memoryPeakBytes),
      a.outputBytes + b.outputBytes + c.outputBytes + d.outputBytes + e.outputBytes)
  }

  predicate Reportable(u: ResourceUsage) {
    u.cpuTimeMs <= 86400000 && u.wallTimeMs <= 86400000 && u.memoryPeakBytes <= 1099511627776
    && u.outputBytes <= 1073741824
  }

  /** The report of stage `i` in a run that stops at `k`. */
  function Report(execute: nat -> StageExecution, k: nat, i: nat): StageReport
    requires i < 5
  {
    var stage := [Prepare, Build, Run, Check, Aggregate][i];
    if i > k then StageReport(stage, Skipped, ResourceUsage(0, 0, 0, 0), [], [])
    else
      var status := if i < k then Succeeded
                    else if execute(i).Cancellation? then StageStatus.Cancelled
                    else StageStatus.Failed;
      StageReport(stage, status, execute(i).usage, execute(i).diagnostics, execute(i).evidence)
  }

  /** The result of a run that stops at `k`. */
  function Reported(request: EvaluationRequest, executor: Executor, k: nat): EvaluationResult
    requires StopsWith(executor.execute, k) && (k == 5 ==> executor.execute(3).decision.Some?)
  {
    var execute := executor.execute;
    var (status, verdict, score) :=
      if k == 5 then
        (StatusCompleted, execute(3).decision.value.verdict, execute(3).decision.value.score)
      else match execute(k)
           case Rejection(verdict, _, _, _) => (StatusCompleted, verdict, Score(0, 1))
           case Cancellation(_, _, _) => (StatusCancelled, VerdictCancelled, Score(0, 1))
           case _ => (StatusFailed, SystemError, Score(0, 1));
    EvaluationResult(
      identity := EvaluationIdentity(
        requestId := request.requestId, evaluationId := request.evaluationId, attemptId := request.attemptId,
        problemVersionId := request.problemVersion.problemVersionId, submissionId := request.submission.submissionId,
        runtimeId := request.runtime.runtimeId, runtimeDigest := request.runtime.digest),
      status := status, verdict := verdict, score := score,
      stages := [Report(execute, k, 0), Report(execute, k, 1), Report(execute, k, 2), Report(execute, k, 3),
                 Report(execute, k, 4)],
      usage := Sum(execute, k), diagnostics := [], evidence := [],
      provenance := ExecutionProvenance(executorKind := executor.kind, productionEligible := executor.eligible,
                                        runtimeDigest := request.runtime.digest, nodeId := executor.node))
  }

  // ---- The helpers of the pipeline, seen from here.

  lemma StopIsUnique(execute: nat -> StageExecution, k: nat)
    requires StopsWith(execute, k)
    ensures StopFrom(execute, 0) == k
  {
    StopIsLater(execute, k);
  }

  lemma PlacedFits(i: nat, outcome: StageExecution)
    requires i < 5
    ensures Placed(i, outcome) <==> StageFits(ALGORITHM_BATCH_STAGES[i], outcome)
  {
  }

  lemma {:induction false} SumIsTotal(execute: nat -> StageExecution, last: nat)
    requires last < 5
    ensures Sum(execute, last) == Totals(UsagesOf(execute, last + 1))
  {
    var usages := UsagesOf(execute, last + 1);
    assert usages[..last] == UsagesOf(execute, last);
    if last > 0 { SumIsTotal(execute, last - 1); }
  }

  lemma ReportableIsValid(u: ResourceUsage)
    ensures Reportable(u) <==> u.Valid()
  {
  }

  lemma ReportedIsExpected(request: EvaluationRequest, executor: Executor, k: nat)
    requires StopsWith(executor.execute, k) && Acceptable(executor.execute)
    ensures k == 5 ==> executor.execute(3).decision.Some?
    ensures var provenance := ExecutionProvenance(executor.kind, executor.eligible, request.runtime.digest, executor.node);
            Expected(request, provenance, executor.execute) == Reported(request, executor, k)
  {
    hide Totals, Sum;
    StopIsUnique(executor.execute, k);
    var n := StagesRun(executor.execute);
    SumIsTotal(executor.execute, n - 1);
    SumOfAll(executor.execute, k);
    if k == 5 { assert StageFits(ALGORITHM_BATCH_STAGES[3], executor.execute(3)); }
    assert ReportsOf(executor.execute, n) + Skips(ALGORITHM_BATCH_STAGES[n..]) ==
           [Report(executor.execute, k, 0), Report(executor.execute, k, 1), Report(executor.execute, k, 2),
            Report(executor.execute, k, 3), Report(executor.execute, k, 4)];
  }

  lemma SumOfAll(execute: nat -> StageExecution, k: nat)
    ensures k >= 4 ==> Sum(execute, k) == Sum(execute, 4)
  {
  }

  /** The `i`-th answer can be recorded after all the earlier ones. */
  predicate Recordable(execute: nat -> StageExecution, i: nat) {
    Placed(i, execute(i)) && Reportable(Sum(execute, i))
  }

  /** Why the `i`-th answer, the first that cannot be recorded, ends the pipeline. */
  function Blame(execute: nat -> StageExecution, i: nat): ApplicationError {
    var outcome := execute(i);
    if outcome.Success? && (outcome.decision.Some? != (i == 3)) then MisplacedDecision
    else if outcome.Rejection? && !Placed(i, outcome.(diagnostics := [], evidence := [])) then InconsistentRejection
    else if !Reportable(Sum(execute, i)) then DomainFault(DomainError.OutOfRange)
    else DomainFault(TooManyItems)
  }

  lemma RecordFails(execute: nat -> StageExecution, i: nat)
    requires i < 5 && Proceeds(execute, i) && !Recordable(execute, i)
    ensures Recorded(GatheredBefore(execute, i), ALGORITHM_BATCH_STAGES, i, execute(i)) == Err(Blame(execute, i))
  {
    hide Totals, Sum, ResourceUsage.Valid, Reportable, ResourceUsage.CheckedAdd;
    SumIsTotal(execute, i);
    ReportableIsValid(Sum(execute, i));
    assert UsagesOf(execute, i + 1) == UsagesOf(execute, i) + [execute(i).usage];
    CheckedAddIsTotal(UsagesOf(execute, i), execute(i).usage);
  }

  lemma {:induction false} FailsAt(request: EvaluationRequest, provenance: ExecutionProvenance,
                                   execute: nat -> StageExecution, from: nat, i: nat)
    requires request.plan.stages == ALGORITHM_BATCH_STAGES && from <= i < 5 && Proceeds(execute, from)
    requires forall j :: 0 <= j < i ==> execute(j).Success? && Recordable(execute, j)
    requires !Recordable(execute, i)
    ensures EvaluateFrom(request, provenance, execute, from, GatheredBefore(execute, from)) == Err(Blame(execute, i))
    decreases i - from
  {
    hide Recorded, Totals, Blame, Recordable, StageFits, ResourceUsage.Valid;
    if from == i {
      RecordFails(execute, i);
    } else {
      RecordsStage(execute, from);
      RecordableRecords(execute, from);
      FailsAt(request, provenance, execute, from + 1, i);
    }
  }

  lemma RecordableRecords(execute: nat -> StageExecution, i: nat)
    requires i < 5 && Recordable(execute, i)
    ensures StageFits(ALGORITHM_BATCH_STAGES[i], execute(i)) && Totals(UsagesOf(execute, i + 1)).Valid()
  {
    hide Totals, Sum, Placed, StageFits, ResourceUsage.Valid, Reportable;
    PlacedFits(i, execute(i));
    SumIsTotal(execute, i);
    ReportableIsValid(Sum(execute, i));
  }

  /** For every request and every executor: the pipeline succeeds exactly when the executor supports what is required,
      may be asked for this provenance, and every answer up to the stop can be recorded; the result is then the one
      written out above. Otherwise the first answer that cannot be recorded is to blame. */
  lemma EvaluationDecides(request: EvaluationRequest, executor: Executor, k: nat)
    requires request.Valid() && StopsWith(executor.execute, k) && forall j: nat :: executor.execute(j).Constructed()
    ensures var r := Evaluated(request, executor);
            if exists c :: c in request.requiredCapabilities && !executor.supports(c) then r == Err(UnsupportedCapability)
            else if executor.eligible && (executor.kind == DevelopmentMock || executor.node.None?) then
              r == Err(DomainFault(IneligibleProvenance))
            else
              && (r.Ok? <==> forall i :: 0 <= i < 5 && i <= k ==> Recordable(executor.execute, i))
              && (r.Ok? ==> (k == 5 ==> executor.execute(3).decision.Some?)
                            && r.value == Reported(request, executor, k))
              && (forall i :: 0 <= i < 5 && i <= k && !Recordable(executor.execute, i)
                              && (forall j :: 0 <= j < i ==> Recordable(executor.execute, j)) ==>
                    r == Err(Blame(executor.execute, i)))
  {
    hide StageExecution.Constructed, Acceptable, Expected, EvaluateFrom, Reported, Recordable, Blame;
    if !(exists c :: c in request.requiredCapabilities && !executor.supports(c)) {
      EvaluateExactly(request, executor);
      RecordableIsAcceptable(executor.execute, k);
      if Acceptable(executor.execute) { ReportedIsExpected(request, executor, k); }
      var provenance := ExecutionProvenance(executor.kind, executor.eligible, request.runtime.digest, executor.node);
      StartsEmpty(executor.execute);
      forall i | 0 <= i < 5 && i <= k && !Recordable(executor.execute, i)
                 && forall j :: 0 <= j < i ==> Recordable(executor.execute, j)
        ensures EvaluateFrom(request, provenance, executor.execute, 0, NO_PROGRESS) == Err(Blame(executor.execute, i))
      {
        FailsAt(request, provenance, executor.execute, 0, i);
      }
    }
  }

  lemma RecordableIsAcceptable(execute: nat -> StageExecution, k: nat)
    requires StopsWith(execute, k)
    ensures Acceptable(execute) <==> forall i :: 0 <= i < 5 && i <= k ==> Recordable(execute, i)
  {
    hide Totals, Sum, Placed, StageFits, ResourceUsage.Valid, Reportable;
    StopIsUnique(execute, k);
    var n := StagesRun(execute);
    forall i | 0 <= i < 5
      ensures Placed(i, execute(i)) <==> StageFits(ALGORITHM_BATCH_STAGES[i], execute(i))
      ensures Reportable(Sum(execute, i)) <==> Totals(UsagesOf(execute, i + 1)).Valid()
    {
      PlacedFits(i, execute(i));
      SumIsTotal(execute, i);
      ReportableIsValid(Sum(execute, i));
    }
    assert Recordable(execute, n - 1) <==>
           StageFits(ALGORITHM_BATCH_STAGES[n - 1], execute(n - 1)) && Totals(UsagesOf(execute, n)).Valid();
    if Acceptable(execute) {
      forall i | 0 <= i < n ensures Recordable(execute, i) { TotalsGrow(execute, i + 1, n); }
    }
    if forall i :: 0 <= i < 5 && i <= k ==> Recordable(execute, i) {
      forall i | 0 <= i < n ensures StageFits(ALGORITHM_BATCH_STAGES[i], execute(i)) {
        assert Recordable(execute, i);
      }
    }
  }

  lemma StartsEmpty(execute: nat -> StageExecution)
    ensures Proceeds(execute, 0) && GatheredBefore(execute, 0) == NO_PROGRESS
  {
  }
}
