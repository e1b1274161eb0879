/** The evaluation pipeline: it drives an arbitrary executor over the stage plan and builds the result as it goes. */
module Pipeline {
  import opened Prelude
  import opened Tokens
  import opened Domain
  import opened Results

  datatype ApplicationError =
    | UnsupportedCapability
    | InvalidDecision
    | MisplacedDecision
    | InconsistentRejection
    | MissingDecision
    | DomainFault(error: DomainError)

  datatype Decision = Decision(verdict: Verdict, score: Score)

  function NewDecision(verdict: Verdict, score: Score): Result<Decision, ApplicationError> {
    if verdict in {Accepted, WrongAnswer} then Ok(Decision(verdict, score)) else Err(InvalidDecision)
  }

  datatype StageExecution =
    | Success(usage: ResourceUsage, diagnostics: seq<Diagnostic>, evidence: seq<EvidenceRef>,
              decision: Option<Decision>)
    | Rejection(verdict: Verdict, usage: ResourceUsage, diagnostics: seq<Diagnostic>, evidence: seq<EvidenceRef>)
    | Failure(usage: ResourceUsage, diagnostics: seq<Diagnostic>, evidence: seq<EvidenceRef>)
    | Cancellation(usage: ResourceUsage, diagnostics: seq<Diagnostic>, evidence: seq<EvidenceRef>)
  {
    /** What the constructors of the parts guarantee; an executor cannot get around them. */
    predicate Constructed() {
      && usage.Valid()
      && (forall i :: 0 <= i < |diagnostics| ==> diagnostics[i].Valid())
      && (forall i :: 0 <= i < |evidence| ==> evidence[i].Valid())
      && (Success? && decision.Some? ==>
            decision.value.verdict in {Accepted, WrongAnswer} && decision.value.score.Valid())
    }
  }

  /** What an executor says about itself; its behaviour is the outcome of its n-th call. */
  datatype Executor = Executor(
    kind: ExecutorKind, eligible: bool, node: Option<Id>, supports: string -> bool, execute: nat -> StageExecution)

  datatype Terminal = Terminal(status: EvaluationStatus, verdict: Verdict, score: Score)

  const ZERO_SCORE: Score := Score(0, 1)

  /** `validate_rejection`. */
  predicate RejectionFits(stage: StageKind, verdict: Verdict) {
    match stage
    case Build => verdict == CompileError
    case Run => verdict in {RuntimeError, TimeLimitExceeded, MemoryLimitExceeded, OutputLimitExceeded}
    case _ => false
  }

  // ---- The pipeline on values.

  datatype Progress = Progress(reports: seq<StageReport>, usage: ResourceUsage, decision: Option<Decision>)

  function Skips(stages: seq<StageKind>): seq<StageReport> {
    seq(|stages|, i requires 0 <= i < |stages| => StageReport(stages[i], Skipped, NO_USAGE, [], []))
  }

  function StatusOf(outcome: StageExecution): StageStatus {
    match outcome
    case Success(_, _, _, _) => Succeeded
    case Rejection(_, _, _, _) => StageStatus.Failed
    case Failure(_, _, _) => StageStatus.Failed
    case Cancellation(_, _, _) => StageStatus.Cancelled
  }

  function TerminalOf(outcome: StageExecution): Option<Terminal> {
    match outcome
    case Success(_, _, _, _) => None
    case Rejection(verdict, _, _, _) => Some(Terminal(StatusCompleted, verdict, ZERO_SCORE))
    case Failure(_, _, _) => Some(Terminal(StatusFailed, SystemError, ZERO_SCORE))
    case Cancellation(_, _, _) => Some(Terminal(StatusCancelled, VerdictCancelled, ZERO_SCORE))
  }

  /** The checks that `record` makes before it touches the run. */
  function Placement(stage: StageKind, outcome: StageExecution): Result<(), ApplicationError> {
    if outcome.Success? && (stage == Check) != outcome.decision.Some? then Err(MisplacedDecision)
    else if outcome.Rejection? && !RejectionFits(stage, outcome.verdict) then Err(InconsistentRejection)
    else Ok(())
  }

  /** `EvaluationRun::record`. */
  function Recorded(p: Progress, stages: seq<StageKind>, index: nat, outcome: StageExecution)
    : Result<(Progress, Option<Terminal>), ApplicationError>
    requires index < |stages|
  {
    var stage := stages[index];
    match Placement(stage, outcome)
    case Err(error) => Err(error)
    case Ok(_) =>
      match p.usage.CheckedAdd(outcome.usage)
      case Err(error) => Err(DomainFault(error))
      case Ok(usage) =>
        match NewStageReport(stage, StatusOf(outcome), outcome.usage, outcome.diagnostics, outcome.evidence)
        case Err(error) => Err(DomainFault(error))
        case Ok(report) =>
          var decision := if stage != Check then p.decision
                          else if outcome.Success? then outcome.decision else None;
          var terminal := TerminalOf(outcome);
          var skips := if terminal.Some? then Skips(stages[index + 1..]) else [];
          Ok((Progress(p.reports + [report] + skips, usage, decision), terminal))
  }

  /** `EvaluationRun::finish`. */
  function Finished(request: EvaluationRequest, provenance: ExecutionProvenance, p: Progress, t: Terminal)
    : Result<EvaluationResult, ApplicationError>
  {
    match NewResult(EvaluationResult(IdentityOf(request), t.status, t.verdict, t.score, p.reports, p.usage, [], [],
                                     provenance))
    case Err(error) => Err(DomainFault(error))
    case Ok(result) => Ok(result)
  }

  /** `EvaluationRun::finish_success`. */
  function FinishedSuccess(request: EvaluationRequest, provenance: ExecutionProvenance, p: Progress)
    : Result<EvaluationResult, ApplicationError>
  {
    match p.decision
    case None => Err(MissingDecision)
    case Some(decision) =>
      Finished(request, provenance, p, Terminal(StatusCompleted, decision.verdict, decision.score))
  }

  /** The stage loop of `evaluate` from stage `index` on. */
  function EvaluateFrom(request: EvaluationRequest, provenance: ExecutionProvenance, execute: nat -> StageExecution,
                        index: nat, p: Progress): Result<EvaluationResult, ApplicationError>
    decreases |request.plan.stages| - index
  {
    if index >= |request.plan.stages| then FinishedSuccess(request, provenance, p)
    else
      match Recorded(p, request.plan.stages, index, execute(index))
      case Err(error) => Err(error)
      case Ok((next, Some(terminal))) => Finished(request, provenance, next, terminal)
      case Ok((next, None)) => EvaluateFrom(request, provenance, execute, index + 1, next)
  }

  const NO_PROGRESS: Progress := Progress([], NO_USAGE, None)

  /** `evaluate`. */
  function Evaluated(request: EvaluationRequest, executor: Executor): Result<EvaluationResult, ApplicationError> {
    if exists c :: c in request.requiredCapabilities && !executor.supports(c) then Err(UnsupportedCapability)
    else
      match NewProvenance(executor.kind, executor.eligible, request.runtime.digest, executor.node)
      case Err(error) => Err(DomainFault(error))
      case Ok(provenance) => EvaluateFrom(request, provenance, executor.execute, 0, NO_PROGRESS)
  }

  // ---- The pipeline as it runs.

  class EvaluationRun {
    const request: EvaluationRequest
    const provenance: ExecutionProvenance
    var reports: seq<StageReport>
    var usage: ResourceUsage
    var decision: Option<Decision>

    constructor (request: EvaluationRequest, provenance: ExecutionProvenance)
      ensures this.request == request && this.provenance == provenance && Gathered() == NO_PROGRESS
    {
      this.request := request;
      this.provenance := provenance;
      reports, usage, decision := [], NO_USAGE, None;
    }

    function Gathered(): Progress
      reads this
    {
      Progress(reports, usage, decision)
    }

    /** `append_skipped_reports`; a report without diagnostics or evidence always constructs. */
    method AppendSkippedReports(start: nat)
      requires start <= |request.plan.stages|
      modifies this`reports
      ensures reports == old(reports) + Skips(request.plan.stages[start..])
    {
      var stages := request.plan.stages[start..];
      for i := 0 to |stages|
        invariant reports == old(reports) + Skips(stages[..i])
      {
        var report := NewStageReport(stages[i], Skipped, NO_USAGE, [], []);
        reports := reports + [report.value];
        assert Skips(stages[..i + 1]) == Skips(stages[..i]) + [report.value];
      }
      assert stages[..|stages|] == stages;
    }

    method Record(index: nat, outcome: StageExecution) returns (r: Result<Option<Terminal>, ApplicationError>)
      requires index < |request.plan.stages|
      modifies this
      ensures match Recorded(old(Gathered()), request.plan.stages, index, outcome)
              case Err(error) => r == Err(error)
              case Ok((progress, terminal)) => r == Ok(terminal) && Gathered() == progress
    {
      var stage := request.plan.stages[index];
      var placement := Placement(stage, outcome);
      if placement.Err? {
        return Err(placement.error);
      }
      var total := usage.CheckedAdd(outcome.usage);
      if total.Err? {
        return Err(DomainFault(total.error));
      }
      usage := total.value;
      var report := NewStageReport(stage, StatusOf(outcome), outcome.usage, outcome.diagnostics, outcome.evidence);
      if report.Err? {
        return Err(DomainFault(report.error));
      }
      reports := reports + [report.value];
      if stage == Check {
        decision := if outcome.Success? then outcome.decision else None;
      }
      var terminal := TerminalOf(outcome);
      if terminal.Some? {
        AppendSkippedReports(index + 1);
      }
      return Ok(terminal);
    }

    method Finish(t: Terminal) returns (r: Result<EvaluationResult, ApplicationError>)
      ensures r == Finished(request, provenance, Gathered(), t)
    {
      return Finished(request, provenance, Gathered(), t);
    }

    method FinishSuccess() returns (r: Result<EvaluationResult, ApplicationError>)
      ensures r == FinishedSuccess(request, provenance, Gathered())
    {
      if decision.None? {
        return Err(MissingDecision);
      }
      r := Finish(Terminal(StatusCompleted, decision.value.verdict, decision.value.score));
    }
  }

  method Evaluate(request: EvaluationRequest, executor: Executor) returns (r: Result<EvaluationResult, ApplicationError>)
    ensures r == Evaluated(request, executor)
  {
    if exists c :: c in request.requiredCapabilities && !executor.supports(c) {
      return Err(UnsupportedCapability);
    }
    var provenance := NewProvenance(executor.kind, executor.eligible, request.runtime.digest, executor.node);
    if provenance.Err? {
      return Err(DomainFault(provenance.error));
    }
    var run := new EvaluationRun(request, provenance.value);
    for index := 0 to |request.plan.stages|
      invariant run.request == request && run.provenance == provenance.value
      invariant EvaluateFrom(request, provenance.value, executor.execute, 0, NO_PROGRESS) ==
                EvaluateFrom(request, provenance.value, executor.execute, index, run.Gathered())
    {
      var terminal := run.Record(index, executor.execute(index));
      if terminal.Err? {
        return Err(terminal.error);
      }
      if terminal.value.Some? {
        r := run.Finish(terminal.value.value);
        return;
      }
    }
    r := run.FinishSuccess();
  }
}
