/** Results: the constructors with a rule, the domain validator, and the plain description that both validators are
    measured against. */
module Results {
  import opened Prelude
  import opened Tokens
  import opened Domain

  // ---- Constructors.

  function NewProvenance(kind: ExecutorKind, eligible: bool, digest: string, node: Option<Id>)
    : Result<ExecutionProvenance, DomainError>
  {
    if kind == DevelopmentMock && eligible then Err(IneligibleProvenance)
    else if eligible && node.None? then Err(IneligibleProvenance)
    else Ok(ExecutionProvenance(kind, eligible, digest, node))
  }

  function NewScore(earned: nat, possible: nat): Result<Score, DomainError> {
    if possible == 0 || earned > possible then Err(InvalidScore) else Ok(Score(earned, possible))
  }

  function NewStageReport(stage: StageKind, status: StageStatus, usage: ResourceUsage, diagnostics: seq<Diagnostic>,
                          evidence: seq<EvidenceRef>): Result<StageReport, DomainError>
  {
    if |diagnostics| > MAX_STAGE_DIAGNOSTICS || |evidence| > MAX_STAGE_EVIDENCE then Err(TooManyItems)
    else Ok(StageReport(stage, status, usage, diagnostics, evidence))
  }

  // ---- The domain validator.

  function Statuses(stages: seq<StageReport>): seq<StageStatus> {
    seq(|stages|, i requires 0 <= i < |stages| => stages[i].status)
  }

  function Kinds(stages: seq<StageReport>): seq<StageKind> {
    seq(|stages|, i requires 0 <= i < |stages| => stages[i].stage)
  }

  /** The first index that holds the item. */
  function Position<T(==)>(items: seq<T>, item: T): (p: Option<nat>)
    ensures p.Some? ==> p.value < |items| && items[p.value] == item && item !in items[..p.value]
    ensures p.None? ==> item !in items
  {
    if items == [] then None
    else if items[0] == item then Some(0)
    else
      match Position(items[1..], item)
      case None => None
      case Some(p) =>
        assert items[..p + 1] == [items[0]] + items[1..][..p];
        Some(p + 1)
  }

  predicate AllAre(statuses: seq<StageStatus>, status: StageStatus) {
    forall i :: 0 <= i < |statuses| ==> statuses[i] == status
  }

  /** `validate_terminal_stage_pattern`. */
  predicate TerminalStagePattern(stages: seq<StageReport>, terminal: StageStatus) {
    var statuses := Statuses(stages);
    match Position(statuses, terminal)
    case None => false
    case Some(p) => AllAre(statuses[..p], Succeeded) && AllAre(statuses[p + 1..], Skipped)
  }

  /** `validate_rejected_stage`. */
  predicate RejectedStage(stages: seq<StageReport>, rejected: StageKind) {
    var statuses := Statuses(stages);
    match Position(Kinds(stages), rejected)
    case None => false
    case Some(p) =>
      statuses[p] == StageStatus.Failed && AllAre(statuses[..p], Succeeded) && AllAre(statuses[p + 1..], Skipped)
  }

  /** `validate_terminal_semantics`. */
  predicate TerminalSemantics(status: EvaluationStatus, verdict: Verdict, score: Score, stages: seq<StageReport>) {
    match status
    case StatusCompleted =>
      (match verdict
       case Accepted => AllAre(Statuses(stages), Succeeded)
       case WrongAnswer => AllAre(Statuses(stages), Succeeded)
       case CompileError => RejectedStage(stages, Build) && score.earned == 0
       case SystemError => false
       case VerdictCancelled => false
       case _ => RejectedStage(stages, Run) && score.earned == 0)
    case StatusFailed =>
      verdict == SystemError && score.earned == 0 && TerminalStagePattern(stages, StageStatus.Failed)
    case StatusCancelled =>
      verdict == VerdictCancelled && score.earned == 0 && TerminalStagePattern(stages, StageStatus.Cancelled)
  }

  /** `EvaluationResult::new`. */
  function NewResult(parts: EvaluationResult): Result<EvaluationResult, DomainError> {
    if |parts.stages| > MAX_STAGES || parts.stages == [] then Err(InvalidResult)
    else if Kinds(parts.stages) != ALGORITHM_BATCH_STAGES then Err(InvalidResult)
    else if |parts.diagnostics| > MAX_RESULT_DIAGNOSTICS then Err(TooManyItems)
    else if |parts.evidence| > MAX_RESULT_EVIDENCE then Err(TooManyItems)
    else if parts.provenance.runtimeDigest != parts.identity.runtimeDigest then Err(ProvenanceDigestMismatch)
    else if !TerminalSemantics(parts.status, parts.verdict, parts.score, parts.stages) then Err(InvalidResult)
    else Ok(parts)
  }

  /** What the types and constructors of the parts guarantee. */
  predicate PartsValid(parts: EvaluationResult) {
    && parts.identity.Valid() && parts.score.Valid() && parts.usage.Valid() && parts.provenance.Valid()
    && (forall i :: 0 <= i < |parts.stages| ==> parts.stages[i].Valid())
    && (forall i :: 0 <= i < |parts.diagnostics| ==> parts.diagnostics[i].Valid())
    && (forall i :: 0 <= i < |parts.evidence| ==> parts.evidence[i].Valid())
  }

  predicate ResultValid(result: EvaluationResult) {
    PartsValid(result) && NewResult(result).Ok?
  }

  // ---- The plain description.

  /** Everything before stage `k` succeeded, `k` ended the run, everything after was skipped. */
  predicate StopsAt(statuses: seq<StageStatus>, k: nat, terminal: StageStatus) {
    && k < |statuses| && statuses[k] == terminal
    && (forall i :: 0 <= i < k ==> statuses[i] == Succeeded)
    && (forall i :: k < i < |statuses| ==> statuses[i] == Skipped)
  }

  /** Which outcomes are legitimate: a decision after five successes, a compile error at the second stage, a rejected
      run at the third, a platform failure or a cancellation anywhere. */
  ghost predicate Legitimate(status: EvaluationStatus, verdict: Verdict, earned: nat, statuses: seq<StageStatus>) {
    match status
    case StatusCompleted =>
      || (verdict in {Accepted, WrongAnswer} && AllAre(statuses, Succeeded))
      || (verdict == CompileError && earned == 0 && StopsAt(statuses, 1, StageStatus.Failed))
      || (verdict in {RuntimeError, TimeLimitExceeded, MemoryLimitExceeded, OutputLimitExceeded} && earned == 0
          && StopsAt(statuses, 2, StageStatus.Failed))
    case StatusFailed =>
      verdict == SystemError && earned == 0 && exists k :: StopsAt(statuses, k, StageStatus.Failed)
    case StatusCancelled =>
      verdict == VerdictCancelled && earned == 0 && exists k :: StopsAt(statuses, k, StageStatus.Cancelled)
  }

  lemma StopsAtPosition(statuses: seq<StageStatus>, terminal: StageStatus, k: nat)
    requires terminal != Succeeded && StopsAt(statuses, k, terminal)
    ensures Position(statuses, terminal) == Some(k)
  {
    var p := Position(statuses, terminal);
    assert statuses[k] in statuses;
    assert p.Some? && forall i :: 0 <= i < p.value ==> statuses[i] in statuses[..p.value];
  }

  lemma PatternIsStop(stages: seq<StageReport>, terminal: StageStatus)
    requires terminal == StageStatus.Failed || terminal == StageStatus.Cancelled
    ensures TerminalStagePattern(stages, terminal) <==> exists k :: StopsAt(Statuses(stages), k, terminal)
  {
    var statuses := Statuses(stages);
    if TerminalStagePattern(stages, terminal) {
      var p := Position(statuses, terminal).value;
      forall i | 0 <= i < p ensures statuses[i] == Succeeded {
        assert statuses[..p][i] == statuses[i];
      }
      forall i | p < i < |statuses| ensures statuses[i] == Skipped {
        assert statuses[p + 1..][i - p - 1] == statuses[i];
      }
      assert StopsAt(statuses, p, terminal);
    }
    if k :| StopsAt(statuses, k, terminal) {
      StopsAtPosition(statuses, terminal, k);
    }
  }

  lemma RejectedIsStop(stages: seq<StageReport>, rejected: StageKind, k: nat)
    requires Kinds(stages) == ALGORITHM_BATCH_STAGES
    requires (rejected == Build && k == 1) || (rejected == Run && k == 2)
    ensures RejectedStage(stages, rejected) <==> StopsAt(Statuses(stages), k, StageStatus.Failed)
  {
    var statuses := Statuses(stages);
    var kinds := Kinds(stages);
    var p := Position(kinds, rejected);
    assert kinds[k] == rejected && kinds[k] in kinds;
    assert p.Some? && forall i :: 0 <= i < p.value ==> kinds[i] in kinds[..p.value];
    assert p == Some(k);
    if RejectedStage(stages, rejected) {
      forall i | 0 <= i < k ensures statuses[i] == Succeeded {
        assert statuses[..k][i] == statuses[i];
      }
      forall i | k < i < |statuses| ensures statuses[i] == Skipped {
        assert statuses[k + 1..][i - k - 1] == statuses[i];
      }
    }
  }

  /** The domain validator accepts exactly the legitimate outcomes. */
  lemma DomainValidatorExactly(status: EvaluationStatus, verdict: Verdict, score: Score, stages: seq<StageReport>)
    requires Kinds(stages) == ALGORITHM_BATCH_STAGES
    ensures TerminalSemantics(status, verdict, score, stages) <==>
            Legitimate(status, verdict, score.earned, Statuses(stages))
  {
    hide RejectedStage, TerminalStagePattern, StopsAt;
    RejectedIsStop(stages, Build, 1);
    RejectedIsStop(stages, Run, 2);
    PatternIsStop(stages, StageStatus.Failed);
    PatternIsStop(stages, StageStatus.Cancelled);
  }

  /** What the constructor of a result answers, for any parts: the five stages in order, bounded lists, one runtime digest
      and a legitimate outcome are asked for in this order. */
  lemma NewResultDecides(parts: EvaluationResult)
    ensures NewResult(parts) ==
            if |parts.stages| != 5
               || (parts.stages[0].stage, parts.stages[1].stage, parts.stages[2].stage, parts.stages[3].stage,
                   parts.stages[4].stage) != (Prepare, Build, Run, Check, Aggregate) then Err(InvalidResult)
            else if |parts.diagnostics| > 64 || |parts.evidence| > 256 then Err(TooManyItems)
            else if parts.provenance.runtimeDigest != parts.identity.runtimeDigest then Err(ProvenanceDigestMismatch)
            else if !Legitimate(parts.status, parts.verdict, parts.score.earned, Statuses(parts.stages)) then
              Err(InvalidResult)
            else Ok(parts)
  {
    hide TerminalSemantics, Legitimate;
    var kinds := Kinds(parts.stages);
    if |parts.stages| == 5 {
      assert kinds == [kinds[0], kinds[1], kinds[2], kinds[3], kinds[4]];
      if kinds == ALGORITHM_BATCH_STAGES {
        assert kinds[0] == Prepare && kinds[1] == Build && kinds[2] == Run && kinds[3] == Check
               && kinds[4] == Aggregate;
        DomainValidatorExactly(parts.status, parts.verdict, parts.score, parts.stages);
      }
    } else {
      assert |kinds| != |ALGORITHM_BATCH_STAGES|;
    }
  }

  // ---- One-shot totals.

  /** Sums of the three cumulative counters and the maximum of the memory peak, without any bound. */
  function Totals(usages: seq<ResourceUsage>): ResourceUsage {
    if usages == [] then NO_USAGE
    else
      var rest := Totals(usages[..|usages| - 1]);
      var last := usages[|usages| - 1];
      ResourceUsage(rest.cpuTimeMs + last.cpuTimeMs, rest.wallTimeMs + last.wallTimeMs,
                    if rest.memoryPeakBytes < last.memoryPeakBytes then last.memoryPeakBytes else rest.memoryPeakBytes,
                    rest.outputBytes + last.outputBytes)
  }

  function Usages(stages: seq<StageReport>): seq<ResourceUsage> {
    seq(|stages|, i requires 0 <= i < |stages| => stages[i].usage)
  }

  /** One more usage: the checked sum is the total whenever the total is in bounds, and fails otherwise. */
  lemma CheckedAddIsTotal(usages: seq<ResourceUsage>, next: ResourceUsage)
    ensures Totals(usages + [next]).Valid() ==> Totals(usages).Valid()
    ensures Totals(usages).CheckedAdd(next) ==
            if Totals(usages + [next]).Valid() then Ok(Totals(usages + [next])) else Err(OutOfRange)
  {
    assert (usages + [next])[..|usages|] == usages;
  }

  /** The incremental sum, one checked addition after the other. */
  function Folded(usages: seq<ResourceUsage>): Result<ResourceUsage, DomainError> {
    if usages == [] then Ok(NO_USAGE)
    else
      match Folded(usages[..|usages| - 1])
      case Err(error) => Err(error)
      case Ok(sum) => sum.CheckedAdd(usages[|usages| - 1])
  }

  /** The fold succeeds exactly when the one-shot totals are in bounds, and then it is the totals. */
  lemma {:induction false} FoldExactly(usages: seq<ResourceUsage>)
    ensures Folded(usages) == if Totals(usages).Valid() then Ok(Totals(usages)) else Err(OutOfRange)
  {
    if usages != [] {
      FoldExactly(usages[..|usages| - 1]);
      assert usages == usages[..|usages| - 1] + [usages[|usages| - 1]];
      CheckedAddIsTotal(usages[..|usages| - 1], usages[|usages| - 1]);
    }
  }

  lemma {:induction false} TotalsOfIdle(usages: seq<ResourceUsage>, idle: nat)
    ensures Totals(usages + seq(idle, i => NO_USAGE)) == Totals(usages)
  {
    var all := usages + seq(idle, i => NO_USAGE);
    if idle == 0 {
      assert all == usages;
    } else {
      assert all[..|all| - 1] == usages + seq(idle - 1, i => NO_USAGE);
      TotalsOfIdle(usages, idle - 1);
    }
  }
}
