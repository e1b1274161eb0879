/** The wire validator of results, written independently of the domain validator, and the proof that the two agree. */
module WireValidator {
  import opened Prelude
  import opened Tokens
  import opened Domain
  import opened Results
  import opened JsonValues
  import opened Wire
  import opened WireRequest
  import opened WireResult

  // ---- Aggregate usage.

  /** One stage added to the four counters; the reads and the overflow checks alternate. */
  function AddStageUsage(sum: ResourceUsage, stage: Json): Result<ResourceUsage, ProtocolError> {
    var report :- AsObject(stage);
    var usage :- ObjectField(report, NUsage);
    var cpuTimeMs :- U64Field(usage, NCpuTimeMs);
    if sum.cpuTimeMs + cpuTimeMs > U64_MAX then Err(SemanticViolation)
    else
      var wallTimeMs :- U64Field(usage, NWallTimeMs);
      if sum.wallTimeMs + wallTimeMs > U64_MAX then Err(SemanticViolation)
      else
        var memoryPeakBytes :- U64Field(usage, NMemoryPeakBytes);
        var outputBytes :- U64Field(usage, NOutputBytes);
        if sum.outputBytes + outputBytes > U64_MAX then Err(SemanticViolation)
        else
          Ok(ResourceUsage(sum.cpuTimeMs + cpuTimeMs, sum.wallTimeMs + wallTimeMs,
                           if sum.memoryPeakBytes < memoryPeakBytes then memoryPeakBytes else sum.memoryPeakBytes,
                           sum.outputBytes + outputBytes))
  }

  function AddStageUsages(stages: seq<Json>): Result<ResourceUsage, ProtocolError> {
    if stages == [] then Ok(NO_USAGE)
    else
      var sum :- AddStageUsages(stages[..|stages| - 1]);
      AddStageUsage(sum, stages[|stages| - 1])
  }

  function CompareUsage(result: Object, sum: ResourceUsage): Result<(), ProtocolError> {
    var aggregate :- ObjectField(result, NUsage);
    var cpuTimeMs :- U64Field(aggregate, NCpuTimeMs);
    if cpuTimeMs != sum.cpuTimeMs then Err(SemanticViolation)
    else
      var wallTimeMs :- U64Field(aggregate, NWallTimeMs);
      if wallTimeMs != sum.wallTimeMs then Err(SemanticViolation)
      else
        var memoryPeakBytes :- U64Field(aggregate, NMemoryPeakBytes);
        if memoryPeakBytes != sum.memoryPeakBytes then Err(SemanticViolation)
        else
          var outputBytes :- U64Field(aggregate, NOutputBytes);
          if outputBytes != sum.outputBytes then Err(SemanticViolation) else Ok(())
  }

  function AggregateUsage(result: Object, stages: seq<Json>): Result<(), ProtocolError> {
    var sum :- AddStageUsages(stages);
    CompareUsage(result, sum)
  }

  lemma {:induction false} FailureStays(stages: seq<Json>, i: nat)
    requires i <= |stages| && AddStageUsages(stages[..i]).Err?
    ensures AddStageUsages(stages) == AddStageUsages(stages[..i])
    decreases |stages|
  {
    if i == |stages| {
      assert stages[..i] == stages;
    } else {
      assert stages[..|stages| - 1][..i] == stages[..i];
      FailureStays(stages[..|stages| - 1], i);
    }
  }

  /** `validate_aggregate_usage`, with its four counters. */
  method ValidateAggregateUsage(result: Object, stages: seq<Json>) returns (r: Result<(), ProtocolError>)
    ensures r == AggregateUsage(result, stages)
  {
    var cpuTimeMs, wallTimeMs, memoryPeakBytes, outputBytes := 0, 0, 0, 0;
    for i := 0 to |stages|
      invariant cpuTimeMs >= 0 && wallTimeMs >= 0 && memoryPeakBytes >= 0 && outputBytes >= 0
      invariant AddStageUsages(stages[..i]) == Ok(ResourceUsage(cpuTimeMs, wallTimeMs, memoryPeakBytes, outputBytes))
    {
      assert stages[..i + 1][..i] == stages[..i];
      var sum := AddStageUsage(ResourceUsage(cpuTimeMs, wallTimeMs, memoryPeakBytes, outputBytes), stages[i]);
      if sum.Err? {
        FailureStays(stages, i + 1);
        return Err(sum.error);
      }
      cpuTimeMs, wallTimeMs := sum.value.cpuTimeMs, sum.value.wallTimeMs;
      memoryPeakBytes, outputBytes := sum.value.memoryPeakBytes, sum.value.outputBytes;
    }
    assert stages[..|stages|] == stages;
    r := CompareUsage(result, ResourceUsage(cpuTimeMs, wallTimeMs, memoryPeakBytes, outputBytes));
  }

  // ---- Stage order and statuses.

  const EXPECTED_STAGES: seq<string> := ["prepare", "build", "run", "check", "aggregate"]

  function StatusOfStage(stage: Json, expected: string): Result<string, ProtocolError> {
    var report :- AsObject(stage);
    var name :- StringField(report, NStage);
    if name != expected then Err(SemanticViolation) else StringField(report, NStatus)
  }

  function StatusesOfStages(stages: seq<Json>, expected: seq<string>): Result<seq<string>, ProtocolError>
    requires |stages| == |expected|
  {
    if stages == [] then Ok([])
    else
      var last := |stages| - 1;
      var statuses :- StatusesOfStages(stages[..last], expected[..last]);
      var status :- StatusOfStage(stages[last], expected[last]);
      Ok(statuses + [status])
  }

  /** `validate_terminal_pattern`. */
  predicate TerminalPattern(statuses: seq<string>, index: nat, terminal: string) {
    && index < |statuses| && statuses[index] == terminal
    && (forall i :: 0 <= i < index ==> statuses[i] == "succeeded")
    && (forall i :: index < i < |statuses| ==> statuses[i] == "skipped")
  }

  /** `validate_any_terminal_pattern`. */
  predicate AnyTerminalPattern(statuses: seq<string>, terminal: string) {
    match Position(statuses, terminal)
    case None => false
    case Some(index) => TerminalPattern(statuses, index, terminal)
  }

  const RUN_REJECTIONS: seq<string> :=
    ["runtime_error", "time_limit_exceeded", "memory_limit_exceeded", "output_limit_exceeded"]

  /** The pattern that a status and a verdict ask for. */
  predicate StatusesFit(statuses: seq<string>, status: string, verdict: string) {
    if status == "completed" && verdict in ["accepted", "wrong_answer"] then
      forall i :: 0 <= i < |statuses| ==> statuses[i] == "succeeded"
    else if status == "completed" && verdict == "compile_error" then TerminalPattern(statuses, 1, "failed")
    else if status == "completed" && verdict in RUN_REJECTIONS then TerminalPattern(statuses, 2, "failed")
    else if status == "failed" && verdict == "system_error" then AnyTerminalPattern(statuses, "failed")
    else if status == "cancelled" && verdict == "cancelled" then AnyTerminalPattern(statuses, "cancelled")
    else false
  }

  function ResultStages(stages: seq<Json>, status: string, verdict: string): Result<(), ProtocolError> {
    if |stages| != |EXPECTED_STAGES| then Err(SemanticViolation)
    else
      var statuses :- StatusesOfStages(stages, EXPECTED_STAGES);
      if StatusesFit(statuses, status, verdict) then Ok(()) else Err(SemanticViolation)
  }

  lemma {:induction false} StatusFailureStays(stages: seq<Json>, expected: seq<string>, i: nat)
    requires |stages| == |expected| && i <= |stages| && StatusesOfStages(stages[..i], expected[..i]).Err?
    ensures StatusesOfStages(stages, expected) == StatusesOfStages(stages[..i], expected[..i])
    decreases |stages|
  {
    if i == |stages| {
      assert stages[..i] == stages && expected[..i] == expected;
    } else {
      var last := |stages| - 1;
      assert stages[..last][..i] == stages[..i] && expected[..last][..i] == expected[..i];
      StatusFailureStays(stages[..last], expected[..last], i);
    }
  }

  /** `validate_result_stages`, collecting the statuses in order. */
  method ValidateResultStages(stages: seq<Json>, status: string, verdict: string)
    returns (r: Result<(), ProtocolError>)
    ensures r == ResultStages(stages, status, verdict)
  {
    if |stages| != |EXPECTED_STAGES| {
      return Err(SemanticViolation);
    }
    var statuses: seq<string> := [];
    for i := 0 to |stages|
      invariant StatusesOfStages(stages[..i], EXPECTED_STAGES[..i]) == Ok(statuses)
    {
      assert stages[..i + 1][..i] == stages[..i] && EXPECTED_STAGES[..i + 1][..i] == EXPECTED_STAGES[..i];
      var next := StatusOfStage(stages[i], EXPECTED_STAGES[i]);
      if next.Err? {
        StatusFailureStays(stages, EXPECTED_STAGES, i + 1);
        return Err(next.error);
      }
      statuses := statuses + [next.value];
    }
    assert stages[..|stages|] == stages && EXPECTED_STAGES[..|stages|] == EXPECTED_STAGES;
    return if StatusesFit(statuses, status, verdict) then Ok(()) else Err(SemanticViolation);
  }

  // ---- The whole validator.

  /** The status and verdict rules that come before the stages. */
  predicate StatusFits(status: string, verdict: string, earned: nat) {
    && status in ["completed", "failed", "cancelled"]
    && (status == "completed" ==> verdict !in ["cancelled", "system_error"])
    && (status == "failed" ==> verdict == "system_error" && earned == 0)
    && (status == "cancelled" ==> verdict == "cancelled" && earned == 0)
    && (status == "completed" && (verdict == "compile_error" || verdict in RUN_REJECTIONS) ==> earned == 0)
  }

  function ResultSemantics(value: Json): Result<(), ProtocolError> {
    var result :- AsObject(value);
    var status :- StringField(result, NStatus);
    var verdict :- StringField(result, NVerdict);
    var score :- ObjectField(result, NScore);
    var earned :- U64Field(score, NEarned);
    var possible :- U64Field(score, NPossible);
    var stages :- ArrayField(result, NStages);
    var provenance :- ObjectField(result, NProvenance);
    if earned > possible || !StatusFits(status, verdict, earned) then Err(SemanticViolation)
    else
      var _ :- ResultStages(stages, status, verdict);
      var _ :- AggregateUsage(result, stages);
      var kind :- StringField(provenance, NExecutorKind);
      match BoolField(provenance, NProductionEligible)
      case Err(error) => Err(if NProductionEligible in provenance then SemanticViolation else error)
      case Ok(eligible) =>
        if eligible && (kind == "development_mock" || NNodeId !in provenance) then Err(SemanticViolation) else Ok(())
  }

  /** `validate_result_semantics`, with its two loops. */
  method ValidateResultSemantics(value: Json) returns (r: Result<(), ProtocolError>)
    ensures r == ResultSemantics(value)
  {
    var result :- AsObject(value);
    var status :- StringField(result, NStatus);
    var verdict :- StringField(result, NVerdict);
    var score :- ObjectField(result, NScore);
    var earned :- U64Field(score, NEarned);
    var possible :- U64Field(score, NPossible);
    var stages :- ArrayField(result, NStages);
    var provenance :- ObjectField(result, NProvenance);
    if earned > possible || !StatusFits(status, verdict, earned) {
      return Err(SemanticViolation);
    }
    r := ValidateResultStages(stages, status, verdict);
    if r.Err? {
      return;
    }
    r := ValidateAggregateUsage(result, stages);
    if r.Err? {
      return;
    }
    var kind :- StringField(provenance, NExecutorKind);
    var flag := Field(provenance, NProductionEligible);
    if flag.Err? {
      return Err(flag.error);
    }
    if !flag.value.JBool? {
      return Err(SemanticViolation);
    }
    if flag.value.flag && (kind == "development_mock" || NNodeId !in provenance) {
      return Err(SemanticViolation);
    }
    return Ok(());
  }

  // ---- What the wire validator accepts among converted results.

  lemma StageNameIs(stage: StageKind, k: nat)
    requires k < 5
    ensures StageText(stage) == EXPECTED_STAGES[k] <==> stage == ALGORITHM_BATCH_STAGES[k]
  {
    assert EXPECTED_STAGES[k] == StageText(ALGORITHM_BATCH_STAGES[k]);
    StageTextInverts(stage);
    StageTextInverts(ALGORITHM_BATCH_STAGES[k]);
  }

  lemma StageStatusIs(status: StageStatus)
    ensures StageStatusText(status) == "succeeded" <==> status == Succeeded
    ensures StageStatusText(status) == "failed" <==> status == StageStatus.Failed
    ensures StageStatusText(status) == "cancelled" <==> status == StageStatus.Cancelled
    ensures StageStatusText(status) == "skipped" <==> status == Skipped
  {
    hide StageStatusFromText;
    StageStatusTextInverts(status);
    StageStatusTextInverts(Succeeded);
    StageStatusTextInverts(StageStatus.Failed);
    StageStatusTextInverts(StageStatus.Cancelled);
    StageStatusTextInverts(Skipped);
  }

  lemma StatusIs(status: EvaluationStatus)
    ensures StatusText(status) == "completed" <==> status == StatusCompleted
    ensures StatusText(status) == "failed" <==> status == StatusFailed
    ensures StatusText(status) == "cancelled" <==> status == StatusCancelled
  {
    hide StatusFromText;
    StatusTextInverts(status);
    StatusTextInverts(StatusCompleted);
    StatusTextInverts(StatusFailed);
    StatusTextInverts(StatusCancelled);
  }

  lemma VerdictIs(verdict: Verdict, other: Verdict)
    ensures VerdictText(verdict) == VerdictText(other) <==> verdict == other
  {
    hide VerdictFromText;
    VerdictTextInverts(verdict);
    VerdictTextInverts(other);
  }

  lemma VerdictGroups(v: Verdict)
    ensures VerdictText(v) in ["accepted", "wrong_answer"] <==> v in {Accepted, WrongAnswer}
    ensures VerdictText(v) == "compile_error" <==> v == CompileError
    ensures VerdictText(v) in RUN_REJECTIONS <==>
              v in {RuntimeError, TimeLimitExceeded, MemoryLimitExceeded, OutputLimitExceeded}
    ensures VerdictText(v) == "system_error" <==> v == SystemError
    ensures VerdictText(v) == "cancelled" <==> v == VerdictCancelled
  {
    VerdictIs(v, Accepted);
    VerdictIs(v, WrongAnswer);
    VerdictIs(v, CompileError);
    VerdictIs(v, RuntimeError);
    VerdictIs(v, TimeLimitExceeded);
    VerdictIs(v, MemoryLimitExceeded);
    VerdictIs(v, OutputLimitExceeded);
    VerdictIs(v, SystemError);
    VerdictIs(v, VerdictCancelled);
  }

  function Texts(statuses: seq<StageStatus>): seq<string> {
    seq(|statuses|, i requires 0 <= i < |statuses| => StageStatusText(statuses[i]))
  }

  lemma PatternIs(statuses: seq<StageStatus>, k: nat, terminal: StageStatus)
    ensures TerminalPattern(Texts(statuses), k, StageStatusText(terminal)) <==> StopsAt(statuses, k, terminal)
  {
    hide StageStatusText, StageStatusFromText;
    forall i | 0 <= i < |statuses|
      ensures Texts(statuses)[i] == "succeeded" <==> statuses[i] == Succeeded
      ensures Texts(statuses)[i] == "skipped" <==> statuses[i] == Skipped
      ensures Texts(statuses)[i] == StageStatusText(terminal) <==> statuses[i] == terminal
    {
      StageStatusIs(statuses[i]);
      StageStatusTextInverts(statuses[i]);
      StageStatusTextInverts(terminal);
    }
  }

  lemma AnyPatternIs(statuses: seq<StageStatus>, terminal: StageStatus)
    requires terminal == StageStatus.Failed || terminal == StageStatus.Cancelled
    ensures AnyTerminalPattern(Texts(statuses), StageStatusText(terminal)) <==>
            exists k :: StopsAt(statuses, k, terminal)
  {
    hide StopsAt, StageStatusText;
    var texts := Texts(statuses);
    var p := Position(texts, StageStatusText(terminal));
    if p.Some? { PatternIs(statuses, p.value, terminal); }
    if k :| StopsAt(statuses, k, terminal) {
      PatternIs(statuses, k, terminal);
      FirstOfPattern(texts, k, StageStatusText(terminal));
      StageStatusIs(terminal);
    }
  }

  lemma FirstOfPattern(texts: seq<string>, k: nat, terminal: string)
    requires TerminalPattern(texts, k, terminal)
    ensures terminal != "succeeded" ==> Position(texts, terminal) == Some(k)
  {
    assert texts[k] in texts;
    var p := Position(texts, terminal);
    assert p.Some? && forall i :: 0 <= i < p.value ==> texts[i] in texts[..p.value];
  }

  lemma AllSucceededIs(statuses: seq<StageStatus>)
    ensures (forall i :: 0 <= i < |statuses| ==> Texts(statuses)[i] == "succeeded") <==> AllAre(statuses, Succeeded)
  {
    hide StageStatusText;
    forall i | 0 <= i < |statuses| ensures Texts(statuses)[i] == "succeeded" <==> statuses[i] == Succeeded {
      StageStatusIs(statuses[i]);
    }
  }

  /** On texts of domain values, the wire rules for status, verdict, score and stages are the plain description. */
  lemma WireRulesAreLegitimate(status: EvaluationStatus, verdict: Verdict, earned: nat, statuses: seq<StageStatus>)
    ensures StatusFits(StatusText(status), VerdictText(verdict), earned)
            && StatusesFit(Texts(statuses), StatusText(status), VerdictText(verdict)) <==>
            Legitimate(status, verdict, earned, statuses)
  {
    hide StatusText, VerdictText, StageStatusText, TerminalPattern, AnyTerminalPattern, StopsAt;
    StatusIs(status);
    VerdictGroups(verdict);
    StageStatusIs(StageStatus.Failed);
    StageStatusIs(StageStatus.Cancelled);
    PatternIs(statuses, 1, StageStatus.Failed);
    PatternIs(statuses, 2, StageStatus.Failed);
    AnyPatternIs(statuses, StageStatus.Failed);
    AnyPatternIs(statuses, StageStatus.Cancelled);
    AllSucceededIs(statuses);
  }

  // ---- Conversion and validation together.

  /** The counters fit the integer types that hold them. */
  predicate FitsU64(u: ResourceUsage) {
    u.cpuTimeMs <= U64_MAX && u.wallTimeMs <= U64_MAX && u.memoryPeakBytes <= U64_MAX && u.outputBytes <= U64_MAX
  }

  predicate Representable(r: EvaluationResult) {
    && FitsU64(r.usage) && r.score.earned <= U64_MAX && r.score.possible <= U64_MAX
    && forall i :: 0 <= i < |r.stages| ==> FitsU64(r.stages[i].usage)
  }

  lemma AddsConvertedUsage(sum: ResourceUsage, report: StageReport)
    requires FitsU64(report.usage) && FitsU64(sum)
    ensures var r := AddStageUsage(sum, ReportToValue(report));
            var total := ResourceUsage(
              sum.cpuTimeMs + report.usage.cpuTimeMs, sum.wallTimeMs + report.usage.wallTimeMs,
              if sum.memoryPeakBytes < report.usage.memoryPeakBytes then report.usage.memoryPeakBytes
              else sum.memoryPeakBytes,
              sum.outputBytes + report.usage.outputBytes);
            r == if FitsU64(total) then Ok(total) else Err(SemanticViolation)
  {
    hide Render, StageText, StageStatusText, DiagnosticToValue, EvidenceToValue;
  }

  /** The wire recomputation is the one-shot total, and fails exactly when a total does not fit. */
  lemma {:induction false} RecomputesTotals(stages: seq<StageReport>)
    requires forall i :: 0 <= i < |stages| ==> FitsU64(stages[i].usage)
    ensures AddStageUsages(Render(stages, ReportToValue)) ==
            if FitsU64(Totals(Usages(stages))) then Ok(Totals(Usages(stages))) else Err(SemanticViolation)
  {
    hide ReportToValue, AddStageUsage;
    var values := Render(stages, ReportToValue);
    if stages != [] {
      var last := |stages| - 1;
      assert values[..last] == Render(stages[..last], ReportToValue);
      assert Usages(stages)[..last] == Usages(stages[..last]);
      RecomputesTotals(stages[..last]);
      if FitsU64(Totals(Usages(stages[..last]))) {
        AddsConvertedUsage(Totals(Usages(stages[..last])), stages[last]);
      }
    }
  }

  lemma ComparesUsage(r: EvaluationResult, sum: ResourceUsage)
    requires FitsU64(r.usage)
    ensures CompareUsage(ResultToValue(r).fields, sum).Ok? <==> r.usage == sum
  {
    hide ReportToValue, DiagnosticToValue, EvidenceToValue, ProvenanceToValue, ScoreToValue, StatusText, VerdictText,
         Render, ResultToValue, Field, UsageToValue;
    ResultFields(r);
    ComparesFields(r.usage, sum, ResultToValue(r).fields);
  }

  lemma ComparesFields(usage: ResourceUsage, sum: ResourceUsage, fields: Object)
    requires FitsU64(usage) && Field(fields, NUsage) == Ok(UsageToValue(usage))
    ensures CompareUsage(fields, sum).Ok? <==> usage == sum
  {
  }

  lemma ConvertedStage(report: StageReport, k: nat)
    requires k < 5
    ensures StatusOfStage(ReportToValue(report), EXPECTED_STAGES[k]) ==
            if report.stage == ALGORITHM_BATCH_STAGES[k] then Ok(StageStatusText(report.status))
            else Err(SemanticViolation)
  {
    hide Render, StageText, StageStatusText, DiagnosticToValue, EvidenceToValue, UsageToValue;
    StageNameIs(report.stage, k);
  }

  lemma {:induction false} ConvertedStatuses(stages: seq<StageReport>)
    requires |stages| <= 5
    ensures StatusesOfStages(Render(stages, ReportToValue), EXPECTED_STAGES[..|stages|]) ==
            if Kinds(stages) == ALGORITHM_BATCH_STAGES[..|stages|] then Ok(Texts(Statuses(stages)))
            else Err(SemanticViolation)
  {
    hide ReportToValue, StageStatusText, StatusOfStage;
    var values := Render(stages, ReportToValue);
    if stages != [] {
      var last := |stages| - 1;
      var front := stages[..last];
      assert values[..last] == Render(front, ReportToValue);
      var expected := EXPECTED_STAGES[..|stages|];
      assert expected[..last] == EXPECTED_STAGES[..last] && expected[last] == EXPECTED_STAGES[last];
      ConvertedStatuses(front);
      ConvertedStage(stages[last], last);
      assert Kinds(stages)[..last] == Kinds(front) && Kinds(stages)[last] == stages[last].stage;
      assert ALGORITHM_BATCH_STAGES[..|stages|] == ALGORITHM_BATCH_STAGES[..last] + [ALGORITHM_BATCH_STAGES[last]];
      assert Kinds(stages) == Kinds(front) + [stages[last].stage];
      assert Texts(Statuses(stages)) == Texts(Statuses(front)) + [StageStatusText(stages[last].status)];
    } else {
      assert Kinds(stages) == ALGORITHM_BATCH_STAGES[..0] && Texts(Statuses(stages)) == [];
    }
  }

  lemma ConvertedStages(stages: seq<StageReport>, status: string, verdict: string)
    ensures ResultStages(Render(stages, ReportToValue), status, verdict).Ok? <==>
            Kinds(stages) == ALGORITHM_BATCH_STAGES && StatusesFit(Texts(Statuses(stages)), status, verdict)
  {
    hide ReportToValue, StageStatusText, StatusesFit, StatusesOfStages;
    assert |Render(stages, ReportToValue)| == |stages| == |Kinds(stages)|;
    if |stages| == 5 {
      ConvertedStatuses(stages);
      assert EXPECTED_STAGES[..5] == EXPECTED_STAGES && ALGORITHM_BATCH_STAGES[..5] == ALGORITHM_BATCH_STAGES;
    }
  }

  lemma ConvertedProvenance(p: ExecutionProvenance)
    ensures var fields := ProvenanceToValue(p).fields;
            && StringField(fields, NExecutorKind) == Ok(ExecutorText(p.executorKind))
            && BoolField(fields, NProductionEligible) == Ok(p.productionEligible)
            && (NNodeId in fields <==> p.nodeId.Some?)
            && (ExecutorText(p.executorKind) == "development_mock" <==> p.executorKind == DevelopmentMock)
  {
    ExecutorTextInverts(p.executorKind);
  }

  lemma ConvertedScore(s: Score)
    requires s.earned <= U64_MAX && s.possible <= U64_MAX
    ensures U64Field(ScoreToValue(s).fields, NEarned) == Ok(s.earned)
    ensures U64Field(ScoreToValue(s).fields, NPossible) == Ok(s.possible)
  {
  }

  /** The wire validator accepts the wire form of a result exactly when the stages are in canonical order, the outcome
      is legitimate, the score and the provenance are, and the aggregate usage is the one-shot total. */
  lemma WireValidatorExactly(r: EvaluationResult)
    requires Representable(r)
    ensures ResultSemantics(ResultToValue(r)).Ok? <==>
            && Kinds(r.stages) == ALGORITHM_BATCH_STAGES
            && Legitimate(r.status, r.verdict, r.score.earned, Statuses(r.stages))
            && r.score.earned <= r.score.possible
            && r.provenance.Eligible()
            && r.usage == Totals(Usages(r.stages))
  {
    hide ResultToValue, ReportToValue, ProvenanceToValue, ScoreToValue, StatusText, VerdictText, ExecutorText, Render,
         ResultStages, CompareUsage, StatusFits, StatusesFit, Legitimate, Totals, StringField, ObjectField, ArrayField,
         U64Field, BoolField, Field, AddStageUsages;
    ResultFields(r);
    ConvertedScore(r.score);
    ConvertedProvenance(r.provenance);
    ConvertedStages(r.stages, StatusText(r.status), VerdictText(r.verdict));
    RecomputesTotals(r.stages);
    ComparesUsage(r, Totals(Usages(r.stages)));
    WireRulesAreLegitimate(r.status, r.verdict, r.score.earned, Statuses(r.stages));
  }

  /** The two validators agree: on parts that their constructors accept, with bounded lists and one runtime digest, the
      wire validator adds to the domain validator exactly the check of the aggregate usage. */
  lemma ValidatorsAgree(r: EvaluationResult)
    requires PartsValid(r) && |r.diagnostics| <= MAX_RESULT_DIAGNOSTICS && |r.evidence| <= MAX_RESULT_EVIDENCE
    requires r.provenance.runtimeDigest == r.identity.runtimeDigest
    ensures ResultSemantics(ResultToValue(r)).Ok? <==> NewResult(r).Ok? && r.usage == Totals(Usages(r.stages))
  {
    hide ResultSemantics, ResultToValue, Totals, Legitimate, TerminalSemantics, ValidId, ValidDigest,
         ValidDiagnosticCode, ValidEvidenceKind;
    forall i | 0 <= i < |r.stages| ensures FitsU64(r.stages[i].usage) {
      assert r.stages[i].Valid();
    }
    WireValidatorExactly(r);
    assert |Kinds(r.stages)| == |r.stages|;
    if Kinds(r.stages) == ALGORITHM_BATCH_STAGES {
      DomainValidatorExactly(r.status, r.verdict, r.score, r.stages);
    }
  }
}
