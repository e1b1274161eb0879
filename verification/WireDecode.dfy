/** Decoding a result: once the wire validator has accepted a value, the domain constructors find nothing to refuse but
    formats, sizes and ranges. */
module WireDecode {
  import opened Prelude
  import opened Tokens
  import opened Domain
  import opened Results
  import opened JsonValues
  import opened Wire
  import opened WireRequest
  import opened WireResult
  import opened WireValidator

  // ---- A text that parses is the text of the parsed value.

  lemma StageTextParsed(text: string)
    ensures StageFromText(text).Ok? ==> text == StageText(StageFromText(text).value)
  {
  }

  lemma StageStatusTextParsed(text: string)
    ensures StageStatusFromText(text).Ok? ==> text == StageStatusText(StageStatusFromText(text).value)
  {
  }

  lemma StatusTextParsed(text: string)
    ensures StatusFromText(text).Ok? ==> text == StatusText(StatusFromText(text).value)
  {
  }

  lemma VerdictTextParsed(text: string)
    ensures VerdictFromText(text).Ok? ==> text == VerdictText(VerdictFromText(text).value)
  {
  }

  lemma ExecutorTextParsed(text: string)
    ensures ExecutorFromText(text).Ok? ==> text == ExecutorText(ExecutorFromText(text).value)
  {
  }

  /** One stage that the wire accepts at position `k` and that parses is that stage, with that status. */
  lemma ParsedStage(item: Json, k: nat)
    requires k < 5 && StatusOfStage(item, EXPECTED_STAGES[k]).Ok? && ReportFromValue(item).Ok?
    ensures ReportFromValue(item).value.stage == ALGORITHM_BATCH_STAGES[k]
    ensures StatusOfStage(item, EXPECTED_STAGES[k]) == Ok(StageStatusText(ReportFromValue(item).value.status))
  {
    hide Collect, StageText, StageFromText, StageStatusText, StageStatusFromText, UsageFromValue;
    StageTextParsed(StringField(item.fields, NStage).value);
    StageStatusTextParsed(StringField(item.fields, NStatus).value);
    StageNameIs(ReportFromValue(item).value.stage, k);
  }

  lemma {:induction false} ParsedStages(items: seq<Json>, reports: seq<StageReport>)
    requires |items| == |reports| <= 5
    requires forall i :: 0 <= i < |items| ==> ReportFromValue(items[i]) == Ok(reports[i])
    requires StatusesOfStages(items, EXPECTED_STAGES[..|items|]).Ok?
    ensures Kinds(reports) == ALGORITHM_BATCH_STAGES[..|items|]
    ensures StatusesOfStages(items, EXPECTED_STAGES[..|items|]) == Ok(Texts(Statuses(reports)))
  {
    hide StatusOfStage, ReportFromValue, StageStatusText;
    if items == [] {
      assert Kinds(reports) == ALGORITHM_BATCH_STAGES[..0] && Texts(Statuses(reports)) == [];
    } else {
      var last := |items| - 1;
      var expected := EXPECTED_STAGES[..|items|];
      assert expected[..last] == EXPECTED_STAGES[..last] && expected[last] == EXPECTED_STAGES[last];
      ParsedStages(items[..last], reports[..last]);
      ParsedStage(items[last], last);
      assert Kinds(reports) == Kinds(reports[..last]) + [reports[last].stage];
      assert ALGORITHM_BATCH_STAGES[..|items|] == ALGORITHM_BATCH_STAGES[..last] + [ALGORITHM_BATCH_STAGES[last]];
      assert Texts(Statuses(reports)) == Texts(Statuses(reports[..last])) + [StageStatusText(reports[last].status)];
    }
  }

  /** The stages, status, verdict and score that the wire accepts satisfy the domain's terminal semantics. */
  lemma ParsedSemantics(items: seq<Json>, statusText: string, verdictText: string, score: Score)
    requires ResultStages(items, statusText, verdictText).Ok? && StatusFits(statusText, verdictText, score.earned)
    requires StatusFromText(statusText).Ok? && VerdictFromText(verdictText).Ok? && Collect(items, ReportFromValue).Ok?
    ensures var reports := Collect(items, ReportFromValue).value;
            && Kinds(reports) == ALGORITHM_BATCH_STAGES && |reports| == 5
            && TerminalSemantics(StatusFromText(statusText).value, VerdictFromText(verdictText).value, score, reports)
  {
    hide ReportFromValue, StatusesFit, StatusFits, StatusesOfStages, StatusText, VerdictText, StatusFromText,
         VerdictFromText, TerminalSemantics, Legitimate;
    var reports := Collect(items, ReportFromValue).value;
    CollectAll(items, ReportFromValue);
    assert EXPECTED_STAGES[..|items|] == EXPECTED_STAGES && ALGORITHM_BATCH_STAGES[..5] == ALGORITHM_BATCH_STAGES;
    ParsedStages(items, reports);
    StatusTextParsed(statusText);
    VerdictTextParsed(verdictText);
    var status := StatusFromText(statusText).value;
    var verdict := VerdictFromText(verdictText).value;
    WireRulesAreLegitimate(status, verdict, score.earned, Statuses(reports));
    DomainValidatorExactly(status, verdict, score, reports);
  }

  lemma ParsedProvenance(fields: Object)
    requires BoolField(fields, NProductionEligible).Ok? && StringField(fields, NExecutorKind).Ok?
    requires OptionalNode(fields).Ok? && DigestField(fields, NRuntimeDigest).Ok?
    requires ExecutorFromText(StringField(fields, NExecutorKind).value).Ok?
    requires !(BoolField(fields, NProductionEligible).value
               && (StringField(fields, NExecutorKind).value == "development_mock" || NNodeId !in fields))
    ensures var r := ProvenanceFromValue(fields, BoolField(fields, NProductionEligible).value,
                                         OptionalNode(fields).value);
            r.Ok? && r.value.runtimeDigest == DigestField(fields, NRuntimeDigest).value
  {
    hide ExecutorFromText, ExecutorText, ValidId, ValidDigest;
    ExecutorTextParsed(StringField(fields, NExecutorKind).value);
    ConvertedProvenance(ExecutionProvenance(DevelopmentMock, false, "", None));
  }

  /** Every part of the value parses by itself, and the two lists are within bounds. */
  predicate PartsParse(value: Json) {
    && value.JObject? && ObjectField(value.fields, NScore).Ok? && ObjectField(value.fields, NProvenance).Ok?
    && var fields := value.fields;
    && var provenance := ObjectField(fields, NProvenance).value;
    && IdentityFromValue(fields, provenance).Ok? && ReportsField(fields).Ok?
    && DiagnosticsField(fields).Ok? && |DiagnosticsField(fields).value| <= MAX_RESULT_DIAGNOSTICS
    && EvidenceField(fields).Ok? && |EvidenceField(fields).value| <= MAX_RESULT_EVIDENCE
    && BoolField(provenance, NProductionEligible).Ok? && OptionalNode(provenance).Ok?
    && StatusField(fields).Ok? && VerdictField(fields).Ok?
    && ScoreFromValue(ObjectField(fields, NScore).value).Ok? && UsageField(fields).Ok?
    && StringField(provenance, NExecutorKind).Ok?
    && ExecutorFromText(StringField(provenance, NExecutorKind).value).Ok?
  }

  lemma IdentityTakesDigest(fields: Object, provenance: Object)
    requires IdentityFromValue(fields, provenance).Ok?
    ensures DigestField(provenance, NRuntimeDigest) == Ok(IdentityFromValue(fields, provenance).value.runtimeDigest)
  {
    hide IdField, DigestField;
  }

  lemma ScoreKeepsEarned(score: Object)
    requires ScoreFromValue(score).Ok?
    ensures U64Field(score, NEarned) == Ok(ScoreFromValue(score).value.earned)
  {
  }

  /** For every JSON value that the wire validator accepts: it decodes to a result exactly when its parts parse. The
      cross-field rules of the domain constructors never refuse what the wire validator has passed. */
  lemma AcceptedDecodes(value: Json)
    requires ResultSemantics(value).Ok?
    ensures ResultFromValue(value).Ok? <==> PartsParse(value)
  {
    hide IdentityFromValue, Collect, ResultStages, AggregateUsage, StatusFits, StatusFromText, VerdictFromText,
         ScoreFromValue, UsageFromValue, ProvenanceFromValue, OptionalNode, TerminalSemantics, U64Field;
    var fields := value.fields;
    if PartsParse(value) {
      var provenance := ObjectField(fields, NProvenance).value;
      IdentityTakesDigest(fields, provenance);
      ParsedProvenance(provenance);
      ScoreKeepsEarned(ObjectField(fields, NScore).value);
      ParsedSemantics(ArrayField(fields, NStages).value, StringField(fields, NStatus).value,
                      StringField(fields, NVerdict).value, ScoreFromValue(ObjectField(fields, NScore).value).value);
    } else if ResultFromValue(value).Ok? {
      DecodedParts(value);
    }
  }

  lemma DecodedParts(value: Json)
    requires ResultFromValue(value).Ok?
    ensures PartsParse(value)
  {
    hide IdentityFromValue, Collect, StatusFromText, VerdictFromText, ScoreFromValue, UsageFromValue, OptionalNode,
         TerminalSemantics, U64Field, Kinds;
  }
}
