/** JSON values. An object maps names to values; the names that the wire formats use are the constructors of `Name`. */
module JsonValues {
  import opened Prelude

  datatype Name =
    | NMessageType | NSchemaVersion | NRequestId | NIdempotencyKey | NEvaluationId | NAttemptId | NAttemptNumber
    | NProblemVersion | NProblemId | NProblemVersionId | NDigest | NSubmission | NSubmissionId | NSource | NRuntime
    | NRuntimeId | NPlan | NProfile | NStages | NPolicy | NCpuTimeMs | NWallTimeMs | NMemoryBytes | NOutputBytes
    | NProcessLimit | NNetwork | NRequiredCapabilities | NArtifactId | NMediaType | NSizeBytes | NSensitivity
    | NStatus | NVerdict | NScore | NEarned | NPossible | NUsage | NMemoryPeakBytes | NDiagnostics | NEvidence
    | NProvenance | NExecutorKind | NProductionEligible | NRuntimeDigest | NNodeId | NStage | NCode | NMessage
    | NTruncated | NEvidenceId | NKind | NArtifact
    | NType | NVersion | NCapabilities | NSupported | NName | NBytes | NAccepted | NArgv | NExitCode | NOutputDigest
    | NOther(text: string)

  datatype Json =
    | JNull
    | JBool(flag: bool)
    | JNumber(value: int)
    | JString(text: string)
    | JArray(items: seq<Json>)
    | JObject(fields: map<Name, Json>)

  type Object = map<Name, Json>

  // ---- Fields.

  predicate Says(fields: Object, name: Name, value: Json) {
    name in fields && fields[name] == value
  }

  predicate HasObject(fields: Object, name: Name) {
    name in fields && fields[name].JObject?
  }

  predicate HasArray(fields: Object, name: Name) {
    name in fields && fields[name].JArray?
  }

  // ---- Sequences.

  function Render<A>(items: seq<A>, render: A -> Json): seq<Json> {
    seq(|items|, i requires 0 <= i < |items| => render(items[i]))
  }

  /** `map(parse).collect::<Result<Vec<_>, _>>()`. */
  function Collect<A, E>(items: seq<Json>, parse: Json -> Result<A, E>): Result<seq<A>, E> {
    if items == [] then Ok([])
    else
      var head :- parse(items[0]);
      var tail :- Collect(items[1..], parse);
      Ok([head] + tail)
  }

  lemma {:induction false} CollectInverts<A, E>(items: seq<A>, render: A -> Json, parse: Json -> Result<A, E>)
    requires forall i :: 0 <= i < |items| ==> parse(render(items[i])) == Ok(items[i])
    ensures Collect(Render(items, render), parse) == Ok(items)
  {
    if items != [] {
      var rest := items[1..];
      assert Render(items, render)[1..] == Render(rest, render);
      CollectInverts(rest, render, parse);
      assert items == [items[0]] + rest;
    }
  }

  lemma {:induction false} CollectAll<A, E>(items: seq<Json>, parse: Json -> Result<A, E>)
    requires Collect(items, parse).Ok?
    ensures |Collect(items, parse).value| == |items|
    ensures forall i :: 0 <= i < |items| ==> parse(items[i]) == Ok(Collect(items, parse).value[i])
  {
    if items != [] { CollectAll(items[1..], parse); }
  }

  lemma {:induction false} CollectExactly<A, E>(items: seq<Json>, parse: Json -> Result<A, E>, parsed: seq<A>)
    ensures Collect(items, parse) == Ok(parsed) <==>
            |items| == |parsed| && forall i :: 0 <= i < |items| ==> parse(items[i]) == Ok(parsed[i])
  {
    if Collect(items, parse) == Ok(parsed) { CollectAll(items, parse); }
    if |items| == |parsed| && forall i :: 0 <= i < |items| ==> parse(items[i]) == Ok(parsed[i]) {
      if items != [] {
        CollectExactly(items[1..], parse, parsed[1..]);
        assert parsed == [parsed[0]] + parsed[1..];
      }
    }
  }
}
