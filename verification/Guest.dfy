/** The guest message codec: bounded fields, JSON values, length-prefixed frames. */
module Guest {
  import opened Prelude
  import opened JsonValues
  import opened GuestText

  const PROTOCOL_VERSION: string := "v0alpha1"
  const MAX_FRAME_BYTES: nat := 1048576
  const MAX_TYPE_LEN: nat := 32
  const MAX_GUEST_CAPABILITIES: nat := 32
  const MAX_GUEST_CAPABILITY_LEN: nat := 32
  const MAX_DIGEST_LEN: nat := 64
  const MAX_INLINE_BYTES: nat := 262144
  const MAX_NAME_LEN: nat := 128
  const MAX_ARGUMENTS: nat := 32
  const MAX_ARGUMENT_LEN: nat := 256
  const MAX_DIAGNOSTICS: nat := 32
  const MAX_DIAGNOSTIC_MESSAGE: nat := 4096

  type U64 = n: nat | n <= U64_MAX
  type I32 = n: int | -0x8000_0000 <= n < 0x8000_0000

  datatype CodecError = FrameTooLarge | BoundedLengthExceeded | Truncated | MalformedJson | UnknownType | TypeTooLong
                      | UnsupportedVersion | BoundsExceeded

  datatype Stage = BuildStage | RunStage

  datatype GuestUsage = GuestUsage(cpuTimeMs: U64, wallTimeMs: U64, memoryPeakBytes: U64, outputBytes: U64)

  datatype GuestDiagnostic = GuestDiagnostic(code: string, message: string, truncated: bool)

  datatype Message =
    | Negotiate(capabilities: seq<string>)
    | Negotiated(supported: bool)
    | UploadInput(name: string, digest: string, bytes: seq<Byte>)
    | UploadAck(name: string, accepted: bool)
    | Build(argv: seq<string>, wallTimeMs: U64)
    | Run(argv: seq<string>, wallTimeMs: U64)
    | StageOutput(stage: Stage, exitCode: I32, outputDigest: string, outputBytes: U64, usage: GuestUsage,
                  diagnostics: seq<GuestDiagnostic>)
    | StageEvidence(kind: string)
    | EvidenceAck(kind: string, accepted: bool)
    | Cancel
    | Cancelled
    | Heartbeat
    | Ack

  /** `GuestDiagnostic::new`: the message is cut to the bound, and the flag says whether it was. */
  method NewGuestDiagnostic(code: string, message: string) returns (d: GuestDiagnostic)
    ensures d.code == code && LongestPrefix(message, MAX_DIAGNOSTIC_MESSAGE, d.message)
    ensures d.truncated <==> d.message != message
  {
    var cut := Truncate(message, MAX_DIAGNOSTIC_MESSAGE);
    return GuestDiagnostic(code, cut, ByteLength(message) > MAX_DIAGNOSTIC_MESSAGE);
  }

  // ---- Encoding.

  function TypeText(m: Message): string {
    match m
    case Negotiate(_) => "negotiate"
    case Negotiated(_) => "negotiated"
    case UploadInput(_, _, _) => "upload_input"
    case UploadAck(_, _) => "upload_ack"
    case Build(_, _) => "build"
    case Run(_, _) => "run"
    case StageOutput(_, _, _, _, _, _) => "stage_output"
    case StageEvidence(_) => "stage_evidence"
    case EvidenceAck(_, _) => "evidence_ack"
    case Cancel => "cancel"
    case Cancelled => "cancelled"
    case Heartbeat => "heartbeat"
    case Ack => "ack"
  }

  /** `name.contains("..")`. */
  predicate HasDoubleDot(s: string) {
    exists i :: 0 < i < |s| && s[i] == '.' && s[i - 1] == '.'
  }

  /** `check_name`. */
  predicate NameFits(name: string) {
    name != [] && ByteLength(name) <= MAX_NAME_LEN && '/' !in name && '\\' !in name && !HasDoubleDot(name)
  }

  /** `validate_capabilities`. */
  predicate CapabilitiesFit(capabilities: seq<string>) {
    |capabilities| <= MAX_GUEST_CAPABILITIES && IsSortedUnique(capabilities)
    && forall c :: c in capabilities ==> ByteLength(c) <= MAX_GUEST_CAPABILITY_LEN
  }

  /** The bounds on a command line, checked alike on both sides. */
  predicate ArgumentsFit(argv: seq<string>) {
    argv != [] && |argv| <= MAX_ARGUMENTS && forall a :: a in argv ==> ByteLength(a) <= MAX_ARGUMENT_LEN
  }

  /** What `write_fields` checks before it writes. */
  predicate FieldsFit(m: Message) {
    match m
    case Negotiate(capabilities) => CapabilitiesFit(capabilities)
    case UploadInput(name, digest, bytes) =>
      NameFits(name) && ByteLength(digest) <= MAX_DIGEST_LEN && |bytes| <= MAX_INLINE_BYTES
    case UploadAck(name, _) => NameFits(name)
    case Build(argv, _) => ArgumentsFit(argv)
    case Run(argv, _) => ArgumentsFit(argv)
    case StageOutput(_, _, digest, _, _, diagnostics) =>
      ByteLength(digest) <= MAX_DIGEST_LEN && |diagnostics| <= MAX_DIAGNOSTICS
    case StageEvidence(kind) => ByteLength(kind) <= MAX_TYPE_LEN
    case _ => true
  }

  function StringToValue(s: string): Json { JString(s) }

  function ByteToValue(b: Byte): Json { JNumber(b) }

  function StageText(stage: Stage): string {
    match stage
    case BuildStage => "build"
    case RunStage => "run"
  }

  function UsageToValue(u: GuestUsage): Json {
    JObject(map[NCpuTimeMs := JNumber(u.cpuTimeMs), NWallTimeMs := JNumber(u.wallTimeMs),
                NMemoryPeakBytes := JNumber(u.memoryPeakBytes), NOutputBytes := JNumber(u.outputBytes)])
  }

  function DiagnosticToValue(d: GuestDiagnostic): Json {
    JObject(map[NCode := JString(d.code), NMessage := JString(d.message), NTruncated := JBool(d.truncated)])
  }

  function MessageFields(m: Message): Object {
    match m
    case Negotiate(capabilities) => map[NCapabilities := JArray(Render(capabilities, StringToValue))]
    case Negotiated(supported) => map[NSupported := JBool(supported)]
    case UploadInput(name, digest, bytes) =>
      map[NName := JString(name), NDigest := JString(digest), NBytes := JArray(Render(bytes, ByteToValue))]
    case UploadAck(name, accepted) => map[NName := JString(name), NAccepted := JBool(accepted)]
    case Build(argv, wallTimeMs) =>
      map[NArgv := JArray(Render(argv, StringToValue)), NWallTimeMs := JNumber(wallTimeMs)]
    case Run(argv, wallTimeMs) =>
      map[NArgv := JArray(Render(argv, StringToValue)), NWallTimeMs := JNumber(wallTimeMs)]
    case StageOutput(stage, exitCode, outputDigest, outputBytes, usage, diagnostics) =>
      map[NStage := JString(StageText(stage)), NExitCode := JNumber(exitCode),
          NOutputDigest := JString(outputDigest), NOutputBytes := JNumber(outputBytes),
          NUsage := UsageToValue(usage), NDiagnostics := JArray(Render(diagnostics, DiagnosticToValue))]
    case StageEvidence(kind) => map[NKind := JString(kind)]
    case EvidenceAck(kind, accepted) => map[NKind := JString(kind), NAccepted := JBool(accepted)]
    case _ => map[]
  }

  function MessageToValue(m: Message): Result<Json, CodecError> {
    if FieldsFit(m) then
      Ok(JObject(MessageFields(m)[NType := JString(TypeText(m))][NVersion := JString(PROTOCOL_VERSION)]))
    else Err(BoundsExceeded)
  }

  // ---- Decoding.

  function TextField(fields: Object, name: Name, maximum: nat): Result<string, CodecError> {
    if name !in fields || !fields[name].JString? then Err(MalformedJson)
    else if ByteLength(fields[name].text) > maximum then Err(BoundsExceeded)
    else Ok(fields[name].text)
  }

  function FlagField(fields: Object, name: Name): Result<bool, CodecError> {
    if name in fields && fields[name].JBool? then Ok(fields[name].flag) else Err(MalformedJson)
  }

  function CountField(fields: Object, name: Name): Result<U64, CodecError> {
    if name in fields && fields[name].JNumber? && 0 <= fields[name].value <= U64_MAX then Ok(fields[name].value)
    else Err(MalformedJson)
  }

  function I32Field(fields: Object, name: Name): Result<I32, CodecError> {
    if name in fields && fields[name].JNumber? && -0x8000_0000 <= fields[name].value < 0x8000_0000
    then Ok(fields[name].value)
    else Err(MalformedJson)
  }

  function ListField(fields: Object, name: Name, maximum: nat): Result<seq<Json>, CodecError> {
    if name !in fields || !fields[name].JArray? then Err(MalformedJson)
    else if |fields[name].items| > maximum then Err(BoundsExceeded)
    else Ok(fields[name].items)
  }

  function StringFromValue(value: Json): Result<string, CodecError> {
    if value.JString? then Ok(value.text) else Err(MalformedJson)
  }

  function ByteFromValue(value: Json): Result<Byte, CodecError> {
    if value.JNumber? && 0 <= value.value < 256 then Ok(value.value) else Err(MalformedJson)
  }

  function StageFromText(text: string): Result<Stage, CodecError> {
    if text == "build" then Ok(BuildStage) else if text == "run" then Ok(RunStage) else Err(UnknownType)
  }

  function UsageFromValue(value: Json): Result<GuestUsage, CodecError> {
    if !value.JObject? then Err(MalformedJson)
    else
      var cpuTimeMs :- CountField(value.fields, NCpuTimeMs);
      var wallTimeMs :- CountField(value.fields, NWallTimeMs);
      var memoryPeakBytes :- CountField(value.fields, NMemoryPeakBytes);
      var outputBytes :- CountField(value.fields, NOutputBytes);
      Ok(GuestUsage(cpuTimeMs, wallTimeMs, memoryPeakBytes, outputBytes))
  }

  function DiagnosticFromValue(value: Json): Result<GuestDiagnostic, CodecError> {
    if !value.JObject? then Err(MalformedJson)
    else
      var code :- TextField(value.fields, NCode, MAX_TYPE_LEN);
      var message :- TextField(value.fields, NMessage, MAX_DIAGNOSTIC_MESSAGE);
      var truncated :- FlagField(value.fields, NTruncated);
      Ok(GuestDiagnostic(code, message, truncated))
  }

  /** `parse_capabilities`. */
  function CapabilitiesFromFields(fields: Object): Result<seq<string>, CodecError> {
    var items :- ListField(fields, NCapabilities, MAX_GUEST_CAPABILITIES);
    var capabilities :- Collect(items, StringFromValue);
    if CapabilitiesFit(capabilities) then Ok(capabilities) else Err(BoundsExceeded)
  }

  /** `byte_field`. */
  function BytesFromFields(fields: Object): Result<seq<Byte>, CodecError> {
    var items :- ListField(fields, NBytes, MAX_INLINE_BYTES);
    Collect(items, ByteFromValue)
  }

  /** The arguments of `readable_command`. */
  function ArgumentsFromFields(fields: Object): Result<seq<string>, CodecError> {
    var items :- ListField(fields, NArgv, MAX_ARGUMENTS);
    var argv :- Collect(items, StringFromValue);
    if ArgumentsFit(argv) then Ok(argv) else Err(BoundsExceeded)
  }

  function StageOutputFromFields(fields: Object): Result<Message, CodecError> {
    var stageText :- TextField(fields, NStage, MAX_TYPE_LEN);
    var stage :- StageFromText(stageText);
    var exitCode :- I32Field(fields, NExitCode);
    var outputDigest :- TextField(fields, NOutputDigest, MAX_DIGEST_LEN);
    var outputBytes :- CountField(fields, NOutputBytes);
    if NUsage !in fields then Err(MalformedJson)
    else
      var usage :- UsageFromValue(fields[NUsage]);
      var items :- ListField(fields, NDiagnostics, MAX_DIAGNOSTICS);
      var diagnostics :- Collect(items, DiagnosticFromValue);
      Ok(StageOutput(stage, exitCode, outputDigest, outputBytes, usage, diagnostics))
  }

  /** The fields of the message that the type names. */
  function MessageOfType(text: string, fields: Object): Result<Message, CodecError> {
    if text == "negotiate" then
      var capabilities :- CapabilitiesFromFields(fields);
      Ok(Negotiate(capabilities))
    else if text == "negotiated" then
      var supported :- FlagField(fields, NSupported);
      Ok(Negotiated(supported))
    else if text == "upload_input" then
      var name :- TextField(fields, NName, MAX_NAME_LEN);
      var digest :- TextField(fields, NDigest, MAX_DIGEST_LEN);
      var bytes :- BytesFromFields(fields);
      Ok(UploadInput(name, digest, bytes))
    else if text == "upload_ack" then
      var name :- TextField(fields, NName, MAX_NAME_LEN);
      var accepted :- FlagField(fields, NAccepted);
      Ok(UploadAck(name, accepted))
    else if text == "build" then
      var argv :- ArgumentsFromFields(fields);
      var wallTimeMs :- CountField(fields, NWallTimeMs);
      Ok(Build(argv, wallTimeMs))
    else if text == "run" then
      var argv :- ArgumentsFromFields(fields);
      var wallTimeMs :- CountField(fields, NWallTimeMs);
      Ok(Run(argv, wallTimeMs))
    else if text == "stage_output" then StageOutputFromFields(fields)
    else if text == "stage_evidence" then
      var kind :- TextField(fields, NKind, MAX_TYPE_LEN);
      Ok(StageEvidence(kind))
    else if text == "evidence_ack" then
      var kind :- TextField(fields, NKind, MAX_TYPE_LEN);
      var accepted :- FlagField(fields, NAccepted);
      Ok(EvidenceAck(kind, accepted))
    else if text == "cancel" then Ok(Cancel)
    else if text == "cancelled" then Ok(Cancelled)
    else if text == "heartbeat" then Ok(Heartbeat)
    else if text == "ack" then Ok(Ack)
    else Err(UnknownType)
  }

  function MessageFromValue(value: Json): Result<Message, CodecError> {
    if !value.JObject? then Err(MalformedJson)
    else
      var fields := value.fields;
      if NType !in fields || !fields[NType].JString? then Err(UnknownType)
      else if ByteLength(fields[NType].text) > MAX_TYPE_LEN then Err(TypeTooLong)
      else if NVersion !in fields || fields[NVersion] != JString(PROTOCOL_VERSION) then Err(UnsupportedVersion)
      else MessageOfType(fields[NType].text, fields)
  }

  // ---- Values: there and back.

  lemma {:induction false} AsciiLength(s: string)
    requires forall i :: 0 <= i < |s| ==> s[i] < 128 as char
    ensures ByteLength(s) == |s|
  {
    if s != [] { AsciiLength(s[1..]); }
  }

  /** What encoding leaves to decoding: the kind of an acknowledgement, and the codes and messages of diagnostics. */
  predicate DecoderBounds(m: Message) {
    match m
    case EvidenceAck(kind, _) => ByteLength(kind) <= MAX_TYPE_LEN
    case StageOutput(_, _, _, _, _, diagnostics) => forall i :: 0 <= i < |diagnostics| ==> DiagnosticBounds(diagnostics[i])
    case _ => true
  }

  predicate DiagnosticBounds(d: GuestDiagnostic) {
    ByteLength(d.code) <= MAX_TYPE_LEN && ByteLength(d.message) <= MAX_DIAGNOSTIC_MESSAGE
  }

  lemma StringsReturn(items: seq<string>)
    ensures Collect<string, CodecError>(Render(items, StringToValue), StringFromValue) == Ok(items)
  {
    CollectInverts(items, StringToValue, StringFromValue);
  }

  lemma BytesReturn(items: seq<Byte>)
    ensures Collect<Byte, CodecError>(Render(items, ByteToValue), ByteFromValue) == Ok(items)
  {
    CollectInverts(items, ByteToValue, ByteFromValue);
  }

  lemma DiagnosticReturns(d: GuestDiagnostic)
    ensures DiagnosticFromValue(DiagnosticToValue(d)) == Ok(d) <==> DiagnosticBounds(d)
    ensures DiagnosticFromValue(DiagnosticToValue(d)).Ok? <==> DiagnosticBounds(d)
  {
    hide ByteLength;
  }

  lemma DiagnosticsReturn(items: seq<GuestDiagnostic>)
    ensures var r := Collect<GuestDiagnostic, CodecError>(Render(items, DiagnosticToValue), DiagnosticFromValue);
            if forall i :: 0 <= i < |items| ==> DiagnosticBounds(items[i]) then r == Ok(items) else r.Err?
  {
    hide DiagnosticFromValue, DiagnosticToValue, DiagnosticBounds;
    forall i | 0 <= i < |items|
      ensures DiagnosticFromValue(DiagnosticToValue(items[i])).Ok? <==> DiagnosticBounds(items[i])
      ensures DiagnosticFromValue(DiagnosticToValue(items[i])) == Ok(items[i]) <==> DiagnosticBounds(items[i])
    {
      DiagnosticReturns(items[i]);
    }
    var rendered := Render(items, DiagnosticToValue);
    if Collect<GuestDiagnostic, CodecError>(rendered, DiagnosticFromValue).Ok? {
      CollectAll(rendered, DiagnosticFromValue);
      assert forall i :: 0 <= i < |items| ==> rendered[i] == DiagnosticToValue(items[i]);
    }
    if forall i :: 0 <= i < |items| ==> DiagnosticBounds(items[i]) {
      CollectInverts(items, DiagnosticToValue, DiagnosticFromValue);
    }
  }

  lemma TypeTextFits(m: Message)
    ensures ByteLength(TypeText(m)) <= MAX_TYPE_LEN
  {
    hide ByteLength;
    match m
    case Negotiate(_) => AsciiLength("negotiate");
    case Negotiated(_) => AsciiLength("negotiated");
    case UploadInput(_, _, _) => AsciiLength("upload_input");
    case UploadAck(_, _) => AsciiLength("upload_ack");
    case Build(_, _) => AsciiLength("build");
    case Run(_, _) => AsciiLength("run");
    case StageOutput(_, _, _, _, _, _) => AsciiLength("stage_output");
    case StageEvidence(_) => AsciiLength("stage_evidence");
    case EvidenceAck(_, _) => AsciiLength("evidence_ack");
    case Cancel => AsciiLength("cancel");
    case Cancelled => AsciiLength("cancelled");
    case Heartbeat => AsciiLength("heartbeat");
    case Ack => AsciiLength("ack");
  }

  /** A bounded list of arguments or capabilities comes back as it was. */
  lemma CommandsReturn(fields: Object, argv: seq<string>)
    requires NArgv in fields && fields[NArgv] == JArray(Render(argv, StringToValue))
    ensures ArgumentsFit(argv) ==> ArgumentsFromFields(fields) == Ok(argv)
  {
    hide ByteLength;
    StringsReturn(argv);
  }

  lemma CapabilitiesReturn(fields: Object, capabilities: seq<string>)
    requires NCapabilities in fields && fields[NCapabilities] == JArray(Render(capabilities, StringToValue))
    ensures CapabilitiesFit(capabilities) ==> CapabilitiesFromFields(fields) == Ok(capabilities)
  {
    hide ByteLength, IsSortedUnique;
    StringsReturn(capabilities);
  }

  lemma UploadReturns(fields: Object, bytes: seq<Byte>)
    requires NBytes in fields && fields[NBytes] == JArray(Render(bytes, ByteToValue))
    ensures |bytes| <= MAX_INLINE_BYTES ==> BytesFromFields(fields) == Ok(bytes)
  {
    BytesReturn(bytes);
  }

  lemma UsageReturns(u: GuestUsage)
    ensures UsageFromValue(UsageToValue(u)) == Ok(u)
  {
  }

  lemma StageReturns(stage: Stage)
    ensures StageFromText(StageText(stage)) == Ok(stage) && ByteLength(StageText(stage)) <= MAX_TYPE_LEN
  {
    AsciiLength(StageText(stage));
    assert |"build"| == 5 && |"run"| == 3;
  }

  lemma StageOutputReturns(fields: Object, m: Message)
    requires m.StageOutput? && FieldsFit(m)
    requires forall n :: n in MessageFields(m) ==> n in fields && fields[n] == MessageFields(m)[n]
    ensures if DecoderBounds(m) then StageOutputFromFields(fields) == Ok(m) else StageOutputFromFields(fields).Err?
  {
    hide ByteLength, UsageToValue, UsageFromValue, StageText, StageFromText, Collect, Render, DiagnosticBounds;
    StageReturns(m.stage);
    UsageReturns(m.usage);
    DiagnosticsReturn(m.diagnostics);
    StageOutputFields(m);
    assert |Render(m.diagnostics, DiagnosticToValue)| == |m.diagnostics| by { RenderLength(m.diagnostics); }
  }

  lemma RenderLength(diagnostics: seq<GuestDiagnostic>)
    ensures |Render(diagnostics, DiagnosticToValue)| == |diagnostics|
  {
  }

  lemma StageOutputFields(m: Message)
    requires m.StageOutput?
    ensures var f := MessageFields(m);
            && NStage in f && f[NStage] == JString(StageText(m.stage))
            && NExitCode in f && f[NExitCode] == JNumber(m.exitCode)
            && NOutputDigest in f && f[NOutputDigest] == JString(m.outputDigest)
            && NOutputBytes in f && f[NOutputBytes] == JNumber(m.outputBytes)
            && NUsage in f && f[NUsage] == UsageToValue(m.usage)
            && NDiagnostics in f && f[NDiagnostics] == JArray(Render(m.diagnostics, DiagnosticToValue))
  {
  }

  lemma FieldsReturn(fields: Object, m: Message)
    requires FieldsFit(m)
    requires forall n :: n in MessageFields(m) ==> n in fields && fields[n] == MessageFields(m)[n]
    ensures if DecoderBounds(m) then MessageOfType(TypeText(m), fields) == Ok(m)
            else MessageOfType(TypeText(m), fields).Err?
  {
    hide ByteLength, UsageToValue, UsageFromValue, Collect, Render, DiagnosticBounds, StageOutputFromFields,
         ArgumentsFromFields, CapabilitiesFromFields, BytesFromFields, IsSortedUnique, HasDoubleDot, ArgumentsFit,
         CapabilitiesFit;
    TypeTextsDiffer();
    match m
    case Negotiate(capabilities) => CapabilitiesReturn(fields, capabilities);
    case UploadInput(_, _, bytes) => UploadReturns(fields, bytes);
    case Build(argv, _) => CommandsReturn(fields, argv);
    case Run(argv, _) => CommandsReturn(fields, argv);
    case StageOutput(_, _, _, _, _, _) => StageOutputReturns(fields, m);
    case _ =>
  }

  lemma TypeTextsDiffer()
    ensures |"negotiate"| == 9 && |"cancelled"| == 9 && |"heartbeat"| == 9
    ensures "negotiate"[0] == 'n' && "cancelled"[0] == 'c' && "heartbeat"[0] == 'h'
    ensures |"negotiated"| == 10 && |"upload_ack"| == 10 && "negotiated"[0] == 'n' && "upload_ack"[0] == 'u'
    ensures |"upload_input"| == 12 && |"stage_output"| == 12 && |"evidence_ack"| == 12
    ensures "upload_input"[0] == 'u' && "stage_output"[0] == 's' && "evidence_ack"[0] == 'e'
    ensures |"build"| == 5 && |"cancel"| == 6 && |"stage_evidence"| == 14
    ensures |"run"| == 3 && |"ack"| == 3 && "run"[0] == 'r' && "ack"[0] == 'a'
  {
  }

  /** For every message that encodes: its JSON value decodes to it exactly when it keeps the bounds that only the decoder
      checks, and is refused otherwise. */
  lemma ValueRoundTrip(m: Message)
    requires MessageToValue(m).Ok?
    ensures var r := MessageFromValue(MessageToValue(m).value);
            if DecoderBounds(m) then r == Ok(m) else r.Err?
  {
    hide ByteLength, MessageOfType, DecoderBounds, FieldsFit, TypeText;
    TypeTextFits(m);
    var fields := MessageToValue(m).value.fields;
    NoReservedNames(m);
    FieldsReturn(fields, m);
  }

  lemma NoReservedNames(m: Message)
    ensures NType !in MessageFields(m) && NVersion !in MessageFields(m)
  {
  }
}
