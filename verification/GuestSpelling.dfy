/** How guest messages are spelled as JSON values, and that decoding reads exactly this, for every JSON value. */
module GuestSpelling {
  import opened Prelude
  import opened JsonValues
  import opened GuestText
  import opened Guest

  function Word(m: Message): string {
    match m
    case Negotiate(_) => "negotiate"
    case Negotiated(_) => "negotiated"
    case UploadInput(_, _, _) => "upload_input"
    case UploadAck(_, _) => "upload_ack"
    case Build(_, _) => "build"
    case Run(_, _) => "run"
    case StageOutput(_, _, _, _, _, _) => "stage_output"
    case StageEvidence(_) => "stage_evidence"
    case EvidenceAck(_, _) => "evidence_ack"
    case Cancel => "cancel"
    case Cancelled => "cancelled"
    case Heartbeat => "heartbeat"
    case Ack => "ack"
  }

  predicate StringsSpelled(f: Object, name: Name, items: seq<string>) {
    && HasArray(f, name) && |f[name].items| == |items|
    && forall i :: 0 <= i < |items| ==> f[name].items[i] == JString(items[i])
  }

  predicate BytesSpelled(f: Object, items: seq<Byte>) {
    && HasArray(f, NBytes) && |f[NBytes].items| == |items|
    && forall i :: 0 <= i < |items| ==> f[NBytes].items[i] == JNumber(items[i])
  }

  predicate UsageSpelled(value: Json, u: GuestUsage) {
    && value.JObject? && Says(value.fields, NCpuTimeMs, JNumber(u.cpuTimeMs))
    && Says(value.fields, NWallTimeMs, JNumber(u.wallTimeMs))
    && Says(value.fields, NMemoryPeakBytes, JNumber(u.memoryPeakBytes))
    && Says(value.fields, NOutputBytes, JNumber(u.outputBytes))
  }

  predicate DiagnosticSpelled(value: Json, d: GuestDiagnostic) {
    && value.JObject? && Says(value.fields, NCode, JString(d.code)) && Says(value.fields, NMessage, JString(d.message))
    && Says(value.fields, NTruncated, JBool(d.truncated))
  }

  predicate DiagnosticsSpelled(f: Object, ds: seq<GuestDiagnostic>) {
    && HasArray(f, NDiagnostics) && |f[NDiagnostics].items| == |ds|
    && forall i :: 0 <= i < |ds| ==> DiagnosticSpelled(f[NDiagnostics].items[i], ds[i])
  }

  predicate CommandSpelled(f: Object, argv: seq<string>, wallTimeMs: nat) {
    StringsSpelled(f, NArgv, argv) && Says(f, NWallTimeMs, JNumber(wallTimeMs))
  }

  predicate OutputSpelled(f: Object, m: Message)
    requires m.StageOutput?
  {
    && Says(f, NStage, JString(if m.stage == BuildStage then "build" else "run"))
    && Says(f, NExitCode, JNumber(m.exitCode)) && Says(f, NOutputDigest, JString(m.outputDigest))
    && Says(f, NOutputBytes, JNumber(m.outputBytes))
    && NUsage in f && UsageSpelled(f[NUsage], m.usage) && DiagnosticsSpelled(f, m.diagnostics)
  }

  /** The fields of the message's type. */
  predicate FieldsSpelled(f: Object, m: Message) {
    match m
    case Negotiate(capabilities) => StringsSpelled(f, NCapabilities, capabilities)
    case Negotiated(supported) => Says(f, NSupported, JBool(supported))
    case UploadInput(name, digest, bytes) =>
      Says(f, NName, JString(name)) && Says(f, NDigest, JString(digest)) && BytesSpelled(f, bytes)
    case UploadAck(name, accepted) => Says(f, NName, JString(name)) && Says(f, NAccepted, JBool(accepted))
    case Build(argv, wallTimeMs) => CommandSpelled(f, argv, wallTimeMs)
    case Run(argv, wallTimeMs) => CommandSpelled(f, argv, wallTimeMs)
    case StageOutput(_, _, _, _, _, _) => OutputSpelled(f, m)
    case StageEvidence(kind) => Says(f, NKind, JString(kind))
    case EvidenceAck(kind, accepted) => Says(f, NKind, JString(kind)) && Says(f, NAccepted, JBool(accepted))
    case _ => true
  }

  predicate Spelled(value: Json, m: Message) {
    && value.JObject? && Says(value.fields, NType, JString(Word(m)))
    && Says(value.fields, NVersion, JString("v0alpha1")) && FieldsSpelled(value.fields, m)
  }

  predicate CapabilitiesBounded(capabilities: seq<string>) {
    && |capabilities| <= 32 && StrictlyIncreasing(capabilities)
    && forall c :: c in capabilities ==> ByteLength(c) <= 32
  }

  predicate ArgumentsBounded(argv: seq<string>) {
    1 <= |argv| <= 32 && forall a :: a in argv ==> ByteLength(a) <= 256
  }

  /** The bounds that decoding checks. */
  predicate Bounded(m: Message) {
    match m
    case Negotiate(capabilities) => CapabilitiesBounded(capabilities)
    case UploadInput(name, digest, bytes) => ByteLength(name) <= 128 && ByteLength(digest) <= 64 && |bytes| <= 262144
    case UploadAck(name, _) => ByteLength(name) <= 128
    case Build(argv, _) => ArgumentsBounded(argv)
    case Run(argv, _) => ArgumentsBounded(argv)
    case StageOutput(_, _, digest, _, _, diagnostics) =>
      && ByteLength(digest) <= 64 && |diagnostics| <= 32
      && forall d :: d in diagnostics ==> ByteLength(d.code) <= 32 && ByteLength(d.message) <= 4096
    case StageEvidence(kind) => ByteLength(kind) <= 32
    case EvidenceAck(kind, _) => ByteLength(kind) <= 32
    case _ => true
  }

  // ---- Encoding.

  /** `s` stands somewhere in `name`. */
  ghost predicate Contains(name: string, s: string) {
    exists a, b :: name == a + s + b
  }

  /** A name that is usable as a file name below the upload directory. */
  ghost predicate NameIsPlain(name: string) {
    && name != [] && ByteLength(name) <= 128
    && !Contains(name, "/") && !Contains(name, "\\") && !Contains(name, "..")
  }

  lemma CharIsContained(name: string, c: char)
    ensures c in name <==> Contains(name, [c])
  {
    if c in name {
      var i :| 0 <= i < |name| && name[i] == c;
      assert name == name[..i] + [c] + name[i + 1..];
    }
    if Contains(name, [c]) {
      var a, b :| name == a + [c] + b;
      assert name[|a|] == c;
    }
  }

  lemma DotsAreContained(name: string)
    ensures HasDoubleDot(name) <==> Contains(name, "..")
  {
    if HasDoubleDot(name) {
      var i :| 0 < i < |name| && name[i] == '.' && name[i - 1] == '.';
      assert name == name[..i - 1] + ".." + name[i + 1..];
    }
    if Contains(name, "..") {
      var a, b :| name == a + ".." + b;
      assert name[|a|] == '.' && name[|a| + 1] == '.';
    }
  }

  lemma PlainNames(name: string)
    ensures NameFits(name) <==> NameIsPlain(name)
  {
    hide ByteLength, HasDoubleDot, Contains;
    CharIsContained(name, '/');
    CharIsContained(name, '\\');
    DotsAreContained(name);
    assert ['/'] == "/" && ['\\'] == "\\";
  }

  /** What encoding accepts: the decoder's bounds without those on acknowledged kinds and on diagnostics, and plain
      names. Whatever it accepts it spells. */
  lemma EncodesExactly(m: Message)
    ensures MessageToValue(m).Ok? <==>
            match m
            case UploadInput(name, _, _) => Bounded(m) && NameIsPlain(name)
            case UploadAck(name, _) => NameIsPlain(name)
            case StageOutput(_, _, digest, _, _, diagnostics) => ByteLength(digest) <= 64 && |diagnostics| <= 32
            case EvidenceAck(_, _) => true
            case _ => Bounded(m)
    ensures MessageToValue(m).Ok? ==> Spelled(MessageToValue(m).value, m)
  {
    hide ByteLength, IsSortedUnique, NameFits, NameIsPlain, Spelled;
    if MessageToValue(m).Ok? { EncodingSpells(m); }
    match m
    case Negotiate(capabilities) => SortedUniqueIsIncreasing(capabilities);
    case UploadInput(name, _, _) =>
      PlainNames(name);
      PlainIsShort(name);
    case UploadAck(name, _) => PlainNames(name);
    case _ =>
  }

  lemma EncodingSpells(m: Message)
    requires MessageToValue(m).Ok?
    ensures Spelled(MessageToValue(m).value, m)
  {
    hide FieldsFit, Render, FieldsSpelled, MessageFields;
    NoReservedNames(m);
    var value := MessageToValue(m).value;
    assert forall n :: n in MessageFields(m) ==> n in value.fields && value.fields[n] == MessageFields(m)[n];
    FieldsAreSpelled(value.fields, m);
  }

  lemma FieldsAreSpelled(f: Object, m: Message)
    requires forall n :: n in MessageFields(m) ==> n in f && f[n] == MessageFields(m)[n]
    ensures FieldsSpelled(f, m)
  {
    hide Render, StringsSpelled, BytesSpelled, DiagnosticsSpelled;
    match m
    case Negotiate(capabilities) =>
      assert NCapabilities in MessageFields(m);
      StringsAreSpelled(f, NCapabilities, capabilities);
    case UploadInput(_, _, bytes) =>
      assert NName in MessageFields(m) && NDigest in MessageFields(m) && NBytes in MessageFields(m);
      BytesAreSpelled(f, bytes);
    case Build(argv, _) =>
      assert NArgv in MessageFields(m) && NWallTimeMs in MessageFields(m);
      StringsAreSpelled(f, NArgv, argv);
    case Run(argv, _) =>
      assert NArgv in MessageFields(m) && NWallTimeMs in MessageFields(m);
      StringsAreSpelled(f, NArgv, argv);
    case StageOutput(_, _, _, _, _, diagnostics) =>
      StageOutputFields(m);
      DiagnosticsAreSpelled(f, diagnostics);
    case _ =>
  }

  lemma StringsAreSpelled(f: Object, name: Name, items: seq<string>)
    requires Says(f, name, JArray(Render(items, StringToValue)))
    ensures StringsSpelled(f, name, items)
  {
    assert forall i :: 0 <= i < |items| ==> Render(items, StringToValue)[i] == StringToValue(items[i]);
  }

  lemma BytesAreSpelled(f: Object, items: seq<Byte>)
    requires Says(f, NBytes, JArray(Render(items, ByteToValue)))
    ensures BytesSpelled(f, items)
  {
    assert forall i :: 0 <= i < |items| ==> Render(items, ByteToValue)[i] == ByteToValue(items[i]);
  }

  lemma DiagnosticsAreSpelled(f: Object, items: seq<GuestDiagnostic>)
    requires Says(f, NDiagnostics, JArray(Render(items, DiagnosticToValue)))
    ensures DiagnosticsSpelled(f, items)
  {
    assert forall i :: 0 <= i < |items| ==> Render(items, DiagnosticToValue)[i] == DiagnosticToValue(items[i]);
  }

  lemma PlainIsShort(name: string)
    ensures NameIsPlain(name) ==> ByteLength(name) <= 128
  {
  }

  // ---- Decoding.

  lemma StringsDecode(f: Object, name: Name, maximum: nat, items: seq<string>)
    ensures ListField(f, name, maximum).Ok? && Collect(ListField(f, name, maximum).value, StringFromValue) == Ok(items)
            <==> StringsSpelled(f, name, items) && |items| <= maximum
  {
    hide Collect;
    if HasArray(f, name) { CollectExactly(f[name].items, StringFromValue, items); }
  }

  lemma BytesDecode(f: Object, items: seq<Byte>)
    ensures BytesFromFields(f) == Ok(items) <==> BytesSpelled(f, items) && |items| <= 262144
  {
    hide Collect;
    if HasArray(f, NBytes) { CollectExactly(f[NBytes].items, ByteFromValue, items); }
  }

  lemma DiagnosticDecodes(value: Json, d: GuestDiagnostic)
    ensures DiagnosticFromValue(value) == Ok(d) <==>
            DiagnosticSpelled(value, d) && ByteLength(d.code) <= 32 && ByteLength(d.message) <= 4096
  {
    hide ByteLength;
  }

  lemma DiagnosticsDecode(f: Object, ds: seq<GuestDiagnostic>)
    ensures ListField(f, NDiagnostics, 32).Ok?
            && Collect(ListField(f, NDiagnostics, 32).value, DiagnosticFromValue) == Ok(ds)
            <==> DiagnosticsSpelled(f, ds) && |ds| <= 32
                 && forall d :: d in ds ==> ByteLength(d.code) <= 32 && ByteLength(d.message) <= 4096
  {
    hide Collect, DiagnosticFromValue, DiagnosticSpelled, ByteLength;
    if HasArray(f, NDiagnostics) {
      var items := f[NDiagnostics].items;
      CollectExactly(items, DiagnosticFromValue, ds);
      if |items| == |ds| {
        forall i | 0 <= i < |ds|
          ensures DiagnosticFromValue(items[i]) == Ok(ds[i]) <==>
                  DiagnosticSpelled(items[i], ds[i]) && ByteLength(ds[i].code) <= 32 && ByteLength(ds[i].message) <= 4096
        {
          DiagnosticDecodes(items[i], ds[i]);
        }
      }
    }
  }

  lemma ArgumentsDecode(f: Object, argv: seq<string>)
    ensures ArgumentsFromFields(f) == Ok(argv) <==> StringsSpelled(f, NArgv, argv) && ArgumentsBounded(argv)
  {
    hide Collect, ByteLength, StringsSpelled;
    StringsDecode(f, NArgv, MAX_ARGUMENTS, argv);
  }

  lemma CapabilitiesDecode(f: Object, capabilities: seq<string>)
    ensures CapabilitiesFromFields(f) == Ok(capabilities) <==>
            StringsSpelled(f, NCapabilities, capabilities) && CapabilitiesBounded(capabilities)
  {
    hide Collect, ByteLength, StringsSpelled, IsSortedUnique;
    StringsDecode(f, NCapabilities, MAX_GUEST_CAPABILITIES, capabilities);
    SortedUniqueIsIncreasing(capabilities);
  }

  lemma UsageDecodes(value: Json, u: GuestUsage)
    ensures UsageFromValue(value) == Ok(u) <==> UsageSpelled(value, u)
  {
  }

  lemma StageDecodes(text: string, stage: Stage)
    ensures ByteLength(text) <= 32 && StageFromText(text) == Ok(stage) <==>
            text == if stage == BuildStage then "build" else "run"
  {
    AsciiLength("build");
    AsciiLength("run");
    assert |"build"| == 5 && |"run"| == 3;
  }

  lemma OutputDecodes(f: Object, m: Message)
    requires m.StageOutput?
    ensures StageOutputFromFields(f) == Ok(m) <==> OutputSpelled(f, m) && Bounded(m)
    ensures StageOutputFromFields(f).Ok? ==> StageOutputFromFields(f).value.StageOutput?
  {
    hide ByteLength, Collect, UsageFromValue, UsageSpelled, DiagnosticsSpelled, StageFromText, DiagnosticFromValue;
    DiagnosticsDecode(f, m.diagnostics);
    if NUsage in f { UsageDecodes(f[NUsage], m.usage); }
    if NStage in f && f[NStage].JString? { StageDecodes(f[NStage].text, m.stage); }
  }

  /** The fields of a message decode to it exactly when they spell it within bounds. */
  lemma FieldsDecode(f: Object, m: Message)
    ensures MessageOfType(Word(m), f) == Ok(m) <==> FieldsSpelled(f, m) && Bounded(m)
  {
    hide ByteLength, StageOutputFromFields, ArgumentsFromFields, CapabilitiesFromFields, BytesFromFields,
         StringsSpelled, BytesSpelled, OutputSpelled, CapabilitiesBounded, ArgumentsBounded;
    TypeTextsDiffer();
    match m
    case Negotiate(capabilities) => CapabilitiesDecode(f, capabilities);
    case UploadInput(_, _, bytes) => BytesDecode(f, bytes);
    case Build(argv, _) => ArgumentsDecode(f, argv);
    case Run(argv, _) => ArgumentsDecode(f, argv);
    case StageOutput(_, _, _, _, _, _) => OutputDecodes(f, m);
    case _ =>
  }

  /** A type text that yields the message is the message's word. */
  lemma OnlyItsWord(text: string, f: Object, m: Message)
    requires MessageOfType(text, f) == Ok(m)
    ensures text == Word(m)
  {
    hide ByteLength, StageOutputFromFields, ArgumentsFromFields, CapabilitiesFromFields, BytesFromFields, TextField,
         FlagField, CountField;
    if text == "stage_output" && m.StageOutput? { OutputDecodes(f, m); }
    if text == "stage_output" && !m.StageOutput? { OutputIsOutput(f); }
  }

  lemma OutputIsOutput(f: Object)
    ensures StageOutputFromFields(f).Ok? ==> StageOutputFromFields(f).value.StageOutput?
  {
    hide ByteLength, Collect, UsageFromValue, StageFromText, DiagnosticFromValue;
  }

  lemma WordIsShort(m: Message)
    ensures ByteLength(Word(m)) <= 32
  {
    hide ByteLength;
    TypeTextFits(m);
    assert Word(m) == TypeText(m);
  }

  /** For every JSON value and every message: the value decodes to the message exactly when it spells it, field by field,
      and the message is within the decoder's bounds. */
  lemma MessageDecodesExactly(value: Json, m: Message)
    ensures MessageFromValue(value) == Ok(m) <==> Spelled(value, m) && Bounded(m)
  {
    hide ByteLength, MessageOfType, FieldsSpelled, Bounded, Word;
    WordIsShort(m);
    if value.JObject? {
      FieldsDecode(value.fields, m);
      if NType in value.fields && value.fields[NType].JString?
         && MessageOfType(value.fields[NType].text, value.fields) == Ok(m) {
        OnlyItsWord(value.fields[NType].text, value.fields, m);
      }
    }
  }
}
