/** Frames on the byte stream between host and guest. */
module GuestChannel {
  import opened Prelude
  import opened JsonValues
  import opened GuestText
  import opened Guest

  /** The JSON text of a value, as the serializer writes it and the parser reads it. */
  datatype JsonText = JsonText(write: Json -> seq<Byte>, read: seq<Byte> -> Option<Json>)

  /** The parser reads back what the serializer wrote, for the values that messages convert to. */
  ghost predicate Faithful(text: JsonText) {
    forall m :: MessageToValue(m).Ok? ==>
      text.read(text.write(MessageToValue(m).value)) == Some(MessageToValue(m).value)
  }

  /** `Message::encode`. */
  function Encode(text: JsonText, m: Message): (r: Result<seq<Byte>, CodecError>)
    ensures r.Ok? ==> 4 <= |r.value| <= MAX_FRAME_BYTES && FromBe(r.value[..4]) == |r.value| - 4
  {
    match MessageToValue(m)
    case Err(error) => Err(error)
    case Ok(value) =>
      var body := text.write(value);
      if |body| + 4 > MAX_FRAME_BYTES then Err(FrameTooLarge)
      else
        BigEndianInverts(|body|);
        assert (ToBe(|body|) + body)[..4] == ToBe(|body|);
        Ok(ToBe(|body|) + body)
  }

  /** `Message::decode`. */
  function Decode(text: JsonText, frame: seq<Byte>): Result<Message, CodecError> {
    if |frame| < 4 then Err(Truncated)
    else
      var length := FromBe(frame[..4]);
      if length > MAX_FRAME_BYTES - 4 then Err(BoundedLengthExceeded)
      else if |frame| < 4 + length then Err(Truncated)
      else
        match text.read(frame[4..4 + length])
        case None => Err(MalformedJson)
        case Some(value) => MessageFromValue(value)
  }

  /** For every message that encodes to a frame: the frame decodes to it exactly when the message keeps the bounds that
      only the decoder checks. Bytes behind the frame do not matter. */
  lemma FrameRoundTrip(text: JsonText, m: Message, tail: seq<Byte>)
    requires Faithful(text) && Encode(text, m).Ok?
    ensures var r := Decode(text, Encode(text, m).value + tail);
            if DecoderBounds(m) then r == Ok(m) else r.Err?
  {
    hide MessageToValue, MessageFromValue, DecoderBounds, FromBe, ToBe;
    var frame := Encode(text, m).value;
    var body := text.write(MessageToValue(m).value);
    assert (frame + tail)[..4] == frame[..4];
    assert (frame + tail)[4..4 + |body|] == body;
    ValueRoundTrip(m);
  }

  // ---- Decoding first.

  lemma DecodedStageOutput(fields: Object)
    ensures StageOutputFromFields(fields).Ok? ==>
              var m := StageOutputFromFields(fields).value;
              m.StageOutput? && FieldsFit(m) && DecoderBounds(m)
  {
    hide ByteLength, UsageFromValue, StageFromText;
    if StageOutputFromFields(fields).Ok? {
      CollectAll(ListField(fields, NDiagnostics, MAX_DIAGNOSTICS).value, DiagnosticFromValue);
    }
  }

  lemma DecodedBytes(fields: Object)
    ensures BytesFromFields(fields).Ok? ==> |BytesFromFields(fields).value| <= MAX_INLINE_BYTES
  {
    if BytesFromFields(fields).Ok? {
      CollectAll(ListField(fields, NBytes, MAX_INLINE_BYTES).value, ByteFromValue);
    }
  }

  /** A name that a decoded message carries; decoding bounds its length and does not apply `check_name`. */
  predicate NamesFit(m: Message) {
    (m.UploadInput? || m.UploadAck?) ==> NameFits(m.name)
  }

  /** Every decoded message keeps all bounds of the encoder except the name rules, so it encodes again, up to the frame
      size, exactly when its name fits. */
  lemma DecodedEncodes(value: Json)
    requires MessageFromValue(value).Ok?
    ensures var m := MessageFromValue(value).value;
            DecoderBounds(m) && (FieldsFit(m) <==> NamesFit(m))
  {
    hide ByteLength, StageOutputFromFields, BytesFromFields, CapabilitiesFit, ArgumentsFit, NameFits;
    DecodedStageOutput(value.fields);
    DecodedBytes(value.fields);
  }

  function AckValue(name: string, accepted: bool): Json {
    JObject(map[NType := JString("upload_ack"), NVersion := JString(PROTOCOL_VERSION), NName := JString(name),
                NAccepted := JBool(accepted)])
  }

  lemma AckDecodes(name: string, accepted: bool)
    requires ByteLength(name) <= MAX_NAME_LEN
    ensures MessageFromValue(AckValue(name, accepted)) == Ok(UploadAck(name, accepted))
  {
    hide ByteLength, StageOutputFromFields, ArgumentsFromFields, CapabilitiesFromFields, BytesFromFields;
    TypeTextsDiffer();
    TypeTextFits(UploadAck(name, accepted));
  }

  /** A name that decodes and does not encode. */
  lemma DecodeSkipsNameRules()
    ensures MessageFromValue(AckValue("a/b", true)) == Ok(UploadAck("a/b", true))
    ensures MessageToValue(UploadAck("a/b", true)).Err?
  {
    hide MessageFromValue;
    AsciiLength("a/b");
    AckDecodes("a/b", true);
    assert "a/b"[1] == '/';
  }

  // ---- Receiving.

  datatype ChannelError = ChannelError

  /** What one `recv` takes from the stream and what it leaves. */
  function Received(text: JsonText, stream: seq<Byte>): (Result<Message, ChannelError>, seq<Byte>) {
    if |stream| < 4 then (Err(ChannelError), [])
    else
      var length := FromBe(stream[..4]);
      if length > MAX_FRAME_BYTES - 4 then (Err(ChannelError), stream[4..])
      else if |stream| < 4 + length then (Err(ChannelError), [])
      else
        match Decode(text, stream[..4 + length])
        case Err(_) => (Err(ChannelError), stream[4 + length..])
        case Ok(m) => (Ok(m), stream[4 + length..])
  }

  class GuestChannel {
    const text: JsonText
    var incoming: seq<Byte>

    constructor (text: JsonText, incoming: seq<Byte>)
      ensures this.text == text && this.incoming == incoming
    {
      this.text := text;
      this.incoming := incoming;
    }

    /** `read_exact` into the buffer from `start` on; a stream that ends early is used up. */
    method ReadExact(buffer: array<Byte>, start: nat) returns (ok: bool)
      requires start <= buffer.Length
      modifies this`incoming, buffer
      ensures ok <==> |old(incoming)| >= buffer.Length - start
      ensures buffer[..start] == old(buffer[..start])
      ensures ok ==> buffer[start..] == old(incoming)[..buffer.Length - start]
      ensures incoming == if ok then old(incoming)[buffer.Length - start..] else []
    {
      var wanted := buffer.Length - start;
      if |incoming| < wanted {
        incoming := [];
        return false;
      }
      for i := 0 to wanted
        invariant buffer[..start] == old(buffer[..start])
        invariant forall k :: 0 <= k < i ==> buffer[start + k] == old(incoming)[k]
        invariant incoming == old(incoming)
      {
        buffer[start + i] := incoming[i];
      }
      incoming := incoming[wanted..];
      return true;
    }

    /** `recv`: the length, its bound, a buffer of exactly that size, and the frame in it. */
    method Recv() returns (r: Result<Message, ChannelError>)
      modifies this`incoming
      ensures (r, incoming) == Received(text, old(incoming))
    {
      hide FromBe, Decode;
      ghost var stream := incoming;
      var lengthBuffer := new Byte[4](_ => 0);
      var ok := ReadExact(lengthBuffer, 0);
      if !ok {
        return Err(ChannelError);
      }
      assert lengthBuffer[..] == stream[..4];
      var length := FromBe(lengthBuffer[..]);
      if length > MAX_FRAME_BYTES - 4 {
        return Err(ChannelError);
      }
      var frame := new Byte[4 + length](_ => 0);
      for i := 0 to 4
        invariant lengthBuffer[..] == stream[..4] && incoming == stream[4..]
        invariant forall k :: 0 <= k < i ==> frame[k] == lengthBuffer[..][k]
      {
        frame[i] := lengthBuffer[i];
      }
      assert frame[..4] == stream[..4];
      assert |stream[4..]| == |stream| - 4;
      ok := ReadExact(frame, 4);
      if !ok {
        return Err(ChannelError);
      }
      assert frame[..] == stream[..4 + length] by {
        assert frame[..] == frame[..4] + frame[4..];
        assert stream[4..][..length] == stream[4..4 + length];
      }
      var m := Decode(text, frame[..]);
      if m.Err? {
        return Err(ChannelError);
      }
      return Ok(m.value);
    }
  }

  function Frames(text: JsonText, messages: seq<Message>): seq<Byte>
    requires forall i :: 0 <= i < |messages| ==> Encode(text, messages[i]).Ok?
  {
    if messages == [] then [] else Encode(text, messages[0]).value + Frames(text, messages[1..])
  }

  /** `n` receives in a row; the first failure ends them. */
  function ReceivedAll(text: JsonText, stream: seq<Byte>, n: nat): (Result<seq<Message>, ChannelError>, seq<Byte>) {
    if n == 0 then (Ok([]), stream)
    else
      var (first, rest) := Received(text, stream);
      if first.Err? then (Err(ChannelError), rest)
      else
        var (others, last) := ReceivedAll(text, rest, n - 1);
        (if others.Err? then others else Ok([first.value] + others.value), last)
  }

  lemma ReceivesOne(text: JsonText, m: Message, tail: seq<Byte>)
    requires Faithful(text) && Encode(text, m).Ok?
    ensures var frame := Encode(text, m).value;
            Received(text, frame + tail) == (if DecoderBounds(m) then Ok(m) else Err(ChannelError), tail)
  {
    hide Encode, Decode, DecoderBounds, FromBe;
    var frame := Encode(text, m).value;
    var stream := frame + tail;
    assert stream[..4] == frame[..4];
    assert stream[..|frame|] == frame && stream[|frame|..] == tail;
    FrameRoundTrip(text, m, []);
    assert frame + [] == frame;
  }

  /** Repeated receives over any concatenation of frames yield the messages in order and leave the bytes behind the last
      frame untouched. */
  lemma {:induction false} ReceivesInOrder(text: JsonText, messages: seq<Message>, tail: seq<Byte>)
    requires Faithful(text)
    requires forall i :: 0 <= i < |messages| ==> Encode(text, messages[i]).Ok? && DecoderBounds(messages[i])
    ensures ReceivedAll(text, Frames(text, messages) + tail, |messages|) == (Ok(messages), tail)
  {
    hide Encode, DecoderBounds, Received;
    if messages == [] {
      assert Frames(text, messages) + tail == tail;
    } else {
      var rest := messages[1..];
      assert Frames(text, messages) + tail == Encode(text, messages[0]).value + (Frames(text, rest) + tail);
      ReceivesOne(text, messages[0], Frames(text, rest) + tail);
      ReceivesInOrder(text, rest, tail);
      assert messages == [messages[0]] + rest;
    }
  }

  /** A frame that declares more than the bound is refused after its four length bytes, whatever follows. */
  lemma OversizedIsRefused(text: JsonText, length: nat, tail: seq<Byte>)
    requires MAX_FRAME_BYTES - 4 < length < 0x1_0000_0000
    ensures Received(text, ToBe(length) + tail) == (Err(ChannelError), tail)
  {
    hide Decode;
    BigEndianInverts(length);
    var stream := ToBe(length) + tail;
    assert stream[..4] == ToBe(length) && stream[4..] == tail;
  }

  /** A stream that ends inside a frame, wherever it ends, is an error and is used up. */
  lemma CutFrameFails(text: JsonText, m: Message, n: nat)
    requires Encode(text, m).Ok? && n < |Encode(text, m).value|
    ensures Received(text, Encode(text, m).value[..n]) == (Err(ChannelError), [])
  {
    hide Decode, FromBe;
    var frame := Encode(text, m).value;
    if n >= 4 { assert frame[..n][..4] == frame[..4]; }
  }

  /** What decoding a frame refuses before it looks at the text: a cut frame, and a declared length beyond the bound. */
  lemma FramesRefused(text: JsonText, frame: seq<Byte>)
    ensures |frame| < 4 ==> Decode(text, frame) == Err(Truncated)
    ensures |frame| >= 4 && FromBe(frame[..4]) > 1048572 ==> Decode(text, frame) == Err(BoundedLengthExceeded)
    ensures |frame| >= 4 && |frame| - 4 < FromBe(frame[..4]) <= 1048572 ==> Decode(text, frame) == Err(Truncated)
  {
    hide FromBe;
  }
}
