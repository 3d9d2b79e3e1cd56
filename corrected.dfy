/** The codec as its authors evidently meant it, next to the as-written
    model. PtyRequest and WindowChangeRequest keep the result of each
    AppendVarInt call, ExitSignalRequest stores every field at the running
    offset, ExitStatusRequest declares "exit-status", and the registry
    knows "exit-status" and "exit-signal". With these, every well-formed
    message that is written reads back as itself. */
module Corrected {
  import opened Wire
  import opened SshString
  import opened VarInt
  import opened Requests
  import opened RequestWrites
  import opened ChannelRequestMessages

  /** The varints of vs one after another, as repeated AppendVarInt calls
      that keep their results build them. */
  function VarIntsBytes(vs: seq<uint64>): seq<byte>
    requires forall i :: 0 <= i < |vs| ==> vs[i] <= MaxVarInt
  {
    if vs == [] then [] else VarIntsBytes(vs[..|vs| - 1]) + VarIntBytes(vs[|vs| - 1])
  }

  /** Four varints appended in turn are the dimensions field. */
  lemma DimensionsAsVarInts(cw: uint64, ch: uint64, pw: uint64, ph: uint64)
    requires cw <= MaxVarInt && ch <= MaxVarInt && pw <= MaxVarInt && ph <= MaxVarInt
    ensures VarIntsBytes([cw, ch, pw, ph]) == Dimensions(cw, ch, pw, ph)
  {
    assert VarIntsBytes([cw]) == VarIntBytes(cw) by {
      assert [cw][..0] == [];
    }
    assert VarIntsBytes([cw, ch]) == VarIntBytes(cw) + VarIntBytes(ch) by {
      assert [cw, ch][..1] == [cw];
    }
    assert VarIntsBytes([cw, ch, pw]) == VarIntBytes(cw) + VarIntBytes(ch) + VarIntBytes(pw) by {
      assert [cw, ch, pw][..2] == [cw, ch];
    }
    assert [cw, ch, pw, ph][..3] == [cw, ch, pw];
  }

  /** The loop over the four dimensions, keeping what AppendVarInt returns. */
  method AppendDimensions(cw: uint64, ch: uint64, pw: uint64, ph: uint64) returns (attrs: seq<byte>)
    requires cw <= MaxVarInt && ch <= MaxVarInt && pw <= MaxVarInt && ph <= MaxVarInt
    ensures attrs == Dimensions(cw, ch, pw, ph)
  {
    attrs := [];
    var dims: seq<uint64> := [cw, ch, pw, ph];
    for i := 0 to |dims|
      invariant attrs == VarIntsBytes(dims[..i])
    {
      assert dims[..i + 1][..i] == dims[..i];
      attrs := AppendVarInt(attrs, dims[i]);
    }
    assert dims[..|dims|] == dims;
    DimensionsAsVarInts(cw, ch, pw, ph);
  }

  /** The pty-req layout, spelled out field by field. */
  lemma PtyLayout(r: ChannelRequest)
    requires r.PtyRequest? && VarIntsFit(r)
    ensures Encode(r) == SSHString(r.term)
      + Dimensions(r.charWidth, r.charHeight, r.pixelWidth, r.pixelHeight)
      + SSHString(r.encodedTerminalModes)
    ensures Length(r) == SSHStringLen(r.term)
      + |Dimensions(r.charWidth, r.charHeight, r.pixelWidth, r.pixelHeight)|
      + SSHStringLen(r.encodedTerminalModes)
  {
  }

  /** PtyRequest.Write with the dimensions kept: the terminal name, the
      dimensions, the modes, each at the running offset. */
  method WritePtyRequestFixed(r: ChannelRequest, buf: array<byte>, at: nat) returns (res: Result<nat>)
    requires r.PtyRequest? && VarIntsFit(r) && at <= buf.Length
    modifies buf
    ensures buf.Length - at < Length(r) ==> res == Err(BufferTooSmall) && buf[..] == old(buf[..])
    ensures buf.Length - at >= Length(r) ==>
      res == Ok(Length(r)) && buf[..] == Splice(old(buf[..]), at, Encode(r))
  {
    if buf.Length - at < Length(r) {
      return Err(BufferTooSmall);
    }
    PtyLayout(r);
    var attrs := AppendDimensions(r.charWidth, r.charHeight, r.pixelWidth, r.pixelHeight);
    var consumed := WritePtyFields(buf, at, r.term, attrs, r.encodedTerminalModes);
    res := Ok(consumed);
  }

  /** The stores of the corrected PtyRequest.Write once the length check
      has passed. */
  method WritePtyFields(buf: array<byte>, at: nat, term: seq<byte>, attrs: seq<byte>, modes: seq<byte>)
    returns (consumed: nat)
    requires at + SSHStringLen(term) + |attrs| + SSHStringLen(modes) <= buf.Length
    modifies buf
    ensures consumed == SSHStringLen(term) + |attrs| + SSHStringLen(modes)
    ensures buf[..] == Splice(old(buf[..]), at, SSHString(term) + attrs + SSHString(modes))
  {
    ghost var before := buf[..];
    var n := WriteSSHString(buf, at, term);
    consumed := n.value;
    ghost var named := buf[..];
    var copied := CopyInto(buf, at + consumed, attrs);
    SpliceThen(before, named, buf[..], at, SSHString(term), attrs);
    consumed := consumed + copied;
    ghost var sized := buf[..];
    n := WriteSSHString(buf, at + consumed, modes);
    SpliceThen(before, sized, buf[..], at, SSHString(term) + attrs, SSHString(modes));
    consumed := consumed + n.value;
  }

  /** WindowChangeRequest.Write with the dimensions kept. */
  method WriteWindowChangeRequestFixed(r: ChannelRequest, buf: array<byte>, at: nat) returns (res: Result<nat>)
    requires r.WindowChangeRequest? && VarIntsFit(r) && at <= buf.Length
    modifies buf
    ensures buf.Length - at < Length(r) ==> res == Err(BufferTooSmall) && buf[..] == old(buf[..])
    ensures buf.Length - at >= Length(r) ==>
      res == Ok(Length(r)) && buf[..] == Splice(old(buf[..]), at, Encode(r))
  {
    if buf.Length - at < Length(r) {
      return Err(BufferTooSmall);
    }
    var attrs := AppendDimensions(r.charWidth, r.charHeight, r.pixelWidth, r.pixelHeight);
    var consumed := CopyInto(buf, at, attrs);
    res := Ok(consumed);
  }

  /** ExitSignalRequest.Write with every field at the running offset. */
  method WriteExitSignalRequestFixed(r: ChannelRequest, buf: array<byte>, at: nat) returns (res: Result<nat>)
    requires r.ExitSignalRequest? && at <= buf.Length
    modifies buf
    ensures buf.Length - at < Length(r) ==> res == Err(BufferTooSmall) && buf[..] == old(buf[..])
    ensures buf.Length - at >= Length(r) ==>
      res == Ok(Length(r)) && buf[..] == Splice(old(buf[..]), at, Encode(r))
  {
    if buf.Length - at < Length(r) {
      return Err(BufferTooSmall);
    }
    assert Encode(r) == SSHString(r.signalNameWithoutSig) + [BoolByte(r.coreDumped)]
      + SSHString(r.errorMessageUTF8) + SSHString(r.languageTag);
    var consumed := WriteExitSignalFields(buf, at, r.signalNameWithoutSig, r.coreDumped,
      r.errorMessageUTF8, r.languageTag);
    res := Ok(consumed);
  }

  /** The stores of the corrected ExitSignalRequest.Write once the length
      check has passed. */
  method WriteExitSignalFields(buf: array<byte>, at: nat, name: seq<byte>, dumped: bool,
                               message: seq<byte>, language: seq<byte>) returns (consumed: nat)
    requires at + SSHStringLen(name) + 1 + SSHStringLen(message) + SSHStringLen(language) <= buf.Length
    modifies buf
    ensures consumed == SSHStringLen(name) + 1 + SSHStringLen(message) + SSHStringLen(language)
    ensures buf[..] == Splice(old(buf[..]), at,
      SSHString(name) + [BoolByte(dumped)] + SSHString(message) + SSHString(language))
  {
    ghost var before := buf[..];
    var n := WriteSSHString(buf, at, name);
    consumed := n.value;
    ghost var named := buf[..];
    WriteFlag(buf, at + consumed, dumped);
    SpliceThen(before, named, buf[..], at, SSHString(name), [BoolByte(dumped)]);
    consumed := consumed + 1;
    ghost var flagged := buf[..];
    ghost var head := SSHString(name) + [BoolByte(dumped)];
    n := WriteSSHString(buf, at + consumed, message);
    SpliceThen(before, flagged, buf[..], at, head, SSHString(message));
    consumed := consumed + n.value;
    ghost var told := buf[..];
    n := WriteSSHString(buf, at + consumed, language);
    SpliceThen(before, told, buf[..], at, head + SSHString(message), SSHString(language));
    consumed := consumed + n.value;
  }

  /** Write through the ChannelRequest interface, corrected: every variant
      stores exactly its wire layout and reports its Length(). */
  method WriteRequestFixed(r: ChannelRequest, buf: array<byte>, at: nat) returns (res: Result<nat>)
    requires VarIntsFit(r) && at <= buf.Length
    modifies buf
    ensures buf.Length - at < Length(r) ==> res == Err(BufferTooSmall) && buf[..] == old(buf[..])
    ensures buf.Length - at >= Length(r) ==>
      res == Ok(Length(r)) && buf[..] == Splice(old(buf[..]), at, Encode(r))
  {
    ghost var before := buf[..];
    match r
    case PtyRequest(_, _, _, _, _, _) => res := WritePtyRequestFixed(r, buf, at);
    case WindowChangeRequest(_, _, _, _) => res := WriteWindowChangeRequestFixed(r, buf, at);
    case ExitSignalRequest(_, _, _, _) => res := WriteExitSignalRequestFixed(r, buf, at);
    case _ =>
      res := WriteRequest(r, buf, at);
      if buf.Length - at >= Length(r) {
        WrittenLayout(r, before, at);
      }
  }

  /** RequestTypeStr() with exit-status under its own tag. */
  function RequestTypeStrFixed(r: ChannelRequest): (t: string)
    ensures t == RequestTypeStr(r) <==> !r.ExitStatusRequest?
  {
    if r.ExitStatusRequest? then "exit-status" else RequestTypeStr(r)
  }

  /** The registry with an entry for every request type. */
  const ParseFuncsFixed: map<string, ParseFunc> := ChannelRequestParseFuncs[
    "exit-status" := ParseExitStatusRequest][
    "exit-signal" := ParseExitSignalRequest]

  lemma FixedRegistryHoldsPayloadParsers()
    ensures HoldsPayloadParsers(ParseFuncsFixed)
  {
    RegistryHoldsPayloadParsers();
  }

  /** Every payload's tag is known to the corrected registry and leads back
      to the payload's own parser. */
  lemma FixedRegistryResolves(r: ChannelRequest)
    ensures RequestTypeStrFixed(r) in ParseFuncsFixed
    ensures ParseFuncsFixed[RequestTypeStrFixed(r)] == ParserOf(r)
  {
    var m := ChannelRequestParseFuncs;
    assert "pty-req" in m && "x11-req" in m && "shell" in m && "exec" in m;
    assert "subsystem" in m && "window-change" in m && "signal" in m;
  }

  /** Payloads that share a corrected tag share a parser; as written,
      exit-status shares "signal" with a payload parsed differently. */
  lemma FixedTagsSelectOneParser(r1: ChannelRequest, r2: ChannelRequest)
    requires RequestTypeStrFixed(r1) == RequestTypeStrFixed(r2)
    ensures ParserOf(r1) == ParserOf(r2)
  {
    FixedRegistryResolves(r1);
    FixedRegistryResolves(r2);
  }

  /** As written, an exit-status and a signal request declare the same tag
      but are read by different parsers. */
  lemma TagsCollideAsWritten(status: uint64, name: seq<byte>)
    ensures RequestTypeStr(ExitStatusRequest(status)) == RequestTypeStr(SignalRequest(name))
    ensures ParserOf(ExitStatusRequest(status)) != ParserOf(SignalRequest(name))
  {
    SignalParserIsNotExitStatusParser();
  }

  /** The bytes of the corrected tag. */
  function TypeTagFixed(r: ChannelRequest): (b: seq<byte>)
    ensures |b| <= MaxStringLen && TagString(b) == RequestTypeStrFixed(r)
  {
    assert IsByteString(RequestTypeStrFixed(r)) by { RequestTypeStrFits(r); }
    TagRoundTrip(RequestTypeStrFixed(r));
    TagBytes(RequestTypeStrFixed(r))
  }

  /** The corrected envelope: message number, corrected tag, reply flag,
      payload layout. */
  function MessageBytesFixed(m: ChannelRequestMessage): (e: seq<byte>)
    requires VarIntsFit(m.request)
    ensures |e| == 1 + SSHStringLen(TypeTagFixed(m.request)) + 1 + Length(m.request)
    ensures e[0] == SshMsgChannelRequest
  {
    [SshMsgChannelRequest] + SSHString(TypeTagFixed(m.request)) + [BoolByte(m.wantReply)]
      + Encode(m.request)
  }

  /** ChannelRequestMessage.Write over the corrected tag and payload writes. */
  method WriteRequestMessageFixed(m: ChannelRequestMessage, buf: array<byte>) returns (res: Result<nat>)
    requires VarIntsFit(m.request)
    modifies buf
    ensures buf.Length < |MessageBytesFixed(m)| ==> res == Err(BufferTooSmall) && buf[..] == old(buf[..])
    ensures buf.Length >= |MessageBytesFixed(m)| ==>
      res == Ok(|MessageBytesFixed(m)|) && buf[..] == Splice(old(buf[..]), 0, MessageBytesFixed(m))
  {
    if buf.Length < |MessageBytesFixed(m)| {
      return Err(BufferTooSmall);
    }
    var tag := TypeTagFixed(m.request);
    res := WriteEnvelopeFixed(buf, tag, m.wantReply, m.request);
  }

  /** The corrected Write once the length check has passed: the header with
      the given tag bytes, then the payload. */
  method WriteEnvelopeFixed(buf: array<byte>, tag: seq<byte>, wantReply: bool, r: ChannelRequest)
    returns (res: Result<nat>)
    requires VarIntsFit(r) && 1 + SSHStringLen(tag) + 1 + Length(r) <= buf.Length
    modifies buf
    ensures res == Ok(1 + SSHStringLen(tag) + 1 + Length(r))
    ensures buf[..] == Splice(old(buf[..]), 0,
      [SshMsgChannelRequest] + SSHString(tag) + [BoolByte(wantReply)] + Encode(r))
  {
    ghost var before := buf[..];
    ghost var header := [SshMsgChannelRequest] + SSHString(tag) + [BoolByte(wantReply)];
    var consumed := WriteHeader(buf, tag, wantReply);
    ghost var headed := buf[..];
    var n := WriteRequestFixed(r, buf, consumed);
    SpliceThen(before, headed, buf[..], 0, header, Encode(r));
    consumed := consumed + n.value;
    res := Ok(consumed);
  }

  /** ParseRequestMessage over the corrected registry. */
  function ParseRequestMessageFixed(input: seq<byte>): (r: ParsedMessage)
    ensures r.Ok? ==> IsSuffix(r.value.1, input)
  {
    FixedRegistryHoldsPayloadParsers();
    ParseRequestMessageWith(ParseFuncsFixed, input)
  }

  /** Every well-formed message, exit-status and exit-signal included,
      survives an encode and a parse together with its reply flag. */
  lemma MessageRoundTripFixed(m: ChannelRequestMessage, rest: seq<byte>)
    requires WellFormed(m.request)
    ensures ParseRequestMessageFixed(MessageBytesFixed(m)[1..] + rest) == Ok((m, rest))
  {
    FixedRegistryResolves(m.request);
    FixedRegistryHoldsPayloadParsers();
    var tag, flag := TypeTagFixed(m.request), BoolByte(m.wantReply);
    MessageTailFixed(m);
    EnvelopeRoundTrip(ParseFuncsFixed, tag, m.wantReply, m.request, rest);
  }

  /** A corrected envelope after its message number: tag, flag, payload. */
  lemma MessageTailFixed(m: ChannelRequestMessage)
    requires VarIntsFit(m.request)
    ensures MessageBytesFixed(m)[1..] == SSHString(TypeTagFixed(m.request))
      + [BoolByte(m.wantReply)] + Encode(m.request)
  {
    var tagged := SSHString(TypeTagFixed(m.request));
    assert MessageBytesFixed(m) == [SshMsgChannelRequest] + (tagged + [BoolByte(m.wantReply)] + Encode(m.request));
  }

  /** What the corrected Write leaves in any large enough buffer reads back
      as the message, and the parser stops where the message ends. */
  lemma WriteThenParseFixed(m: ChannelRequestMessage, b: seq<byte>)
    requires WellFormed(m.request) && |MessageBytesFixed(m)| <= |b|
    ensures ParseRequestMessageFixed(Splice(b, 0, MessageBytesFixed(m))[1..])
      == Ok((m, b[|MessageBytesFixed(m)|..]))
  {
    var e := MessageBytesFixed(m);
    var w := Splice(b, 0, e);
    assert w[1..] == e[1..] + b[|e|..] by {
      SpliceSuffix(b, 0, e);
      assert w == w[0..];
    }
    MessageRoundTripFixed(m, b[|e|..]);
  }
}
