/** The SSH_MSG_CHANNEL_REQUEST envelope: a message-type byte, the request
    type tag as a string, the want-reply flag, then the payload. Parsing
    starts after the message-type byte, which the caller has consumed, and
    looks the tag up in a registry of payload parsers. */
module ChannelRequestMessages {
  import opened Wire
  import opened SshString
  import opened VarInt
  import opened Requests
  import opened RequestWrites

  /** The message number of a channel request (section 4.1.2 of RFC 4250). */
  const SshMsgChannelRequest: byte := 98

  /** A channel request together with its want-reply flag. */
  datatype ChannelRequestMessage = ChannelRequestMessage(wantReply: bool, request: ChannelRequest)

  /** ChannelRequestParseFuncs: the tags a received message may carry. There
      is no entry for "exit-status" or "exit-signal". */
  const ChannelRequestParseFuncs: map<string, ParseFunc> := map[
    "pty-req" := ParsePtyRequest,
    "x11-req" := ParseX11Request,
    "shell" := ParseShellRequest,
    "exec" := ParseExecRequest,
    "subsystem" := ParseSubsystemRequest,
    "window-change" := ParseWindowChangeRequest,
    "signal" := ParseSignalRequest
  ]

  /** A Go string is a byte string: every character of a tag is one byte. */
  predicate IsByteString(t: string) {
    forall i :: 0 <= i < |t| ==> t[i] as int < 256
  }

  /** The bytes of a tag, as WriteSSHString stores them. */
  function TagBytes(t: string): (b: seq<byte>)
    requires IsByteString(t)
    ensures |b| == |t|
    ensures forall i :: 0 <= i < |t| ==> b[i] == t[i] as int
  {
    seq(|t|, i requires 0 <= i < |t| => t[i] as int as byte)
  }

  /** The tag string a parsed byte string stands for. */
  function TagString(b: seq<byte>): (t: string)
    ensures |t| == |b|
    ensures forall i :: 0 <= i < |b| ==> t[i] as int == b[i]
  {
    seq(|b|, i requires 0 <= i < |b| => b[i] as char)
  }

  /** Reading a tag back gives the tag that was written. */
  lemma TagRoundTrip(t: string)
    requires IsByteString(t)
    ensures TagString(TagBytes(t)) == t
  {
    var back := TagString(TagBytes(t));
    forall i | 0 <= i < |t| ensures back[i] == t[i] {
      assert back[i] as int == t[i] as int;
    }
  }

  /** Two different tags are written as different bytes. */
  lemma TagBytesInjective(s: string, t: string)
    requires IsByteString(s) && IsByteString(t) && TagBytes(s) == TagBytes(t)
    ensures s == t
  {
    TagRoundTrip(s);
    TagRoundTrip(t);
  }

  /** Every payload's tag is a short byte string. */
  lemma RequestTypeStrFits(r: ChannelRequest)
    ensures IsByteString(RequestTypeStr(r)) && |RequestTypeStr(r)| <= MaxStringLen
  {
  }

  /** The bytes of the tag a payload declares; they read back as that tag. */
  function TypeTag(r: ChannelRequest): (b: seq<byte>)
    ensures |b| <= MaxStringLen && TagString(b) == RequestTypeStr(r)
  {
    RequestTypeStrFits(r);
    TagRoundTrip(RequestTypeStr(r));
    TagBytes(RequestTypeStr(r))
  }

  /** The first bytes of an envelope: message number, tag, reply flag. */
  function Header(m: ChannelRequestMessage): (h: seq<byte>)
    ensures |h| == 1 + SSHStringLen(TypeTag(m.request)) + 1
    ensures h[0] == SshMsgChannelRequest && h[|h| - 1] == BoolByte(m.wantReply)
  {
    [SshMsgChannelRequest] + SSHString(TypeTag(m.request)) + [BoolByte(m.wantReply)]
  }

  /** ChannelRequestMessage.Length(). */
  function MessageLength(m: ChannelRequestMessage): (n: nat)
    requires VarIntsFit(m.request)
    ensures n == |Header(m)| + Length(m.request)
  {
    1 + SSHStringLen(TypeTag(m.request)) + 1 + Length(m.request)
  }

  /** The envelope's wire layout: the header, then the payload's layout. */
  function MessageBytes(m: ChannelRequestMessage): (e: seq<byte>)
    requires VarIntsFit(m.request)
    ensures |e| == MessageLength(m)
    ensures e[0] == SshMsgChannelRequest
  {
    Header(m) + Encode(m.request)
  }

  /** What ChannelRequestMessage.Write leaves in a buffer whose contents
      were `b`: the header at offset 0, then whatever the payload's Write
      leaves after it. */
  function MessageWritten(m: ChannelRequestMessage, b: seq<byte>): (w: seq<byte>)
    requires VarIntsFit(m.request) && MessageLength(m) <= |b|
    ensures |w| == |b|
  {
    Written(m.request, Splice(b, 0, Header(m)), |Header(m)|)
  }

  /** The count ChannelRequestMessage.Write returns when it succeeds. */
  function MessageWriteCount(m: ChannelRequestMessage): nat
    requires VarIntsFit(m.request)
  {
    |Header(m)| + WriteCount(m.request)
  }

  /** ChannelRequestMessage.Write: refuses a buffer shorter than Length(),
      otherwise stores the header and hands the rest to the payload. */
  method WriteRequestMessage(m: ChannelRequestMessage, buf: array<byte>) returns (res: Result<nat>)
    requires VarIntsFit(m.request)
    modifies buf
    ensures buf.Length < MessageLength(m) ==> res == Err(BufferTooSmall) && buf[..] == old(buf[..])
    ensures buf.Length >= MessageLength(m) ==>
      res == Ok(MessageWriteCount(m)) && buf[..] == MessageWritten(m, old(buf[..]))
  {
    if buf.Length < MessageLength(m) {
      return Err(BufferTooSmall);
    }
    var tag := TypeTag(m.request);
    res := WriteEnvelope(buf, tag, m.wantReply, m.request, Header(m));
  }

  /** ChannelRequestMessage.Write once the length check has passed: the
      header with the given tag bytes, then the payload's own Write. */
  method WriteEnvelope(buf: array<byte>, tag: seq<byte>, wantReply: bool, r: ChannelRequest,
                       ghost header: seq<byte>) returns (res: Result<nat>)
    requires header == [SshMsgChannelRequest] + SSHString(tag) + [BoolByte(wantReply)]
    requires VarIntsFit(r) && |header| + Length(r) <= buf.Length
    modifies buf
    ensures res == Ok(|header| + WriteCount(r))
    ensures buf[..] == Written(r, Splice(old(buf[..]), 0, header), |header|)
  {
    var consumed := WriteHeader(buf, tag, wantReply);
    var n := WriteRequest(r, buf, consumed);
    consumed := consumed + n.value;
    res := Ok(consumed);
  }

  /** The stores of ChannelRequestMessage.Write before the payload: the
      message number, the tag string and the reply flag, in turn. */
  method WriteHeader(buf: array<byte>, tag: seq<byte>, wantReply: bool) returns (consumed: nat)
    requires 1 + SSHStringLen(tag) + 1 <= buf.Length
    modifies buf
    ensures consumed == 1 + SSHStringLen(tag) + 1
    ensures buf[..] == Splice(old(buf[..]), 0, [SshMsgChannelRequest] + SSHString(tag) + [BoolByte(wantReply)])
  {
    ghost var before := buf[..];
    buf[0] := SshMsgChannelRequest;
    ghost var s1 := buf[..];
    StoredByte(before, s1, 0, SshMsgChannelRequest);
    consumed := 1;
    var n := WriteSSHString(buf, consumed, tag);
    consumed := consumed + n.value;
    ghost var s2 := buf[..];
    WriteFlag(buf, consumed, wantReply);
    consumed := consumed + 1;
    SpliceThen(before, s1, s2, 0, [SshMsgChannelRequest], SSHString(tag));
    SpliceThen(before, s2, buf[..], 0, [SshMsgChannelRequest] + SSHString(tag), [BoolByte(wantReply)]);
  }

  /** The result of parsing an envelope: the message and the unread input. */
  type ParsedMessage = Result<(ChannelRequestMessage, seq<byte>)>

  /** Every parser a registry holds is one of the nine payload parsers. */
  ghost predicate HoldsPayloadParsers(registry: map<string, ParseFunc>) {
    forall name :: name in registry ==> IsPayloadParser(registry[name])
  }

  lemma RegistryHoldsPayloadParsers()
    ensures HoldsPayloadParsers(ChannelRequestParseFuncs)
  {
  }

  /** ParseRequestMessage against a given registry: the tag, the reply flag
      (any non-zero byte is true), then the payload the tag selects. */
  function ParseRequestMessageWith(registry: map<string, ParseFunc>, input: seq<byte>): (r: ParsedMessage)
    requires HoldsPayloadParsers(registry)
    ensures r.Ok? ==> IsSuffix(r.value.1, input)
    ensures r.Ok? ==>
      && ParseSSHString(input).Ok?
      && TagString(ParseSSHString(input).value.0) in registry
      && ParserOf(r.value.0.request) == registry[TagString(ParseSSHString(input).value.0)]
  {
    var (tag, rest) :- ParseSSHString(input);
    var (wantReply, rest1) :- ReadBool(rest);
    var r := Dispatch(registry, TagString(tag), wantReply, rest1);
    if r.Ok? then
      SuffixTransitive(r.value.1, rest1, rest);
      SuffixTransitive(r.value.1, rest, input);
      r
    else r
  }

  /** The registry lookup and the payload parser it selects. */
  function Dispatch(registry: map<string, ParseFunc>, name: string, wantReply: bool,
                    input: seq<byte>): (r: ParsedMessage)
    requires HoldsPayloadParsers(registry)
    ensures name !in registry ==> r == Err(UnknownRequestType(name))
    ensures r.Ok? ==>
      && name in registry && ParserOf(r.value.0.request) == registry[name]
      && r.value.0.wantReply == wantReply && IsSuffix(r.value.1, input)
  {
    if name !in registry then Err(UnknownRequestType(name))
    else
      var (request, rest) :- registry[name](input);
      ParseYieldsOwnVariant(registry[name], input);
      Ok((ChannelRequestMessage(wantReply, request), rest))
  }

  /** ParseRequestMessage: the input starts at the request-type tag. */
  function ParseRequestMessage(input: seq<byte>): (r: ParsedMessage)
    ensures r.Ok? ==> IsSuffix(r.value.1, input)
  {
    RegistryHoldsPayloadParsers();
    ParseRequestMessageWith(ChannelRequestParseFuncs, input)
  }

  /** An envelope whose tag and flag are well formed is decided by the
      registry entry for the tag. */
  lemma ParseAfterHeader(registry: map<string, ParseFunc>, tag: seq<byte>, flag: byte, payload: seq<byte>)
    requires HoldsPayloadParsers(registry) && |tag| <= MaxStringLen
    ensures ParseRequestMessageWith(registry, SSHString(tag) + [flag] + payload)
      == Dispatch(registry, TagString(tag), flag != 0, payload)
  {
    HeaderFields(tag, flag, payload);
  }

  /** The tag and the flag at the head of an envelope read back. */
  lemma HeaderFields(tag: seq<byte>, flag: byte, rest: seq<byte>)
    requires |tag| <= MaxStringLen
    ensures var input := SSHString(tag) + [flag] + rest;
      && ParseSSHString(input) == Ok((tag, [flag] + rest))
      && ReadBool([flag] + rest) == Ok((flag != 0, rest))
  {
    assert SSHString(tag) + [flag] + rest == SSHString(tag) + ([flag] + rest);
    SSHStringRoundTrip(tag, [flag] + rest);
  }

  /** A known tag hands the rest of the input to its parser. */
  lemma DispatchKnown(registry: map<string, ParseFunc>, name: string, wantReply: bool, input: seq<byte>)
    requires HoldsPayloadParsers(registry) && name in registry
    ensures var p := registry[name](input);
      Dispatch(registry, name, wantReply, input)
        == if p.Ok? then Ok((ChannelRequestMessage(wantReply, p.value.0), p.value.1)) else Err(p.error)
  {
  }

  /** The registry knows a payload's tag unless it is an exit-signal, and
      leads back to the payload's own parser only when it is neither an
      exit-signal nor an exit-status (whose tag is "signal"). */
  lemma RegistryResolves(r: ChannelRequest)
    ensures RequestTypeStr(r) in ChannelRequestParseFuncs <==> !r.ExitSignalRequest?
    ensures RequestTypeStr(r) in ChannelRequestParseFuncs
      && ChannelRequestParseFuncs[RequestTypeStr(r)] == ParserOf(r)
      <==> !r.ExitStatusRequest? && !r.ExitSignalRequest?
  {
    var m := ChannelRequestParseFuncs;
    assert "pty-req" in m && "x11-req" in m && "shell" in m && "exec" in m;
    assert "subsystem" in m && "window-change" in m && "signal" in m;
    assert "exit-signal" !in m;
    SignalParserIsNotExitStatusParser();
  }

  /** The "signal" parser and the exit-status parser are different
      functions: they disagree on the one-byte input [0]. */
  lemma SignalParserIsNotExitStatusParser()
    ensures ParseSignalRequest != ParseExitStatusRequest
  {
    var zero: seq<byte> := [0];
    assert ParseSSHString(zero).Err?;
    assert ParseSignalRequest(zero).Err?;
    assert ParseExitStatusRequest(zero).Ok?;
  }

  /** A received envelope never carries an exit-status or exit-signal. */
  lemma ParseNeverYieldsExitVariants(input: seq<byte>)
    ensures var r := ParseRequestMessage(input);
      r.Ok? ==> !r.value.0.request.ExitStatusRequest? && !r.value.0.request.ExitSignalRequest?
  {
    RegistryHoldsPayloadParsers();
    var registry := ChannelRequestParseFuncs;
    if ParseSSHString(input).Ok? {
      var (tag, rest) := ParseSSHString(input).value;
      if ReadBool(rest).Ok? {
        var (wantReply, rest1) := ReadBool(rest).value;
        var name := TagString(tag);
        ParseSteps(registry, input);
        if name in registry {
          DispatchKnown(registry, name, wantReply, rest1);
          RegisteredParsersYieldNoExit(name, rest1);
        }
      }
    }
  }

  /** ParseRequestMessageWith once the tag and the flag have been read. */
  lemma ParseSteps(registry: map<string, ParseFunc>, input: seq<byte>)
    requires HoldsPayloadParsers(registry)
    ensures ParseSSHString(input).Ok? && ReadBool(ParseSSHString(input).value.1).Ok? ==>
      var (tag, rest) := ParseSSHString(input).value;
      var (wantReply, rest1) := ReadBool(rest).value;
      ParseRequestMessageWith(registry, input) == Dispatch(registry, TagString(tag), wantReply, rest1)
  {
  }

  /** Whatever a registered parser reads is neither an exit-status nor an
      exit-signal. */
  lemma RegisteredParsersYieldNoExit(name: string, input: seq<byte>)
    requires name in ChannelRequestParseFuncs
    ensures var p := ChannelRequestParseFuncs[name](input);
      p.Ok? ==> !p.value.0.ExitStatusRequest? && !p.value.0.ExitSignalRequest?
  {
    var registry := ChannelRequestParseFuncs;
    if name == "pty-req" {
      assert registry[name](input) == ParsePtyRequest(input);
    } else if name == "x11-req" {
      assert registry[name](input) == ParseX11Request(input);
    } else if name == "shell" {
      assert registry[name](input) == ParseShellRequest(input);
    } else if name == "exec" {
      assert registry[name](input) == ParseExecRequest(input);
    } else if name == "subsystem" {
      assert registry[name](input) == ParseSubsystemRequest(input);
    } else if name == "window-change" {
      assert registry[name](input) == ParseWindowChangeRequest(input);
    } else {
      assert registry[name](input) == ParseSignalRequest(input);
    }
  }

  /** An envelope written with the tag bytes `tag` reads back through any
      registry that maps that tag to the payload's parser. */
  lemma EnvelopeRoundTrip(registry: map<string, ParseFunc>, tag: seq<byte>, wantReply: bool,
                          r: ChannelRequest, rest: seq<byte>)
    requires HoldsPayloadParsers(registry) && |tag| <= MaxStringLen && WellFormed(r)
    requires TagString(tag) in registry && registry[TagString(tag)] == ParserOf(r)
    ensures ParseRequestMessageWith(registry, SSHString(tag) + [BoolByte(wantReply)] + Encode(r) + rest)
      == Ok((ChannelRequestMessage(wantReply, r), rest))
  {
    var flag := BoolByte(wantReply);
    var payload := Encode(r) + rest;
    assert Dispatch(registry, TagString(tag), wantReply, payload) == Ok((ChannelRequestMessage(wantReply, r), rest)) by {
      ParseEncode(r, rest);
      DispatchKnown(registry, TagString(tag), wantReply, payload);
    }
    ParseAfterHeader(registry, tag, flag, payload);
    Append4(SSHString(tag), [flag], Encode(r), rest);
  }

  /** An envelope after its message number: tag, flag, payload. */
  lemma MessageTail(m: ChannelRequestMessage)
    requires VarIntsFit(m.request)
    ensures MessageBytes(m)[1..] == SSHString(TypeTag(m.request))
      + [BoolByte(m.wantReply)] + Encode(m.request)
  {
    var tagged := SSHString(TypeTag(m.request));
    assert MessageBytes(m) == [SshMsgChannelRequest] + (tagged + [BoolByte(m.wantReply)] + Encode(m.request));
  }

  /** Every payload whose tag leads back to its own parser survives an
      encode and a parse, together with its reply flag. */
  lemma MessageRoundTrip(m: ChannelRequestMessage, rest: seq<byte>)
    requires WellFormed(m.request)
    requires !m.request.ExitStatusRequest? && !m.request.ExitSignalRequest?
    ensures ParseRequestMessage(MessageBytes(m)[1..] + rest) == Ok((m, rest))
  {
    RegistryResolves(m.request);
    RegistryHoldsPayloadParsers();
    MessageTail(m);
    var tag, flag := TypeTag(m.request), BoolByte(m.wantReply);
    assert MessageBytes(m)[1..] + rest == SSHString(tag) + [flag] + Encode(m.request) + rest;
    EnvelopeRoundTrip(ChannelRequestParseFuncs, tag, m.wantReply, m.request, rest);
  }

  /** Exit-status and exit-signal envelopes never read back as themselves. */
  lemma ExitMessagesNeverRoundTrip(m: ChannelRequestMessage, rest: seq<byte>)
    requires VarIntsFit(m.request)
    requires m.request.ExitStatusRequest? || m.request.ExitSignalRequest?
    ensures ParseRequestMessage(MessageBytes(m)[1..] + rest) != Ok((m, rest))
  {
    ParseNeverYieldsExitVariants(MessageBytes(m)[1..] + rest);
  }

  /** An exit status below 16384 is sent under the tag "signal" in one or
      two varint bytes, which the signal parser then takes for the start of
      a four-byte string length, and runs out. */
  lemma ExitStatusMessageMisparsed(wantReply: bool, status: nat)
    requires status < 16384
    ensures var m := ChannelRequestMessage(wantReply, ExitStatusRequest(status));
      ParseRequestMessage(MessageBytes(m)[1..]) == Err(AdvanceTooFar)
  {
    var m := ChannelRequestMessage(wantReply, ExitStatusRequest(status));
    var payload := Encode(m.request);
    assert |payload| < 4;
    var tag, flag := TypeTag(m.request), BoolByte(wantReply);
    assert MessageBytes(m)[1..] == SSHString(tag) + [flag] + payload by { MessageTail(m); }
    RegistryHoldsPayloadParsers();
    ParseAfterHeader(ChannelRequestParseFuncs, tag, flag, payload);
    SignalParserRejects(payload);
    DispatchKnown(ChannelRequestParseFuncs, "signal", wantReply, payload);
  }

  /** Fewer than four bytes are too short for the signal name's length prefix. */
  lemma SignalParserRejects(input: seq<byte>)
    requires |input| < 4
    ensures ChannelRequestParseFuncs["signal"](input) == Err(AdvanceTooFar)
  {
    assert ChannelRequestParseFuncs["signal"] == ParseSignalRequest;
  }

  /** The reply flag is read leniently: any non-zero byte means true. */
  lemma ReplyFlagAnyNonZero(flag: byte, rest: seq<byte>)
    ensures var input := SSHString(TagBytes("shell")) + [flag] + rest;
      ParseRequestMessage(input) == Ok((ChannelRequestMessage(flag != 0, ShellRequest), rest))
  {
    var tag := TagBytes("shell");
    RegistryHoldsPayloadParsers();
    ParseAfterHeader(ChannelRequestParseFuncs, tag, flag, rest);
    TagRoundTrip("shell");
    DispatchKnown(ChannelRequestParseFuncs, "shell", flag != 0, rest);
    assert ChannelRequestParseFuncs["shell"](rest) == ParseShellRequest(rest);
  }

  /** A tag the registry does not know is reported by name. */
  lemma UnknownTagRejected(tag: string, flag: byte, rest: seq<byte>)
    requires IsByteString(tag) && |tag| <= MaxStringLen && tag !in ChannelRequestParseFuncs
    ensures ParseRequestMessage(SSHString(TagBytes(tag)) + [flag] + rest)
      == Err(UnknownRequestType(tag))
  {
    RegistryHoldsPayloadParsers();
    ParseAfterHeader(ChannelRequestParseFuncs, TagBytes(tag), flag, rest);
    TagRoundTrip(tag);
  }

  /** "frobnicate" is not a request type. */
  lemma FrobnicateRejected(rest: seq<byte>)
    ensures ParseRequestMessage(SSHString(TagBytes("frobnicate")) + [1] + rest)
      == Err(UnknownRequestType("frobnicate"))
  {
    UnknownTagRejected("frobnicate", 1, rest);
  }

  /** The wire form of an exec request whose command is shorter than 256
      bytes, after the message number. */
  lemma ExecMessageBytes(wantReply: bool, command: seq<byte>)
    requires |command| < 256
    ensures MessageBytes(ChannelRequestMessage(wantReply, ExecRequest(command)))[1..]
      == [0, 0, 0, 4, 0x65, 0x78, 0x65, 0x63, BoolByte(wantReply), 0, 0, 0, |command|] + command
  {
    var m := ChannelRequestMessage(wantReply, ExecRequest(command));
    var tag := TypeTag(m.request);
    MessageTail(m);
    ExecTag(command);
    ShortSSHString(tag);
    ShortSSHString(command);
    ExecLayout(SSHString(tag), BoolByte(wantReply), SSHString(command), command);
  }

  /** The exec tag's bytes. */
  lemma ExecTag(command: seq<byte>)
    ensures TypeTag(ExecRequest(command)) == [0x65, 0x78, 0x65, 0x63]
  {
    assert TypeTag(ExecRequest(command)) == TagBytes("exec");
  }

  /** A string shorter than 256 bytes: three zero bytes, the length, the
      bytes. */
  lemma ShortSSHString(s: seq<byte>)
    requires |s| < 256
    ensures SSHString(s) == [0, 0, 0, |s|] + s
  {
    assert ToBE(|s|, 4) == [0, 0, 0, |s|];
  }

  lemma ExecLayout(tagged: seq<byte>, flag: byte, commanded: seq<byte>, command: seq<byte>)
    requires |command| < 256
    requires tagged == [0, 0, 0, 4] + [0x65, 0x78, 0x65, 0x63]
    requires commanded == [0, 0, 0, |command|] + command
    ensures tagged + [flag] + commanded
      == [0, 0, 0, 4, 0x65, 0x78, 0x65, 0x63, flag, 0, 0, 0, |command|] + command
  {
  }

  /** Those bytes read back as the same exec request and reply flag. */
  lemma ExecMessageParses(wantReply: bool, command: seq<byte>)
    requires |command| < 256
    ensures ParseRequestMessage([0, 0, 0, 4, 0x65, 0x78, 0x65, 0x63, BoolByte(wantReply), 0, 0, 0, |command|] + command)
      == Ok((ChannelRequestMessage(wantReply, ExecRequest(command)), []))
  {
    var m := ChannelRequestMessage(wantReply, ExecRequest(command));
    ExecMessageBytes(wantReply, command);
    MessageRoundTrip(m, []);
    assert MessageBytes(m)[1..] + [] == MessageBytes(m)[1..];
  }

  /** Write reports exactly Length() bytes except for pty-req and
      window-change, whose Write reports fewer. */
  lemma MessageWriteCountVsLength(m: ChannelRequestMessage)
    requires VarIntsFit(m.request)
    ensures MessageWriteCount(m) <= MessageLength(m)
    ensures MessageWriteCount(m) == MessageLength(m)
      <==> !m.request.PtyRequest? && !m.request.WindowChangeRequest?
  {
    WriteCountVsLength(m.request);
  }

  /** For payloads whose Write lays down their layout and whose tag leads
      back to their parser, what Write leaves in the buffer reads back as
      the message, and the parser stops at the end of what was written. */
  lemma WriteThenParse(m: ChannelRequestMessage, b: seq<byte>)
    requires WellFormed(m.request) && WritesLayout(m.request) && !m.request.ExitStatusRequest?
    requires MessageLength(m) <= |b|
    ensures MessageWritten(m, b)[0] == SshMsgChannelRequest
    ensures ParseRequestMessage(MessageWritten(m, b)[1..]) == Ok((m, b[MessageLength(m)..]))
  {
    var h, e := Header(m), Encode(m.request);
    WrittenLayout(m.request, Splice(b, 0, h), |h|);
    SpliceAdjacent(b, 0, h, e);
    var w := MessageWritten(m, b);
    assert w == MessageBytes(m) + b[MessageLength(m)..];
    assert w[1..] == MessageBytes(m)[1..] + b[MessageLength(m)..];
    MessageRoundTrip(m, b[MessageLength(m)..]);
  }
}
