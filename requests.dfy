/** The nine channel-request payloads (section 6 of RFC 4254, with every
    numeric field carried as a QUIC varint): their tags, wire lengths,
    layouts and parsers. The in-place Write methods are in RequestWrites. */
module Requests {
  import opened Wire
  import opened SshString
  import opened VarInt

  /** One payload variant. Text fields are Go strings, i.e. byte strings. */
  datatype ChannelRequest =
    | PtyRequest(term: seq<byte>, charWidth: uint64, charHeight: uint64,
                 pixelWidth: uint64, pixelHeight: uint64, encodedTerminalModes: seq<byte>)
    | X11Request(singleConnection: bool, authProtocol: seq<byte>, authCookie: seq<byte>,
                 screenNumber: uint64)
    | ShellRequest
    | ExecRequest(command: seq<byte>)
    | SubsystemRequest(subsystemName: seq<byte>)
    | WindowChangeRequest(charWidth: uint64, charHeight: uint64,
                          pixelWidth: uint64, pixelHeight: uint64)
    | SignalRequest(signalNameWithoutSig: seq<byte>)
    | ExitStatusRequest(exitStatus: uint64)
    | ExitSignalRequest(signalNameWithoutSig: seq<byte>, coreDumped: bool,
                        errorMessageUTF8: seq<byte>, languageTag: seq<byte>)

  /** Every numeric field is within varint range. Length() and Write() call
      VarIntLen and AppendVarInt, which panic on larger values. */
  predicate VarIntsFit(r: ChannelRequest) {
    match r
    case PtyRequest(_, cw, ch, pw, ph, _) =>
      cw <= MaxVarInt && ch <= MaxVarInt && pw <= MaxVarInt && ph <= MaxVarInt
    case X11Request(_, _, _, screen) => screen <= MaxVarInt
    case WindowChangeRequest(cw, ch, pw, ph) =>
      cw <= MaxVarInt && ch <= MaxVarInt && pw <= MaxVarInt && ph <= MaxVarInt
    case ExitStatusRequest(status) => status <= MaxVarInt
    case _ => true
  }

  /** Every text field's length fits the 4-byte length prefix. */
  predicate StringsFit(r: ChannelRequest) {
    match r
    case PtyRequest(term, _, _, _, _, modes) => |term| <= MaxStringLen && |modes| <= MaxStringLen
    case X11Request(_, protocol, cookie, _) => |protocol| <= MaxStringLen && |cookie| <= MaxStringLen
    case ExecRequest(command) => |command| <= MaxStringLen
    case SubsystemRequest(name) => |name| <= MaxStringLen
    case SignalRequest(name) => |name| <= MaxStringLen
    case ExitSignalRequest(name, _, message, language) =>
      |name| <= MaxStringLen && |message| <= MaxStringLen && |language| <= MaxStringLen
    case _ => true
  }

  /** A payload that can be encoded and recovered. */
  predicate WellFormed(r: ChannelRequest) {
    VarIntsFit(r) && StringsFit(r)
  }

  /** RequestTypeStr(): the tag each variant declares. ExitStatusRequest
      declares "signal", as the source has it. */
  function RequestTypeStr(r: ChannelRequest): (t: string)
    ensures t == "signal" <==> r.SignalRequest? || r.ExitStatusRequest?
    ensures t != "exit-status"
  {
    match r
    case PtyRequest(_, _, _, _, _, _) => "pty-req"
    case X11Request(_, _, _, _) => "x11-req"
    case ShellRequest => "shell"
    case ExecRequest(_) => "exec"
    case SubsystemRequest(_) => "subsystem"
    case WindowChangeRequest(_, _, _, _) => "window-change"
    case SignalRequest(_) => "signal"
    case ExitStatusRequest(_) => "signal"
    case ExitSignalRequest(_, _, _, _) => "exit-signal"
  }

  /** Length(): the payload's wire length as each variant computes it. */
  function Length(r: ChannelRequest): (n: nat)
    requires VarIntsFit(r)
    ensures n == 0 <==> r.ShellRequest?
  {
    match r
    case PtyRequest(term, cw, ch, pw, ph, modes) =>
      SSHStringLen(term) + VarIntLen(cw) + VarIntLen(ch) + VarIntLen(pw) + VarIntLen(ph)
        + SSHStringLen(modes)
    case X11Request(_, protocol, cookie, screen) =>
      1 + SSHStringLen(protocol) + SSHStringLen(cookie) + VarIntLen(screen)
    case ShellRequest => 0
    case ExecRequest(command) => SSHStringLen(command)
    case SubsystemRequest(name) => SSHStringLen(name)
    case WindowChangeRequest(cw, ch, pw, ph) =>
      VarIntLen(cw) + VarIntLen(ch) + VarIntLen(pw) + VarIntLen(ph)
    case SignalRequest(name) => SSHStringLen(name)
    case ExitStatusRequest(status) => VarIntLen(status)
    case ExitSignalRequest(name, _, message, language) =>
      SSHStringLen(name) + 1 + SSHStringLen(message) + SSHStringLen(language)
  }

  /** A boolean field: one byte, 1 for true and 0 for false. */
  function BoolByte(b: bool): byte {
    if b then 1 else 0
  }

  /** Four varints back to back, as the dimension fields are laid out. */
  function Dimensions(cw: nat, ch: nat, pw: nat, ph: nat): (e: seq<byte>)
    requires cw <= MaxVarInt && ch <= MaxVarInt && pw <= MaxVarInt && ph <= MaxVarInt
    ensures |e| == VarIntLen(cw) + VarIntLen(ch) + VarIntLen(pw) + VarIntLen(ph)
  {
    VarIntBytes(cw) + VarIntBytes(ch) + VarIntBytes(pw) + VarIntBytes(ph)
  }

  /** The field layout every parser reads: the RFC 4254 field order, text as
      RFC 4251 strings, booleans as one byte, numbers as varints. */
  function Encode(r: ChannelRequest): (e: seq<byte>)
    requires VarIntsFit(r)
    ensures |e| == Length(r)
  {
    match r
    case PtyRequest(term, cw, ch, pw, ph, modes) =>
      SSHString(term) + Dimensions(cw, ch, pw, ph) + SSHString(modes)
    case X11Request(single, protocol, cookie, screen) =>
      [BoolByte(single)] + SSHString(protocol) + SSHString(cookie) + VarIntBytes(screen)
    case ShellRequest => []
    case ExecRequest(command) => SSHString(command)
    case SubsystemRequest(name) => SSHString(name)
    case WindowChangeRequest(cw, ch, pw, ph) => Dimensions(cw, ch, pw, ph)
    case SignalRequest(name) => SSHString(name)
    case ExitStatusRequest(status) => VarIntBytes(status)
    case ExitSignalRequest(name, dumped, message, language) =>
      SSHString(name) + [BoolByte(dumped)] + SSHString(message) + SSHString(language)
  }

  /** binary.Read into a bool: one byte, and any non-zero byte is true. */
  function ReadBool(input: seq<byte>): (r: Result<(bool, seq<byte>)>)
    ensures r.Ok? <==> |input| >= 1
    ensures r.Ok? ==> r.value == (input[0] != 0, input[1..])
    ensures r.Ok? ==> IsSuffix(r.value.1, input)
    ensures r.Err? ==> r.error == Truncated
  {
    if |input| == 0 then Err(Truncated) else Ok((input[0] != 0, input[1..]))
  }

  /** The result of a payload parser: the payload and the unread input. */
  type Parsed = Result<(ChannelRequest, seq<byte>)>

  /** The four dimension varints read one after another. */
  function ReadDimensions(input: seq<byte>): (r: Result<((uint64, uint64, uint64, uint64), seq<byte>)>)
    ensures r.Ok? ==> IsSuffix(r.value.1, input)
    ensures r.Err? ==> r.error == Truncated
  {
    var (cw, rest) :- ReadVarInt(input);
    var (ch, rest1) :- ReadVarInt(rest);
    var (pw, rest2) :- ReadVarInt(rest1);
    var (ph, rest3) :- ReadVarInt(rest2);
    SuffixTransitive(rest3, rest2, rest1);
    SuffixTransitive(rest3, rest1, rest);
    SuffixTransitive(rest3, rest, input);
    Ok(((cw, ch, pw, ph), rest3))
  }

  function ParsePtyRequest(input: seq<byte>): (r: Parsed)
    ensures r.Ok? ==> r.value.0.PtyRequest? && IsSuffix(r.value.1, input)
    ensures r.Err? ==> r.error == Truncated
  {
    var (term, rest) :- ParseSSHString(input);
    var (dims, rest1) :- ReadDimensions(rest);
    var (modes, rest2) :- ParseSSHString(rest1);
    SuffixTransitive(rest2, rest1, rest);
    SuffixTransitive(rest2, rest, input);
    Ok((PtyRequest(term, dims.0, dims.1, dims.2, dims.3, modes), rest2))
  }

  function ParseX11Request(input: seq<byte>): (r: Parsed)
    ensures r.Ok? ==> r.value.0.X11Request? && IsSuffix(r.value.1, input)
    ensures r.Err? ==> r.error == Truncated
  {
    var (single, rest) :- ReadBool(input);
    var (protocol, rest1) :- ParseSSHString(rest);
    var (cookie, rest2) :- ParseSSHString(rest1);
    var (screen, rest3) :- ReadVarInt(rest2);
    SuffixTransitive(rest3, rest2, rest1);
    SuffixTransitive(rest3, rest1, rest);
    SuffixTransitive(rest3, rest, input);
    Ok((X11Request(single, protocol, cookie, screen), rest3))
  }

  /** Consumes nothing and always succeeds. */
  function ParseShellRequest(input: seq<byte>): (r: Parsed)
    ensures r == Ok((ShellRequest, input))
  {
    Ok((ShellRequest, input))
  }

  /** One string field; any failure becomes AdvanceTooFar. */
  function ParseExecRequest(input: seq<byte>): (r: Parsed)
    ensures r.Ok? ==> r.value.0.ExecRequest? && IsSuffix(r.value.1, input)
    ensures r.Err? ==> r.error == AdvanceTooFar
    ensures r.Ok? <==> ParseSSHString(input).Ok?
  {
    match ParseSSHString(input)
    case Err(_) => Err(AdvanceTooFar)
    case Ok((command, rest)) => Ok((ExecRequest(command), rest))
  }

  function ParseSubsystemRequest(input: seq<byte>): (r: Parsed)
    ensures r.Ok? ==> r.value.0.SubsystemRequest? && IsSuffix(r.value.1, input)
    ensures r.Err? ==> r.error == AdvanceTooFar
    ensures r.Ok? <==> ParseSSHString(input).Ok?
  {
    match ParseSSHString(input)
    case Err(_) => Err(AdvanceTooFar)
    case Ok((name, rest)) => Ok((SubsystemRequest(name), rest))
  }

  function ParseWindowChangeRequest(input: seq<byte>): (r: Parsed)
    ensures r.Ok? ==> r.value.0.WindowChangeRequest? && IsSuffix(r.value.1, input)
    ensures r.Err? ==> r.error == Truncated
  {
    var (dims, rest) :- ReadDimensions(input);
    Ok((WindowChangeRequest(dims.0, dims.1, dims.2, dims.3), rest))
  }

  function ParseSignalRequest(input: seq<byte>): (r: Parsed)
    ensures r.Ok? ==> r.value.0.SignalRequest? && IsSuffix(r.value.1, input)
    ensures r.Err? ==> r.error == AdvanceTooFar
    ensures r.Ok? <==> ParseSSHString(input).Ok?
  {
    match ParseSSHString(input)
    case Err(_) => Err(AdvanceTooFar)
    case Ok((name, rest)) => Ok((SignalRequest(name), rest))
  }

  function ParseExitStatusRequest(input: seq<byte>): (r: Parsed)
    ensures r.Ok? ==> r.value.0.ExitStatusRequest? && IsSuffix(r.value.1, input)
    ensures r.Err? ==> r.error == Truncated
  {
    var (status, rest) :- ReadVarInt(input);
    Ok((ExitStatusRequest(status), rest))
  }

  /** The string fields fail with AdvanceTooFar, the boolean with Truncated. */
  function ParseExitSignalRequest(input: seq<byte>): (r: Parsed)
    ensures r.Ok? ==> r.value.0.ExitSignalRequest? && IsSuffix(r.value.1, input)
    ensures r.Err? ==> r.error == AdvanceTooFar || r.error == Truncated
    ensures r.Err? && r.error == Truncated ==> ParseSSHString(input).Ok?
  {
    match ParseSSHString(input)
    case Err(_) => Err(AdvanceTooFar)
    case Ok((name, rest)) =>
      var (dumped, rest1) :- ReadBool(rest);
      match ParseSSHString(rest1)
      case Err(_) => Err(AdvanceTooFar)
      case Ok((message, rest2)) =>
        match ParseSSHString(rest2)
        case Err(_) => Err(AdvanceTooFar)
        case Ok((language, rest3)) =>
          SuffixTransitive(rest3, rest2, rest1);
          SuffixTransitive(rest3, rest1, rest);
          SuffixTransitive(rest3, rest, input);
          Ok((ExitSignalRequest(name, dumped, message, language), rest3))
  }

  /** A payload parser as the registry holds it: a function of the input. */
  type ParseFunc = seq<byte> -> Parsed

  /** The parser that produces payloads of r's variant. */
  function ParserOf(r: ChannelRequest): ParseFunc {
    match r
    case PtyRequest(_, _, _, _, _, _) => ParsePtyRequest
    case X11Request(_, _, _, _) => ParseX11Request
    case ShellRequest => ParseShellRequest
    case ExecRequest(_) => ParseExecRequest
    case SubsystemRequest(_) => ParseSubsystemRequest
    case WindowChangeRequest(_, _, _, _) => ParseWindowChangeRequest
    case SignalRequest(_) => ParseSignalRequest
    case ExitStatusRequest(_) => ParseExitStatusRequest
    case ExitSignalRequest(_, _, _, _) => ParseExitSignalRequest
  }

  /** f is one of the nine payload parsers. */
  ghost predicate IsPayloadParser(f: ParseFunc) {
    || f == ParsePtyRequest || f == ParseX11Request || f == ParseShellRequest
    || f == ParseExecRequest || f == ParseSubsystemRequest || f == ParseWindowChangeRequest
    || f == ParseSignalRequest || f == ParseExitStatusRequest || f == ParseExitSignalRequest
  }

  /** A parser only ever yields payloads of its own variant, and reads only
      a prefix of its input. */
  lemma ParseYieldsOwnVariant(f: ParseFunc, input: seq<byte>)
    requires IsPayloadParser(f)
    ensures f(input).Ok? ==> ParserOf(f(input).value.0) == f && IsSuffix(f(input).value.1, input)
  {
    if f == ParsePtyRequest {
      OwnVariantPty(ParsePtyRequest(input));
    } else if f == ParseX11Request {
      OwnVariantX11(ParseX11Request(input));
    } else if f == ParseShellRequest {
      OwnVariantShell(ParseShellRequest(input));
    } else if f == ParseExecRequest {
      OwnVariantExec(ParseExecRequest(input));
    } else if f == ParseSubsystemRequest {
      OwnVariantSubsystem(ParseSubsystemRequest(input));
    } else if f == ParseWindowChangeRequest {
      OwnVariantWindowChange(ParseWindowChangeRequest(input));
    } else if f == ParseSignalRequest {
      OwnVariantSignal(ParseSignalRequest(input));
    } else if f == ParseExitStatusRequest {
      OwnVariantExitStatus(ParseExitStatusRequest(input));
    } else if f == ParseExitSignalRequest {
      OwnVariantExitSignal(ParseExitSignalRequest(input));
    }
  }

  lemma OwnVariantPty(r: Parsed)
    requires r.Ok? ==> r.value.0.PtyRequest?
    ensures r.Ok? ==> ParserOf(r.value.0) == ParsePtyRequest
  {
  }

  lemma OwnVariantX11(r: Parsed)
    requires r.Ok? ==> r.value.0.X11Request?
    ensures r.Ok? ==> ParserOf(r.value.0) == ParseX11Request
  {
  }

  lemma OwnVariantShell(r: Parsed)
    requires r.Ok? ==> r.value.0.ShellRequest?
    ensures r.Ok? ==> ParserOf(r.value.0) == ParseShellRequest
  {
  }

  lemma OwnVariantExec(r: Parsed)
    requires r.Ok? ==> r.value.0.ExecRequest?
    ensures r.Ok? ==> ParserOf(r.value.0) == ParseExecRequest
  {
  }

  lemma OwnVariantSubsystem(r: Parsed)
    requires r.Ok? ==> r.value.0.SubsystemRequest?
    ensures r.Ok? ==> ParserOf(r.value.0) == ParseSubsystemRequest
  {
  }

  lemma OwnVariantWindowChange(r: Parsed)
    requires r.Ok? ==> r.value.0.WindowChangeRequest?
    ensures r.Ok? ==> ParserOf(r.value.0) == ParseWindowChangeRequest
  {
  }

  lemma OwnVariantSignal(r: Parsed)
    requires r.Ok? ==> r.value.0.SignalRequest?
    ensures r.Ok? ==> ParserOf(r.value.0) == ParseSignalRequest
  {
  }

  lemma OwnVariantExitStatus(r: Parsed)
    requires r.Ok? ==> r.value.0.ExitStatusRequest?
    ensures r.Ok? ==> ParserOf(r.value.0) == ParseExitStatusRequest
  {
  }

  lemma OwnVariantExitSignal(r: Parsed)
    requires r.Ok? ==> r.value.0.ExitSignalRequest?
    ensures r.Ok? ==> ParserOf(r.value.0) == ParseExitSignalRequest
  {
  }

  lemma DimensionsRoundTrip(cw: nat, ch: nat, pw: nat, ph: nat, rest: seq<byte>)
    requires cw <= MaxVarInt && ch <= MaxVarInt && pw <= MaxVarInt && ph <= MaxVarInt
    ensures ReadDimensions(Dimensions(cw, ch, pw, ph) + rest) == Ok(((cw, ch, pw, ph), rest))
  {
    var a, b, c, d := VarIntBytes(cw), VarIntBytes(ch), VarIntBytes(pw), VarIntBytes(ph);
    assert Dimensions(cw, ch, pw, ph) == a + b + c + d;
    Nest5(a, b, c, d, rest);
    VarIntRoundTrip(cw, b + (c + (d + rest)));
    VarIntRoundTrip(ch, c + (d + rest));
    VarIntRoundTrip(pw, d + rest);
    VarIntRoundTrip(ph, rest);
  }

  lemma PtyRoundTrip(r: ChannelRequest, rest: seq<byte>)
    requires r.PtyRequest? && WellFormed(r)
    ensures ParsePtyRequest(Encode(r) + rest) == Ok((r, rest))
    ensures ParserOf(r)(Encode(r) + rest) == Ok((r, rest))
  {
    var dims := Dimensions(r.charWidth, r.charHeight, r.pixelWidth, r.pixelHeight);
    var modes := SSHString(r.encodedTerminalModes);
    assert Encode(r) == SSHString(r.term) + dims + modes;
    Nest4(SSHString(r.term), dims, modes, rest);
    PtyFieldsRoundTrip(r.term, r.charWidth, r.charHeight, r.pixelWidth, r.pixelHeight,
      r.encodedTerminalModes, rest);
  }

  /** The pty-req fields read back one after another. */
  lemma PtyFieldsRoundTrip(term: seq<byte>, cw: uint64, ch: uint64, pw: uint64, ph: uint64,
                           modes: seq<byte>, rest: seq<byte>)
    requires |term| <= MaxStringLen && |modes| <= MaxStringLen
    requires cw <= MaxVarInt && ch <= MaxVarInt && pw <= MaxVarInt && ph <= MaxVarInt
    ensures var input := SSHString(term) + (Dimensions(cw, ch, pw, ph) + (SSHString(modes) + rest));
      ParsePtyRequest(input) == Ok((PtyRequest(term, cw, ch, pw, ph, modes), rest))
  {
    var tail := SSHString(modes) + rest;
    SSHStringRoundTrip(term, Dimensions(cw, ch, pw, ph) + tail);
    DimensionsRoundTrip(cw, ch, pw, ph, tail);
    SSHStringRoundTrip(modes, rest);
  }

  lemma X11RoundTrip(r: ChannelRequest, rest: seq<byte>)
    requires r.X11Request? && WellFormed(r)
    ensures ParseX11Request(Encode(r) + rest) == Ok((r, rest))
    ensures ParserOf(r)(Encode(r) + rest) == Ok((r, rest))
  {
    var protocol, cookie := SSHString(r.authProtocol), SSHString(r.authCookie);
    var screen := VarIntBytes(r.screenNumber);
    assert Encode(r) == [BoolByte(r.singleConnection)] + protocol + cookie + screen;
    Nest5([BoolByte(r.singleConnection)], protocol, cookie, screen, rest);
    X11FieldsRoundTrip(r.singleConnection, r.authProtocol, r.authCookie, r.screenNumber, rest);
  }

  /** The X11 fields read back one after another. */
  lemma X11FieldsRoundTrip(single: bool, protocol: seq<byte>, cookie: seq<byte>, screen: uint64,
                           rest: seq<byte>)
    requires |protocol| <= MaxStringLen && |cookie| <= MaxStringLen && screen <= MaxVarInt
    ensures var input := [BoolByte(single)]
      + (SSHString(protocol) + (SSHString(cookie) + (VarIntBytes(screen) + rest)));
      ParseX11Request(input) == Ok((X11Request(single, protocol, cookie, screen), rest))
  {
    var tail := SSHString(cookie) + (VarIntBytes(screen) + rest);
    assert ReadBool([BoolByte(single)] + (SSHString(protocol) + tail))
      == Ok((single, SSHString(protocol) + tail));
    SSHStringRoundTrip(protocol, tail);
    SSHStringRoundTrip(cookie, VarIntBytes(screen) + rest);
    VarIntRoundTrip(screen, rest);
  }

  /** Exec, subsystem and signal payloads are one string field. */
  lemma StringPayloadRoundTrip(r: ChannelRequest, rest: seq<byte>)
    requires r.ExecRequest? || r.SubsystemRequest? || r.SignalRequest?
    requires WellFormed(r)
    ensures ParserOf(r)(Encode(r) + rest) == Ok((r, rest))
  {
    match r
    case ExecRequest(command) => SSHStringRoundTrip(command, rest);
    case SubsystemRequest(name) => SSHStringRoundTrip(name, rest);
    case SignalRequest(name) => SSHStringRoundTrip(name, rest);
  }

  lemma WindowChangeRoundTrip(r: ChannelRequest, rest: seq<byte>)
    requires r.WindowChangeRequest? && WellFormed(r)
    ensures ParseWindowChangeRequest(Encode(r) + rest) == Ok((r, rest))
    ensures ParserOf(r)(Encode(r) + rest) == Ok((r, rest))
  {
    DimensionsRoundTrip(r.charWidth, r.charHeight, r.pixelWidth, r.pixelHeight, rest);
  }

  lemma ExitStatusRoundTrip(r: ChannelRequest, rest: seq<byte>)
    requires r.ExitStatusRequest? && WellFormed(r)
    ensures ParseExitStatusRequest(Encode(r) + rest) == Ok((r, rest))
    ensures ParserOf(r)(Encode(r) + rest) == Ok((r, rest))
  {
    VarIntRoundTrip(r.exitStatus, rest);
  }

  lemma ExitSignalRoundTrip(r: ChannelRequest, rest: seq<byte>)
    requires r.ExitSignalRequest? && WellFormed(r)
    ensures ParseExitSignalRequest(Encode(r) + rest) == Ok((r, rest))
    ensures ParserOf(r)(Encode(r) + rest) == Ok((r, rest))
  {
    var name, message := SSHString(r.signalNameWithoutSig), SSHString(r.errorMessageUTF8);
    var language := SSHString(r.languageTag);
    var flag := [BoolByte(r.coreDumped)];
    assert Encode(r) + rest == name + (flag + (message + (language + rest)));
    SSHStringRoundTrip(r.signalNameWithoutSig, flag + (message + (language + rest)));
    assert ReadBool(flag + (message + (language + rest))) == Ok((r.coreDumped, message + (language + rest)));
    SSHStringRoundTrip(r.errorMessageUTF8, language + rest);
    SSHStringRoundTrip(r.languageTag, rest);
  }

  /** Every variant's parser reads back the layout it is given, and stops
      exactly where the payload ends. */
  lemma ParseEncode(r: ChannelRequest, rest: seq<byte>)
    requires WellFormed(r)
    ensures ParserOf(r)(Encode(r) + rest) == Ok((r, rest))
  {
    match r
    case PtyRequest(_, _, _, _, _, _) => PtyRoundTrip(r, rest);
    case X11Request(_, _, _, _) => X11RoundTrip(r, rest);
    case ShellRequest => assert Encode(r) + rest == rest;
      assert ParserOf(r)(rest) == Ok((r, rest));
    case ExecRequest(_) => StringPayloadRoundTrip(r, rest);
    case SubsystemRequest(_) => StringPayloadRoundTrip(r, rest);
    case WindowChangeRequest(_, _, _, _) => WindowChangeRoundTrip(r, rest);
    case SignalRequest(_) => StringPayloadRoundTrip(r, rest);
    case ExitStatusRequest(_) => ExitStatusRoundTrip(r, rest);
    case ExitSignalRequest(_, _, _, _) => ExitSignalRoundTrip(r, rest);
  }

  /** A pty-req whose terminal name claims 10 bytes when only 3 follow. */
  lemma PtyTruncatedTerm()
    ensures ParsePtyRequest([0, 0, 0, 10, 0x78, 0x74, 0x65]) == Err(Truncated)
  {
    var input: seq<byte> := [0, 0, 0, 10, 0x78, 0x74, 0x65];
    assert input[..4] == [0, 0, 0, 10];
    assert FromBE([0, 0, 0, 10]) == 10 by {
      assert [0, 0, 0, 10][..3] == [0, 0, 0];
      assert [0, 0, 0][..2] == [0, 0];
      assert [0, 0][..1] == [0];
      assert [0][..0] == [];
    }
  }
}
