/** The payloads' Write methods, which fill the caller's buffer in place from
    a running offset. They follow the source as written, defects included:
    PtyRequest and WindowChangeRequest emit no dimension bytes, and
    ExitSignalRequest stores its last two strings at offset 0. */
module RequestWrites {
  import opened Wire
  import opened SshString
  import opened VarInt
  import opened Requests

  /** What each variant's Write leaves in a buffer whose contents were `b`,
      when it is handed the slice starting at `at` and that slice holds at
      least Length() bytes. */
  function Written(r: ChannelRequest, b: seq<byte>, at: nat): (w: seq<byte>)
    requires VarIntsFit(r) && at + Length(r) <= |b|
    ensures |w| == |b|
  {
    match r
    case PtyRequest(term, _, _, _, _, modes) =>
      Splice(b, at, SSHString(term) + SSHString(modes))
    case WindowChangeRequest(_, _, _, _) => b
    case ExitSignalRequest(name, dumped, message, language) =>
      var first := Splice(b, at, SSHString(name) + [BoolByte(dumped)]);
      Splice(Splice(first, at, SSHString(message)), at, SSHString(language))
    case _ => Splice(b, at, Encode(r))
  }

  /** The count each variant's Write returns when it succeeds. */
  function WriteCount(r: ChannelRequest): nat
    requires VarIntsFit(r)
  {
    match r
    case PtyRequest(term, _, _, _, _, modes) => SSHStringLen(term) + SSHStringLen(modes)
    case WindowChangeRequest(_, _, _, _) => 0
    case _ => Length(r)
  }

  /** The payloads whose Write lays down exactly their wire layout. */
  predicate WritesLayout(r: ChannelRequest) {
    !r.PtyRequest? && !r.WindowChangeRequest? && !r.ExitSignalRequest?
  }

  /** A boolean field stored at `pos`: 1 for true, 0 for false. */
  method WriteFlag(buf: array<byte>, pos: nat, flag: bool)
    requires pos < buf.Length
    modifies buf
    ensures buf[..] == Splice(old(buf[..]), pos, [BoolByte(flag)])
  {
    if flag {
      buf[pos] := 1;
    } else {
      buf[pos] := 0;
    }
    StoredByte(old(buf[..]), buf[..], pos, BoolByte(flag));
  }

  /** The X11 layout, spelled out field by field. */
  lemma X11Layout(r: ChannelRequest)
    requires r.X11Request? && VarIntsFit(r)
    ensures Encode(r) == [BoolByte(r.singleConnection)] + SSHString(r.authProtocol)
      + SSHString(r.authCookie) + VarIntBytes(r.screenNumber)
    ensures Length(r) == 1 + SSHStringLen(r.authProtocol) + SSHStringLen(r.authCookie)
      + VarIntLen(r.screenNumber)
  {
  }

  /** PtyRequest.Write: the terminal name, then the dimensions gathered by
      AppendVarInt calls whose results are dropped (so none), then the modes. */
  method WritePtyRequest(r: ChannelRequest, buf: array<byte>, at: nat) returns (res: Result<nat>)
    requires r.PtyRequest? && VarIntsFit(r) && at <= buf.Length
    modifies buf
    ensures buf.Length - at < Length(r) ==> res == Err(BufferTooSmall) && buf[..] == old(buf[..])
    ensures buf.Length - at >= Length(r) ==>
      res == Ok(SSHStringLen(r.term) + SSHStringLen(r.encodedTerminalModes))
      && buf[..] == Splice(old(buf[..]), at, SSHString(r.term) + SSHString(r.encodedTerminalModes))
  {
    if buf.Length - at < Length(r) {
      return Err(BufferTooSmall);
    }
    ghost var before := buf[..];
    var term, modes := SSHString(r.term), SSHString(r.encodedTerminalModes);
    assert SSHStringLen(r.term) + SSHStringLen(r.encodedTerminalModes) <= Length(r);
    var n := WriteSSHString(buf, at, r.term);
    var consumed := n.value;
    ghost var named := buf[..];
    var attrs: seq<byte> := [];
    var dims: seq<uint64> := [r.charWidth, r.charHeight, r.pixelWidth, r.pixelHeight];
    for i := 0 to |dims|
      invariant attrs == []
    {
      var grown := AppendVarInt(attrs, dims[i]);
    }
    var copied := CopyInto(buf, at + consumed, attrs);
    assert buf[..] == named;
    consumed := consumed + copied;
    n := WriteSSHString(buf, at + consumed, r.encodedTerminalModes);
    consumed := consumed + n.value;
    assert buf[..] == Splice(Splice(before, at, term), at + |term|, modes);
    SpliceAdjacent(before, at, term, modes);
    res := Ok(consumed);
  }

  /** X11Request.Write: the flag byte, the two strings, the screen number. */
  method WriteX11Request(r: ChannelRequest, buf: array<byte>, at: nat) returns (res: Result<nat>)
    requires r.X11Request? && VarIntsFit(r) && at <= buf.Length
    modifies buf
    ensures buf.Length - at < Length(r) ==> res == Err(BufferTooSmall) && buf[..] == old(buf[..])
    ensures buf.Length - at >= Length(r) ==>
      res == Ok(Length(r)) && buf[..] == Splice(old(buf[..]), at, Encode(r))
  {
    if buf.Length - at < Length(r) {
      return Err(BufferTooSmall);
    }
    X11Layout(r);
    var screenNumberBuf := AppendVarInt([], r.screenNumber);
    assert screenNumberBuf == VarIntBytes(r.screenNumber);
    var consumed := WriteX11Fields(buf, at, r.singleConnection, r.authProtocol, r.authCookie, screenNumberBuf);
    res := Ok(consumed);
  }

  /** The stores of X11Request.Write once the length check has passed: the
      flag and the two strings, then the encoded screen number, each at the
      running offset. */
  method WriteX11Fields(buf: array<byte>, at: nat, single: bool, protocol: seq<byte>,
                        cookie: seq<byte>, screenNumberBuf: seq<byte>) returns (consumed: nat)
    requires at + 1 + SSHStringLen(protocol) + SSHStringLen(cookie) + |screenNumberBuf| <= buf.Length
    modifies buf
    ensures consumed == 1 + SSHStringLen(protocol) + SSHStringLen(cookie) + |screenNumberBuf|
    ensures buf[..] == Splice(old(buf[..]), at, [BoolByte(single)] + SSHString(protocol)
      + SSHString(cookie) + screenNumberBuf)
  {
    ghost var before := buf[..];
    ghost var prefix := [BoolByte(single)] + SSHString(protocol) + SSHString(cookie);
    consumed := WriteX11Strings(buf, at, single, protocol, cookie);
    ghost var s1 := buf[..];
    assert consumed == |prefix|;
    var copied := CopyInto(buf, at + consumed, screenNumberBuf);
    SpliceThen(before, s1, buf[..], at, prefix, screenNumberBuf);
    consumed := consumed + copied;
  }

  method WriteX11Strings(buf: array<byte>, at: nat, single: bool, protocol: seq<byte>,
                         cookie: seq<byte>) returns (consumed: nat)
    requires at + 1 + SSHStringLen(protocol) + SSHStringLen(cookie) <= buf.Length
    modifies buf
    ensures consumed == 1 + SSHStringLen(protocol) + SSHStringLen(cookie)
    ensures buf[..] == Splice(old(buf[..]), at, [BoolByte(single)] + SSHString(protocol) + SSHString(cookie))
  {
    ghost var before := buf[..];
    ghost var flag, named := [BoolByte(single)], SSHString(protocol);
    WriteFlag(buf, at, single);
    ghost var s1 := buf[..];
    consumed := 1;
    var n := WriteSSHString(buf, at + consumed, protocol);
    consumed := consumed + n.value;
    ghost var s2 := buf[..];
    SpliceThen(before, s1, s2, at, flag, named);
    n := WriteSSHString(buf, at + consumed, cookie);
    consumed := consumed + n.value;
    SpliceThen(before, s2, buf[..], at, flag + named, SSHString(cookie));
  }

  /** ShellRequest.Write writes nothing and reports 0 bytes. */
  method WriteShellRequest(r: ChannelRequest, buf: array<byte>, at: nat) returns (res: Result<nat>)
    requires r.ShellRequest? && at <= buf.Length
    ensures res == Ok(Length(r)) && res == Ok(0)
  {
    res := Ok(0);
  }

  /** ExecRequest, SubsystemRequest and SignalRequest: Write is
      WriteSSHString of the single field. */
  method WriteStringRequest(r: ChannelRequest, buf: array<byte>, at: nat) returns (res: Result<nat>)
    requires (r.ExecRequest? || r.SubsystemRequest? || r.SignalRequest?) && at <= buf.Length
    modifies buf
    ensures buf.Length - at < Length(r) ==> res == Err(BufferTooSmall) && buf[..] == old(buf[..])
    ensures buf.Length - at >= Length(r) ==>
      res == Ok(Length(r)) && buf[..] == Splice(old(buf[..]), at, Encode(r))
  {
    match r
    case ExecRequest(command) => res := WriteSSHString(buf, at, command);
    case SubsystemRequest(name) => res := WriteSSHString(buf, at, name);
    case SignalRequest(name) => res := WriteSSHString(buf, at, name);
  }

  /** WindowChangeRequest.Write: like PtyRequest.Write, it copies an empty
      accumulator and so writes nothing. */
  method WriteWindowChangeRequest(r: ChannelRequest, buf: array<byte>, at: nat) returns (res: Result<nat>)
    requires r.WindowChangeRequest? && VarIntsFit(r) && at <= buf.Length
    modifies buf
    ensures buf[..] == old(buf[..])
    ensures res == if buf.Length - at < Length(r) then Err(BufferTooSmall) else Ok(0)
  {
    if buf.Length - at < Length(r) {
      return Err(BufferTooSmall);
    }
    var attrs: seq<byte> := [];
    var dims: seq<uint64> := [r.charWidth, r.charHeight, r.pixelWidth, r.pixelHeight];
    for i := 0 to |dims|
      invariant attrs == []
    {
      var grown := AppendVarInt(attrs, dims[i]);
    }
    var consumed := CopyInto(buf, at, attrs);
    assert buf[..] == old(buf[..]);
    res := Ok(consumed);
  }

  /** ExitStatusRequest.Write: the varint of the exit status. */
  method WriteExitStatusRequest(r: ChannelRequest, buf: array<byte>, at: nat) returns (res: Result<nat>)
    requires r.ExitStatusRequest? && VarIntsFit(r) && at <= buf.Length
    modifies buf
    ensures buf.Length - at < Length(r) ==> res == Err(BufferTooSmall) && buf[..] == old(buf[..])
    ensures buf.Length - at >= Length(r) ==>
      res == Ok(Length(r)) && buf[..] == Splice(old(buf[..]), at, Encode(r))
  {
    if buf.Length - at < Length(r) {
      return Err(BufferTooSmall);
    }
    var attrBuf := AppendVarInt([], r.exitStatus);
    var n := CopyInto(buf, at, attrBuf);
    assert attrBuf[..n] == Encode(r);
    res := Ok(n);
  }

  /** ExitSignalRequest.Write: the signal name and the flag at the running
      offset, then the message and the language tag both at offset 0. */
  method WriteExitSignalRequest(r: ChannelRequest, buf: array<byte>, at: nat) returns (res: Result<nat>)
    requires r.ExitSignalRequest? && at <= buf.Length
    modifies buf
    ensures buf.Length - at < Length(r) ==> res == Err(BufferTooSmall) && buf[..] == old(buf[..])
    ensures buf.Length - at >= Length(r) ==>
      res == Ok(Length(r)) && buf[..] == Written(r, old(buf[..]), at)
  {
    if buf.Length - at < Length(r) {
      return Err(BufferTooSmall);
    }
    ghost var before := buf[..];
    var name, flag := SSHString(r.signalNameWithoutSig), [BoolByte(r.coreDumped)];
    assert SSHStringLen(r.signalNameWithoutSig) + 1 + SSHStringLen(r.errorMessageUTF8)
      + SSHStringLen(r.languageTag) == Length(r);
    var n := WriteSSHString(buf, at, r.signalNameWithoutSig);
    var consumed := n.value;
    ghost var named := buf[..];
    WriteFlag(buf, at + consumed, r.coreDumped);
    SpliceAdjacent(before, at, name, flag);
    ghost var first := buf[..];
    assert first == Splice(before, at, name + flag);
    consumed := consumed + 1;
    n := WriteSSHString(buf, at, r.errorMessageUTF8);
    consumed := consumed + n.value;
    ghost var second := buf[..];
    assert second == Splice(first, at, SSHString(r.errorMessageUTF8));
    n := WriteSSHString(buf, at, r.languageTag);
    consumed := consumed + n.value;
    assert buf[..] == Splice(second, at, SSHString(r.languageTag));
    assert consumed == Length(r);
    res := Ok(consumed);
  }

  /** Write through the ChannelRequest interface. */
  method WriteRequest(r: ChannelRequest, buf: array<byte>, at: nat) returns (res: Result<nat>)
    requires VarIntsFit(r) && at <= buf.Length
    modifies buf
    ensures buf.Length - at < Length(r) ==> res == Err(BufferTooSmall) && buf[..] == old(buf[..])
    ensures buf.Length - at >= Length(r) ==>
      res == Ok(WriteCount(r)) && buf[..] == Written(r, old(buf[..]), at)
  {
    match r
    case PtyRequest(_, _, _, _, _, _) => res := WritePtyRequest(r, buf, at);
    case X11Request(_, _, _, _) => res := WriteX11Request(r, buf, at);
    case ShellRequest => res := WriteShellRequest(r, buf, at);
    case ExecRequest(_) => res := WriteStringRequest(r, buf, at);
    case SubsystemRequest(_) => res := WriteStringRequest(r, buf, at);
    case WindowChangeRequest(_, _, _, _) => res := WriteWindowChangeRequest(r, buf, at);
    case SignalRequest(_) => res := WriteStringRequest(r, buf, at);
    case ExitStatusRequest(_) => res := WriteExitStatusRequest(r, buf, at);
    case ExitSignalRequest(_, _, _, _) => res := WriteExitSignalRequest(r, buf, at);
  }

  /** For these variants Write stores exactly the wire layout. */
  lemma WrittenLayout(r: ChannelRequest, b: seq<byte>, at: nat)
    requires WritesLayout(r) && VarIntsFit(r) && at + Length(r) <= |b|
    ensures Written(r, b, at) == Splice(b, at, Encode(r))
  {
  }

  /** A Write touches only the Length() bytes of the slice it is handed. */
  lemma WriteStaysInPayload(r: ChannelRequest, b: seq<byte>, at: nat, k: nat)
    requires VarIntsFit(r) && at + Length(r) <= |b|
    requires k < |b| && !(at <= k < at + Length(r))
    ensures Written(r, b, at)[k] == b[k]
  {
    match r
    case ExitSignalRequest(name, dumped, message, language) =>
      var first := Splice(b, at, SSHString(name) + [BoolByte(dumped)]);
      var second := Splice(first, at, SSHString(message));
      SpliceBytes(b, at, SSHString(name) + [BoolByte(dumped)]);
      SpliceBytes(first, at, SSHString(message));
      SpliceBytes(second, at, SSHString(language));
    case PtyRequest(term, _, _, _, _, modes) =>
      SpliceBytes(b, at, SSHString(term) + SSHString(modes));
    case WindowChangeRequest(_, _, _, _) =>
    case _ =>
      SpliceBytes(b, at, Encode(r));
  }

  /** The count a Write reports never exceeds Length(), and equals it
      exactly for the variants whose Write emits every field. */
  lemma WriteCountVsLength(r: ChannelRequest)
    requires VarIntsFit(r)
    ensures WriteCount(r) <= Length(r)
    ensures WriteCount(r) == Length(r) <==> !r.PtyRequest? && !r.WindowChangeRequest?
  {
  }

  /** For the variants whose Write lays down the wire layout, parsing the
      written slice yields the payload back and stops where it ends. */
  lemma WrittenParsesBack(r: ChannelRequest, b: seq<byte>, at: nat)
    requires WritesLayout(r) && WellFormed(r) && at + Length(r) <= |b|
    ensures ParserOf(r)(Written(r, b, at)[at..]) == Ok((r, b[at + Length(r)..]))
  {
    var rest := b[at + Length(r)..];
    var w := Written(r, b, at)[at..];
    assert w == Encode(r) + rest by {
      WrittenLayout(r, b, at);
      SpliceSuffix(b, at, Encode(r));
    }
    ParseEncodeThen(r, w, rest);
  }

  lemma ParseEncodeThen(r: ChannelRequest, w: seq<byte>, rest: seq<byte>)
    requires WellFormed(r) && w == Encode(r) + rest
    ensures ParserOf(r)(w) == Ok((r, rest))
  {
    ParseEncode(r, rest);
  }

  /** A pty-req for an 80x24 terminal written into 15 zero bytes reads back
      as a 0x0 terminal with three bytes left over: the dimensions were
      never written, so the parser takes them from the modes field. */
  lemma PtyWriteMisparses()
    ensures var r := PtyRequest([], 80, 24, 640, 480, []);
      var w := Written(r, seq(15, _ => 0), 0);
      ParserOf(r)(w) == Ok((PtyRequest([], 0, 0, 0, 0, []), [0, 0, 0]))
  {
    var r := PtyRequest([], 80, 24, 640, 480, []);
    var zeros: seq<byte> := seq(15, _ => 0);
    assert Length(r) == 15 by { Pow256Values(); }
    var w := Written(r, zeros, 0);
    EmptyStringIsZeros();
    var tail: seq<byte> := [0, 0, 0, 0] + [0, 0, 0];
    assert w == [0, 0, 0, 0] + ([0] + ([0] + ([0] + ([0] + tail))));
    EmptyStringParses([0] + ([0] + ([0] + ([0] + tail))));
    ZeroVarInt([0] + ([0] + ([0] + tail)));
    ZeroVarInt([0] + ([0] + tail));
    ZeroVarInt([0] + tail);
    ZeroVarInt(tail);
    EmptyStringParses([0, 0, 0]);
  }

  /** A window-change written into 7 zero bytes reads back as 0x0: the
      buffer is left as it was and the parser reads its old contents. */
  lemma WindowChangeWriteMisparses()
    ensures var r := WindowChangeRequest(80, 24, 640, 480);
      var w := Written(r, seq(7, _ => 0), 0);
      ParserOf(r)(w) == Ok((WindowChangeRequest(0, 0, 0, 0), [0, 0, 0]))
  {
    var r := WindowChangeRequest(80, 24, 640, 480);
    assert Length(r) == 7 by { Pow256Values(); }
    var tail: seq<byte> := [0, 0, 0];
    assert seq(7, _ => 0) == [0] + ([0] + ([0] + ([0] + tail)));
    ZeroVarInt([0] + ([0] + ([0] + tail)));
    ZeroVarInt([0] + ([0] + tail));
    ZeroVarInt([0] + tail);
    ZeroVarInt(tail);
  }

  /** The empty string's wire form is four zero bytes. */
  lemma EmptyStringIsZeros()
    ensures SSHString([]) == [0, 0, 0, 0]
  {
    assert Pow256(4) == 0x1_0000_0000;
    assert ToBE(0, 4) == [0, 0, 0, 0];
  }

  /** Four zero bytes parse as the empty string. */
  lemma EmptyStringParses(t: seq<byte>)
    ensures ParseSSHString([0, 0, 0, 0] + t) == Ok(([], t))
  {
    EmptyStringIsZeros();
    SSHStringRoundTrip([], t);
  }

  /** A zero byte reads as the varint 0. */
  lemma ZeroVarInt(t: seq<byte>)
    ensures ReadVarInt([0] + t) == Ok((0, t))
  {
    var input := [0] + t;
    assert WidthOf(input[0]) == 1;
    assert [(input[0] % 64) as byte] + input[1..1] == [0];
    assert FromBE([0]) == 0 by { assert [0][..0] == []; }
    assert input[1..] == t;
  }

  /** An exit-signal for "KILL" written into 17 zero bytes fails to parse:
      the message and language strings overwrite the start of the name, so
      the parser reads an empty name, takes 'K' as the core-dumped flag and
      then a message length far beyond the input. */
  lemma ExitSignalWriteMisparses()
    ensures var r := ExitSignalRequest([0x4B, 0x49, 0x4C, 0x4C], false, [], []);
      var w := Written(r, seq(17, _ => 0), 0);
      ParserOf(r)(w) == Err(AdvanceTooFar)
  {
    KillWritten();
    KillParseFails();
  }

  /** The bytes KillWritten describes do not parse as an exit-signal. */
  lemma KillParseFails()
    ensures ParseExitSignalRequest([0, 0, 0, 0, 0x4B, 0x49, 0x4C, 0x4C, 0, 0, 0, 0, 0, 0, 0, 0, 0])
      == Err(AdvanceTooFar)
  {
    var after: seq<byte> := [0x49, 0x4C, 0x4C, 0, 0, 0, 0, 0, 0, 0, 0, 0];
    var w: seq<byte> := [0, 0, 0, 0, 0x4B, 0x49, 0x4C, 0x4C, 0, 0, 0, 0, 0, 0, 0, 0, 0];
    assert w == [0, 0, 0, 0] + ([0x4B] + after);
    EmptyStringParses([0x4B] + after);
    assert ReadBool([0x4B] + after) == Ok((true, after));
    LongLengthFails(after);
  }

  /** What ExitSignalRequest's Write leaves in 17 zero bytes for "KILL". */
  lemma KillWritten()
    ensures var r := ExitSignalRequest([0x4B, 0x49, 0x4C, 0x4C], false, [], []);
      Length(r) == 17 &&
      Written(r, seq(17, _ => 0), 0)
        == [0, 0, 0, 0, 0x4B, 0x49, 0x4C, 0x4C, 0, 0, 0, 0, 0, 0, 0, 0, 0]
  {
    var name: seq<byte> := [0x4B, 0x49, 0x4C, 0x4C];
    var r := ExitSignalRequest(name, false, [], []);
    var zeros: seq<byte> := seq(17, _ => 0);
    assert Length(r) == 17;
    EmptyStringIsZeros();
    assert SSHString(name) == [0, 0, 0, 4, 0x4B, 0x49, 0x4C, 0x4C] by {
      assert Pow256(4) == 0x1_0000_0000;
      assert ToBE(4, 4) == [0, 0, 0, 4];
    }
    var first := Splice(zeros, 0, SSHString(name) + [0]);
    var second := Splice(first, 0, SSHString([]));
    var w := Written(r, zeros, 0);
    assert w == Splice(second, 0, SSHString([]));
    var expected: seq<byte> := [0, 0, 0, 0, 0x4B, 0x49, 0x4C, 0x4C, 0, 0, 0, 0, 0, 0, 0, 0, 0];
    SpliceBytes(zeros, 0, SSHString(name) + [0]);
    SpliceBytes(first, 0, SSHString([]));
    SpliceBytes(second, 0, SSHString([]));
    forall k | 0 <= k < 17 ensures w[k] == expected[k] {
    }
  }

  /** A length prefix whose top byte is non-zero claims at least 2^24
      bytes, more than a short input holds. */
  lemma LongLengthFails(x: seq<byte>)
    requires 4 <= |x| < 0x100_0000 && x[0] != 0
    ensures ParseSSHString(x).Err?
  {
    FromBEHead(x[..4]);
    Pow256Values();
    MulMonotone(1, x[0], Pow256(3));
  }
}
