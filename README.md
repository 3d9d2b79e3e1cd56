# ssh3 channel-request codec, modelled in Dafny

ssh3 carries SSH's connection protocol over HTTP/3. The model covers its
channel-request codec, `src/message/channel_request.go`. A channel request
(SSH_MSG_CHANNEL_REQUEST, section 5.4 of RFC 4254) is an envelope with four
parts, in order:

- the message number 98;
- the request-type tag, as an RFC 4251 `string`;
- a want-reply byte;
- a payload whose layout depends on the tag.

There are nine payload variants: `pty-req`, `x11-req`, `shell`, `exec`,
`subsystem`, `window-change`, `signal`, exit-status and `exit-signal`.
Every numeric field is a QUIC variable-length integer (section 16 of RFC
9000), not a fixed-width `uint32`.

The model follows the Go code as written, defects included:

- Each variant's `Length` and `RequestTypeStr` is a pure function.
- Each variant's `Write` is a method that fills a caller's `array<byte>` in
  place from a running offset.
- Each `Parse*` is a function over an immutable byte sequence. It returns
  the payload and the unread rest, or an error.
- The registry `ChannelRequestParseFuncs` is a constant map from tags to
  parser function values.
- `ParseRequestMessage` looks the tag up in that registry.

The `Corrected` module holds the behaviour the authors evidently intended.
It comes with the properties that fail as written (see "## Findings").

Modules, one per file:

| Module | File | Contents |
|---|---|---|
| `Wire` | `wire.dfy` | Bytes, errors, big-endian numbers. `Splice`, which describes an in-place store. `CopyInto`, Go's `copy`. |
| `SshString` | `ssh_string.dfy` | The RFC 4251 `string` helpers. |
| `VarInt` | `varint.dfy` | The RFC 9000 varint helpers. |
| `Requests` | `requests.dfy` | The payload datatype and its tags, lengths, layouts and parsers. |
| `RequestWrites` | `request_writes.dfy` | The payload `Write` methods, as written. |
| `ChannelRequestMessages` | `channel_request_message.dfy` | The envelope, the registry and `ParseRequestMessage`. |
| `Corrected` | `corrected.dfy` | The corrected writes, tag and registry. |

Two behaviours of the code are worth stating up front, because the model
follows the code rather than RFC 4254:

- **Reply and boolean bytes.** The code reads them with `binary.Read` into
  a `bool`, so any non-zero byte means true. Strict 0/1 validation is not
  modelled (`ReplyFlagAnyNonZero`).
- **Exit-status tag.** Section 6.10 of RFC 4254 names the request
  `"exit-status"`, but `ExitStatusRequest` declares `"signal"`
  (`RequestTypeStr`). The corrected tag is in `Corrected`.

Every tag is written with its real length as its length prefix; for
`exec` that prefix is 4 (`ExecMessageBytes`).

The `util` package, which holds `SSHStringLen`, `WriteSSHString`,
`ParseSSHString`, `VarIntLen`, `AppendVarInt` and `ReadVarInt`, is not part
of this model. Those helpers are specified by their standards:

- section 5 of RFC 4251 for the string helpers;
- section 16 of RFC 9000 for the varint helpers. Reading accepts
  non-minimal encodings.

`SSH_MSG_CHANNEL_REQUEST` is defined outside the modelled file. It is
taken to be 98, from section 4.1.2 of RFC 4250.

## Model

| member | source | states |
|---|---|---|
| Wire.CopyInto | src/message/channel_request.go:171 | `copy(buf[at:], data)` copies as many bytes as fit and returns that count. It changes no byte outside the copied range. When everything fits, the slice starts with all of `data`. |
| SshString.SSHString | src/message/channel_request.go:161-165 | A string's wire form is `4 + \|s\|` bytes: a 4-byte big-endian length equal to `\|s\|` (truncated to 32 bits), then `s` itself. |
| SshString.SSHStringLen | src/message/channel_request.go:298-300 | The size a string field occupies is exactly the size of its wire form `SSHString(s)`. |
| SshString.ParseSSHString | src/message/channel_request.go:108-111 | Parsing succeeds exactly when 4 length bytes are present and the bytes they announce follow. It then returns those bytes and the unread rest, a suffix of the input. Otherwise the error is a truncation. |
| SshString.SSHStringRoundTrip | src/message/channel_request.go:108-111 | Parsing what was written returns the same bytes and leaves whatever followed untouched. |
| SshString.WriteSSHString | src/message/channel_request.go:161-165 | A slice shorter than `SSHStringLen(s)` is refused and the buffer is unchanged. Otherwise the wire form is stored at the offset, nothing else changes, and `SSHStringLen(s)` is returned. |
| VarInt.VarIntLen | src/message/channel_request.go:145-148 | The chosen width is 1, 2, 4 or 8 bytes. The value fits in the 6, 14, 30 or 62 value bits of that width, and does not fit in the next smaller width, so the width is the smallest that holds it. |
| VarInt.VarIntBoundaries | src/message/channel_request.go:145-148 | The widths switch between 63 and 64, 16383 and 16384, 2^30-1 and 2^30; the maximum 2^62-1 takes 8 bytes. |
| VarInt.VarIntBytes | src/message/channel_request.go:254 | An encoding has `VarIntLen(v)` bytes, and its first byte announces exactly that width. |
| VarInt.AppendVarInt | src/message/channel_request.go:169 | The result is the input grown by `VarIntLen(v)` bytes, with the input kept as its prefix and the varint encoding of `v` as the appended bytes. |
| VarInt.ReadVarInt | src/message/channel_request.go:113-128 | Reading succeeds exactly when the input holds the width its first byte announces. The value is then at most 2^62-1 and the rest starts after that width. Otherwise the error is a truncation. |
| VarInt.VarIntRoundTrip | src/message/channel_request.go:113-116 | Reading back an appended varint yields the value and leaves what followed untouched. |
| Requests.RequestTypeStr | src/message/channel_request.go:449-451 | `"signal"` is declared by exactly two payloads, the signal and the exit-status requests, and no payload declares `"exit-status"`. |
| Requests.Length | src/message/channel_request.go:143-150 | The payload's wire length, as each of the nine `Length()` methods sums its field sizes; only the shell payload has length 0. |
| Requests.Encode | src/message/channel_request.go:89-93 | Every variant's field layout has exactly `Length()` bytes. |
| Requests.Dimensions | src/message/channel_request.go:374-379 | The four dimensions take the sum of their four varint widths. |
| Requests.ReadBool | src/message/channel_request.go:194-197 | A boolean takes one byte and any non-zero byte is true. An empty input is a truncation. |
| Requests.ReadDimensions | src/message/channel_request.go:349-365 | Four varints are read in turn. A failure is a truncation, and on success the rest is a suffix of the input. |
| Requests.ParsePtyRequest | src/message/channel_request.go:107-141 | Only pty-req payloads come out, the rest is a suffix of the input, and every failure is a truncation. |
| Requests.ParseX11Request | src/message/channel_request.go:192-217 | Only x11-req payloads come out, the rest is a suffix of the input, and every failure is a truncation. |
| Requests.ParseShellRequest | src/message/channel_request.go:265-267 | Consumes nothing and always succeeds. |
| Requests.ParseExecRequest | src/message/channel_request.go:288-296 | Succeeds exactly when one string parses. Every failure becomes AdvanceTooFar. |
| Requests.ParseSubsystemRequest | src/message/channel_request.go:316-324 | Succeeds exactly when one string parses. Every failure becomes AdvanceTooFar. |
| Requests.ParseWindowChangeRequest | src/message/channel_request.go:348-372 | Only window-change payloads come out, and every failure is a truncation. |
| Requests.ParseSignalRequest | src/message/channel_request.go:406-414 | Succeeds exactly when one string parses. Every failure becomes AdvanceTooFar. |
| Requests.ParseExitStatusRequest | src/message/channel_request.go:434-443 | Only exit-status payloads come out, and every failure is a truncation. |
| Requests.ParseExitSignalRequest | src/message/channel_request.go:472-498 | A string failure becomes AdvanceTooFar. The flag's truncation is reported only after the name has parsed. |
| Requests.ParseYieldsOwnVariant | src/message/channel_request.go:12-20 | Each of the nine parsers yields only payloads of its own variant and consumes a prefix of its input. |
| Requests.DimensionsRoundTrip | src/message/channel_request.go:348-372 | Four encoded dimensions read back in order. |
| Requests.PtyRoundTrip | src/message/channel_request.go:107-150 | A pty-req layout parses back to the same six fields and stops at its end. |
| Requests.X11RoundTrip | src/message/channel_request.go:192-224 | An x11-req layout parses back to the same four fields and stops at its end. |
| Requests.StringPayloadRoundTrip | src/message/channel_request.go:288-336 | Exec and subsystem layouts parse back to the same string, and so does a signal layout. |
| Requests.WindowChangeRoundTrip | src/message/channel_request.go:348-379 | A window-change layout parses back to the same dimensions. |
| Requests.ExitStatusRoundTrip | src/message/channel_request.go:434-447 | An exit-status layout parses back to the same status. |
| Requests.ExitSignalRoundTrip | src/message/channel_request.go:472-505 | An exit-signal layout parses back to the same four fields. |
| Requests.ParseEncode | src/message/channel_request.go:89-93 | For every well-formed payload, its own parser reads its layout back and stops exactly at its end. |
| Requests.PtyTruncatedTerm | src/message/channel_request.go:108-111 | A terminal name that announces 10 bytes when 3 follow fails as a truncation. |
| RequestWrites.WriteFlag | src/message/channel_request.go:235-239 | The store puts 1 or 0 at the position and changes nothing else. |
| RequestWrites.WritePtyRequest | src/message/channel_request.go:156-180 | A short slice is refused with the buffer unchanged. Otherwise the terminal-name and modes strings are stored back to back, and their combined size is returned. No dimension bytes are written. |
| RequestWrites.WriteX11Request | src/message/channel_request.go:230-259 | A short slice is refused with the buffer unchanged. Otherwise the exact x11-req layout is stored and `Length()` is returned. |
| RequestWrites.WriteShellRequest | src/message/channel_request.go:277-279 | Nothing is written and 0 is returned. |
| RequestWrites.WriteStringRequest | src/message/channel_request.go:306-308 | Exec, subsystem and signal store their one string and return `Length()`, or refuse a short slice. |
| RequestWrites.WriteWindowChangeRequest | src/message/channel_request.go:385-397 | The buffer is never changed. The result is 0, or the short-slice error. |
| RequestWrites.WriteExitStatusRequest | src/message/channel_request.go:453-460 | A short slice is refused. Otherwise exactly the status varint is stored and its width is returned. |
| RequestWrites.WriteExitSignalRequest | src/message/channel_request.go:511-542 | A short slice is refused. Otherwise `Length()` is returned, but the message and language strings are stored at offset 0 over the name. |
| RequestWrites.WriteRequest | src/message/channel_request.go:89-93 | Write through the interface: each variant's refusal, count and resulting buffer, as above. |
| RequestWrites.WrittenLayout | src/message/channel_request.go:230-259 | Write stores exactly the layout for every variant except pty-req, window-change and exit-signal. |
| RequestWrites.WriteStaysInPayload | src/message/channel_request.go:89-93 | Every Write leaves each byte outside its `Length()` bytes unchanged. |
| RequestWrites.WriteCountVsLength | src/message/channel_request.go:156-180 | Write never reports more than `Length()`. It reports exactly `Length()` unless the payload is a pty-req or a window-change. |
| RequestWrites.WrittenParsesBack | src/message/channel_request.go:230-259 | Where Write stores the layout, the payload's parser reads it back from the buffer and stops where it ends. |
| RequestWrites.PtyWriteMisparses | src/message/channel_request.go:167-171 | An 80x24 pty-req written into zeroed bytes reads back as 0x0, with three bytes left over. |
| RequestWrites.WindowChangeWriteMisparses | src/message/channel_request.go:390-394 | An 80x24 window-change written into zeroed bytes reads back as 0x0. |
| RequestWrites.KillWritten | src/message/channel_request.go:515-539 | The exact bytes that an exit-signal for "KILL" leaves in 17 zero bytes. |
| RequestWrites.KillParseFails | src/message/channel_request.go:472-491 | Those bytes do not parse as an exit-signal. |
| RequestWrites.ExitSignalWriteMisparses | src/message/channel_request.go:529-539 | For the input `ExitSignalRequest{"KILL", false, "", ""}` written into 17 zero bytes, the written bytes do not parse back as that request: the exit-signal parser fails. It is one witness, not a claim about every exit-signal. |
| ChannelRequestMessages.TagRoundTrip | src/message/channel_request.go:65-69 | A tag written as bytes reads back as the same tag string. |
| ChannelRequestMessages.TagBytesInjective | src/message/channel_request.go:43 | Different tags are written as different bytes. |
| ChannelRequestMessages.TypeTag | src/message/channel_request.go:43 | The tag bytes fit a string field and read back as the payload's `RequestTypeStr()`. |
| ChannelRequestMessages.Header | src/message/channel_request.go:39-52 | The header starts with message number 98, has 1 + (4 + \|tag\|) + 1 bytes, and ends with the reply byte. |
| ChannelRequestMessages.MessageLength | src/message/channel_request.go:29-32 | `Length()` is the header's size plus the payload's `Length()`. The tag is always the payload's own. |
| ChannelRequestMessages.MessageBytes | src/message/channel_request.go:34-62 | The envelope's layout has `Length()` bytes and starts with 98. |
| ChannelRequestMessages.WriteRequestMessage | src/message/channel_request.go:34-62 | A buffer shorter than `Length()` is refused and left unchanged. Otherwise the header is stored at 0, followed by whatever the payload's Write stores. The header size plus the payload's count is returned. |
| ChannelRequestMessages.WriteHeader | src/message/channel_request.go:39-52 | Stores 98, then the tag string, then 1 or 0 for want-reply, and changes nothing else. |
| ChannelRequestMessages.WriteEnvelope | src/message/channel_request.go:39-61 | After the header, the payload's Write continues at the running offset. |
| ChannelRequestMessages.ParseRequestMessageWith | src/message/channel_request.go:64-87 | On success, the tag read is a registry key, the payload came from that key's parser, and the rest is a suffix of the input. |
| ChannelRequestMessages.Dispatch | src/message/channel_request.go:74-86 | A tag that is not a key fails with UnknownRequestType. On success, the reply flag is passed through unchanged. |
| ChannelRequestMessages.ParseRequestMessage | src/message/channel_request.go:64-87 | Parses against `ChannelRequestParseFuncs`, starting at the tag. |
| ChannelRequestMessages.HeaderFields | src/message/channel_request.go:65-73 | A written tag and reply byte read back. |
| ChannelRequestMessages.DispatchKnown | src/message/channel_request.go:74-86 | A known tag hands the rest of the input to its parser, and any error is passed through. |
| ChannelRequestMessages.ParseAfterHeader | src/message/channel_request.go:64-87 | Once the tag and flag parse, the registry entry decides the result. |
| ChannelRequestMessages.RegistryResolves | src/message/channel_request.go:12-20 | The registry knows every payload's tag except exit-signal's. It leads back to the payload's own parser for all but exit-status and exit-signal. |
| ChannelRequestMessages.SignalParserIsNotExitStatusParser | src/message/channel_request.go:406-443 | The signal and exit-status parsers differ: they disagree on the input [0]. |
| ChannelRequestMessages.ParseNeverYieldsExitVariants | src/message/channel_request.go:12-20 | A received message is never an exit-status or an exit-signal. |
| ChannelRequestMessages.RegisteredParsersYieldNoExit | src/message/channel_request.go:12-20 | None of the seven registered parsers produces an exit variant. |
| ChannelRequestMessages.EnvelopeRoundTrip | src/message/channel_request.go:64-87 | For any registry that maps the tag to the payload's parser, an envelope reads back as the same reply flag and payload, with the rest untouched. |
| ChannelRequestMessages.MessageRoundTrip | src/message/channel_request.go:34-87 | Every well-formed message other than exit-status and exit-signal reads back as itself. |
| ChannelRequestMessages.ExitMessagesNeverRoundTrip | src/message/channel_request.go:12-20 | Exit-status and exit-signal messages never read back as themselves. |
| ChannelRequestMessages.ExitStatusMessageMisparsed | src/message/channel_request.go:449-451 | An exit status below 16384 is sent under "signal" and fails to parse with AdvanceTooFar. |
| ChannelRequestMessages.ReplyFlagAnyNonZero | src/message/channel_request.go:70-73 | Any non-zero reply byte means want-reply. |
| ChannelRequestMessages.UnknownTagRejected | src/message/channel_request.go:74-77 | A tag outside the registry fails with UnknownRequestType, naming the tag. |
| ChannelRequestMessages.FrobnicateRejected | src/message/channel_request.go:74-77 | "frobnicate" is rejected by name. |
| ChannelRequestMessages.ExecMessageBytes | src/message/channel_request.go:34-62 | The exact bytes of an exec request after the message number: tag length 4, "exec", the reply byte, then the command string. |
| ChannelRequestMessages.ExecMessageParses | src/message/channel_request.go:64-87 | Those bytes parse back to the same exec request and reply flag, with nothing left over. |
| ChannelRequestMessages.MessageWriteCountVsLength | src/message/channel_request.go:29-62 | Write reports at most `Length()`. It reports exactly `Length()` unless the payload is a pty-req or a window-change. |
| ChannelRequestMessages.WriteThenParse | src/message/channel_request.go:34-87 | For payloads whose Write stores their layout and whose tag is their own, the written buffer reads back as the message and the parser stops where it ends. |
| Corrected.DimensionsAsVarInts | src/message/channel_request.go:167-170 | Appending the four varints in turn yields the dimensions field. |
| Corrected.AppendDimensions | src/message/channel_request.go:167-170 | The loop that keeps each `AppendVarInt` result accumulates exactly the four dimension varints. |
| Corrected.WritePtyRequestFixed | src/message/channel_request.go:156-180 | A short slice is refused. Otherwise the full pty-req layout is stored and `Length()` is returned. |
| Corrected.WriteWindowChangeRequestFixed | src/message/channel_request.go:385-397 | A short slice is refused. Otherwise the four varints are stored and `Length()` is returned. |
| Corrected.WriteExitSignalRequestFixed | src/message/channel_request.go:511-542 | A short slice is refused. Otherwise all four fields are stored at the running offset and `Length()` is returned. |
| Corrected.WriteRequestFixed | src/message/channel_request.go:89-93 | Every variant's Write stores exactly its layout and returns `Length()`. |
| Corrected.RequestTypeStrFixed | src/message/channel_request.go:449-451 | The tag differs from the as-written tag exactly for exit-status. |
| Corrected.FixedRegistryResolves | src/message/channel_request.go:12-20 | With "exit-status" and "exit-signal" registered, every payload's tag leads back to its own parser. |
| Corrected.FixedTagsSelectOneParser | src/message/channel_request.go:449-451 | Payloads sharing a corrected tag share a parser. |
| Corrected.TagsCollideAsWritten | src/message/channel_request.go:420-451 | As written, exit-status and signal share a tag but have different parsers. |
| Corrected.WriteRequestMessageFixed | src/message/channel_request.go:34-62 | A short buffer is refused and left unchanged. Otherwise the whole corrected envelope is stored and its size is returned. |
| Corrected.ParseRequestMessageFixed | src/message/channel_request.go:64-87 | Parses against the corrected registry. On success the rest is a suffix of the input. |
| Corrected.MessageRoundTripFixed | src/message/channel_request.go:12-20 | Every well-formed message reads back as itself, exit variants included. |
| Corrected.WriteThenParseFixed | src/message/channel_request.go:34-87 | Whatever the corrected Write leaves in any large enough buffer reads back as the message, stopping at its end. |

## Left out

- Stream buffering. Parsers consume an immutable byte sequence and return the unread rest. The `bufio.NewReader` wrappers (lines 112, 206, 349, 435) can read ahead from the underlying reader; that over-read is not modelled.
- Error identities. Go error values and messages are collapsed into four kinds: Truncated, AdvanceTooFar, BufferTooSmall and UnknownRequestType. The "0" returned beside a Write error is implied by the error result.
- The `util` helpers' bodies. They are specified by RFC 4251 section 5 and RFC 9000 section 16, as described above.
- Varint panics. Varint length and append panic above 2^62-1. This is a precondition (`VarIntsFit`) of Length, the layouts and every Write.
- String lengths above 2^32-1. The length prefix is the length truncated to 32 bits (`LengthField`). Round trips need `StringsFit`.
- Go `int` width. Sizes are unbounded naturals.
- Go interfaces. The `Message` and `ChannelRequest` interface assertions (lines 27, 105 and the like) are not modelled; dynamic dispatch is a `match` on the payload variant.
- Registry mutability. The package-level map is a constant. Reassigning it at run time is not modelled.
- Port forwarding. It is deliberately absent from the source (line 544).
- Field meanings. Signal names, terminal modes and the like are opaque byte strings.
- Requests.ParsePtyRequest: its own contract fixes only the variant, the consumed prefix and the error kind. The values read are stated by PtyRoundTrip and PtyTruncatedTerm.
- Requests.ParseX11Request: its own contract fixes only the variant, the consumed prefix and the error kind. The values read are stated by X11RoundTrip.
- Requests.ParseWindowChangeRequest: its own contract fixes only the variant, the consumed prefix and the error kind. The values read are stated by WindowChangeRoundTrip.
- Requests.ParseExitStatusRequest: its own contract fixes only the variant, the consumed prefix and the error kind. The value read is stated by ExitStatusRoundTrip.
- Requests.Length: its own contract says only that the shell payload alone is empty. That `Length()` is exactly the size of the variant's layout is the contract of Requests.Encode, and how it compares with what Write consumes is RequestWrites.WriteCountVsLength; stating the size on Length itself would drag the whole layout into every proof that mentions a length.
- Requests.ParseExitSignalRequest: its contract does not say which field failed. It says only which error kind goes with the strings and which with the flag.

## Findings

| source | as written | input that shows it | evidently intended | confidence | as-written member | corrected member |
|---|---|---|---|---|---|---|
| src/message/channel_request.go:167-171 | `PtyRequest.Write` drops the result of each `AppendVarInt`, so no dimension bytes are written. The modes string lands where the dimensions belong. | `PtyRequest{"", 80, 24, 640, 480, ""}` into 15 zero bytes reads back as 0x0, with 3 bytes left over | Write all four varints between the two strings | not executed | RequestWrites.PtyWriteMisparses | Corrected.WritePtyRequestFixed |
| src/message/channel_request.go:390-394 | `WindowChangeRequest.Write` likewise writes nothing and returns 0 | `WindowChangeRequest{80, 24, 640, 480}` into 7 zero bytes reads back as 0x0 | Write the four varints and return `Length()` | not executed | RequestWrites.WindowChangeWriteMisparses | Corrected.WriteWindowChangeRequestFixed |
| src/message/channel_request.go:529-535 | `ExitSignalRequest.Write` stores the message and language strings at offset 0, over the signal name | `ExitSignalRequest{"KILL", false, "", ""}` into 17 zero bytes fails to parse | Store each field at the running offset | not executed | RequestWrites.ExitSignalWriteMisparses | Corrected.WriteExitSignalRequestFixed |
| src/message/channel_request.go:449-451 | `ExitStatusRequest.RequestTypeStr` returns "signal", so the message is parsed as a signal request | An exit status of 0 sent in an envelope fails to parse with AdvanceTooFar | Return "exit-status" | not executed | ChannelRequestMessages.ExitStatusMessageMisparsed | Corrected.FixedRegistryResolves |
| src/message/channel_request.go:12-20 | The registry has no "exit-status" or "exit-signal" entry, so those messages are never received | Any exit-signal message | Register both parsers | not executed | ChannelRequestMessages.ExitMessagesNeverRoundTrip | Corrected.MessageRoundTripFixed |
