/** The `string` type of section 5 of RFC 4251: a 4-byte big-endian length
    followed by that many bytes. This is how the codec's helpers
    SSHStringLen, WriteSSHString and ParseSSHString lay out text fields. */
module SshString {
  import opened Wire

  /** Longest byte string whose length the 4-byte prefix can carry. */
  const MaxStringLen: nat := 0xFFFF_FFFF

  /** SSHStringLen: the number of bytes a string field occupies on the wire. */
  function SSHStringLen(s: seq<byte>): (n: nat)
    ensures n == |SSHString(s)|
  {
    4 + |s|
  }

  /** The length prefix a string gets: its length cast to uint32, which
      truncates only lengths beyond MaxStringLen. */
  function LengthField(n: nat): (l: nat)
    ensures l < Pow256(4)
    ensures n <= MaxStringLen ==> l == n
  {
    Pow256Values();
    n % 0x1_0000_0000
  }

  /** The wire form of `s`. */
  function SSHString(s: seq<byte>): (e: seq<byte>)
    ensures |e| == 4 + |s|
    ensures e[..4] == ToBE(LengthField(|s|), 4) && e[4..] == s
  {
    ToBE(LengthField(|s|), 4) + s
  }

  /** ParseSSHString: read the length field, then that many bytes. */
  function ParseSSHString(input: seq<byte>): (r: Result<(seq<byte>, seq<byte>)>)
    ensures r.Ok? <==> |input| >= 4 && FromBE(input[..4]) <= |input| - 4
    ensures r.Err? ==> r.error == Truncated
    ensures r.Ok? ==> var n := FromBE(input[..4]);
      r.value.0 == input[4..4 + n] && r.value.1 == input[4 + n..]
    ensures r.Ok? ==> IsSuffix(r.value.1, input)
  {
    if |input| < 4 then Err(Truncated)
    else
      var n := FromBE(input[..4]);
      if |input| - 4 < n then Err(Truncated)
      else Ok((input[4..4 + n], input[4 + n..]))
  }

  /** Parsing undoes encoding, and stops exactly at the end of the field. */
  lemma SSHStringRoundTrip(s: seq<byte>, rest: seq<byte>)
    requires |s| <= MaxStringLen
    ensures ParseSSHString(SSHString(s) + rest) == Ok((s, rest))
  {
    var input := SSHString(s) + rest;
    assert FromBE(input[..4]) == |s| by {
      assert input[..4] == ToBE(|s|, 4);
      FromBEToBE(|s|, 4);
    }
    assert input[4..4 + |s|] == s && input[4 + |s|..] == rest;
  }

  /** WriteSSHString(buf[at:], s): fails without writing when the slice is
      too short, otherwise stores the wire form at `at` and returns its size. */
  method WriteSSHString(buf: array<byte>, at: nat, s: seq<byte>) returns (r: Result<nat>)
    requires at <= buf.Length
    modifies buf
    ensures buf.Length - at < SSHStringLen(s) ==> r == Err(BufferTooSmall) && buf[..] == old(buf[..])
    ensures buf.Length - at >= SSHStringLen(s) ==>
      r == Ok(SSHStringLen(s)) && buf[..] == Splice(old(buf[..]), at, SSHString(s))
  {
    if buf.Length - at < SSHStringLen(s) {
      return Err(BufferTooSmall);
    }
    var prefix := ToBE(LengthField(|s|), 4);
    var n := CopyInto(buf, at, prefix);
    assert prefix[..n] == prefix;
    n := CopyInto(buf, at + 4, s);
    assert s[..n] == s;
    SpliceAdjacent(old(buf[..]), at, prefix, s);
    r := Ok(SSHStringLen(s));
  }
}
