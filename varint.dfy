/** Variable-length integers of section 16 of RFC 9000, as the codec's
    helpers VarIntLen, AppendVarInt and ReadVarInt use them: the two high
    bits of the first byte give the width (1, 2, 4 or 8 bytes) and the
    remaining 6, 14, 30 or 62 bits hold the value, big-endian. */
module VarInt {
  import opened Wire

  /** The largest encodable value, 2^62 - 1. Encoding a larger one panics. */
  const MaxVarInt: nat := 0x3FFF_FFFF_FFFF_FFFF

  /** The width announced by a first byte. */
  function WidthOf(first: byte): (n: nat)
    ensures n == 1 || n == 2 || n == 4 || n == 8
  {
    var c := first / 64;
    if c == 0 then 1 else if c == 1 then 2 else if c == 2 then 4 else 8
  }

  /** The two-bit width class that announces width n. */
  function ClassOf(n: nat): (c: nat)
    requires n == 1 || n == 2 || n == 4 || n == 8
    ensures c < 4
  {
    if n == 1 then 0 else if n == 2 then 1 else if n == 4 then 2 else 3
  }

  /** VarIntLen: the smallest width whose value bits hold v. */
  function VarIntLen(v: nat): (n: nat)
    requires v <= MaxVarInt
    ensures n == 1 || n == 2 || n == 4 || n == 8
    ensures v < 64 * Pow256(n - 1)
    ensures n > 1 ==> v >= 64 * Pow256(n / 2 - 1)
  {
    Pow256Values();
    if v <= 63 then 1
    else if v <= 16383 then 2
    else if v <= 1073741823 then 4
    else 8
  }

  /** The bytes AppendVarInt adds for v: v big-endian in the chosen width,
      with the width class in the two high bits of the first byte. */
  function VarIntBytes(v: nat): (b: seq<byte>)
    requires v <= MaxVarInt
    ensures |b| == VarIntLen(v)
    ensures WidthOf(b[0]) == |b|
  {
    var n := VarIntLen(v);
    var digits := ToBE(v, n);
    ToBETopBound(v, n);
    [FirstByte(ClassOf(n), digits[0])] + digits[1..]
  }

  /** The first byte packs a width class c and six value bits q. */
  function FirstByte(c: nat, q: nat): (b: byte)
    requires c < 4 && q < 64
    ensures b / 64 == c && b % 64 == q
  {
    (64 * c + q) as byte
  }

  /** A value below 64 * 256^(n-1) leaves the top two bits of its n-byte
      big-endian form clear. */
  lemma {:induction false} ToBETopBound(x: nat, n: nat)
    requires n >= 1 && x < 64 * Pow256(n - 1)
    ensures x < Pow256(n) && ToBE(x, n)[0] < 64
  {
    if n > 1 {
      ToBETopBound(x / 256, n - 1);
    }
  }

  /** AppendVarInt(b, v). */
  function AppendVarInt(b: seq<byte>, v: nat): (r: seq<byte>)
    requires v <= MaxVarInt
    ensures |r| == |b| + VarIntLen(v) && r[..|b|] == b
    ensures r[|b|..] == VarIntBytes(v)
  {
    b + VarIntBytes(v)
  }

  /** ReadVarInt: the width comes from the first byte; fewer bytes than the
      width is a truncation. Non-minimal encodings are accepted. */
  function ReadVarInt(input: seq<byte>): (r: Result<(uint64, seq<byte>)>)
    ensures r.Ok? <==> |input| >= 1 && |input| >= WidthOf(input[0])
    ensures r.Err? ==> r.error == Truncated
    ensures r.Ok? ==> r.value.0 <= MaxVarInt && r.value.1 == input[WidthOf(input[0])..]
    ensures r.Ok? ==> IsSuffix(r.value.1, input)
  {
    if |input| == 0 then Err(Truncated)
    else
      var n := WidthOf(input[0]);
      if |input| < n then Err(Truncated)
      else
        var digits := [(input[0] % 64) as byte] + input[1..n];
        var v := FromBE(digits);
        assert v <= MaxVarInt by { TopDigitBound(digits); }
        Ok((v, input[n..]))
  }

  /** A big-endian number of at most 8 bytes whose top digit is below 64
      fits in 62 bits. */
  lemma TopDigitBound(digits: seq<byte>)
    requires 1 <= |digits| <= 8 && digits[0] < 64
    ensures FromBE(digits) <= MaxVarInt
  {
    FromBEHead(digits);
    MulMonotone(digits[0], 63, Pow256(|digits| - 1));
    Pow256Values();
    Pow256Monotone(|digits| - 1, 7);
    MulMonotone(Pow256(|digits| - 1), Pow256(7), 63);
  }

  lemma {:induction false} Pow256Monotone(i: nat, j: nat)
    requires i <= j
    ensures Pow256(i) <= Pow256(j)
  {
    if i < j {
      Pow256Monotone(i, j - 1);
    }
  }

  /** Reading back what AppendVarInt wrote yields the value and leaves the
      rest of the input untouched. */
  lemma VarIntRoundTrip(v: nat, rest: seq<byte>)
    requires v <= MaxVarInt
    ensures ReadVarInt(VarIntBytes(v) + rest) == Ok((v, rest))
  {
    var n := VarIntLen(v);
    ToBETopBound(v, n);
    var be := ToBE(v, n);
    var input := VarIntBytes(v) + rest;
    assert input[0] == FirstByte(ClassOf(n), be[0]) && input[1..n] == be[1..] && input[n..] == rest;
    assert [(input[0] % 64) as byte] + input[1..n] == be;
    FromBEToBE(v, n);
  }

  /** The width classes at their boundaries. */
  lemma VarIntBoundaries()
    ensures VarIntLen(0) == 1 && VarIntLen(63) == 1
    ensures VarIntLen(64) == 2 && VarIntLen(16383) == 2
    ensures VarIntLen(16384) == 4 && VarIntLen(0x3FFF_FFFF) == 4
    ensures VarIntLen(0x4000_0000) == 8 && VarIntLen(MaxVarInt) == 8
  {
  }
}
