/** Byte-level vocabulary shared by the codec: bytes, errors, big-endian
    integers, and the in-place writes that `copy` and slice stores perform. */
module Wire {

  type byte = x: int | 0 <= x < 256
  type uint64 = x: int | 0 <= x < 0x1_0000_0000_0000_0000

  /** The Go errors of the codec, collapsed to their kind. */
  datatype Error =
    | Truncated                      // io.EOF / io.ErrUnexpectedEOF from a field read
    | AdvanceTooFar                  // bufio.ErrAdvanceTooFar, returned by the string-only parsers
    | BufferTooSmall                 // a Write given a slice shorter than Length()
    | UnknownRequestType(tag: string) // a tag that is not a registry key

  datatype Result<+T> = Ok(value: T) | Err(error: Error) {
    predicate IsFailure() { Err? }
    function PropagateFailure<U>(): Result<U>
      requires Err?
    {
      Err(error)
    }
    function Extract(): T
      requires Ok?
    {
      value
    }
  }

  /** `rest` is what remains of `input` after some prefix was consumed. */
  predicate IsSuffix(rest: seq<byte>, input: seq<byte>) {
    |rest| <= |input| && rest == input[|input| - |rest|..]
  }

  lemma SuffixTransitive(a: seq<byte>, b: seq<byte>, c: seq<byte>)
    requires IsSuffix(a, b) && IsSuffix(b, c)
    ensures IsSuffix(a, c)
  {
    assert c[|c| - |b|..][|b| - |a|..] == c[|c| - |a|..];
  }

  /** Regrouping a four-part concatenation. */
  lemma Append4(a: seq<byte>, b: seq<byte>, c: seq<byte>, d: seq<byte>)
    ensures a + b + c + d == a + b + (c + d)
  {
  }

  /** Concatenations nested to the right, the way parsers consume them. */
  lemma Nest4(a: seq<byte>, b: seq<byte>, c: seq<byte>, d: seq<byte>)
    ensures a + b + c + d == a + (b + (c + d))
  {
  }

  lemma Nest5(a: seq<byte>, b: seq<byte>, c: seq<byte>, d: seq<byte>, e: seq<byte>)
    ensures a + b + c + d + e == a + (b + (c + (d + e)))
  {
  }

  function Pow256(n: nat): (p: nat)
    ensures p >= 1
  {
    if n == 0 then 1 else 256 * Pow256(n - 1)
  }

  /** The powers the fixed-width fields use. */
  lemma Pow256Values()
    ensures Pow256(1) == 0x100 && Pow256(2) == 0x1_0000 && Pow256(3) == 0x100_0000
    ensures Pow256(4) == 0x1_0000_0000 && Pow256(7) == 0x100_0000_0000_0000
    ensures Pow256(8) == 0x1_0000_0000_0000_0000
  {
  }

  /** The n-byte big-endian representation of x. */
  function ToBE(x: nat, n: nat): (b: seq<byte>)
    requires x < Pow256(n)
    ensures |b| == n
  {
    if n == 0 then [] else ToBE(x / 256, n - 1) + [(x % 256) as byte]
  }

  /** The value of a big-endian byte string. */
  function FromBE(b: seq<byte>): (x: nat)
    ensures x < Pow256(|b|)
  {
    if b == [] then 0
    else
      var hi := FromBE(b[..|b| - 1]);
      assert hi * 256 + b[|b| - 1] < Pow256(|b|) by {
        assert hi <= Pow256(|b| - 1) - 1;
        MulMonotone(hi, Pow256(|b| - 1) - 1, 256);
      }
      hi * 256 + b[|b| - 1]
  }

  lemma MulMonotone(a: nat, b: nat, c: nat)
    requires a <= b
    ensures a * c <= b * c
  {
  }

  lemma {:induction false} FromBEToBE(x: nat, n: nat)
    requires x < Pow256(n)
    ensures FromBE(ToBE(x, n)) == x
  {
    if n > 0 {
      var b := ToBE(x, n);
      assert b[..n - 1] == ToBE(x / 256, n - 1);
      FromBEToBE(x / 256, n - 1);
    }
  }

  /** Splitting off the most significant byte. */
  lemma {:induction false} FromBEHead(b: seq<byte>)
    requires |b| >= 1
    ensures FromBE(b) == b[0] * Pow256(|b| - 1) + FromBE(b[1..])
  {
    if |b| > 1 {
      var init := b[..|b| - 1];
      FromBEHead(init);
      assert init[1..] == b[1..][..|b| - 2];
      var tail := b[1..];
      assert tail[..|tail| - 1] == init[1..];
      assert FromBE(tail) == FromBE(init[1..]) * 256 + b[|b| - 1];
      assert Pow256(|b| - 1) == 256 * Pow256(|b| - 2);
      Regroup(b[0], Pow256(|b| - 2), FromBE(init[1..]), b[|b| - 1]);
    } else {
      assert b[1..] == [];
      assert b[..0] == [];
    }
  }

  lemma Regroup(h: nat, p: nat, t: nat, l: nat)
    ensures (h * p + t) * 256 + l == h * (256 * p) + (t * 256 + l)
  {
  }

  /** `b` with the bytes from `at` on replaced by `d`: what a store of `d`
      into the slice `b[at:]` leaves behind. */
  function Splice(b: seq<byte>, at: nat, d: seq<byte>): (r: seq<byte>)
    requires at + |d| <= |b|
    ensures |r| == |b|
  {
    seq(|b|, k requires 0 <= k < |b| => if at <= k < at + |d| then d[k - at] else b[k])
  }

  /** Byte by byte, a store replaces exactly the bytes it covers. */
  lemma SpliceBytes(b: seq<byte>, at: nat, d: seq<byte>)
    requires at + |d| <= |b|
    ensures forall k :: 0 <= k < |b| ==>
      Splice(b, at, d)[k] == if at <= k < at + |d| then d[k - at] else b[k]
  {
  }

  /** A single byte stored at `pos`. */
  lemma StoredByte(before: seq<byte>, after: seq<byte>, pos: nat, x: byte)
    requires pos < |before| == |after| && after[pos] == x
    requires forall k :: 0 <= k < |before| && k != pos ==> after[k] == before[k]
    ensures after == Splice(before, pos, [x])
  {
  }

  /** From the store's offset on, a store reads as the stored bytes
      followed by what was already there. */
  lemma SpliceSuffix(b: seq<byte>, at: nat, d: seq<byte>)
    requires at + |d| <= |b|
    ensures Splice(b, at, d)[at..] == d + b[at + |d|..]
  {
    var lhs, rhs := Splice(b, at, d)[at..], d + b[at + |d|..];
    forall k | 0 <= k < |lhs| ensures lhs[k] == rhs[k] {
      if k < |d| {
        assert rhs[k] == d[k];
      } else {
        assert rhs[k] == b[at + |d|..][k - |d|];
      }
    }
  }

  /** Two adjacent stores are one store of the concatenation. */
  lemma SpliceAdjacent(b: seq<byte>, at: nat, d1: seq<byte>, d2: seq<byte>)
    requires at + |d1| + |d2| <= |b|
    ensures Splice(Splice(b, at, d1), at + |d1|, d2) == Splice(b, at, d1 + d2)
  {
    var lhs := Splice(Splice(b, at, d1), at + |d1|, d2);
    var rhs := Splice(b, at, d1 + d2);
    SpliceBytes(b, at, d1);
    SpliceBytes(Splice(b, at, d1), at + |d1|, d2);
    SpliceBytes(b, at, d1 + d2);
    forall k | 0 <= k < |b| ensures lhs[k] == rhs[k] {
      if at <= k < at + |d1| {
        assert (d1 + d2)[k - at] == d1[k - at];
      } else if at + |d1| <= k < at + |d1| + |d2| {
        assert (d1 + d2)[k - at] == d2[k - at - |d1|];
      }
    }
  }

  /** A store right after an earlier one extends it. */
  lemma SpliceThen(b0: seq<byte>, b1: seq<byte>, b2: seq<byte>, at: nat, d1: seq<byte>, d2: seq<byte>)
    requires at + |d1| + |d2| <= |b0|
    requires b1 == Splice(b0, at, d1) && b2 == Splice(b1, at + |d1|, d2)
    ensures b2 == Splice(b0, at, d1 + d2)
  {
    SpliceAdjacent(b0, at, d1, d2);
  }

  /** Go's built-in `copy(buf[at:], data)`: copies as many bytes as fit and
      returns how many it copied. */
  method CopyInto(buf: array<byte>, at: nat, data: seq<byte>) returns (n: nat)
    requires at <= buf.Length
    modifies buf
    ensures n == if |data| <= buf.Length - at then |data| else buf.Length - at
    ensures buf[..] == Splice(old(buf[..]), at, data[..n])
    ensures |data| <= buf.Length - at ==> buf[..] == Splice(old(buf[..]), at, data)
  {
    n := if |data| <= buf.Length - at then |data| else buf.Length - at;
    for i := 0 to n
      invariant forall k :: 0 <= k < buf.Length ==>
        buf[k] == if at <= k < at + i then data[k - at] else old(buf[k])
    {
      buf[at + i] := data[i];
    }
    SpliceBytes(old(buf[..]), at, data[..n]);
    assert buf[..] == Splice(old(buf[..]), at, data[..n]);
    assert n == |data| ==> data[..n] == data;
  }
}
