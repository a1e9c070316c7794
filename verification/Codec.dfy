/** The length-prefixed encoding of saved state, from crates/leave-crypto/src/codec.rs. */
module Codec {
  import opened Bytes
  import opened Outcomes

  datatype CryptoError = Group | KeyPackage | UnexpectedMessage | MalformedIdentity

  const U32_MAX: nat := 0xffff_ffff
  const MAGIC: seq<Byte> := [0x4c, 0x45, 0x41, 0x56, 0x45, 0x4d, 0x4c, 0x53]
  const VERSION: Byte := 1

  function Header(): (h: seq<Byte>)
    ensures |h| == 9
  {
    MAGIC + [VERSION]
  }

  // ----- lengths

  /** Lengths beyond 32 bits saturate. */
  function Saturated(length: nat): (n: nat)
    ensures n <= U32_MAX
  {
    if length <= U32_MAX then length else U32_MAX
  }

  function BigEndian(n: nat): (bytes: seq<Byte>)
    requires n <= U32_MAX
    ensures |bytes| == 4
  {
    [n / 0x100_0000, n / 0x1_0000 % 256, n / 0x100 % 256, n % 256]
  }

  function FromBigEndian(bytes: seq<Byte>): (n: nat)
    requires |bytes| == 4
    ensures n <= U32_MAX
  {
    var a: nat, b: nat, c: nat, d: nat := bytes[0], bytes[1], bytes[2], bytes[3];
    ((a * 256 + b) * 256 + c) * 256 + d
  }

  lemma LengthRoundTrip(n: nat)
    requires n <= U32_MAX
    ensures FromBigEndian(BigEndian(n)) == n
  {
    var c := n / 0x100;
    assert c / 0x100 == n / 0x1_0000 && c / 0x100 / 0x100 == n / 0x100_0000;
  }

  lemma BytesOfLength(bytes: seq<Byte>)
    requires |bytes| == 4
    ensures BigEndian(FromBigEndian(bytes)) == bytes
  {
    var a: nat, b: nat, c: nat, d: nat := bytes[0], bytes[1], bytes[2], bytes[3];
    var n := FromBigEndian(bytes);
    assert n / 0x100 == (a * 256 + b) * 256 + c;
    assert n / 0x1_0000 == n / 0x100 / 0x100 == a * 256 + b;
    assert n / 0x100_0000 == n / 0x1_0000 / 0x100 == a;
  }

  /** The first byte in which two lengths differ is the greater one of the greater length. */
  lemma BytesInOrder(m: nat, n: nat) returns (k: nat)
    requires m < n <= U32_MAX
    ensures k < 4 && BigEndian(m)[..k] == BigEndian(n)[..k] && BigEndian(m)[k] < BigEndian(n)[k]
  {
    LengthRoundTrip(m);
    LengthRoundTrip(n);
    var a, b := BigEndian(m), BigEndian(n);
    k := if a[0] != b[0] then 0 else if a[1] != b[1] then 1 else if a[2] != b[2] then 2 else 3;
  }

  // ----- what is written and what is read

  function Prefixed(value: seq<Byte>): (bytes: seq<Byte>)
    ensures |bytes| == 4 + |value|
  {
    BigEndian(Saturated(|value|)) + value
  }

  datatype Front = Front(value: seq<Byte>, rest: seq<Byte>)

  /** The value at the start of the input, if its length and its bytes are all there, and what follows. */
  function TakenBytes(input: seq<Byte>): (front: Option<Front>)
    ensures front.Some? ==> 4 + |front.value.value| + |front.value.rest| == |input|
  {
    if |input| < 4 then None
    else
      var length := FromBigEndian(input[..4]);
      if |input| < 4 + length then None else Some(Front(input[4..4 + length], input[4 + length..]))
  }

  function TakenCount(input: seq<Byte>): Option<nat> {
    if |input| < 4 then None else Some(FromBigEndian(input[..4]))
  }

  lemma WrittenIsRead(input: seq<Byte>, value: seq<Byte>, rest: seq<Byte>)
    requires |value| <= U32_MAX && input == Prefixed(value) + rest
    ensures TakenBytes(input) == Some(Front(value, rest))
  {
    assert input[..4] == BigEndian(|value|);
    LengthRoundTrip(|value|);
    assert input[4..4 + |value|] == value && input[4 + |value|..] == rest;
  }

  lemma ReadWasWritten(input: seq<Byte>, value: seq<Byte>, rest: seq<Byte>)
    requires TakenBytes(input) == Some(Front(value, rest))
    ensures |value| <= U32_MAX && input == Prefixed(value) + rest
  {
    BytesOfLength(input[..4]);
    assert input == input[..4] + input[4..4 + |value|] + input[4 + |value|..];
  }

  /** A value is read exactly when the input starts with its encoding and its length fits 32 bits:
    the encoding is self-delimiting. */
  lemma TakenIsPrefixed(input: seq<Byte>, value: seq<Byte>, rest: seq<Byte>)
    ensures TakenBytes(input) == Some(Front(value, rest)) <==> |value| <= U32_MAX && input == Prefixed(value) + rest
  {
    if TakenBytes(input) == Some(Front(value, rest)) {
      ReadWasWritten(input, value, rest);
    }
    if |value| <= U32_MAX && input == Prefixed(value) + rest {
      WrittenIsRead(input, value, rest);
    }
  }

  /** Reading undoes writing, whatever follows, for exactly the values whose length fits. */
  lemma TakeUndoesPut(value: seq<Byte>, rest: seq<Byte>)
    ensures TakenBytes(Prefixed(value) + rest) == Some(Front(value, rest)) <==> |value| <= U32_MAX
  {
    TakenIsPrefixed(Prefixed(value) + rest, value, rest);
  }

  /** No strict prefix of an encoding can be read. */
  lemma PrefixIsRejected(value: seq<Byte>, part: seq<Byte>)
    requires |value| <= U32_MAX && part < Prefixed(value)
    ensures TakenBytes(part) == None
  {
    if TakenBytes(part) != None {
      var other, rest, more := TakenBytes(part).value.value, TakenBytes(part).value.rest, Prefixed(value)[|part|..];
      TakenIsPrefixed(part, other, rest);
      assert Prefixed(value) == Prefixed(other) + (rest + more) == Prefixed(value) + [];
      TakenIsPrefixed(Prefixed(value), other, rest + more);
      TakenIsPrefixed(Prefixed(value), value, []);
    }
  }

  /** What has been written so far. */
  class Buffer {
    var bytes: seq<Byte>

    constructor ()
      ensures bytes == []
    {
      bytes := [];
    }

    method Extend(more: seq<Byte>)
      modifies this
      ensures bytes == old(bytes) + more
    {
      bytes := bytes + more;
    }

    method PutBytes(value: seq<Byte>)
      modifies this
      ensures bytes == old(bytes) + Prefixed(value)
    {
      Extend(BigEndian(Saturated(|value|)));
      Extend(value);
    }

    method PutCount(count: nat)
      modifies this
      ensures bytes == old(bytes) + BigEndian(Saturated(count))
    {
      Extend(BigEndian(Saturated(count)));
    }

    method PutHeader()
      modifies this
      ensures bytes == old(bytes) + Header()
    {
      Extend(MAGIC);
      Extend([VERSION]);
    }
  }

  /** What is left to read. A failed read leaves it where it was. */
  class Cursor {
    var rest: seq<Byte>

    constructor (bytes: seq<Byte>)
      ensures rest == bytes
    {
      rest := bytes;
    }

    method TakeBytes() returns (result: Result<seq<Byte>, CryptoError>)
      modifies this
      ensures result.Ok? ==> TakenBytes(old(rest)) == Some(Front(result.value, rest))
      ensures result.Err? ==> result.error == Group && TakenBytes(old(rest)) == None && rest == old(rest)
    {
      if |rest| < 4 {
        return Err(Group);
      }
      var length, after := FromBigEndian(rest[..4]), rest[4..];
      if |after| < length {
        return Err(Group);
      }
      assert rest[4..4 + length] == after[..length];
      rest := after[length..];
      return Ok(after[..length]);
    }

    method TakeCount() returns (result: Result<nat, CryptoError>)
      modifies this
      ensures result.Ok? <==> |old(rest)| >= 4
      ensures result.Ok? ==> TakenCount(old(rest)) == Some(result.value) && rest == old(rest)[4..]
      ensures result.Err? ==> result.error == Group && rest == old(rest)
    {
      if |rest| < 4 {
        return Err(Group);
      }
      result := Ok(FromBigEndian(rest[..4]));
      rest := rest[4..];
    }

    method TakeHeader() returns (result: Result<(), CryptoError>)
      modifies this
      ensures result.Ok? <==> Header() <= old(rest)
      ensures rest == if result.Ok? then old(rest)[9..] else old(rest)
      ensures result.Err? ==> result.error == Group
    {
      if |rest| < |MAGIC| + 1 {
        return Err(Group);
      }
      if rest[..|MAGIC|] != MAGIC {
        return Err(Group);
      }
      if rest[|MAGIC|] != VERSION {
        return Err(Group);
      }
      assert rest[..9] == rest[..8] + [rest[8]];
      rest := rest[|MAGIC| + 1..];
      return Ok(());
    }
  }
}
