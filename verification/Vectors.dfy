/** Interoperability vectors, from crates/leave-crypto/src/vectors.rs. */
module Vectors {
  import opened Bytes
  import opened Outcomes
  import opened Codec

  /** The sender is the bytes of a UTF-8 string. */
  datatype InteropVector = InteropVector(receiverState: seq<Byte>, sealedFrame: seq<Byte>, expectedPlaintext: seq<Byte>,
                                         expectedSender: seq<Byte>)

  function Encoded(v: InteropVector): (bytes: seq<Byte>)
    ensures |bytes| == 25 + |v.receiverState| + |v.sealedFrame| + |v.expectedPlaintext| + |v.expectedSender|
  {
    Header() + Prefixed(v.receiverState) + Prefixed(v.sealedFrame)
    + Prefixed(v.expectedPlaintext) + Prefixed(v.expectedSender)
  }

  /** Where the four values stand after the header. */
  lemma VectorLayout(v: InteropVector)
    requires Fits(v)
    ensures var bytes, a := Encoded(v), 13 + |v.receiverState|;
      var b := a + 4 + |v.sealedFrame|;
      var c := b + 4 + |v.expectedPlaintext|;
      && bytes[..9] == [0x4c, 0x45, 0x41, 0x56, 0x45, 0x4d, 0x4c, 0x53, 1]
      && bytes[9..13] == BigEndian(|v.receiverState|) && bytes[13..a] == v.receiverState
      && bytes[a..a + 4] == BigEndian(|v.sealedFrame|) && bytes[a + 4..b] == v.sealedFrame
      && bytes[b..b + 4] == BigEndian(|v.expectedPlaintext|) && bytes[b + 4..c] == v.expectedPlaintext
      && bytes[c..c + 4] == BigEndian(|v.expectedSender|) && bytes[c + 4..] == v.expectedSender
  {
    hide BigEndian;
  }

  predicate Fits(v: InteropVector) {
    && |v.receiverState| <= U32_MAX && |v.sealedFrame| <= U32_MAX
    && |v.expectedPlaintext| <= U32_MAX && |v.expectedSender| <= U32_MAX
  }

  // ----- what is read

  /** Four values, one after the other. */
  function TakenFour(input: seq<Byte>): Option<InteropVector> {
    match TakenBytes(input)
    case None => None
    case Some(a) =>
      match TakenBytes(a.rest)
      case None => None
      case Some(b) =>
        match TakenBytes(b.rest)
        case None => None
        case Some(c) =>
          match TakenBytes(c.rest)
          case None => None
          case Some(d) => Some(InteropVector(a.value, b.value, c.value, d.value))
  }

  /** The header, four values, and a sender that is valid UTF-8; what follows is ignored. */
  function Decoded(isUtf8: seq<Byte> -> bool, bytes: seq<Byte>): Result<InteropVector, CryptoError> {
    if !(Header() <= bytes) then Err(Group)
    else
      match TakenFour(bytes[9..])
      case None => Err(Group)
      case Some(v) => if isUtf8(v.expectedSender) then Ok(v) else Err(MalformedIdentity)
  }

  function Four(v: InteropVector): (bytes: seq<Byte>)
    ensures Header() + bytes == Encoded(v)
  {
    Prefixed(v.receiverState) + (Prefixed(v.sealedFrame) + (Prefixed(v.expectedPlaintext) + Prefixed(v.expectedSender)))
  }

  lemma Nested(p: seq<Byte>, q: seq<Byte>, r: seq<Byte>, s: seq<Byte>, rest: seq<Byte>)
    ensures p + (q + (r + s)) + rest == p + (q + (r + (s + rest)))
  {
  }

  lemma FourAreRead(v: InteropVector, rest: seq<Byte>)
    requires Fits(v)
    ensures TakenFour(Four(v) + rest) == Some(v)
  {
    var d := Prefixed(v.expectedSender) + rest;
    var c := Prefixed(v.expectedPlaintext) + d;
    var b := Prefixed(v.sealedFrame) + c;
    Nested(Prefixed(v.receiverState), Prefixed(v.sealedFrame), Prefixed(v.expectedPlaintext),
           Prefixed(v.expectedSender), rest);
    WrittenIsRead(Four(v) + rest, v.receiverState, b);
    WrittenIsRead(b, v.sealedFrame, c);
    WrittenIsRead(c, v.expectedPlaintext, d);
    WrittenIsRead(d, v.expectedSender, rest);
  }

  lemma FourWereRead(input: seq<Byte>, v: InteropVector)
    requires TakenFour(input) == Some(v)
    ensures Fits(v) && Four(v) <= input
  {
    var a := TakenBytes(input).value;
    var b := TakenBytes(a.rest).value;
    var c := TakenBytes(b.rest).value;
    var d := TakenBytes(c.rest).value;
    ReadWasWritten(input, a.value, a.rest);
    ReadWasWritten(a.rest, b.value, b.rest);
    ReadWasWritten(b.rest, c.value, c.rest);
    ReadWasWritten(c.rest, d.value, d.rest);
    Nested(Prefixed(a.value), Prefixed(b.value), Prefixed(c.value), Prefixed(d.value), d.rest);
    assert input == Four(v) + d.rest;
  }

  lemma HeaderSplits(v: InteropVector, rest: seq<Byte>)
    ensures Header() <= Encoded(v) + rest && (Encoded(v) + rest)[9..] == Four(v) + rest
  {
    var four := Four(v);
    assert Encoded(v) == Header() + four;
  }

  lemma EncodedIsDecoded(isUtf8: seq<Byte> -> bool, v: InteropVector, rest: seq<Byte>)
    requires Fits(v) && isUtf8(v.expectedSender)
    ensures Decoded(isUtf8, Encoded(v) + rest) == Ok(v)
  {
    FourAreRead(v, rest);
    HeaderSplits(v, rest);
  }

  lemma DecodedWasEncoded(isUtf8: seq<Byte> -> bool, bytes: seq<Byte>, v: InteropVector)
    requires Decoded(isUtf8, bytes) == Ok(v)
    ensures Fits(v) && isUtf8(v.expectedSender) && Encoded(v) <= bytes
  {
    hide BigEndian, TakenBytes;
    FourWereRead(bytes[9..], v);
    assert bytes == Header() + bytes[9..];
  }

  /** The decoder accepts exactly the byte strings that start with the encoding of a vector whose
    lengths fit 32 bits and whose sender is text. */
  lemma DecodedIsEncoded(isUtf8: seq<Byte> -> bool, bytes: seq<Byte>, v: InteropVector)
    ensures Decoded(isUtf8, bytes) == Ok(v) <==> Fits(v) && isUtf8(v.expectedSender) && Encoded(v) <= bytes
  {
    if Decoded(isUtf8, bytes) == Ok(v) {
      DecodedWasEncoded(isUtf8, bytes, v);
    }
    if Fits(v) && isUtf8(v.expectedSender) && Encoded(v) <= bytes {
      EncodedIsDecoded(isUtf8, v, bytes[|Encoded(v)|..]);
      assert bytes == Encoded(v) + bytes[|Encoded(v)|..];
    }
  }

  /** Decoding undoes encoding, whatever follows. */
  lemma DecodeUndoesEncode(isUtf8: seq<Byte> -> bool, v: InteropVector, rest: seq<Byte>)
    requires isUtf8(v.expectedSender)
    ensures Decoded(isUtf8, Encoded(v) + rest) == Ok(v) <==> Fits(v)
  {
    DecodedIsEncoded(isUtf8, Encoded(v) + rest, v);
  }

  /** A truncated vector is never accepted, not even as another vector. */
  lemma TruncationIsRejected(isUtf8: seq<Byte> -> bool, v: InteropVector, part: seq<Byte>)
    requires Fits(v) && isUtf8(v.expectedSender) && part < Encoded(v)
    ensures Decoded(isUtf8, part).Err?
  {
    if Decoded(isUtf8, part).Ok? {
      var other := Decoded(isUtf8, part).value;
      DecodedIsEncoded(isUtf8, part, other);
      DecodedIsEncoded(isUtf8, Encoded(v), other);
      DecodedIsEncoded(isUtf8, Encoded(v), v);
    }
  }

  // ----- the source's operations

  method Encode(v: InteropVector) returns (bytes: seq<Byte>)
    ensures bytes == Encoded(v)
  {
    hide BigEndian, Saturated;
    var buffer := new Buffer();
    buffer.PutHeader();
    buffer.PutBytes(v.receiverState);
    buffer.PutBytes(v.sealedFrame);
    buffer.PutBytes(v.expectedPlaintext);
    buffer.PutBytes(v.expectedSender);
    return buffer.bytes;
  }

  method Decode(isUtf8: seq<Byte> -> bool, bytes: seq<Byte>) returns (result: Result<InteropVector, CryptoError>)
    ensures result == Decoded(isUtf8, bytes)
  {
    var cursor := new Cursor(bytes);
    var header := cursor.TakeHeader();
    if header.Err? {
      return Err(header.error);
    }
    var four := DecodeFour(cursor);
    if four.Err? {
      return four;
    }
    if !isUtf8(four.value.expectedSender) {
      return Err(MalformedIdentity);
    }
    return four;
  }

  method DecodeFour(cursor: Cursor) returns (result: Result<InteropVector, CryptoError>)
    modifies cursor
    ensures result == match TakenFour(old(cursor.rest)) case None => Err(Group) case Some(v) => Ok(v)
  {
    var receiverState := cursor.TakeBytes();
    if receiverState.Err? {
      return Err(receiverState.error);
    }
    var sealedFrame := cursor.TakeBytes();
    if sealedFrame.Err? {
      return Err(sealedFrame.error);
    }
    var expectedPlaintext := cursor.TakeBytes();
    if expectedPlaintext.Err? {
      return Err(expectedPlaintext.error);
    }
    var expectedSender := cursor.TakeBytes();
    if expectedSender.Err? {
      return Err(expectedSender.error);
    }
    return Ok(InteropVector(receiverState.value, sealedFrame.value, expectedPlaintext.value, expectedSender.value));
  }
}
