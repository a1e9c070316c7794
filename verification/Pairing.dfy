/** Pairing frames, from crates/leave-crypto/src/pairing.rs. The tag that binds a key package to the
  pairing secret is a given function of the key package.
 */
module Pairing {
  import opened Bytes
  import opened Outcomes
  import opened Codec

  const KIND_REQUEST: Byte := 1
  const KIND_WELCOME: Byte := 2

  type Tag = seq<Byte> -> seq<Byte>

  function RequestFrame(keyPackage: seq<Byte>, tag: seq<Byte>): seq<Byte> {
    Header() + [KIND_REQUEST] + Prefixed(keyPackage) + Prefixed(tag)
  }

  function WelcomeFrame(welcome: seq<Byte>): seq<Byte> {
    Header() + [KIND_WELCOME] + Prefixed(welcome)
  }

  /** Where the parts of a request stand. */
  lemma RequestLayout(keyPackage: seq<Byte>, tag: seq<Byte>)
    requires |keyPackage| <= U32_MAX && |tag| <= U32_MAX
    ensures var frame, end := RequestFrame(keyPackage, tag), 14 + |keyPackage|;
      && |frame| == end + 4 + |tag|
      && frame[..10] == [0x4c, 0x45, 0x41, 0x56, 0x45, 0x4d, 0x4c, 0x53, 1, 1]
      && frame[10..14] == BigEndian(|keyPackage|) && frame[14..end] == keyPackage
      && frame[end..end + 4] == BigEndian(|tag|) && frame[end + 4..] == tag
  {
    hide BigEndian;
  }

  /** Where the parts of a welcome stand. */
  lemma WelcomeLayout(welcome: seq<Byte>)
    requires |welcome| <= U32_MAX
    ensures var frame := WelcomeFrame(welcome);
      && |frame| == 14 + |welcome|
      && frame[..10] == [0x4c, 0x45, 0x41, 0x56, 0x45, 0x4d, 0x4c, 0x53, 1, 2]
      && frame[10..14] == BigEndian(|welcome|) && frame[14..] == welcome
  {
    hide BigEndian;
  }

  // ----- what is read

  predicate IsPairingFrame(frame: seq<Byte>) {
    Header() <= frame && |frame| > 9 && (frame[9] == KIND_REQUEST || frame[9] == KIND_WELCOME)
  }

  /** The key package of a request whose tag matches. */
  function Accepted(tag: Tag, frame: seq<Byte>): Result<seq<Byte>, CryptoError> {
    if !(Header() <= frame) then Err(Group)
    else if |frame| == 9 || frame[9] != KIND_REQUEST then Err(KeyPackage)
    else
      match TakenBytes(frame[10..])
      case None => Err(Group)
      case Some(keyPackage) =>
        match TakenBytes(keyPackage.rest)
        case None => Err(Group)
        case Some(presented) =>
          if tag(keyPackage.value) != presented.value then Err(KeyPackage) else Ok(keyPackage.value)
  }

  function WelcomeOf(frame: seq<Byte>): Result<seq<Byte>, CryptoError> {
    if !(Header() <= frame) then Err(Group)
    else if |frame| == 9 || frame[9] != KIND_WELCOME then Err(UnexpectedMessage)
    else
      match TakenBytes(frame[10..])
      case None => Err(Group)
      case Some(welcome) => Ok(welcome.value)
  }

  lemma BodyOf(kind: Byte, body: seq<Byte>)
    ensures var frame := Header() + [kind] + body;
      Header() <= frame && |frame| > 9 && frame[9] == kind && frame[10..] == body
  {
  }

  lemma RequestParts(keyPackage: seq<Byte>, tag: seq<Byte>, rest: seq<Byte>)
    requires |keyPackage| <= U32_MAX && |tag| <= U32_MAX
    ensures var frame := RequestFrame(keyPackage, tag) + rest;
      && Header() <= frame && |frame| > 9 && frame[9] == KIND_REQUEST
      && TakenBytes(frame[10..]) == Some(Front(keyPackage, Prefixed(tag) + rest))
      && TakenBytes(Prefixed(tag) + rest) == Some(Front(tag, rest))
  {
    var after := Prefixed(tag) + rest;
    assert RequestFrame(keyPackage, tag) + rest == Header() + [KIND_REQUEST] + (Prefixed(keyPackage) + after);
    BodyOf(KIND_REQUEST, Prefixed(keyPackage) + after);
    WrittenIsRead(Prefixed(keyPackage) + after, keyPackage, after);
    WrittenIsRead(after, tag, rest);
  }

  lemma RequestWhole(frame: seq<Byte>, keyPackage: seq<Byte>, tag: seq<Byte>, rest: seq<Byte>)
    requires Header() <= frame && |frame| > 9 && frame[9] == KIND_REQUEST
    requires frame[10..] == Prefixed(keyPackage) + (Prefixed(tag) + rest)
    ensures frame == RequestFrame(keyPackage, tag) + rest
  {
    assert frame == Header() + [KIND_REQUEST] + frame[10..];
  }

  lemma AcceptedWasRequest(tag: Tag, frame: seq<Byte>, keyPackage: seq<Byte>)
    requires Accepted(tag, frame) == Ok(keyPackage)
    ensures |keyPackage| <= U32_MAX && |tag(keyPackage)| <= U32_MAX
    ensures RequestFrame(keyPackage, tag(keyPackage)) <= frame
  {
    var after := TakenBytes(frame[10..]).value.rest;
    var rest := TakenBytes(after).value.rest;
    ReadWasWritten(frame[10..], keyPackage, after);
    ReadWasWritten(after, tag(keyPackage), rest);
    RequestWhole(frame, keyPackage, tag(keyPackage), rest);
  }

  /** The host admits exactly the requests that carry a key package and the tag the secret gives it. */
  lemma AcceptedIsRequest(tag: Tag, frame: seq<Byte>, keyPackage: seq<Byte>)
    ensures Accepted(tag, frame) == Ok(keyPackage) <==>
      |keyPackage| <= U32_MAX && |tag(keyPackage)| <= U32_MAX && RequestFrame(keyPackage, tag(keyPackage)) <= frame
  {
    hide Header, Prefixed, TakenBytes;
    if Accepted(tag, frame) == Ok(keyPackage) {
      AcceptedWasRequest(tag, frame, keyPackage);
    }
    if |keyPackage| <= U32_MAX && |tag(keyPackage)| <= U32_MAX && RequestFrame(keyPackage, tag(keyPackage)) <= frame {
      var rest := frame[|RequestFrame(keyPackage, tag(keyPackage))|..];
      RequestParts(keyPackage, tag(keyPackage), rest);
      assert frame == RequestFrame(keyPackage, tag(keyPackage)) + rest;
    }
  }

  /** The tag is 32 bytes, so a request is accepted whenever its key package fits; under another
    secret it is accepted only if both secrets give the key package the same tag. */
  lemma RequestIsAccepted(mine: Tag, other: Tag, keyPackage: seq<Byte>, rest: seq<Byte>)
    requires |mine(keyPackage)| == |other(keyPackage)| == 32 && |keyPackage| <= U32_MAX
    ensures Accepted(mine, RequestFrame(keyPackage, other(keyPackage)) + rest) ==
      if mine(keyPackage) == other(keyPackage) then Ok(keyPackage) else Err(KeyPackage)
  {
    RequestParts(keyPackage, other(keyPackage), rest);
  }

  lemma WelcomeBody(body: seq<Byte>, welcome: seq<Byte>)
    ensures WelcomeOf(Header() + [KIND_WELCOME] + body) == Ok(welcome) <==>
      TakenBytes(body).Some? && TakenBytes(body).value.value == welcome
  {
    BodyOf(KIND_WELCOME, body);
  }

  /** Reading a welcome undoes writing it, whatever follows. */
  lemma WelcomeRoundTrip(welcome: seq<Byte>, rest: seq<Byte>)
    ensures WelcomeOf(WelcomeFrame(welcome) + rest) == Ok(welcome) <==> |welcome| <= U32_MAX
  {
    var body := Prefixed(welcome) + rest;
    assert WelcomeFrame(welcome) + rest == Header() + [KIND_WELCOME] + body;
    WelcomeBody(body, welcome);
    TakenIsPrefixed(body, welcome, rest);
    if TakenBytes(body).Some? && TakenBytes(body).value.value == welcome {
      ReadWasWritten(body, welcome, TakenBytes(body).value.rest);
    }
  }

  lemma WelcomeWasWritten(frame: seq<Byte>, welcome: seq<Byte>)
    requires WelcomeOf(frame) == Ok(welcome)
    ensures |welcome| <= U32_MAX && WelcomeFrame(welcome) <= frame
  {
    var rest := TakenBytes(frame[10..]).value.rest;
    ReadWasWritten(frame[10..], welcome, rest);
    hide Prefixed, TakenBytes;
    assert frame == Header() + [KIND_WELCOME] + frame[10..];
    assert frame == WelcomeFrame(welcome) + rest;
  }

  /** A frame is accepted as a welcome exactly when it starts with the frame of one whose length fits. */
  lemma AcceptedIsWelcome(frame: seq<Byte>, welcome: seq<Byte>)
    ensures WelcomeOf(frame) == Ok(welcome) <==> |welcome| <= U32_MAX && WelcomeFrame(welcome) <= frame
  {
    hide WelcomeOf, WelcomeFrame;
    if WelcomeOf(frame) == Ok(welcome) {
      WelcomeWasWritten(frame, welcome);
    }
    if WelcomeFrame(welcome) <= frame {
      var rest := frame[|WelcomeFrame(welcome)|..];
      assert frame == WelcomeFrame(welcome) + rest;
      WelcomeRoundTrip(welcome, rest);
    }
  }

  /** Both kinds are pairing frames, and neither is ever accepted for the other. */
  lemma KindsAreDistinct(mine: Tag, keyPackage: seq<Byte>, tag: seq<Byte>, welcome: seq<Byte>, rest: seq<Byte>)
    ensures IsPairingFrame(RequestFrame(keyPackage, tag) + rest) && IsPairingFrame(WelcomeFrame(welcome) + rest)
    ensures Accepted(mine, WelcomeFrame(welcome) + rest) == Err(KeyPackage)
    ensures WelcomeOf(RequestFrame(keyPackage, tag) + rest) == Err(UnexpectedMessage)
  {
    assert RequestFrame(keyPackage, tag) + rest
      == Header() + [KIND_REQUEST] + (Prefixed(keyPackage) + Prefixed(tag) + rest);
    BodyOf(KIND_REQUEST, Prefixed(keyPackage) + Prefixed(tag) + rest);
    assert WelcomeFrame(welcome) + rest == Header() + [KIND_WELCOME] + (Prefixed(welcome) + rest);
    BodyOf(KIND_WELCOME, Prefixed(welcome) + rest);
  }

  /** Whatever either reader accepts is recognised as a pairing frame. */
  lemma AcceptedIsRecognised(tag: Tag, frame: seq<Byte>)
    requires Accepted(tag, frame).Ok? || WelcomeOf(frame).Ok?
    ensures IsPairingFrame(frame) && !(Accepted(tag, frame).Ok? && WelcomeOf(frame).Ok?)
  {
  }

  // ----- the source's operations

  method PairingRequest(tag: Tag, keyPackage: seq<Byte>) returns (frame: seq<Byte>)
    ensures frame == RequestFrame(keyPackage, tag(keyPackage))
  {
    var buffer := new Buffer();
    buffer.PutHeader();
    buffer.Extend([KIND_REQUEST]);
    buffer.PutBytes(keyPackage);
    buffer.PutBytes(tag(keyPackage));
    return buffer.bytes;
  }

  method PairingWelcome(welcome: seq<Byte>) returns (frame: seq<Byte>)
    ensures frame == WelcomeFrame(welcome)
  {
    var buffer := new Buffer();
    buffer.PutHeader();
    buffer.Extend([KIND_WELCOME]);
    buffer.PutBytes(welcome);
    return buffer.bytes;
  }

  /** The part of accepting a request that comes before the group is touched. */
  method CheckRequest(tag: Tag, request: seq<Byte>) returns (result: Result<seq<Byte>, CryptoError>)
    ensures result == Accepted(tag, request)
  {
    var cursor := new Cursor(request);
    var header := cursor.TakeHeader();
    if header.Err? {
      return Err(header.error);
    }
    if cursor.rest == [] || cursor.rest[0] != KIND_REQUEST {
      return Err(KeyPackage);
    }
    cursor.rest := cursor.rest[1..];
    assert cursor.rest == request[10..];
    var keyPackage := cursor.TakeBytes();
    if keyPackage.Err? {
      return Err(keyPackage.error);
    }
    var presented := cursor.TakeBytes();
    if presented.Err? {
      return Err(presented.error);
    }
    if tag(keyPackage.value) != presented.value {
      return Err(KeyPackage);
    }
    return Ok(keyPackage.value);
  }

  method ReadPairingWelcome(frame: seq<Byte>) returns (result: Result<seq<Byte>, CryptoError>)
    ensures result == WelcomeOf(frame)
  {
    var cursor := new Cursor(frame);
    var header := cursor.TakeHeader();
    if header.Err? {
      return Err(header.error);
    }
    if cursor.rest == [] || cursor.rest[0] != KIND_WELCOME {
      return Err(UnexpectedMessage);
    }
    cursor.rest := cursor.rest[1..];
    assert cursor.rest == frame[10..];
    result := cursor.TakeBytes();
  }
}
