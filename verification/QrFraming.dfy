/** From bytes to data codewords and blocks (sections 7.4 and 7.5.1 of ISO/IEC 18004:2015),
  from apps/web/src/lib/qr.ts, with the reader that undoes it.
 */
module QrFraming {
  import opened Bytes
  import opened BitStrings
  import opened Outcomes
  import opened QrVersions

  /** Mode, character count and data of a byte-mode segment. */
  function Segment(version: nat, data: seq<Byte>): (b: seq<bool>)
    ensures |b| == 4 + CountBits(version) + 8 * |data|
  {
    Bits(MODE_BYTE, 4) + Bits(|data|, CountBits(version)) + BytesToBits(data)
  }

  /** Where the terminator and the zero bits that complete its byte end. */
  function PaddedLength(used: nat, capacity: nat): nat {
    var end := if used + 4 <= capacity then used + 4 else capacity;
    (end + 7) / 8 * 8
  }

  /** `words` hold the segment, a terminator of at most four zero bits, zero bits up to a byte
    boundary, and alternating pad bytes that fill the capacity exactly. */
  ghost predicate Frames(segment: seq<bool>, capacity: nat, words: seq<Byte>) {
    && |words| == capacity
    && var full := PaddedLength(|segment|, 8 * capacity);
    && |segment| <= full <= 8 * capacity
    && segment <= BytesToBits(words)
    && (forall k :: |segment| <= k < full ==> !BytesToBits(words)[k])
    && (forall i :: full / 8 <= i < capacity ==> words[i] == PAD_BYTES[(i - full / 8) % 2])
  }

  ghost predicate IsFramed(version: nat, data: seq<Byte>, words: seq<Byte>)
    requires IsVersion(version)
  {
    Frames(Segment(version, data), DataCodewords(version), words)
  }

  /** Read a byte-mode segment back. */
  function Parse(version: nat, bits: seq<bool>): Option<seq<Byte>> {
    var start := 4 + CountBits(version);
    if |bits| < start || Number(bits[..4]) != MODE_BYTE then None
    else
      var end := start + 8 * Number(bits[4..start]);
      if |bits| < end then None else Some(BitsToBytes(bits[start..end]))
  }

  lemma CountFits(version: nat, length: nat)
    requires IsVersion(version) && Fits(version, length)
    ensures length <= 213 && length < Pow2(CountBits(version))
  {
    DataCapacities(version);
    assert Pow2(8) == 256;
    assert Pow2(16) == 256 * Pow2(8);
  }

  lemma SegmentParts(version: nat, data: seq<Byte>, start: nat)
    requires start == 4 + CountBits(version)
    ensures Segment(version, data)[..4] == Bits(MODE_BYTE, 4)
    ensures Segment(version, data)[4..start] == Bits(|data|, CountBits(version))
    ensures Segment(version, data)[start..] == BytesToBits(data)
  {
  }

  lemma ParseSegment(version: nat, data: seq<Byte>, bits: seq<bool>)
    requires |data| < Pow2(CountBits(version)) && Segment(version, data) <= bits
    ensures Parse(version, bits) == Some(data)
  {
    var segment, start := Segment(version, data), 4 + CountBits(version);
    SegmentParts(version, data, start);
    var end := |segment|;
    assert bits[..end] == segment;
    assert bits[..4] == segment[..4];
    assert bits[4..start] == segment[4..start];
    assert bits[start..end] == segment[start..];
    assert Pow2(4) == 16;
    NumberOfBits(MODE_BYTE, 4);
    NumberOfBits(|data|, CountBits(version));
    BytesRoundTrip(data);
  }

  /** Reading the codewords of any data that fits gives the data back. */
  lemma ParseUndoesFraming(version: nat, data: seq<Byte>, words: seq<Byte>)
    requires IsVersion(version) && Fits(version, |data|) && IsFramed(version, data, words)
    ensures Parse(version, BytesToBits(words)) == Some(data)
  {
    CountFits(version, |data|);
    ParseSegment(version, data, BytesToBits(words));
  }

  // ----- the codewords, four bits on

  /** The character count in one byte or two, and the data. */
  function Payload(version: nat, data: seq<Byte>): (payload: seq<Byte>)
    requires |data| < 256
    ensures |payload| == (if version < 10 then 1 else 2) + |data|
  {
    (if version < 10 then [|data|] else [0, |data|]) + data
  }

  lemma Nibbles(words: seq<Byte>, i: nat)
    requires i < |words|
    ensures Number(BytesToBits(words)[8 * i..8 * i + 4]) == words[i] / 16
    ensures Number(BytesToBits(words)[8 * i + 4..8 * i + 8]) == words[i] % 16
  {
    hide BytesToBits, Bits, Number;
    var byte := BytesToBits(words)[8 * i..8 * i + 8];
    ByteBits(words, i);
    assert Pow2(8) == 256 && Pow2(4) == 16;
    NumberOfBits(words[i], 8);
    NumberOfConcat(byte[..4], byte[4..]);
    assert byte == byte[..4] + byte[4..];
    BitsOfNumber(byte[4..]);
    assert byte[..4] == BytesToBits(words)[8 * i..8 * i + 4];
    assert byte[4..] == BytesToBits(words)[8 * i + 4..8 * i + 8];
  }

  /** Eight bits that start in the middle of a byte. */
  lemma Straddles(words: seq<Byte>, i: nat)
    requires i + 1 < |words|
    ensures Number(BytesToBits(words)[8 * i + 4..8 * i + 12]) == words[i] % 16 * 16 + words[i + 1] / 16
  {
    hide BytesToBits, Number;
    var bits, k := BytesToBits(words), 8 * (i + 1);
    Nibbles(words, i);
    Nibbles(words, i + 1);
    assert bits[8 * i + 4..8 * i + 12] == bits[8 * i + 4..8 * i + 8] + bits[k..k + 4];
    NumberOfConcat(bits[8 * i + 4..8 * i + 8], bits[k..k + 4]);
    assert Pow2(4) == 16;
  }

  lemma SixteenBits(value: nat)
    requires value < 256
    ensures Bits(value, 16) == Bits(0, 8) + Bits(value, 8)
  {
    hide Bits, Number;
    assert Pow2(8) == 256;
    assert Pow2(16) == 256 * Pow2(8);
    NumberOfBits(value, 16);
    NumberOfBits(value, 8);
    NumberOfBits(0, 8);
    NumberOfConcat(Bits(0, 8), Bits(value, 8));
    NumberDetermines(Bits(value, 16), Bits(0, 8) + Bits(value, 8));
  }

  lemma OneByte(value: Byte)
    ensures BytesToBits([value]) == Bits(value, 8)
  {
    assert [value][..0] == [];
  }

  lemma SegmentIsPayload(version: nat, data: seq<Byte>)
    requires |data| < 256
    ensures Segment(version, data) == Bits(4, 4) + BytesToBits(Payload(version, data))
  {
    hide Bits, BytesToBits;
    OneByte(|data|);
    if version < 10 {
      BytesToBitsAppend([|data|], data);
    } else {
      SixteenBits(|data|);
      OneByte(0);
      BytesToBitsAppend([0], [|data|]);
      assert [0] + [|data|] == [0, |data|];
      BytesToBitsAppend([0, |data|], data);
    }
  }

  /** Where `payload` follows four bits, its bytes straddle the codewords. */
  lemma PayloadStraddles(words: seq<Byte>, payload: seq<Byte>, i: nat)
    requires i < |payload| < |words| && Bits(4, 4) + BytesToBits(payload) <= BytesToBits(words)
    ensures words[i] % 16 * 16 + words[i + 1] / 16 == payload[i]
  {
    hide Bits, BytesToBits, Number;
    var bits, part := BytesToBits(words), BytesToBits(payload);
    Straddles(words, i);
    ByteBits(payload, i);
    assert Pow2(8) == 256;
    NumberOfBits(payload[i], 8);
    assert bits[..4 + |part|] == Bits(4, 4) + part;
    assert bits[8 * i + 4..8 * i + 12] == part[8 * i..8 * i + 8];
  }

  lemma ClearNibble(bits: seq<bool>)
    requires |bits| == 4 && forall k :: 0 <= k < 4 ==> !bits[k]
    ensures Number(bits) == 0
  {
    assert bits == [false] + [false] + [false] + [false];
    var a, b, c := bits[..3], bits[..3][..2], bits[..3][..2][..1];
    assert c[..0] == [] && Number(c) == 0 && Number(b) == 0 && Number(a) == 0;
  }

  lemma ModeNibble(words: seq<Byte>, payload: seq<Byte>)
    requires words != [] && Bits(4, 4) + BytesToBits(payload) <= BytesToBits(words)
    ensures words[0] / 16 == 4
  {
    hide Bits, BytesToBits, Number;
    Nibbles(words, 0);
    assert Pow2(4) == 16;
    NumberOfBits(4, 4);
    assert BytesToBits(words)[0..4] == Bits(4, 4);
  }

  /** What follows the payload: a clear half, and 0xec and 0x11 in turn. */
  lemma AfterPayload(segment: seq<bool>, capacity: nat, words: seq<Byte>, n: nat)
    requires Frames(segment, capacity, words) && |segment| == 4 + 8 * n <= 8 * capacity
    ensures n < |words| == capacity && segment <= BytesToBits(words) && words[n] % 16 == 0
    ensures forall i :: n < i < |words| ==> words[i] == if (i - n) % 2 == 1 then 0xec else 0x11
  {
    hide BytesToBits, Number;
    assert n < capacity && PaddedLength(4 + 8 * n, 8 * capacity) == 8 * n + 8;
    Nibbles(words, n);
    var low := BytesToBits(words)[8 * n + 4..8 * n + 8];
    forall k | 0 <= k < 4 ensures !low[k] {
      assert low[k] == BytesToBits(words)[8 * n + 4 + k];
    }
    ClearNibble(low);
    forall i | n < i < |words| ensures words[i] == if (i - n) % 2 == 1 then 0xec else 0x11 {
      assert words[i] == PAD_BYTES[(i - n - 1) % 2];
    }
  }

  /** All codewords of the data: 4 in the upper half of the first, then count and data half a codeword on,
    a clear half, and 0xec and 0x11 in turn. */
  lemma CodewordsAre(version: nat, data: seq<Byte>, words: seq<Byte>)
    requires IsVersion(version) && Fits(version, |data|) && IsFramed(version, data, words)
    ensures |data| < 256 && |Payload(version, data)| < |words|
    ensures words[0] / 16 == 4 && words[|Payload(version, data)|] % 16 == 0
    ensures forall i :: 0 <= i < |Payload(version, data)| ==>
      words[i] % 16 * 16 + words[i + 1] / 16 == Payload(version, data)[i]
    ensures forall i :: |Payload(version, data)| < i < |words| ==>
      words[i] == if (i - |Payload(version, data)|) % 2 == 1 then 0xec else 0x11
  {
    hide Bits, BytesToBits, Number, DataCodewords, Frames, Segment, PaddedLength;
    CountFits(version, |data|);
    SegmentIsPayload(version, data);
    var payload := Payload(version, data);
    AfterPayload(Segment(version, data), DataCodewords(version), words, |payload|);
    ModeNibble(words, payload);
    forall i | 0 <= i < |payload| ensures words[i] % 16 * 16 + words[i + 1] / 16 == payload[i] {
      PayloadStraddles(words, payload, i);
    }
  }

  // ----- building the codewords

  method PushBits(bits: seq<bool>, value: nat, length: nat) returns (pushed: seq<bool>)
    ensures pushed == bits + Bits(value, length)
  {
    pushed := bits;
    var index: int := length - 1;
    while index >= 0
      invariant -1 <= index < length
      invariant pushed == bits + Bits(value, length)[..length - 1 - index]
    {
      pushed := pushed + [BitSet(value, index)];
      index := index - 1;
    }
    assert Bits(value, length)[..length] == Bits(value, length);
  }

  method PushData(bits: seq<bool>, data: seq<Byte>) returns (pushed: seq<bool>)
    ensures pushed == bits + BytesToBits(data)
  {
    pushed := bits;
    for index := 0 to |data|
      invariant pushed == bits + BytesToBits(data[..index])
    {
      pushed := PushBits(pushed, data[index], 8);
      assert data[..index + 1][..index] == data[..index];
    }
    assert data[..|data|] == data;
  }

  /** At most four terminator bits, then zero bits to the byte boundary. */
  method Terminate(bits: seq<bool>, capacity: nat) returns (padded: seq<bool>)
    requires |bits| <= capacity && capacity % 8 == 0
    ensures |padded| == PaddedLength(|bits|, capacity) <= capacity
    ensures bits <= padded && forall k :: |bits| <= k < |padded| ==> !padded[k]
  {
    padded := bits;
    var index := 0;
    while index < 4 && |padded| < capacity
      invariant index <= 4 && |padded| == |bits| + index <= capacity
      invariant bits <= padded && forall k :: |bits| <= k < |padded| ==> !padded[k]
    {
      padded := padded + [false];
      index := index + 1;
    }
    ghost var end := |padded|;
    while |padded| % 8 != 0
      invariant end <= |padded| <= (end + 7) / 8 * 8
      invariant bits <= padded && forall k :: |bits| <= k < |padded| ==> !padded[k]
      decreases (end + 7) / 8 * 8 - |padded|
    {
      padded := padded + [false];
    }
  }

  /** Read the bits off eight at a time. */
  method PackBits(bits: seq<bool>) returns (words: seq<Byte>)
    requires |bits| % 8 == 0
    ensures words == BitsToBytes(bits)
  {
    words := [];
    var index := 0;
    while index < |bits|
      invariant index <= |bits| && index % 8 == 0 && |words| == index / 8
      invariant forall i :: 0 <= i < |words| ==> words[i] == BitsToBytes(bits)[i]
    {
      var word := PackByte(bits[index..index + 8]);
      words := words + [word];
      index := index + 8;
    }
  }

  method PackByte(bits: seq<bool>) returns (word: Byte)
    requires |bits| == 8
    ensures word == ByteOf(bits)
  {
    var value: nat := 0;
    for index := 0 to 8
      invariant value == Number(bits[..index])
    {
      value := 2 * value + if bits[index] then 1 else 0;
      assert bits[..index + 1][..index] == bits[..index];
    }
    assert bits[..8] == bits;
    BitsOfNumber(bits);
    assert Pow2(8) == 256;
    word := value;
  }

  /** Fill the capacity with alternating pad bytes. */
  method PadWords(packed: seq<Byte>, capacity: nat) returns (words: seq<Byte>)
    requires |packed| <= capacity
    ensures |words| == capacity && packed <= words
    ensures forall i :: |packed| <= i < |words| ==> words[i] == PAD_BYTES[(i - |packed|) % 2]
  {
    words := packed;
    var index := 0;
    while |words| < capacity
      invariant |words| == |packed| + index <= capacity
      invariant packed <= words
      invariant forall i :: |packed| <= i < |words| ==> words[i] == PAD_BYTES[(i - |packed|) % 2]
    {
      words := words + [PAD_BYTES[index % |PAD_BYTES|]];
      index := index + 1;
    }
  }

  lemma PackedPrefix(bits: seq<bool>, words: seq<Byte>)
    requires |bits| % 8 == 0 && BitsToBytes(bits) <= words
    ensures bits <= BytesToBits(words)
  {
    var packed := BitsToBytes(bits);
    BitsRoundTrip(bits);
    assert words == packed + words[|packed|..];
    BytesToBitsAppend(packed, words[|packed|..]);
  }

  method PushSegment(version: nat, data: seq<Byte>) returns (bits: seq<bool>)
    ensures bits == Segment(version, data)
  {
    bits := PushBits([], MODE_BYTE, 4);
    bits := PushBits(bits, |data|, CountBits(version));
    bits := PushData(bits, data);
  }

  /** Terminate, pack and pad a segment. */
  method FrameSegment(segment: seq<bool>, capacity: nat) returns (words: seq<Byte>)
    requires |segment| <= 8 * capacity
    ensures Frames(segment, capacity, words)
  {
    var bits := Terminate(segment, 8 * capacity);
    var packed := PackBits(bits);
    words := PadWords(packed, capacity);
    FramesWhen(segment, capacity, bits, words, |packed|);
  }

  lemma FramesWhen(segment: seq<bool>, capacity: nat, bits: seq<bool>, words: seq<Byte>, n: nat)
    requires |bits| == 8 * n == PaddedLength(|segment|, 8 * capacity) && n <= capacity == |words|
    requires segment <= bits && forall k :: |segment| <= k < |bits| ==> !bits[k]
    requires BitsToBytes(bits) <= words
    requires forall i :: n <= i < |words| ==> words[i] == PAD_BYTES[(i - n) % 2]
    ensures Frames(segment, capacity, words)
  {
    PackedPrefix(bits, words);
    var all, full := BytesToBits(words), |bits|;
    assert full / 8 == n;
    assert segment <= all;
    forall k | |segment| <= k < full ensures !all[k] {
      assert all[k] == bits[k];
    }
  }

  /** The data codewords of a symbol. */
  method BuildWords(version: nat, data: seq<Byte>) returns (words: seq<Byte>)
    requires IsVersion(version) && Fits(version, |data|)
    ensures IsFramed(version, data, words)
  {
    var segment := PushSegment(version, data);
    words := FrameSegment(segment, DataCodewords(version));
  }
}
