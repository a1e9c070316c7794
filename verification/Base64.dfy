/** Base64 of binary bodies (section 4 of RFC 4648), from crates/leave-protocol/src/tunnel.rs. */
module Base64 {
  import opened Arithmetic
  import opened Bytes
  import opened BitStrings
  import opened Outcomes

  datatype Base64Error = InvalidBase64

  const U32: nat := 0x1_0000_0000
  const PAD: char := '='

  /** The entries of the alphabet in order. */
  function Letter(position: nat): char
    requires position < 64
  {
    if position < 26 then 'A' + position as char
    else if position < 52 then 'a' + (position - 26) as char
    else if position < 62 then '0' + (position - 52) as char
    else if position == 62 then '+'
    else '/'
  }

  predicate InAlphabet(c: char) {
    'A' <= c <= 'Z' || 'a' <= c <= 'z' || '0' <= c <= '9' || c == '+' || c == '/'
  }

  /** Where a character stands in the alphabet. */
  function PositionOf(c: char): (position: nat)
    requires InAlphabet(c)
    ensures position < 64 && Letter(position) == c
  {
    if 'A' <= c <= 'Z' then (c - 'A') as nat
    else if 'a' <= c <= 'z' then (c - 'a') as nat + 26
    else if '0' <= c <= '9' then (c - '0') as nat + 52
    else if c == '+' then 62
    else 63
  }

  const UPPER: string := "ABCDEFGHIJKLMNOPQRSTUVWXYZ"
  const LOWER: string := "abcdefghijklmnopqrstuvwxyz"
  const ALPHABET: string := UPPER + LOWER + "0123456789" + "+/"

  /** The letters are the entries of the table in their order, and there are no others. */
  lemma LettersAreListed(position: nat)
    requires position < 64
    ensures |ALPHABET| == 64 && Letter(position) == ALPHABET[position]
    ensures InAlphabet(Letter(position)) && PositionOf(Letter(position)) == position
  {
    if position < 26 {
      assert ALPHABET[position] == UPPER[position];
    } else if position < 52 {
      assert ALPHABET[position] == LOWER[position - 26];
    } else if position < 62 {
      assert ALPHABET[position] == "0123456789"[position - 52];
    } else {
      assert ALPHABET[position] == "+/"[position - 62];
    }
  }

  // ----- what a text means

  ghost predicate AllLetters(text: string) {
    forall i :: 0 <= i < |text| ==> InAlphabet(text[i])
  }

  /** Six bits for every letter. */
  function Sextets(text: string): (bits: seq<bool>)
    requires AllLetters(text)
    ensures |bits| == 6 * |text|
  {
    if text == [] then [] else Sextets(text[..|text| - 1]) + Bits(PositionOf(text[|text| - 1]), 6)
  }

  /** The bits that make up whole bytes. */
  function WholeBytes(n: nat): (m: nat)
    ensures m <= n < m + 8 && m % 8 == 0 && m / 8 == n / 8
  {
    n / 8 * 8
  }

  /** The bytes that the letters of a text hold in full. */
  function BytesOf(text: string): (bytes: seq<Byte>)
    requires AllLetters(text)
    ensures |bytes| == 6 * |text| / 8
  {
    BitsToBytes(Sextets(text)[..WholeBytes(6 * |text|)])
  }

  /** The part before the first padding character. */
  function BeforePad(text: string): (k: nat)
    ensures k <= |text| && (forall i :: 0 <= i < k ==> text[i] != PAD) && (k < |text| ==> text[k] == PAD)
  {
    if text == [] || text[0] == PAD then 0 else 1 + BeforePad(text[1..])
  }

  /** What the decoder has to answer: an error exactly when a character before the first padding
    is not a letter. */
  ghost predicate Decodes(text: string, result: Result<seq<Byte>, Base64Error>) {
    var letters := text[..BeforePad(text)];
    result == if AllLetters(letters) then Ok(BytesOf(letters)) else Err(InvalidBase64)
  }

  /** The bits, and zero bits up to a multiple of six. */
  ghost predicate Spells(bits: seq<bool>, letters: string) {
    && AllLetters(letters) && bits <= Sextets(letters)
    && forall i :: |bits| <= i < 6 * |letters| ==> !Sextets(letters)[i]
  }

  /** How many letters it takes to spell `n` bytes. */
  function LetterCount(n: nat): nat {
    (8 * n + 5) / 6
  }

  /** Letters that spell the bytes, then padding to a multiple of four characters. */
  ghost predicate Encodes(bytes: seq<Byte>, text: string) {
    && LetterCount(|bytes|) <= |text| == (|bytes| + 2) / 3 * 4
    && Spells(BytesToBits(bytes), text[..LetterCount(|bytes|)])
    && (forall i :: LetterCount(|bytes|) <= i < |text| ==> text[i] == PAD)
  }

  /** Decoding undoes encoding. */
  lemma RoundTrip(bytes: seq<Byte>, text: string, result: Result<seq<Byte>, Base64Error>)
    requires Encodes(bytes, text) && Decodes(text, result)
    ensures result == Ok(bytes)
  {
    var k := LetterCount(|bytes|);
    var letters := text[..k];
    assert BeforePad(text) == k by {
      forall i | 0 <= i < k ensures text[i] != PAD {
        assert text[i] == letters[i];
      }
    }
    SpelledBytes(bytes, letters);
  }

  lemma LettersHold(n: nat)
    ensures 6 * LetterCount(n) / 8 == n && 8 * n <= 6 * LetterCount(n)
  {
  }

  lemma PrefixBytes(bytes: seq<Byte>, sextets: seq<bool>, n: nat)
    requires n == 8 * |bytes| && BytesToBits(bytes) <= sextets
    ensures BitsToBytes(sextets[..n]) == bytes
  {
    BytesRoundTrip(bytes);
    assert sextets[..n] == BytesToBits(bytes);
  }

  lemma SpelledBytes(bytes: seq<Byte>, letters: string)
    requires |letters| == LetterCount(|bytes|) && Spells(BytesToBits(bytes), letters)
    ensures BytesOf(letters) == bytes
  {
    var n := WholeBytes(6 * |letters|);
    LettersHold(|bytes|);
    assert n == 8 * |bytes|;
    PrefixBytes(bytes, Sextets(letters), n);
  }

  lemma {:induction false} SextetsDetermine(a: string, b: string)
    requires AllLetters(a) && AllLetters(b) && Sextets(a) == Sextets(b)
    ensures a == b
  {
    hide Letter, ShiftRight, PositionOf;
    assert 6 * |a| == 6 * |b|;
    if a != [] {
      var n := |a| - 1;
      var p, q := PositionOf(a[n]), PositionOf(b[n]);
      assert Sextets(a)[..6 * n] == Sextets(a[..n]) && Sextets(b)[..6 * n] == Sextets(b[..n]);
      assert Sextets(a)[6 * n..] == Bits(p, 6) && Sextets(b)[6 * n..] == Bits(q, 6);
      assert Pow2(6) == 64;
      NumberOfBits(p, 6);
      NumberOfBits(q, 6);
      SextetsDetermine(a[..n], b[..n]);
    }
  }

  lemma SpellingIsUnique(bits: seq<bool>, a: string, b: string)
    requires Spells(bits, a) && Spells(bits, b) && |a| == |b|
    ensures a == b
  {
    var x, y := Sextets(a), Sextets(b);
    forall i | 0 <= i < 6 * |a| ensures x[i] == y[i] {
      if i < |bits| {
        assert x[i] == bits[i] && y[i] == bits[i];
      }
    }
    SextetsDetermine(a, b);
  }

  /** No byte string has two encodings. */
  lemma EncodingIsUnique(bytes: seq<Byte>, a: string, b: string)
    requires Encodes(bytes, a) && Encodes(bytes, b)
    ensures a == b
  {
    var k := LetterCount(|bytes|);
    SpellingIsUnique(BytesToBits(bytes), a[..k], b[..k]);
    forall i | 0 <= i < |a| ensures a[i] == b[i] {
      if i < k {
        assert a[i] == a[..k][i] && b[i] == b[..k][i];
      }
    }
  }

  lemma LetterPosition(position: nat)
    requires position < 64
    ensures InAlphabet(Letter(position)) && PositionOf(Letter(position)) == position
  {
  }

  // ----- decoding

  /** The accumulator keeps the bits not yet output, whatever the shifts dropped at the top. */
  ghost predicate Pending(accumulator: nat, bits: nat, seen: seq<bool>) {
    bits == |seen| % 8 && Bits(accumulator, bits) == seen[|seen| - bits..]
  }

  lemma SmallPowers()
    ensures Pow2(6) == 64 && Pow2(8) == 256
  {
  }

  lemma SixBits(position: nat, n: nat)
    requires position < 64 && n == 6
    ensures Number(Bits(position, n)) == position
  {
    SmallPowers();
    NumberOfBits(position, n);
  }

  /** Shifting `low` in keeps the bits of `high`. */
  lemma {:induction false} JoinBits(high: nat, low: nat, n: nat, k: nat)
    requires low < Pow2(k)
    ensures Bits(high * Pow2(k) + low, n + k) == Bits(high, n) + Bits(low, k)
    decreases k
  {
    var value := high * Pow2(k) + low;
    if k > 0 {
      var half := high * Pow2(k - 1);
      DoubleProduct(high, Pow2(k - 1));
      assert value == 2 * half + low;
      BitsStep(value, n + k);
      BitsStep(low, k);
      JoinBits(high, low / 2, n, k - 1);
    } else {
      assert value == high;
    }
  }

  lemma HalfOf(x: nat, q: nat, r: nat, p: nat, d: nat)
    requires d == 2 * p && x == q * d + r
    ensures x / 2 == q * p + r / 2 && x % 2 == r % 2
  {
    DoubleProduct(q, p);
  }

  /** Dropping a multiple of 2^k keeps the last bits. */
  lemma {:induction false} LowBitsStay(x: nat, q: nat, r: nat, n: nat, k: nat)
    requires n <= k && x == q * Pow2(k) + r && r < Pow2(k)
    ensures Bits(r, n) == Bits(x, n)
    decreases k
  {
    if n > 0 {
      HalfOf(x, q, r, Pow2(k - 1), Pow2(k));
      BitsStep(x, n);
      BitsStep(r, n);
      LowBitsStay(x / 2, q, r / 2, n - 1, k - 1);
    }
  }

  lemma {:induction false} PowerOfSum(a: nat, b: nat)
    ensures Pow2(a + b) == Pow2(a) * Pow2(b)
  {
    if b > 0 {
      PowerOfSum(a, b - 1);
      DoubleProduct(Pow2(a), Pow2(b - 1));
    }
  }

  lemma Square(n: nat, p: nat, q: nat)
    requires Pow2(n) == p && q == p * p
    ensures Pow2(n + n) == q
  {
    PowerOfSum(n, n);
  }

  lemma WordSize(n: nat)
    requires n == 8
    ensures Pow2((n + n) + (n + n)) == U32
  {
    SmallPowers();
    Square(n, 256, 65536);
    Square(n + n, 65536, U32);
  }

  lemma WrappedBits(x: nat, n: nat, eight: nat)
    requires n <= 32 && eight == 8
    ensures Bits(x % U32, n) == Bits(x, n)
  {
    WordSize(eight);
    LowBitsStay(x, x / U32, x % U32, n, (eight + eight) + (eight + eight));
  }

  lemma LastByteBits(x: nat, n: nat)
    requires n == 8
    ensures Bits(x % 256, n) == Bits(x, n)
  {
    SmallPowers();
    LowBitsStay(x, x / 256, x % 256, n, n);
  }

  /** Shifting a letter into the 32-bit accumulator is exact on what is pending. */
  lemma ShiftIn(accumulator: nat, bits: nat, position: nat, n: nat)
    requires bits < 8 && position < 64 && n == 6
    ensures Bits((accumulator * 64 + position) % U32, bits + n) == Bits(accumulator, bits) + Bits(position, n)
  {
    SmallPowers();
    JoinBits(accumulator, position, bits, n);
    WrappedBits(accumulator * 64 + position, bits + n, 8);
  }

  lemma {:induction false} ShiftsAdd(value: nat, k: nat, i: nat)
    ensures ShiftRight(ShiftRight(value, k), i) == ShiftRight(value, k + i)
    decreases k
  {
    if k > 0 {
      ShiftsAdd(value / 2, k - 1, i);
    }
  }

  /** The last byte after a right shift is made of the bits above those shifted out. */
  lemma ShiftedByte(value: nat, k: nat, n: nat)
    requires n == 8
    ensures ShiftRight(value, k) % 256 == Number(Bits(value, n + k)[..n])
  {
    var top := Bits(value, n + k)[..n];
    forall i | 0 <= i < n ensures Bits(ShiftRight(value, k), n)[i] == top[i] {
      ShiftsAdd(value, k, n - 1 - i);
      assert top[i] == BitSet(value, k + (n - 1 - i));
    }
    assert Bits(ShiftRight(value, k), n) == top;
    SmallPowers();
    LastByteBits(ShiftRight(value, k), n);
    NumberOfBits(ShiftRight(value, k) % 256, n);
  }

  lemma LastBits(value: nat, n: nat, k: nat)
    requires k <= n
    ensures Bits(value, n)[n - k..] == Bits(value, k)
  {
  }

  lemma SextetsStep(text: string, i: nat)
    requires i < |text| && AllLetters(text[..i]) && InAlphabet(text[i])
    ensures AllLetters(text[..i + 1])
    ensures Sextets(text[..i + 1]) == Sextets(text[..i]) + Bits(PositionOf(text[i]), 6)
  {
    assert text[..i + 1][..i] == text[..i];
  }

  lemma ExtraByte(seen: seq<bool>, six: seq<bool>, m: nat)
    requires m % 8 == 0 && m <= |seen| && |six| == 6 && m + 8 <= |seen| + 6
    ensures BitsToBytes((seen + six)[..m + 8]) == BitsToBytes(seen[..m]) + [ByteOf((seen + six)[m..m + 8])]
  {
    var all := seen + six;
    assert all[..m + 8][..m] == seen[..m];
    forall i | 0 <= i < m / 8 ensures BitsToBytes(all[..m + 8])[i] == BitsToBytes(seen[..m])[i] {
      assert all[..m + 8][8 * i..8 * i + 8] == seen[..m][8 * i..8 * i + 8];
    }
    assert all[..m + 8][m..m + 8] == all[m..m + 8];
  }

  /** What is output and what is pending, after the bits `seen`. */
  ghost predicate Decoding(accumulator: nat, bits: nat, decoded: seq<Byte>, seen: seq<bool>) {
    Pending(accumulator, bits, seen) && decoded == BitsToBytes(seen[..|seen| - bits])
  }

  /** Fewer than eight bits are pending: keep them all. */
  lemma KeepAll(accumulator: nat, bits: nat, decoded: seq<Byte>, seen: seq<bool>, six: seq<bool>, next: nat)
    requires Decoding(accumulator, bits, decoded, seen) && |six| == 6 && bits + 6 < 8
    requires Bits(next, bits + 6) == Bits(accumulator, bits) + six
    ensures Decoding(next, bits + 6, decoded, seen + six)
  {
    var m, all := |seen| - bits, seen + six;
    StillWithinByte(|seen|, bits);
    assert all[..m] == seen[..m] && all[m..] == seen[m..] + six;
    assert |all| - (bits + 6) == m;
  }

  lemma StillWithinByte(n: nat, bits: nat)
    requires bits == n % 8 && bits + 6 < 8
    ensures (n + 6) % 8 == bits + 6
  {
  }

  /** The eight oldest pending bits make the next byte. */
  lemma OutputByte(accumulator: nat, bits: nat, decoded: seq<Byte>, seen: seq<bool>, six: seq<bool>, next: nat)
    requires Decoding(accumulator, bits, decoded, seen) && |six| == 6 && bits + 6 >= 8
    requires Bits(next, bits + 6) == Bits(accumulator, bits) + six
    ensures Decoding(next, bits - 2, decoded + [ShiftRight(next, bits - 2) % 256], seen + six)
  {
    var m, all, pending := |seen| - bits, seen + six, Bits(next, bits + 6);
    assert all[m..] == pending;
    assert all[m..m + 8] == pending[..8] && all[m + 8..] == pending[8..];
    LastBits(next, bits + 6, bits - 2);
    ShiftedByte(next, bits - 2, 8);
    ExtraByte(seen, six, m);
  }

  lemma DecodingStep(accumulator: nat, bits: nat, decoded: seq<Byte>, seen: seq<bool>, position: nat, six: seq<bool>,
                     next: nat)
    requires Decoding(accumulator, bits, decoded, seen) && position < 64 && six == Bits(position, 6)
    requires next == (accumulator * 64 + position) % U32
    ensures bits + 6 < 8 ==> Decoding(next, bits + 6, decoded, seen + six)
    ensures bits + 6 >= 8 ==> Decoding(next, bits - 2, decoded + [ShiftRight(next, bits - 2) % 256], seen + six)
  {
    ShiftIn(accumulator, bits, position, 6);
    if bits + 6 < 8 {
      KeepAll(accumulator, bits, decoded, seen, six, next);
    } else {
      OutputByte(accumulator, bits, decoded, seen, six, next);
    }
  }

  lemma DecodingStarts()
    ensures Decoding(0, 0, [], Sextets([]))
  {
  }

  lemma DecodingEnds(accumulator: nat, bits: nat, decoded: seq<Byte>, letters: string)
    requires AllLetters(letters) && Decoding(accumulator, bits, decoded, Sextets(letters))
    ensures decoded == BytesOf(letters)
  {
    hide Bits, BitsToBytes, Sextets;
    assert WholeBytes(6 * |letters|) == |Sextets(letters)| - bits;
  }

  method Decode(text: string) returns (result: Result<seq<Byte>, Base64Error>)
    ensures Decodes(text, result)
  {
    hide Decoding, Sextets, Bits, PositionOf, ShiftRight, BytesOf;
    DecodingStarts();
    var decoded: seq<Byte> := [];
    var accumulator: nat, bits: nat := 0, 0;
    ghost var k := BeforePad(text);
    for i := 0 to |text|
      invariant i <= k && AllLetters(text[..i])
      invariant Decoding(accumulator, bits, decoded, Sextets(text[..i]))
    {
      if text[i] == PAD {
        break;
      }
      if !InAlphabet(text[i]) {
        assert text[..k][i] == text[i];
        return Err(InvalidBase64);
      }
      var position := PositionOf(text[i]);
      SextetsStep(text, i);
      ghost var was := accumulator;
      accumulator := (accumulator * 64 + position) % U32;
      DecodingStep(was, bits, decoded, Sextets(text[..i]), position, Bits(position, 6), accumulator);
      bits := bits + 6;
      if bits >= 8 {
        bits := bits - 8;
        decoded := decoded + [ShiftRight(accumulator, bits) % 256];
      }
    }
    DecodingEnds(accumulator, bits, decoded, text[..k]);
    return Ok(decoded);
  }

  // ----- encoding

  /** Six-bit digit `index` of a 24-bit value, the highest first. */
  function Digit(value: nat, index: nat): (position: nat)
    requires index < 4
    ensures position < 64
  {
    (if index == 0 then value / 262144
     else if index == 1 then value / 4096
     else if index == 2 then value / 64
     else value) % 64
  }

  /** The four characters for a chunk whose bytes make up `value`. */
  ghost predicate IsGroup(value: nat, length: nat, text: string) {
    |text| == 4 && forall i :: 0 <= i < 4 ==> text[i] == if i <= length then Letter(Digit(value, i)) else PAD
  }

  function Padded(chunk: seq<Byte>): (buffer: seq<Byte>)
    requires |chunk| <= 3
    ensures |buffer| == 3 && chunk <= buffer
  {
    chunk + seq(3 - |chunk|, _ => 0)
  }

  function ValueOf(buffer: seq<Byte>): nat
    requires |buffer| == 3
  {
    var a: nat, b: nat, c: nat := buffer[0], buffer[1], buffer[2];
    a * 65536 + b * 256 + c
  }

  lemma ByteNumber(byte: Byte, n: nat)
    requires n == 8
    ensures Number(Bits(byte, n)) == byte
  {
    SmallPowers();
    NumberOfBits(byte, n);
  }

  lemma BytesStep(bytes: seq<Byte>, byte: Byte)
    ensures Number(BytesToBits(bytes + [byte])) == Number(BytesToBits(bytes)) * 256 + byte
  {
    assert (bytes + [byte])[..|bytes|] == bytes;
    SmallPowers();
    ByteNumber(byte, 8);
    NumberOfConcat(BytesToBits(bytes), Bits(byte, 8));
  }

  lemma BufferNumber(buffer: seq<Byte>)
    requires |buffer| == 3
    ensures Number(BytesToBits(buffer)) == ValueOf(buffer) < 0x100_0000
  {
    BytesStep([], buffer[0]);
    BytesStep([buffer[0]], buffer[1]);
    BytesStep([buffer[0], buffer[1]], buffer[2]);
    assert [] + [buffer[0]] == [buffer[0]];
    assert [buffer[0]] + [buffer[1]] == [buffer[0], buffer[1]];
    assert [buffer[0], buffer[1]] + [buffer[2]] == buffer;
  }

  lemma LetterStep(text: string, position: nat)
    requires AllLetters(text) && position < 64
    ensures AllLetters(text + [Letter(position)])
    ensures Number(Sextets(text + [Letter(position)])) == Number(Sextets(text)) * 64 + position
  {
    LetterPosition(position);
    assert (text + [Letter(position)])[..|text|] == text;
    SmallPowers();
    SixBits(position, 6);
    NumberOfConcat(Sextets(text), Bits(position, 6));
  }

  function FourLetters(value: nat): (text: string)
    ensures |text| == 4
  {
    [Letter(Digit(value, 0)), Letter(Digit(value, 1)), Letter(Digit(value, 2)), Letter(Digit(value, 3))]
  }

  lemma DigitsOf(value: nat)
    requires value < 0x100_0000
    ensures ((Digit(value, 0) * 64 + Digit(value, 1)) * 64 + Digit(value, 2)) * 64 + Digit(value, 3) == value
  {
    var b, c := value / 64, value / 64 / 64;
    assert value / 4096 == c && value / 262144 == c / 64;
  }

  lemma NumberOfFour(p: nat, q: nat, r: nat, t: nat)
    requires p < 64 && q < 64 && r < 64 && t < 64
    ensures AllLetters([Letter(p), Letter(q), Letter(r), Letter(t)])
    ensures Number(Sextets([Letter(p), Letter(q), Letter(r), Letter(t)])) == ((p * 64 + q) * 64 + r) * 64 + t
  {
    var one, two, three := [Letter(p)], [Letter(p), Letter(q)], [Letter(p), Letter(q), Letter(r)];
    LetterStep([], p);
    assert [] + [Letter(p)] == one;
    LetterStep(one, q);
    assert one + [Letter(q)] == two;
    LetterStep(two, r);
    assert two + [Letter(r)] == three;
    LetterStep(three, t);
    assert three + [Letter(t)] == [Letter(p), Letter(q), Letter(r), Letter(t)];
  }

  lemma LettersNumber(value: nat)
    requires value < 0x100_0000
    ensures AllLetters(FourLetters(value)) && Number(Sextets(FourLetters(value))) == value
  {
    NumberOfFour(Digit(value, 0), Digit(value, 1), Digit(value, 2), Digit(value, 3));
    DigitsOf(value);
  }

  lemma {:induction false} SextetsPrefix(text: string, k: nat)
    requires AllLetters(text) && k <= |text|
    ensures AllLetters(text[..k]) && Sextets(text[..k]) == Sextets(text)[..6 * k]
    decreases |text|
  {
    var n := |text| - 1;
    if k <= n {
      SextetsPrefix(text[..n], k);
      assert text[..n][..k] == text[..k];
    } else {
      assert text[..k] == text;
    }
  }

  lemma {:induction false} ZeroShift(index: nat)
    ensures ShiftRight(0, index) == 0
  {
    if index > 0 { ZeroShift(index - 1); }
  }

  ghost predicate Pads(chunk: seq<Byte>, buffer: seq<Byte>) {
    |chunk| <= |buffer| && chunk <= buffer && forall q :: |chunk| <= q < |buffer| ==> buffer[q] == 0
  }

  lemma PaddedBit(chunk: seq<Byte>, buffer: seq<Byte>, q: nat, r: nat)
    requires Pads(chunk, buffer) && q < |buffer| && r < 8
    ensures q < |chunk| ==> BytesToBits(buffer)[8 * q + r] == BytesToBits(chunk)[8 * q + r]
    ensures q >= |chunk| ==> !BytesToBits(buffer)[8 * q + r]
  {
    hide Bits;
    ByteBitAt(buffer, q, r);
    if q < |chunk| {
      ByteBitAt(chunk, q, r);
      assert buffer[q] == chunk[q];
    } else {
      ZeroShift(7 - r);
    }
  }

  lemma PaddedBits(chunk: seq<Byte>, buffer: seq<Byte>, i: nat)
    requires Pads(chunk, buffer) && i < 8 * |buffer|
    ensures BytesToBits(buffer)[i] == (i < 8 * |chunk| && BytesToBits(chunk)[i])
  {
    PaddedBit(chunk, buffer, i / 8, i % 8);
  }

  lemma GroupSpells(value: nat, buffer: seq<Byte>)
    requires |buffer| == 3 && value == ValueOf(buffer)
    ensures AllLetters(FourLetters(value)) && Sextets(FourLetters(value)) == BytesToBits(buffer)
  {
    BufferNumber(buffer);
    LettersNumber(value);
    NumberDetermines(Sextets(FourLetters(value)), BytesToBits(buffer));
  }

  lemma GroupPrefix(value: nat, length: nat, text: string)
    requires 1 <= length <= 3 && IsGroup(value, length, text)
    ensures text[..length + 1] == FourLetters(value)[..length + 1]
  {
  }

  /** The four characters encode the chunk. */
  lemma GroupEncodes(chunk: seq<Byte>, text: string)
    requires 1 <= |chunk| <= 3 && IsGroup(ValueOf(Padded(chunk)), |chunk|, text)
    ensures Encodes(chunk, text)
  {
    hide Sextets;
    var buffer, k := Padded(chunk), |chunk| + 1;
    var four := FourLetters(ValueOf(buffer));
    assert k == LetterCount(|chunk|);
    GroupSpells(ValueOf(buffer), buffer);
    GroupPrefix(ValueOf(buffer), |chunk|, text);
    SextetsPrefix(four, k);
    forall i | 0 <= i < 24 ensures BytesToBits(buffer)[i] == (i < 8 * |chunk| && BytesToBits(chunk)[i]) {
      PaddedBits(chunk, buffer, i);
    }
    ChunkSpelled(BytesToBits(chunk), text[..k], BytesToBits(buffer));
  }

  /** The first letters spell the chunk when zero bits follow it. */
  lemma ChunkSpelled(chunk: seq<bool>, letters: string, bits: seq<bool>)
    requires AllLetters(letters) && |chunk| <= 6 * |letters| <= |bits| && Sextets(letters) == bits[..6 * |letters|]
    requires forall i :: 0 <= i < |bits| ==> bits[i] == (i < |chunk| && chunk[i])
    ensures Spells(chunk, letters)
  {
  }

  lemma SextetsPush(text: string, c: char)
    requires AllLetters(text) && InAlphabet(c)
    ensures AllLetters(text + [c]) && Sextets(text + [c]) == Sextets(text) + Bits(PositionOf(c), 6)
  {
    assert (text + [c])[..|text|] == text;
  }

  lemma Regroup<T>(a: seq<T>, b: seq<T>, c: seq<T>)
    ensures (a + b) + c == a + (b + c)
  {
  }

  lemma {:induction false} SextetsAppend(a: string, b: string)
    requires AllLetters(a) && AllLetters(b)
    ensures AllLetters(a + b) && Sextets(a + b) == Sextets(a) + Sextets(b)
    decreases |b|, 1
  {
    if b == [] {
      assert a + b == a;
    } else {
      var front, c := b[..|b| - 1], b[|b| - 1];
      assert InAlphabet(c) && AllLetters(front);
      assert b == front + [c];
      SextetsSplit(a, front, c);
    }
  }

  lemma SextetsSplit(a: string, front: string, c: char)
    requires AllLetters(a) && AllLetters(front) && InAlphabet(c)
    ensures AllLetters(front + [c]) && AllLetters(a + (front + [c]))
    ensures Sextets(a + (front + [c])) == Sextets(a) + Sextets(front + [c])
    decreases |front + [c]|, 0
  {
    hide Sextets, AllLetters, PositionOf, InAlphabet, Bits;
    SextetsAppend(a, front);
    SextetsPush(front, c);
    SextetsPush(a + front, c);
    Regroup(a, front, [c]);
    Regroup(Sextets(a), Sextets(front), Bits(PositionOf(c), 6));
  }

  lemma WholeGroups(m: nat, n: nat)
    ensures LetterCount(3 * m) == 4 * m == (3 * m + 2) / 3 * 4
    ensures LetterCount(3 * m + n) == 4 * m + LetterCount(n)
    ensures (3 * m + n + 2) / 3 * 4 == 4 * m + (n + 2) / 3 * 4
  {
  }

  lemma SpellsAppend(a: seq<bool>, s: string, b: seq<bool>, t: string)
    requires AllLetters(s) && Sextets(s) == a && Spells(b, t)
    ensures Spells(a + b, s + t)
  {
    SextetsAppend(s, t);
    assert Sextets(t)[..|b|] == b;
    assert Sextets(s + t)[..|a + b|] == a + b;
  }

  /** After whole groups of three bytes, encodings append. */
  lemma EncodesAppend(a: seq<Byte>, s: string, b: seq<Byte>, t: string)
    requires |a| % 3 == 0 && Encodes(a, s) && Encodes(b, t)
    ensures Encodes(a + b, s + t)
  {
    hide Sextets, BytesToBits, LetterCount;
    var m, j := |a| / 3, LetterCount(|b|);
    WholeGroups(m, |b|);
    assert s[..4 * m] == s && (s + t)[..4 * m + j] == s + t[..j];
    BytesToBitsAppend(a, b);
    SpellsAppend(BytesToBits(a), s, BytesToBits(b), t[..j]);
  }

  method EncodeChunk(chunk: seq<Byte>) returns (text: string)
    requires 1 <= |chunk| <= 3
    ensures Encodes(chunk, text)
  {
    var value := ValueOf(Padded(chunk));
    text := [];
    for index := 0 to 4
      invariant |text| == index
      invariant forall i :: 0 <= i < index ==> text[i] == if i <= |chunk| then Letter(Digit(value, i)) else PAD
    {
      if index <= |chunk| {
        text := text + [Letter(Digit(value, index))];
      } else {
        text := text + [PAD];
      }
    }
    GroupEncodes(chunk, text);
  }

  lemma EncodesMore(bytes: seq<Byte>, i: nat, end: nat, text: string, group: string)
    requires i <= end <= |bytes| && i % 3 == 0 && Encodes(bytes[..i], text) && Encodes(bytes[i..end], group)
    ensures Encodes(bytes[..end], text + group)
  {
    EncodesAppend(bytes[..i], text, bytes[i..end], group);
    assert bytes[..i] + bytes[i..end] == bytes[..end];
  }

  lemma EncodesNothing(bytes: seq<Byte>)
    requires bytes == []
    ensures Encodes(bytes, "")
  {
  }

  method Encode(bytes: seq<Byte>) returns (text: string)
    ensures Encodes(bytes, text)
  {
    hide BytesToBits, LetterCount, Spells, Sextets;
    text := "";
    var i := 0;
    EncodesNothing(bytes[..i]);
    while i < |bytes|
      invariant i <= |bytes| && (i == |bytes| || i % 3 == 0)
      invariant Encodes(bytes[..i], text)
    {
      var end := if i + 3 <= |bytes| then i + 3 else |bytes|;
      var group := EncodeChunk(bytes[i..end]);
      EncodesMore(bytes, i, end, text, group);
      text := text + group;
      i := end;
    }
    assert bytes[..i] == bytes;
  }

  /** What one side writes the other side reads. */
  method RoundTripRuns(bytes: seq<Byte>) returns (result: Result<seq<Byte>, Base64Error>)
    ensures result == Ok(bytes)
  {
    var text := Encode(bytes);
    result := Decode(text);
    RoundTrip(bytes, text, result);
  }
}
