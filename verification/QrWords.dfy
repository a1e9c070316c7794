/** The words that name version and mask of a symbol: what they are and how many wrong modules
  they survive (sections 7.9 and 7.10 of ISO/IEC 18004:2015).
 */
module QrWords {
  import opened Bytes
  import opened Gf256
  import opened Bch

  const VERSION_GENERATOR: nat := 0x1f25

  const FORMAT_GENERATOR: nat := 0x537

  const FORMAT_MASK: nat := 0x5412

  function VersionWord(version: nat): nat {
    Word(version, VERSION_GENERATOR)
  }

  /** Level M, whose code is zero, and the mask number, error corrected and masked. */
  function FormatWord(mask: nat): nat {
    Xor(Word(mask, FORMAT_GENERATOR), FORMAT_MASK)
  }

  /** The degrees 12 and 10 are variables throughout, so that the verifier does not unroll the loops. */
  lemma VersionCode(n: nat)
    requires n == 12
    ensures Pow2(n) == 4096 && IsDegree(n, VERSION_GENERATOR) && Degree(VERSION_GENERATOR) == n
  {
    assert Pow2(12) == 4096;
    DegreeIs(n, VERSION_GENERATOR);
  }

  lemma FormatCode(n: nat)
    requires n == 10
    ensures Pow2(n) == 1024 && IsDegree(n, FORMAT_GENERATOR) && Degree(FORMAT_GENERATOR) == n
  {
    assert Pow2(10) == 1024;
    DegreeIs(n, FORMAT_GENERATOR);
  }

  lemma {:induction false} ShiftedIs(data: nat, n: nat, factor: nat)
    requires factor == Pow2(n)
    ensures Shifted(data, n) == data * factor
  {
    if n > 0 { ShiftedIs(data, n - 1, factor / 2); }
  }

  lemma ShiftedBy12(data: nat, n: nat)
    requires n == 12
    ensures Shifted(data, n) == 4096 * data
  {
    VersionCode(n);
    ShiftedIs(data, n, 4096);
  }

  lemma ShiftedBy10(data: nat, n: nat)
    requires n == 10
    ensures Shifted(data, n) == 1024 * data
  {
    FormatCode(n);
    ShiftedIs(data, n, 1024);
  }

  /** The version word is the multiple of its generator with the version in its high bits. */
  lemma VersionWordIs(version: nat, bits: nat, n: nat)
    requires version < 4096 && n == 12
    ensures bits == VersionWord(version) <==> bits / 4096 == version && IsMultiple(bits, VERSION_GENERATOR)
  {
    VersionCode(n);
    ShiftedBy12(version, n);
    DivideBound(version, VERSION_GENERATOR, n, n);
    RemainderIs(version, bits % 4096, VERSION_GENERATOR, n);
    RemainderIs(version, VersionWord(version) % 4096, VERSION_GENERATOR, n);
  }

  /** Before masking, the format word is the multiple of its generator with the mask in its high bits. */
  lemma FormatWordIs(mask: nat, bits: nat, n: nat)
    requires mask < 1024 && n == 10
    ensures bits == Word(mask, FORMAT_GENERATOR) <==> bits / 1024 == mask && IsMultiple(bits, FORMAT_GENERATOR)
  {
    FormatCode(n);
    ShiftedBy10(mask, n);
    DivideBound(mask, FORMAT_GENERATOR, n, n);
    RemainderIs(mask, bits % 1024, FORMAT_GENERATOR, n);
    RemainderIs(mask, Word(mask, FORMAT_GENERATOR) % 1024, FORMAT_GENERATOR, n);
  }

  // ----- the loops

  /** One round of the loop, which tests the bit above the register. */
  lemma VersionRound(rest: nat, n: nat)
    requires rest < 4096 && n == 12
    ensures Round(rest, VERSION_GENERATOR, n) < 4096
    ensures Round(rest, VERSION_GENERATOR, n)
         == if 2 * rest / 4096 % 2 == 1 then Xor(2 * rest, VERSION_GENERATOR) else 2 * rest
  {
    hide Xor;
    VersionCode(n);
    RoundBound(rest, VERSION_GENERATOR, n);
  }

  lemma FormatRound(rest: nat, n: nat)
    requires rest < 1024 && n == 10
    ensures Round(rest, FORMAT_GENERATOR, n) < 1024
    ensures Round(rest, FORMAT_GENERATOR, n)
         == if 2 * rest / 1024 % 2 == 1 then Xor(2 * rest, FORMAT_GENERATOR) else 2 * rest
  {
    hide Xor;
    FormatCode(n);
    RoundBound(rest, FORMAT_GENERATOR, n);
  }

  lemma VersionWordEnds(version: nat, rest: nat, n: nat)
    requires version < 4096 && n == 12 && rest == Divide(version, VERSION_GENERATOR, n, n) && rest < 4096
    ensures version * 4096 + rest == VersionWord(version)
  {
    VersionCode(n);
    ShiftedBy12(version, n);
  }

  lemma FormatWordEnds(mask: nat, rest: nat, n: nat)
    requires mask < 1024 && n == 10 && rest == Divide(mask, FORMAT_GENERATOR, n, n) && rest < 1024
    ensures mask * 1024 + rest == Word(mask, FORMAT_GENERATOR)
  {
    FormatCode(n);
    ShiftedBy10(mask, n);
  }

  // ----- multiples digit by digit

  datatype Nibble = Nibble(b3: bool, b2: bool, b1: bool, b0: bool)

  /** A number of sixteen binary digits: the form in which multiples are evaluated. */
  datatype Digits = Digits(n3: Nibble, n2: Nibble, n1: Nibble, n0: Nibble)

  datatype Multiples = Multiples(g8: Digits, g4: Digits, g2: Digits, g1: Digits)

  function Bit(one: bool): nat {
    if one then 1 else 0
  }

  function Append(high: nat, one: bool): nat {
    2 * high + Bit(one)
  }

  function Two(high: nat, x: bool, y: bool): nat {
    Append(Append(high, x), y)
  }

  function Followed(high: nat, n: Nibble): nat {
    Two(Two(high, n.b3, n.b2), n.b1, n.b0)
  }

  function Value(d: Digits): nat {
    Followed(Followed(Followed(Followed(0, d.n3), d.n2), d.n1), d.n0)
  }

  function OnesOf(n: Nibble): nat {
    Bit(n.b3) + Bit(n.b2) + Bit(n.b1) + Bit(n.b0)
  }

  function Ones(d: Digits): nat {
    OnesOf(d.n3) + OnesOf(d.n2) + OnesOf(d.n1) + OnesOf(d.n0)
  }

  function SumOf(m: Nibble, n: Nibble): Nibble {
    Nibble(m.b3 != n.b3, m.b2 != n.b2, m.b1 != n.b1, m.b0 != n.b0)
  }

  function Sum(d: Digits, e: Digits): Digits {
    Digits(SumOf(d.n3, e.n3), SumOf(d.n2, e.n2), SumOf(d.n1, e.n1), SumOf(d.n0, e.n0))
  }

  const ZERO: Nibble := Nibble(false, false, false, false)

  function Masked(d: Digits, one: bool): Digits {
    if one then d else Digits(ZERO, ZERO, ZERO, ZERO)
  }

  /** The sum of the multiples 8 g, 4 g, 2 g and g that the digits of q choose. */
  function Multiple(q: Nibble, g: Multiples): Digits {
    Sum(Sum(Masked(g.g8, q.b3), Masked(g.g4, q.b2)), Sum(Masked(g.g2, q.b1), Masked(g.g1, q.b0)))
  }

  lemma XorDigit(a: nat, b: nat, c: nat, x: bool, y: bool)
    requires Xor(a, b) == c
    ensures Xor(Append(a, x), Append(b, y)) == Append(c, x != y)
  {
    XorStep(Append(a, x), Append(b, y));
    Halves(Xor(Append(a, x), Append(b, y)), Append(c, x != y));
  }

  lemma XorTwo(a: nat, b: nat, c: nat, x: bool, y: bool, u: bool, v: bool)
    requires Xor(a, b) == c
    ensures Xor(Two(a, x, u), Two(b, y, v)) == Two(c, x != y, u != v)
  {
    XorDigit(a, b, c, x, y);
    XorDigit(Append(a, x), Append(b, y), Append(c, x != y), u, v);
  }

  lemma XorNibble(a: nat, m: Nibble, b: nat, n: Nibble)
    ensures Xor(Followed(a, m), Followed(b, n)) == Followed(Xor(a, b), SumOf(m, n))
  {
    XorTwo(a, b, Xor(a, b), m.b3, n.b3, m.b2, n.b2);
    XorTwo(Two(a, m.b3, m.b2), Two(b, n.b3, n.b2), Two(Xor(a, b), m.b3 != n.b3, m.b2 != n.b2), m.b1, n.b1, m.b0, n.b0);
  }

  lemma SumIsXor(d: Digits, e: Digits)
    ensures Value(Sum(d, e)) == Xor(Value(d), Value(e))
  {
    var a, b := Followed(0, d.n3), Followed(0, e.n3);
    XorNibble(0, d.n3, 0, e.n3);
    XorNibble(a, d.n2, b, e.n2);
    XorNibble(Followed(a, d.n2), d.n1, Followed(b, e.n2), e.n1);
    XorNibble(Followed(Followed(a, d.n2), d.n1), d.n0, Followed(Followed(b, e.n2), e.n1), e.n0);
  }

  lemma ProductDigit(p: nat, one: bool, g: nat, w: nat, u: nat)
    requires w == Product(p, g) && u == (if one then g else 0)
    ensures Product(Append(p, one), g) == Xor(2 * w, u)
  {
    var q := Append(p, one);
    assert q / 2 == p && (q % 2 == 1 <==> one);
    ProductStep(q, g);
  }

  lemma DoubleSum(w: nat, u: nat, v: nat)
    ensures Xor(2 * Xor(2 * w, u), v) == Xor(4 * w, Xor(2 * u, v))
  {
    XorDouble(2 * w, u);
    XorAssociates(4 * w, 2 * u, v);
  }

  lemma ProductTwo(p: nat, x: bool, y: bool, g: nat, w: nat, u: nat, v: nat)
    requires w == Product(p, g) && u == (if x then g else 0) && v == (if y then g else 0)
    ensures Product(Two(p, x, y), g) == Xor(4 * w, Xor(2 * u, v))
  {
    ProductDigit(p, x, g, w, u);
    ProductDigit(Append(p, x), y, g, Xor(2 * w, u), v);
    DoubleSum(w, u, v);
  }

  lemma QuadrupleSum(u: nat, v: nat)
    ensures 4 * Xor(u, v) == Xor(4 * u, 4 * v)
  {
    XorDouble(u, v);
    XorDouble(2 * u, 2 * v);
  }

  lemma ProductFour(q: Nibble, g: nat, a: nat, b: nat, c: nat, d: nat)
    requires a == (if q.b3 then 8 * g else 0) && b == (if q.b2 then 4 * g else 0)
    requires c == (if q.b1 then 2 * g else 0) && d == (if q.b0 then g else 0)
    ensures Product(Followed(0, q), g) == Xor(Xor(a, b), Xor(c, d))
  {
    var u, v := if q.b3 then g else 0, if q.b2 then g else 0;
    var w, high := Xor(2 * u, v), Two(0, q.b3, q.b2);
    ProductTwo(0, q.b3, q.b2, g, 0, u, v);
    ProductTwo(high, q.b1, q.b0, g, w, if q.b1 then g else 0, d);
    QuadrupleSum(2 * u, v);
  }

  lemma MultipleIsProduct(q: Nibble, g: Multiples, value: nat)
    requires Value(g.g1) == value && Value(g.g2) == 2 * value && Value(g.g4) == 4 * value && Value(g.g8) == 8 * value
    ensures Value(Multiple(q, g)) == Product(Followed(0, q), value)
  {
    var a, b, c, d := Masked(g.g8, q.b3), Masked(g.g4, q.b2), Masked(g.g2, q.b1), Masked(g.g1, q.b0);
    SumIsXor(a, b);
    SumIsXor(c, d);
    SumIsXor(Sum(a, b), Sum(c, d));
    ProductFour(q, value, Value(a), Value(b), Value(c), Value(d));
  }

  lemma WeightDigit(high: nat, one: bool)
    ensures Weight(Append(high, one)) == Weight(high) + Bit(one)
  {
    WeightStep(Append(high, one));
  }

  lemma WeightTwo(high: nat, x: bool, y: bool)
    ensures Weight(Two(high, x, y)) == Weight(high) + Bit(x) + Bit(y)
  {
    WeightDigit(high, x);
    WeightDigit(Append(high, x), y);
  }

  lemma WeightNibble(high: nat, n: Nibble)
    ensures Weight(Followed(high, n)) == Weight(high) + OnesOf(n)
  {
    WeightTwo(high, n.b3, n.b2);
    WeightTwo(Two(high, n.b3, n.b2), n.b1, n.b0);
  }

  lemma OnesWeigh(d: Digits)
    ensures Weight(Value(d)) == Ones(d)
  {
    var a := Followed(0, d.n3);
    WeightNibble(0, d.n3);
    WeightNibble(a, d.n2);
    WeightNibble(Followed(a, d.n2), d.n1);
    WeightNibble(Followed(Followed(a, d.n2), d.n1), d.n0);
  }

  function VersionMultiples(): Multiples {
    Multiples(
      Digits(Nibble(true, true, true, true), Nibble(true, false, false, true), Nibble(false, false, true, false),
             Nibble(true, false, false, false)),
      Digits(Nibble(false, true, true, true), Nibble(true, true, false, false), Nibble(true, false, false, true),
             Nibble(false, true, false, false)),
      Digits(Nibble(false, false, true, true), Nibble(true, true, true, false), Nibble(false, true, false, false),
             Nibble(true, false, true, false)),
      Digits(Nibble(false, false, false, true), Nibble(true, true, true, true), Nibble(false, false, true, false),
             Nibble(false, true, false, true)))
  }

  function FormatMultiples(): Multiples {
    Multiples(
      Digits(Nibble(false, false, true, false), Nibble(true, false, false, true), Nibble(true, false, true, true),
             Nibble(true, false, false, false)),
      Digits(Nibble(false, false, false, true), Nibble(false, true, false, false), Nibble(true, true, false, true),
             Nibble(true, true, false, false)),
      Digits(ZERO, Nibble(true, false, true, false), Nibble(false, true, true, false), Nibble(true, true, true, false)),
      Digits(ZERO, Nibble(false, true, false, true), Nibble(false, false, true, true), Nibble(false, true, true, true)))
  }

  lemma VersionValues()
    ensures Value(VersionMultiples().g8) == 8 * VERSION_GENERATOR
    ensures Value(VersionMultiples().g4) == 4 * VERSION_GENERATOR
    ensures Value(VersionMultiples().g2) == 2 * VERSION_GENERATOR && Value(VersionMultiples().g1) == VERSION_GENERATOR
  {
  }

  lemma FormatValues()
    ensures Value(FormatMultiples().g8) == 8 * FORMAT_GENERATOR && Value(FormatMultiples().g4) == 4 * FORMAT_GENERATOR
    ensures Value(FormatMultiples().g2) == 2 * FORMAT_GENERATOR && Value(FormatMultiples().g1) == FORMAT_GENERATOR
  {
  }

  lemma VersionOnes(q: Nibble)
    requires q != ZERO
    ensures Ones(Multiple(q, VersionMultiples())) >= 8
  {
  }

  lemma FormatOnes(q: Nibble)
    requires q != ZERO && !q.b3
    ensures Ones(Multiple(q, FormatMultiples())) >= 7
  {
  }

  // ----- minimum distances

  function NibbleOf(data: nat): (n: Nibble)
    requires data < 16
    ensures Followed(0, n) == data
  {
    Nibble(data / 8 % 2 == 1, data / 4 % 2 == 1, data / 2 % 2 == 1, data % 2 == 1)
  }

  lemma HighNibble(d: Digits)
    ensures Value(d) / 4096 == Followed(0, d.n3)
  {
    LastNibble(Followed(Followed(Followed(0, d.n3), d.n2), d.n1), d.n0);
    LastNibble(Followed(Followed(0, d.n3), d.n2), d.n1);
    LastNibble(Followed(0, d.n3), d.n2);
  }

  lemma LastNibble(high: nat, n: Nibble)
    ensures Followed(high, n) / 16 == high
  {
  }

  lemma LastTwo(high: nat, n: Nibble)
    ensures Followed(high, n) / 4 == Two(high, n.b3, n.b2)
  {
  }

  lemma HighSix(d: Digits)
    ensures Value(d) / 1024 == Two(Followed(0, d.n3), d.n2.b3, d.n2.b2)
  {
    LastNibble(Followed(Followed(Followed(0, d.n3), d.n2), d.n1), d.n0);
    LastNibble(Followed(Followed(0, d.n3), d.n2), d.n1);
    LastTwo(Followed(0, d.n3), d.n2);
  }

  lemma VersionMultiple(data: nat, q: Nibble, d: Digits, n: nat)
    requires data < 16 && d == Multiple(q, VersionMultiples()) && d.n3 == NibbleOf(data) && n == 12
    ensures Weight(VersionWord(data)) == Ones(d)
  {
    hide Word, Followed, Two, Sum;
    VersionValues();
    MultipleIsProduct(q, VersionMultiples(), VERSION_GENERATOR);
    HighNibble(d);
    VersionWordIs(data, Value(d), n);
    OnesWeigh(d);
  }

  lemma FormatMultiple(data: nat, q: Nibble, d: Digits, n: nat)
    requires data < 8 && d == Multiple(q, FormatMultiples()) && n == 10
    requires Two(Followed(0, d.n3), d.n2.b3, d.n2.b2) == data
    ensures Weight(Word(data, FORMAT_GENERATOR)) == Ones(d)
  {
    hide Word, Followed, Two, Sum;
    FormatValues();
    MultipleIsProduct(q, FormatMultiples(), FORMAT_GENERATOR);
    HighSix(d);
    FormatWordIs(data, Value(d), n);
    OnesWeigh(d);
  }

  /** The word of a number other than zero has at least eight ones. */
  lemma VersionWeight(data: nat, n: nat)
    requires 0 < data < 16 && n == 12
    ensures Weight(VersionWord(data)) >= 8
  {
    var m := NibbleOf(data);
    var q := Nibble(m.b3, m.b2 != m.b3, m.b1 != m.b2, m.b0 != m.b1);
    VersionMultiple(data, q, Multiple(q, VersionMultiples()), n);
    VersionOnes(q);
  }

  lemma FormatWeight(data: nat, n: nat)
    requires 0 < data < 8 && n == 10
    ensures Weight(Word(data, FORMAT_GENERATOR)) >= 7
  {
    var m := NibbleOf(data);
    var q := Nibble(false, m.b2, m.b1, m.b0 != m.b2);
    FormatMultiple(data, q, Multiple(q, FormatMultiples()), n);
    FormatOnes(q);
  }

  /** Format words of different masks differ in at least seven places. */
  lemma FormatDistance(a: nat, b: nat, n: nat)
    requires a < 8 && b < 8 && a != b && n == 10
    ensures Differences(FormatWord(a), FormatWord(b)) >= 7
  {
    var u, v := Word(a, FORMAT_GENERATOR), Word(b, FORMAT_GENERATOR);
    FormatCode(n);
    WordAdd(a, b, FORMAT_GENERATOR, n);
    XorMiddle(u, FORMAT_MASK, v, FORMAT_MASK);
    XorSelf(FORMAT_MASK);
    XorZero(Xor(u, v));
    assert Pow2(3) == 8;
    XorBelow(a, b, 3);
    if Xor(a, b) == 0 { XorIsZero(a, b); }
    FormatWeight(Xor(a, b), n);
  }

  /** Version words below sixteen differ in at least eight places. */
  lemma VersionDistance(a: nat, b: nat, n: nat)
    requires a < 16 && b < 16 && a != b && n == 12
    ensures Differences(VersionWord(a), VersionWord(b)) >= 8
  {
    VersionCode(n);
    WordAdd(a, b, VERSION_GENERATOR, n);
    assert Pow2(4) == 16;
    XorBelow(a, b, 4);
    if Xor(a, b) == 0 { XorIsZero(a, b); }
    VersionWeight(Xor(a, b), n);
  }

  /** Up to three wrong modules leave the mask readable: only one format word is that near. */
  lemma FormatCorrectsThree(word: nat, a: nat, b: nat)
    requires a < 8 && b < 8
    requires Differences(word, FormatWord(a)) <= 3 && Differences(word, FormatWord(b)) <= 3
    ensures a == b
  {
    if a != b {
      FormatDistance(a, b, 10);
      DifferencesAdd(FormatWord(a), word, FormatWord(b));
    }
  }

  /** Up to three wrong modules leave the version readable. */
  lemma VersionCorrectsThree(word: nat, a: nat, b: nat)
    requires 7 <= a <= 10 && 7 <= b <= 10
    requires Differences(word, VersionWord(a)) <= 3 && Differences(word, VersionWord(b)) <= 3
    ensures a == b
  {
    if a != b {
      VersionDistance(a, b, 12);
      DifferencesAdd(VersionWord(a), word, VersionWord(b));
    }
  }
}
