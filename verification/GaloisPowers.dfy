/** The powers of the generator alpha of GF(2^8): alpha has order 255, so every non-zero
  byte is alpha^k for exactly one k < 255. This is what makes log and antilog tables work.
 */
module GaloisPowers {
  import opened Bytes
  import opened Gf256

  /** The last binary digit of an exclusive or. */
  lemma XorDigit(u: nat, v: nat, a: nat, b: nat, x: nat, y: nat, z: nat, w: nat)
    requires a <= 1 && b <= 1 && u == a + 2 * x && v == b + 2 * y
    requires Xor(x, y) == z && w == (if a == b then 0 else 1) + 2 * z
    ensures Xor(u, v) == w
  {
    XorStep(u, v);
    assert u / 2 == x && v / 2 == y;
    assert w / 2 == z;
    Halves(Xor(u, v), w);
  }

  lemma XorLow(u: nat, z: nat, b3: nat, b2: nat, y2: nat, y3: nat)
    requires b3 <= 1 && b2 <= 1
    requires y3 == b3 + 2 * z && y2 == b2 + 2 * y3
    ensures Xor(y2, 3) == 1 - b2 + 2 * (1 - b3 + 2 * z)
  {
    XorDigit(y3, 1, b3, 1, z, 0, z, 1 - b3 + 2 * z);
    XorDigit(y2, 3, b2, 1, y3, 1, 1 - b3 + 2 * z, 1 - b2 + 2 * (1 - b3 + 2 * z));
  }

  lemma XorHigh(y: nat, x: nat, b1: nat, b0: nat, y2: nat, x2: nat)
    requires b1 <= 1 && b0 <= 1
    requires y == 2 * (b0 + 2 * (b1 + 2 * y2)) && Xor(y2, 3) == x2
    requires x == 1 + 2 * (b0 + 2 * (1 - b1 + 2 * x2))
    ensures Xor(y, 0x1d) == x
  {
    XorDigit(b1 + 2 * y2, 7, b1, 1, y2, 3, x2, 1 - b1 + 2 * x2);
    XorDigit(b0 + 2 * (b1 + 2 * y2), 14, b0, 0, b1 + 2 * y2, 7, 1 - b1 + 2 * x2, b0 + 2 * (1 - b1 + 2 * x2));
    XorDigit(y, 0x1d, 0, 1, b0 + 2 * (b1 + 2 * y2), 14, b0 + 2 * (1 - b1 + 2 * x2), x);
  }

  /** The reduction of a byte whose high bit is set, digit by digit: 0x1d is 0b11101. */
  lemma Times2High(p: Byte, z: nat, b3: nat, b2: nat, b1: nat, b0: nat, q: nat)
    requires b3 <= 1 && b2 <= 1 && b1 <= 1 && b0 <= 1
    requires p == 128 + 16 * z + 8 * b3 + 4 * b2 + 2 * b1 + b0
    requires q == 29 + 2 * b0 - 4 * b1 - 8 * b2 - 16 * b3 + 32 * z
    ensures Times2(p) == q
  {
    XorHighBit(p);
    XorLow(0, z, b3, b2, b2 + 2 * (b3 + 2 * z), b3 + 2 * z);
    XorHigh(2 * p - 256, q, b1, b0, b2 + 2 * (b3 + 2 * z), 1 - b2 + 2 * (1 - b3 + 2 * z));
  }

  /** A byte as eight binary digits, the highest first: the form in which powers are evaluated. */
  datatype Octet = Octet(b7: bool, b6: bool, b5: bool, b4: bool, b3: bool, b2: bool, b1: bool, b0: bool) {
    function Value(): Byte {
      128 * N(b7) + 16 * (4 * N(b6) + 2 * N(b5) + N(b4)) + 8 * N(b3) + 4 * N(b2) + 2 * N(b1) + N(b0)
    }

    function Times2(): Octet {
      Octet(b6, b5, b4, b3 != b7, b2 != b7, b1 != b7, b0, b7)
    }

    /** Five doublings at once. */
    function Times32(): Octet {
      Octet(((b7 != b6) != b2), (((b7 != b6) != b5) != b1), (((b6 != b5) != b4) != b0), ((b5 != b4) != b3),
            (((b7 != b6) != b4) != b3), ((b7 != b5) != b3), b4, (b7 != b3))
    }

  }

  function N(b: bool): (n: nat)
    ensures n <= 1
  {
    if b then 1 else 0
  }

  lemma BitsTimes2Value(b: Octet, t: Octet, z: nat)
    requires t == b.Times2() && b.b7 && z == 4 * N(b.b6) + 2 * N(b.b5) + N(b.b4)
    ensures t.Value() == 29 + 2 * N(b.b0) - 4 * N(b.b1) - 8 * N(b.b2) - 16 * N(b.b3) + 32 * z
  {
    assert N(t.b4) == 1 - N(b.b3);
    assert N(t.b3) == 1 - N(b.b2);
    assert N(t.b2) == 1 - N(b.b1);
    assert N(t.b0) == 1;
  }

  lemma DigitsDouble(n6: nat, n5: nat, n4: nat, n3: nat, n2: nat, n1: nat, n0: nat)
    requires n6 <= 1 && n5 <= 1 && n4 <= 1 && n3 <= 1 && n2 <= 1 && n1 <= 1 && n0 <= 1
    ensures 16 * (4 * n6 + 2 * n5 + n4) + 8 * n3 + 4 * n2 + 2 * n1 + n0 < 128
    ensures 2 * (16 * (4 * n6 + 2 * n5 + n4) + 8 * n3 + 4 * n2 + 2 * n1 + n0)
         == 128 * n6 + 16 * (4 * n5 + 2 * n4 + n3) + 8 * n2 + 4 * n1 + 2 * n0
  {
  }

  /** The value of a byte below 128 and of its double. */
  lemma ValueLow(b: Octet, d: Octet, n6: nat, n5: nat, n4: nat, n3: nat, n2: nat, n1: nat, n0: nat)
    requires !b.b7 && d == b.Times2()
    requires n6 == N(b.b6) && n5 == N(b.b5) && n4 == N(b.b4) && n3 == N(b.b3) && n2 == N(b.b2) && n1 == N(b.b1)
    requires n0 == N(b.b0)
    ensures b.Value() == 16 * (4 * n6 + 2 * n5 + n4) + 8 * n3 + 4 * n2 + 2 * n1 + n0
    ensures d.Value() == 128 * n6 + 16 * (4 * n5 + 2 * n4 + n3) + 8 * n2 + 4 * n1 + 2 * n0
  {
    assert N(false) == 0 && d == Octet(b.b6, b.b5, b.b4, b.b3, b.b2, b.b1, b.b0, false);
    hide N;
  }

  lemma ValueDoubles(b: Octet)
    requires !b.b7
    ensures b.Value() < 128 && b.Times2().Value() == 2 * b.Value()
  {
    var n6, n5, n4, n3, n2, n1, n0 := N(b.b6), N(b.b5), N(b.b4), N(b.b3), N(b.b2), N(b.b1), N(b.b0);
    ValueLow(b, b.Times2(), n6, n5, n4, n3, n2, n1, n0);
    DigitsDouble(n6, n5, n4, n3, n2, n1, n0);
    hide N;
  }

  lemma Times2Low(p: Byte)
    requires p < 128
    ensures Times2(p) == 2 * p
  {
  }

  lemma BitsTimes2(b: Octet)
    ensures Times2(b.Value()) == b.Times2().Value()
  {
    hide Times2;
    if b.b7 {
      var z := 4 * N(b.b6) + 2 * N(b.b5) + N(b.b4);
      BitsTimes2Value(b, b.Times2(), z);
      Times2High(b.Value(), z, N(b.b3), N(b.b2), N(b.b1), N(b.b0), b.Times2().Value());
    } else {
      ValueDoubles(b);
      Times2Low(b.Value());
    }
  }

  lemma FiveDoublings(b: Octet)
    ensures b.Times2().Times2().Times2().Times2().Times2() == b.Times32()
  {
  }

  lemma PowerFive(i: nat, b: Octet)
    requires Power(i) == b.Value()
    ensures Power(i + 5) == b.Times32().Value()
  {
    BitsTimes2(b);
    var c := b.Times2();
    BitsTimes2(c);
    var d := c.Times2();
    BitsTimes2(d);
    var e := d.Times2();
    BitsTimes2(e);
    BitsTimes2(e.Times2());
    FiveDoublings(b);
    assert Power(i + 1) == c.Value();
    assert Power(i + 2) == d.Value();
    assert Power(i + 3) == e.Value();
    assert Power(i + 4) == e.Times2().Value();
  }

  /** Five doublings, `rounds` times. */
  function Raised(b: Octet, rounds: nat): Octet
    decreases rounds
  {
    if rounds == 0 then b else Raised(b.Times32(), rounds - 1)
  }

  lemma {:induction false} PowerOf(i: nat, b: Octet, rounds: nat)
    requires Power(i) == b.Value()
    ensures Power(i + 5 * rounds) == Raised(b, rounds).Value()
    decreases rounds
  {
    if rounds > 0 {
      PowerFive(i, b);
      PowerOf(i + 5, b.Times32(), rounds - 1);
    }
  }

  lemma RaisedValues()
    ensures Raised(Octet(false, false, false, false, false, false, false, true), 3)
      == Octet(false, false, true, false, false, true, true, false)
    ensures Raised(Octet(false, false, true, false, false, true, true, false), 7)
      == Octet(false, false, false, false, false, true, false, true)
    ensures Raised(Octet(false, false, false, false, false, true, false, true), 7)
      == Octet(true, true, false, true, false, true, true, false)
    ensures Raised(Octet(true, true, false, true, false, true, true, false), 7)
      == Octet(false, false, true, true, true, false, true, true)
    ensures Raised(Octet(false, false, true, true, true, false, true, true), 7)
      == Octet(false, true, true, true, false, false, true, false)
    ensures Raised(Octet(false, true, true, true, false, false, true, false), 7)
      == Octet(true, false, true, false, true, true, true, false)
    ensures Raised(Octet(true, false, true, false, true, true, true, false), 7)
      == Octet(false, false, true, false, false, true, false, false)
    ensures Raised(Octet(false, false, true, false, false, true, false, false), 6)
      == Octet(false, false, false, false, false, false, false, true)
  {
  }

  lemma EarlyPowers(i: nat)
    requires i == 0
    ensures Power(i + 15) == 38 && Power(i + 51) == 10 && Power(i + 85) == 214
    ensures Power(i + 85) == Octet(true, true, false, true, false, true, true, false).Value()
  {
    hide Raised;
    RaisedValues();
    PowerOf(i, Octet(false, false, false, false, false, false, false, true), 3);
    PowerOf(i + 15, Octet(false, false, true, false, false, true, true, false), 7);
    PowerOf(i + 50, Octet(false, false, false, false, false, true, false, true), 7);
    PowerAdd(1, i + 50);
  }

  lemma LatePowers(i: nat)
    requires Power(i + 85) == Octet(true, true, false, true, false, true, true, false).Value()
    ensures Power(i + 255) == 1
  {
    hide Raised, Power;
    RaisedValues();
    PowerOf(i + 85, Octet(true, true, false, true, false, true, true, false), 7);
    PowerOf(i + 120, Octet(false, false, true, true, true, false, true, true), 7);
    PowerOf(i + 155, Octet(false, true, true, true, false, false, true, false), 7);
    PowerOf(i + 190, Octet(true, false, true, false, true, true, true, false), 7);
    PowerOf(i + 225, Octet(false, false, true, false, false, true, false, false), 6);
  }

  /** The powers that fix the order of alpha. The exponents are variables so that
    the verifier does not unroll the definition. */
  lemma SomePowers(n: nat)
    ensures n == 15 ==> Power(n) == 38
    ensures n == 51 ==> Power(n) == 10
    ensures n == 85 ==> Power(n) == 214
    ensures n == 255 ==> Power(n) == 1
  {
    hide Power;
    var i: nat :| i == 0;
    EarlyPowers(i);
    LatePowers(i);
  }

  lemma {:induction false} PowerRepeats(d: nat, k: nat, m: nat)
    requires Power(d) == 1 && m == d * k
    ensures Power(m) == 1
    decreases k
  {
    if k > 0 {
      assert m - d == d * (k - 1);
      PowerRepeats(d, k - 1, m - d);
      PowerAdd(m - d, d);
    }
  }

  /** Exponents can be taken modulo the order 255. */
  lemma Reduces(m: nat, c: nat, t: nat, n: nat)
    requires n == 255 && m == c + n * t
    ensures Power(m) == Power(c)
  {
    SomePowers(n);
    PowerRepeats(n, t, n * t);
    PowerAdd(c, n * t);
    MulOne(Power(c));
  }

  lemma OrderNotPrimeTo3(q: nat, r: nat, n: nat, c: nat)
    requires (r == 1 || r == 2) && n == 255 && c == 85
    ensures Power(3 * q + r) != 1
  {
    var d := 3 * q + r;
    SomePowers(c);
    if Power(d) == 1 {
      PowerRepeats(d, c * r, d * (c * r));
      if r == 1 {
        Reduces(d * (c * r), c, q, n);
      } else {
        Reduces(d * (c * r), c, 2 * q + 1, n);
      }
    }
  }

  /** The multiplicative inverse modulo 17. */
  function Inverse17(r: nat): nat
    requires 0 < r < 17
    ensures r * Inverse17(r) % 17 == 1
  {
    [0, 1, 9, 6, 13, 7, 3, 5, 15, 2, 12, 14, 10, 4, 11, 8, 16][r]
  }

  lemma Arithmetic17(q: nat, r: nat, v: nat, dv: nat, t: nat)
    requires r * v % 17 == 1 && dv == (17 * q + r) * v && t == q * v + r * v / 17
    ensures 15 * dv == 15 + 255 * t
  {
    var w := r * v;
    assert dv == 17 * (q * v) + w;
    assert w == 17 * (w / 17) + 1;
  }

  lemma OrderNotPrimeTo17(q: nat, r: nat, n: nat, c: nat, d: nat)
    requires 0 < r < 17 && n == 255 && c == 15 && d == 17 * q + r
    ensures Power(d) != 1
  {
    hide Power;
    SomePowers(c);
    if Power(d) == 1 {
      var v := Inverse17(r);
      var dv, t := d * v, q * v + r * v / 17;
      Arithmetic17(q, r, v, dv, t);
      PowerRepeats(d, v, dv);
      PowerRepeats(dv, c, 15 * dv);
      Reduces(15 * dv, c, t, n);
    }
  }

  lemma OrderNot51(q: nat, n: nat, c: nat, d: nat)
    requires 0 < q < 5 && n == 255 && c == 51 && d == 51 * q
    ensures Power(d) != 1
  {
    SomePowers(c);
    if Power(d) == 1 && q > 1 {
      var k := if q == 2 then 3 else if q == 3 then 2 else 4;
      var t := if q == 4 then 3 else 1;
      var m := c + n * t;
      PowerRepeats(d, k, m);
      Reduces(m, c, t, n);
    }
  }

  /** No exponent below 255 other than 0 gives 1. */
  lemma OrderIs255(d: nat)
    requires 0 < d < 255
    ensures Power(d) != 1
  {
    if d % 3 != 0 {
      OrderNotPrimeTo3(d / 3, d % 3, 255, 85);
    } else if d % 17 != 0 {
      OrderNotPrimeTo17(d / 17, d % 17, 255, 15, d);
    } else {
      var t, u := d / 3, d / 17;
      assert d == 51 * (6 * u - t);
      OrderNot51(6 * u - t, 255, 51, d);
    }
  }

  // ----- every non-zero byte is a power

  lemma Times2NonZero(a: Byte)
    requires a != 0
    ensures Times2(a) != 0
  {
    XorStep(2 * a, 0x11d);
  }

  lemma {:induction false} PowerNonZero(k: nat)
    ensures Power(k) != 0
  {
    if k > 0 {
      PowerNonZero(k - 1);
      Times2NonZero(Power(k - 1));
    }
  }

  /** Distinct exponents below 255 give distinct bytes. */
  lemma PowerInjective(i: nat, j: nat, n: nat)
    requires i < j < n == 255
    ensures Power(i) != Power(j)
  {
    if Power(i) == Power(j) {
      SomePowers(n);
      PowerAdd(n - i, i);
      PowerAdd(n - i, j);
      Reduces(n - i + j, j - i, 1, n);
      OrderIs255(j - i);
    }
  }

  function PowersBelow(n: nat): set<nat> {
    set k: nat | k < n :: Power(k) as nat
  }

  lemma {:induction false} PowersBelowSize(n: nat)
    requires n <= 255
    ensures |PowersBelow(n)| == n
  {
    if n > 0 {
      PowersBelowSize(n - 1);
      assert Power(n - 1) !in PowersBelow(n - 1) by {
        forall k | 0 <= k < n - 1 ensures Power(k) != Power(n - 1) {
          PowerInjective(k, n - 1, 255);
        }
      }
      assert PowersBelow(n) == PowersBelow(n - 1) + {Power(n - 1)};
    }
  }

  function BytesBelow(n: nat): (s: set<nat>)
    ensures forall b :: b in s <==> 1 <= b < n
  {
    if n <= 1 then {} else BytesBelow(n - 1) + {n - 1}
  }

  lemma {:induction false} BytesBelowSize(n: nat)
    requires n >= 1
    ensures |BytesBelow(n)| == n - 1
  {
    if n > 1 {
      BytesBelowSize(n - 1);
    }
  }

  lemma SubsetOfSameSize<T>(a: set<T>, b: set<T>)
    requires a <= b && |a| == |b|
    ensures a == b
  {
    assert b == a + (b - a);
    assert |b| == |a| + |b - a|;
    assert b - a == {};
  }

  /** Every non-zero byte is alpha^k for some k < 255. */
  lemma EveryByteIsPower(b: Byte)
    requires b != 0
    ensures exists k :: 0 <= k < 255 && Power(k) == b
  {
    PowersBelowSize(255);
    BytesBelowSize(256);
    forall k | 0 <= k < 255 ensures Power(k) in BytesBelow(256) {
      PowerNonZero(k);
    }
    SubsetOfSameSize(PowersBelow(255), BytesBelow(256));
    assert b in BytesBelow(256);
  }

  /** A product is zero only when a factor is. */
  lemma NoZeroDivisors(a: Byte, b: Byte)
    ensures Mul(a, b) == 0 <==> a == 0 || b == 0
  {
    MulZero(a);
    MulZero(b);
    if a != 0 && b != 0 {
      EveryByteIsPower(a);
      EveryByteIsPower(b);
      var i :| 0 <= i < 255 && Power(i) == a;
      var j :| 0 <= j < 255 && Power(j) == b;
      PowerAdd(i, j);
      PowerNonZero(i + j);
    }
  }
}
