/** The field GF(2^8) behind the QR error correction of apps/web/src/lib/qr.ts.

  A byte is the polynomial whose coefficients are its bits; arithmetic is modulo
  x^8 + x^4 + x^3 + x^2 + 1 (0x11d). `Mul` is the schoolbook definition; the log and
  antilog tables of the source are proved to compute it in `GaloisTables`.
 */
module Gf256 {

  import opened Bytes

  /** Exclusive or of two natural numbers, bit by bit. */
  function Xor(a: nat, b: nat): nat
    decreases a + b
  {
    if a == 0 then b
    else if b == 0 then a
    else (if a % 2 == b % 2 then 0 else 1) + 2 * Xor(a / 2, b / 2)
  }

  lemma {:induction false} XorStep(a: nat, b: nat)
    ensures Xor(a, b) % 2 == (if a % 2 == b % 2 then 0 else 1)
    ensures Xor(a, b) / 2 == Xor(a / 2, b / 2)
  {
    if a > 0 && b > 0 {
      var bit, rest := if a % 2 == b % 2 then 0 else 1, Xor(a / 2, b / 2);
      assert Xor(a, b) == bit + 2 * rest;
    }
  }

  lemma {:induction false} XorCommutes(a: nat, b: nat)
    ensures Xor(a, b) == Xor(b, a)
    decreases a + b
  {
    if a > 0 && b > 0 { XorCommutes(a / 2, b / 2); }
  }

  lemma {:induction false} XorSelf(a: nat)
    ensures Xor(a, a) == 0
  {
    if a > 0 { XorSelf(a / 2); }
  }

  /** Numbers are equal when their last bits and their remaining bits are. */
  lemma Halves(a: nat, b: nat)
    requires a % 2 == b % 2 && a / 2 == b / 2
    ensures a == b
  {
  }

  lemma {:induction false} XorAssociates(a: nat, b: nat, c: nat)
    ensures Xor(Xor(a, b), c) == Xor(a, Xor(b, c))
    decreases a + b + c
  {
    if a > 0 && b > 0 && c > 0 {
      XorAssociates(a / 2, b / 2, c / 2);
      XorStep(a, b);
      XorStep(b, c);
      XorStep(Xor(a, b), c);
      XorStep(a, Xor(b, c));
      Halves(Xor(Xor(a, b), c), Xor(a, Xor(b, c)));
    }
  }

  lemma {:induction false} XorBelow(a: nat, b: nat, k: nat)
    requires a < Pow2(k) && b < Pow2(k)
    ensures Xor(a, b) < Pow2(k)
  {
    if k > 0 && a > 0 && b > 0 { XorBelow(a / 2, b / 2, k - 1); }
  }

  /** Addition of field elements. */
  function Add(a: Byte, b: Byte): Byte {
    assert Pow2(8) == 256;
    XorBelow(a, b, 8);
    Xor(a, b)
  }

  /** Multiplication by x: shift, then reduce by the field polynomial. */
  function Times2(a: Byte): Byte {
    if 2 * a < 256 then 2 * a
    else
      assert Xor(256, 0x11d) == 29;
      XorHighBit(a);
      Xor(2 * a, 0x11d)
  }

  lemma XorHighBit(a: Byte)
    requires 2 * a >= 256
    ensures Xor(2 * a, 0x11d) == Xor(2 * a - 256, 0x1d) < 256
  {
    var b := 2 * a - 256;
    assert Pow2(8) == 256;
    SplitHigh(b, 8);
    SplitHigh(0x1d, 8);
    XorBelow(b, 0x1d, 8);
    XorMiddle(256, b, 256, 0x1d);
    XorSelf(256);
  }

  lemma {:induction false} SplitHigh(b: nat, k: nat)
    requires b < Pow2(k)
    ensures Xor(Pow2(k), b) == Pow2(k) + b
  {
    if k > 0 && b > 0 { SplitHigh(b / 2, k - 1); }
  }

  lemma XorMiddle(a: nat, b: nat, c: nat, d: nat)
    ensures Xor(Xor(a, b), Xor(c, d)) == Xor(Xor(a, c), Xor(b, d))
  {
    XorAssociates(a, b, Xor(c, d));
    XorAssociates(b, c, d);
    XorCommutes(b, c);
    XorAssociates(c, b, d);
    XorAssociates(a, c, Xor(b, d));
  }

  // ----- addition

  lemma AddCommutes(a: Byte, b: Byte)
    ensures Add(a, b) == Add(b, a)
  {
    XorCommutes(a, b);
  }

  lemma AddAssociates(a: Byte, b: Byte, c: Byte)
    ensures Add(Add(a, b), c) == Add(a, Add(b, c))
  {
    XorAssociates(a, b, c);
  }

  /** Zero is neutral and every element is its own negative. */
  lemma AddSelf(a: Byte, b: Byte)
    ensures Add(a, 0) == a && Add(0, a) == a && Add(a, a) == 0
    ensures Add(Add(a, b), b) == a
    ensures Add(a, b) == 0 <==> a == b
  {
    XorSelf(a);
    XorSelf(b);
    XorAssociates(a, b, b);
  }

  lemma AddSwap(a: Byte, b: Byte, c: Byte, d: Byte)
    ensures Add(Add(a, b), Add(c, d)) == Add(Add(a, c), Add(b, d))
  {
    XorMiddle(a, b, c, d);
  }

  // ----- multiplication

  /** The product of two field elements: a * x^i summed over the set bits i of `b`. */
  function Mul(a: Byte, b: Byte): Byte
    decreases b
  {
    if b == 0 then 0
    else Add(if b % 2 == 1 then a else 0, Mul(Times2(a), b / 2))
  }

  lemma {:induction false} HighBitXor(a: nat, b: nat, k: nat)
    requires a < 2 * Pow2(k) && b < 2 * Pow2(k)
    ensures Xor(a, b) >= Pow2(k) <==> (a >= Pow2(k)) != (b >= Pow2(k))
  {
    if k > 0 && a > 0 && b > 0 {
      HighBitXor(a / 2, b / 2, k - 1);
    } else if k == 0 {
      assert a <= 1 && b <= 1;
    }
  }

  lemma Times2AsXor(a: Byte)
    ensures Times2(a) == Xor(2 * a, if a >= 128 then 0x11d else 0)
  {
  }

  lemma Times2Add(a: Byte, b: Byte)
    ensures Times2(Add(a, b)) == Add(Times2(a), Times2(b))
  {
    hide Times2;
    assert Pow2(7) == 128;
    HighBitXor(a, b, 7);
    Times2AsXor(a);
    Times2AsXor(b);
    Times2AsXor(Add(a, b));
    XorStep(2 * a, 2 * b);
    assert Xor(2 * a, 2 * b) == 2 * Xor(a, b);
    XorMiddle(2 * a, if a >= 128 then 0x11d else 0, 2 * b, if b >= 128 then 0x11d else 0);
    XorSelf(0x11d);
  }

  lemma {:induction false} MulAddLeft(a: Byte, b: Byte, c: Byte)
    ensures Mul(Add(a, b), c) == Add(Mul(a, c), Mul(b, c))
    decreases c
  {
    if c > 0 {
      MulAddLeft(Times2(a), Times2(b), c / 2);
      Times2Add(a, b);
      AddSwap(if c % 2 == 1 then a else 0, Mul(Times2(a), c / 2),
              if c % 2 == 1 then b else 0, Mul(Times2(b), c / 2));
    }
  }

  lemma {:induction false} MulAddRight(a: Byte, b: Byte, c: Byte)
    ensures Mul(a, Add(b, c)) == Add(Mul(a, b), Mul(a, c))
    decreases b + c
  {
    if b > 0 && c > 0 {
      MulAddRight(Times2(a), b / 2, c / 2);
      XorStep(b, c);
      AddSwap(if b % 2 == 1 then a else 0, Mul(Times2(a), b / 2),
              if c % 2 == 1 then a else 0, Mul(Times2(a), c / 2));
      AddSelf(a, a);
      MulUnfold(a, Add(b, c));
    }
  }

  lemma MulUnfold(a: Byte, b: Byte)
    ensures Mul(a, b) == Add(if b % 2 == 1 then a else 0, Mul(Times2(a), b / 2))
  {
  }

  lemma {:induction false} MulZero(a: Byte)
    ensures Mul(a, 0) == 0 && Mul(0, a) == 0
    decreases a
  {
    if a > 0 { MulZero(a / 2); }
  }

  lemma {:induction false} MulTimes2(a: Byte, b: Byte)
    ensures Mul(Times2(a), b) == Times2(Mul(a, b))
    decreases b
  {
    if b > 0 {
      MulTimes2(Times2(a), b / 2);
      Times2Add(if b % 2 == 1 then a else 0, Mul(Times2(a), b / 2));
    }
  }

  lemma LastBitSplits(b: Byte)
    ensures b / 2 < 128 && b == Add(b % 2, Times2(b / 2))
  {
    if b >= 2 && b % 2 == 1 {
      XorStep(1, 2 * (b / 2));
      Halves(b, Xor(1, 2 * (b / 2)));
    }
  }

  lemma {:induction false} MulOne(b: Byte)
    ensures Mul(1, b) == b && Mul(b, 1) == b
    decreases b
  {
    if b > 0 {
      MulOne(b / 2);
      MulTimes2(1, b / 2);
      LastBitSplits(b);
      MulUnfold(1, b);
    }
  }

  /** Multiplication commutes. */
  lemma {:induction false} MulCommutes(a: Byte, b: Byte)
    ensures Mul(a, b) == Mul(b, a)
    decreases a
  {
    MulZero(b);
    if a > 0 {
      LastBitSplits(a);
      MulAddLeft(a % 2, Times2(a / 2), b);
      MulOne(b);
      MulTimes2(a / 2, b);
      MulCommutes(a / 2, b);
      MulTimes2(b, a / 2);
      MulUnfold(b, a);
    }
  }

  lemma MulTimes2Right(a: Byte, b: Byte)
    ensures Mul(a, Times2(b)) == Times2(Mul(a, b))
  {
    MulCommutes(a, Times2(b));
    MulTimes2(b, a);
    MulCommutes(a, b);
  }

  /** Multiplication associates. */
  lemma {:induction false} MulAssociates(a: Byte, b: Byte, c: Byte)
    ensures Mul(a, Mul(b, c)) == Mul(Mul(a, b), c)
    decreases c
  {
    MulZero(a);
    if c > 0 {
      MulAssociates(a, Times2(b), c / 2);
      MulTimes2Right(a, b);
      MulAddRight(a, if c % 2 == 1 then b else 0, Mul(Times2(b), c / 2));
      MulUnfold(b, c);
      MulUnfold(Mul(a, b), c);
    }
  }

  // ----- powers of the generator

  /** alpha^k, where alpha = x. */
  function Power(k: nat): Byte {
    if k == 0 then 1 else Times2(Power(k - 1))
  }

  /** Exponents add. */
  lemma {:induction false} PowerAdd(i: nat, j: nat)
    ensures Mul(Power(i), Power(j)) == Power(i + j)
  {
    if j == 0 {
      MulOne(Power(i));
    } else {
      PowerAdd(i, j - 1);
      MulTimes2Right(Power(i), Power(j - 1));
    }
  }
}
