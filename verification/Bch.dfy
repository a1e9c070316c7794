/** The codes that protect format and version information of a symbol (sections 7.9 and 7.10 of
  ISO/IEC 18004:2015). A number stands for the polynomial over GF(2) whose coefficients are its bits.
 */
module Bch {
  import opened Bytes
  import opened Gf256

  // ----- polynomials over GF(2)

  /** The product: g shifted by i, summed over the set bits i of q. */
  function Product(q: nat, g: nat): nat {
    if q == 0 then 0 else Xor(2 * Product(q / 2, g), if q % 2 == 1 then g else 0)
  }

  ghost predicate IsMultiple(w: nat, g: nat) {
    exists q: nat :: w == Product(q, g)
  }

  lemma ProductStep(q: nat, g: nat)
    ensures Product(q, g) == Xor(2 * Product(q / 2, g), if q % 2 == 1 then g else 0)
  {
  }

  lemma XorDouble(a: nat, b: nat)
    ensures Xor(2 * a, 2 * b) == 2 * Xor(a, b)
  {
    XorStep(2 * a, 2 * b);
    Halves(Xor(2 * a, 2 * b), 2 * Xor(a, b));
  }

  lemma XorIsZero(a: nat, b: nat)
    requires Xor(a, b) == 0
    ensures a == b
  {
    XorAssociates(a, b, b);
    XorSelf(b);
  }

  /** Products add. */
  lemma {:induction false} ProductAdd(a: nat, b: nat, g: nat)
    ensures Product(Xor(a, b), g) == Xor(Product(a, g), Product(b, g))
    decreases a + b
  {
    if a > 0 && b > 0 {
      var p, q := Product(a / 2, g), Product(b / 2, g);
      var u, v := if a % 2 == 1 then g else 0, if b % 2 == 1 then g else 0;
      XorStep(a, b);
      ProductStep(Xor(a, b), g);
      ProductAdd(a / 2, b / 2, g);
      XorDouble(p, q);
      XorSelf(g);
      XorCommutes(u, v);
      XorMiddle(2 * p, u, 2 * q, v);
    }
  }

  lemma MultipleAdd(v: nat, w: nat, g: nat)
    requires IsMultiple(v, g) && IsMultiple(w, g)
    ensures IsMultiple(Xor(v, w), g)
  {
    var p: nat :| v == Product(p, g);
    var q: nat :| w == Product(q, g);
    ProductAdd(p, q, g);
  }

  lemma {:induction false} XorAbove(a: nat, b: nat, k: nat)
    requires b < Pow2(k) <= a
    ensures Xor(a, b) >= Pow2(k)
  {
    if k > 0 && b > 0 {
      XorAbove(a / 2, b / 2, k - 1);
      XorStep(a, b);
    }
  }

  /** A multiple other than zero has at least the degree of the divisor. */
  lemma {:induction false} ProductDegree(q: nat, g: nat, degree: nat)
    requires q > 0 && IsDegree(degree, g)
    ensures Product(q, g) >= Pow2(degree)
  {
    if q == 1 {
      assert Product(0, g) == 0;
    } else {
      ProductDegree(q / 2, g, degree);
      ProductStep(q, g);
      XorAbove(2 * Product(q / 2, g), if q % 2 == 1 then g else 0, degree + 1);
    }
  }

  lemma NoSmallMultiple(w: nat, g: nat, degree: nat)
    requires IsDegree(degree, g) && IsMultiple(w, g) && w < Pow2(degree)
    ensures w == 0
  {
    var q: nat :| w == Product(q, g);
    if q > 0 { ProductDegree(q, g, degree); }
  }

  ghost predicate IsDegree(degree: nat, g: nat) {
    Pow2(degree) <= g < 2 * Pow2(degree)
  }

  function Degree(g: nat): nat {
    if g < 2 then 0 else 1 + Degree(g / 2)
  }

  lemma {:induction false} DegreeIs(degree: nat, g: nat)
    requires IsDegree(degree, g)
    ensures Degree(g) == degree
  {
    if degree > 0 { DegreeIs(degree - 1, g / 2); }
  }

  // ----- words with the data in the high bits

  /** The data followed by n zero bits. */
  function Shifted(data: nat, n: nat): nat {
    if n == 0 then data else 2 * Shifted(data, n - 1)
  }

  lemma {:induction false} ShiftedAdd(a: nat, b: nat, n: nat)
    ensures Xor(Shifted(a, n), Shifted(b, n)) == Shifted(Xor(a, b), n)
  {
    if n > 0 {
      ShiftedAdd(a, b, n - 1);
      XorDouble(Shifted(a, n - 1), Shifted(b, n - 1));
    }
  }

  /** Low bits that fit add without carry. */
  lemma {:induction false} XorLow(data: nat, rest: nat, n: nat)
    requires rest < Pow2(n)
    ensures Xor(Shifted(data, n), rest) == Shifted(data, n) + rest
  {
    if n > 0 {
      var half := Shifted(data, n - 1);
      XorLow(data, rest / 2, n - 1);
      XorStep(2 * half, rest);
      Halves(Xor(2 * half, rest), 2 * half + rest);
    } else {
      XorZero(data);
    }
  }

  lemma XorZero(a: nat)
    ensures Xor(a, 0) == a
  {
  }

  /** At most one remainder completes the data to a multiple of g. */
  lemma RemainderIsUnique(data: nat, r: nat, s: nat, g: nat, degree: nat)
    requires IsDegree(degree, g) && r < Pow2(degree) && s < Pow2(degree)
    requires IsMultiple(Shifted(data, degree) + r, g) && IsMultiple(Shifted(data, degree) + s, g)
    ensures r == s
  {
    var high := Shifted(data, degree);
    XorLow(data, r, degree);
    XorLow(data, s, degree);
    MultipleAdd(Xor(high, r), Xor(high, s), g);
    XorMiddle(high, r, high, s);
    XorSelf(high);
    XorBelow(r, s, degree);
    NoSmallMultiple(Xor(r, s), g, degree);
    XorIsZero(r, s);
  }

  // ----- the division loop

  /** One round: double, and subtract g when the result reaches its degree. */
  function Round(rest: nat, g: nat, degree: nat): nat {
    if 2 * rest >= Pow2(degree) then Xor(2 * rest, g) else 2 * rest
  }

  function Divide(data: nat, g: nat, degree: nat, steps: nat): nat {
    if steps == 0 then data else Round(Divide(data, g, degree, steps - 1), g, degree)
  }

  lemma RoundBound(rest: nat, g: nat, degree: nat)
    requires IsDegree(degree, g) && rest < Pow2(degree)
    ensures Round(rest, g, degree) < Pow2(degree)
  {
    if 2 * rest >= Pow2(degree) { HighBitXor(2 * rest, g, degree); }
  }

  lemma {:induction false} DivideBound(data: nat, g: nat, degree: nat, steps: nat)
    requires IsDegree(degree, g) && data < Pow2(degree)
    ensures Divide(data, g, degree, steps) < Pow2(degree)
  {
    if steps > 0 {
      DivideBound(data, g, degree, steps - 1);
      RoundBound(Divide(data, g, degree, steps - 1), g, degree);
    }
  }

  lemma RoundSubtracts(high: nat, rest: nat, p: nat, g: nat, degree: nat) returns (q: nat)
    requires Xor(high, rest) == Product(p, g)
    ensures Xor(2 * high, Round(rest, g, degree)) == Product(q, g)
  {
    q := 2 * p + if 2 * rest >= Pow2(degree) then 1 else 0;
    XorDouble(high, rest);
    ProductStep(q, g);
    XorAssociates(2 * high, 2 * rest, g);
    XorZero(2 * Product(p, g));
  }

  /** The loop subtracts multiples of g: the shifted data and the register differ by one. */
  lemma {:induction false} DivideSubtracts(data: nat, g: nat, degree: nat, steps: nat) returns (q: nat)
    ensures Xor(Shifted(data, steps), Divide(data, g, degree, steps)) == Product(q, g)
  {
    if steps == 0 {
      XorSelf(data);
      q := 0;
    } else {
      var p := DivideSubtracts(data, g, degree, steps - 1);
      q := RoundSubtracts(Shifted(data, steps - 1), Divide(data, g, degree, steps - 1), p, g, degree);
    }
  }

  /** What the division leaves is the one remainder that completes the data to a multiple of g. */
  lemma RemainderIs(data: nat, rest: nat, g: nat, degree: nat)
    requires IsDegree(degree, g) && data < Pow2(degree) && rest < Pow2(degree)
    ensures IsMultiple(Shifted(data, degree) + rest, g) <==> rest == Divide(data, g, degree, degree)
  {
    var left := Divide(data, g, degree, degree);
    DivideBound(data, g, degree, degree);
    var q := DivideSubtracts(data, g, degree, degree);
    XorLow(data, left, degree);
    assert IsMultiple(Shifted(data, degree) + left, g);
    if IsMultiple(Shifted(data, degree) + rest, g) {
      RemainderIsUnique(data, rest, left, g, degree);
    }
  }

  /** The data in the high bits and below them what the division leaves. */
  function Word(data: nat, g: nat): nat {
    Shifted(data, Degree(g)) + Divide(data, g, Degree(g), Degree(g))
  }

  lemma PartsAdd(a: nat, r: nat, b: nat, s: nat, n: nat)
    requires r < Pow2(n) && s < Pow2(n)
    ensures Xor(r, s) < Pow2(n)
    ensures Xor(Shifted(a, n) + r, Shifted(b, n) + s) == Shifted(Xor(a, b), n) + Xor(r, s)
  {
    hide Xor;
    XorBelow(r, s, n);
    XorLow(a, r, n);
    XorLow(b, s, n);
    XorLow(Xor(a, b), Xor(r, s), n);
    XorMiddle(Shifted(a, n), r, Shifted(b, n), s);
    ShiftedAdd(a, b, n);
  }

  /** Words add. */
  lemma WordAdd(a: nat, b: nat, g: nat, degree: nat)
    requires IsDegree(degree, g) && a < Pow2(degree) && b < Pow2(degree)
    ensures Xor(Word(a, g), Word(b, g)) == Word(Xor(a, b), g)
  {
    hide Round, Pow2, Xor;
    var r, s := Divide(a, g, degree, degree), Divide(b, g, degree, degree);
    DegreeIs(degree, g);
    DivideBound(a, g, degree, degree);
    DivideBound(b, g, degree, degree);
    RemainderIs(a, r, g, degree);
    RemainderIs(b, s, g, degree);
    MultipleAdd(Shifted(a, degree) + r, Shifted(b, degree) + s, g);
    PartsAdd(a, r, b, s, degree);
    XorBelow(a, b, degree);
    RemainderIs(Xor(a, b), Xor(r, s), g, degree);
  }

  // ----- distances

  /** The number of bits that are set. */
  function Weight(a: nat): nat {
    if a == 0 then 0 else a % 2 + Weight(a / 2)
  }

  lemma WeightStep(a: nat)
    ensures Weight(a) == a % 2 + Weight(a / 2)
  {
  }

  lemma {:induction false} WeightXor(a: nat, b: nat)
    ensures Weight(Xor(a, b)) <= Weight(a) + Weight(b)
    decreases a + b
  {
    if a > 0 && b > 0 {
      WeightXor(a / 2, b / 2);
      XorStep(a, b);
      WeightStep(Xor(a, b));
    }
  }

  /** The number of bits in which two words differ. */
  function Differences(a: nat, b: nat): nat {
    Weight(Xor(a, b))
  }

  lemma DifferencesAdd(a: nat, word: nat, b: nat)
    ensures Differences(a, b) <= Differences(word, a) + Differences(word, b)
  {
    XorCommutes(a, word);
    XorAssociates(a, word, Xor(word, b));
    XorAssociates(word, word, b);
    XorSelf(word);
    WeightXor(Xor(a, word), Xor(word, b));
  }
}
