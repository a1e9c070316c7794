/** What the error correction words of apps/web/src/lib/qr.ts are good for: a block with `n` of them
  shows up to `n` damaged words, and up to half as many can be repaired in only one way.
 */
module ErrorCorrection {
  import opened Arithmetic
  import opened Bytes
  import opened Gf256
  import opened GaloisPowers
  import opened ReedSolomon
  import opened Sequences

  // ----- sums of powers

  function Raise(x: Byte, i: nat): Byte {
    if i == 0 then 1 else Mul(Raise(x, i - 1), x)
  }

  /** The sum of c[t] times x[t] to the power i. */
  function Moment(c: seq<Byte>, x: seq<Byte>, i: nat): Byte
    requires |c| == |x|
  {
    if c == [] then 0 else Add(Mul(c[0], Raise(x[0], i)), Moment(c[1..], x[1..], i))
  }

  /** Every coefficient times the distance of its point from `r`. */
  function Spread(c: seq<Byte>, x: seq<Byte>, r: Byte): (s: seq<Byte>)
    requires |c| == |x|
    ensures |s| == |c| && forall t :: 0 <= t < |c| ==> s[t] == Mul(c[t], Add(x[t], r))
  {
    seq(|c|, t requires 0 <= t < |c| => Mul(c[t], Add(x[t], r)))
  }

  ghost predicate AllZero(c: seq<Byte>) {
    forall t :: 0 <= t < |c| ==> c[t] == 0
  }

  lemma SpreadTerm(c: Byte, x: Byte, r: Byte, i: nat)
    ensures Mul(Mul(c, Add(x, r)), Raise(x, i)) == Add(Mul(c, Raise(x, i + 1)), Mul(r, Mul(c, Raise(x, i))))
  {
    var p := Raise(x, i);
    calc {
      Mul(Mul(c, Add(x, r)), p);
    == { MulAssociates(c, Add(x, r), p); }
      Mul(c, Mul(Add(x, r), p));
    == { MulAddLeft(x, r, p); }
      Mul(c, Add(Mul(x, p), Mul(r, p)));
    == { MulAddRight(c, Mul(x, p), Mul(r, p)); }
      Add(Mul(c, Mul(x, p)), Mul(c, Mul(r, p)));
    == { MulCommutes(x, p); MulAssociates(c, r, p); MulCommutes(c, r); MulAssociates(r, c, p); }
      Add(Mul(c, Raise(x, i + 1)), Mul(r, Mul(c, p)));
    }
  }

  /** Spreading combines two neighbouring moments. */
  lemma {:induction false} SpreadMoment(c: seq<Byte>, x: seq<Byte>, r: Byte, i: nat)
    requires |c| == |x|
    ensures Moment(Spread(c, x, r), x, i) == Add(Moment(c, x, i + 1), Mul(r, Moment(c, x, i)))
    decreases |c|
  {
    if c == [] {
      MulZero(r);
      AddSelf(0, 0);
    } else {
      assert Spread(c, x, r)[1..] == Spread(c[1..], x[1..], r);
      SpreadMoment(c[1..], x[1..], r, i);
      SpreadTerm(c[0], x[0], r, i);
      var a, b := Mul(c[0], Raise(x[0], i + 1)), Mul(c[0], Raise(x[0], i));
      var u, v := Moment(c[1..], x[1..], i + 1), Moment(c[1..], x[1..], i);
      MulAddRight(r, b, v);
      AddSwap(a, Mul(r, b), u, Mul(r, v));
    }
  }

  /** As many vanishing moments as there are distinct points leave no coefficient but zero. */
  lemma {:induction false} MomentsDetermine(c: seq<Byte>, x: seq<Byte>)
    requires |c| == |x| && Distinct(x) && forall i :: 0 <= i < |c| ==> Moment(c, x, i) == 0
    ensures AllZero(c)
    decreases |c|
  {
    if c != [] {
      var r, rest := x[0], Spread(c, x, x[0]);
      forall i | 0 <= i < |c| - 1 ensures Moment(rest[1..], x[1..], i) == 0 {
        SpreadMoment(c, x, r, i);
        MulZero(r);
        AddSelf(0, 0);
        FirstVanishes(c[0], r, i);
      }
      MomentsDetermine(rest[1..], x[1..]);
      forall t | 0 < t < |c| ensures c[t] == 0 {
        assert rest[1..][t - 1] == 0;
        SpreadZero(c[t], x[t], r);
      }
      OnlyFirst(c, x);
    }
  }

  lemma FirstVanishes(c: Byte, r: Byte, i: nat)
    ensures Mul(Mul(c, Add(r, r)), Raise(r, i)) == 0
  {
    AddSelf(r, 0);
    MulZero(c);
    MulZero(Raise(r, i));
  }

  lemma SpreadZero(c: Byte, x: Byte, r: Byte)
    requires Mul(c, Add(x, r)) == 0 && x != r
    ensures c == 0
  {
    NoZeroDivisors(c, Add(x, r));
    AddSelf(x, r);
  }

  lemma OnlyFirst(c: seq<Byte>, x: seq<Byte>)
    requires |c| == |x| > 0 && AllZero(c[1..]) && Moment(c, x, 0) == 0
    ensures c[0] == 0
  {
    ZeroMoment(c[1..], x[1..], 0);
    MulOne(c[0]);
    AddSelf(c[0], 0);
  }

  lemma {:induction false} ZeroMoment(c: seq<Byte>, x: seq<Byte>, i: nat)
    requires |c| == |x| && AllZero(c)
    ensures Moment(c, x, i) == 0
    decreases |c|
  {
    if c != [] {
      ZeroMoment(c[1..], x[1..], i);
      MulZero(Raise(x[0], i));
      AddSelf(0, 0);
    }
  }

  // ----- polynomials with few coefficients other than zero

  lemma {:induction false} RaisePower(a: nat, b: nat)
    ensures Raise(Power(a), b) == Power(Times(b, a))
    decreases b
  {
    if b > 0 {
      RaisePower(a, b - 1);
      PowerAdd(Times(b - 1, a), a);
    }
  }

  lemma RaiseSwap(a: nat, b: nat)
    ensures Raise(Power(a), b) == Raise(Power(b), a)
  {
    RaisePower(a, b);
    RaisePower(b, a);
    TimesCommutes(a, b);
  }

  lemma HornerStep(a: Byte, p: Byte, v: Byte, x: Byte, last: Byte)
    ensures Add(Mul(Add(Mul(a, p), v), x), last) == Add(Mul(a, Mul(p, x)), Add(Mul(v, x), last))
  {
    MulAddLeft(Mul(a, p), v, x);
    MulAssociates(a, p, x);
    AddAssociates(Mul(a, Mul(p, x)), Mul(v, x), last);
  }

  /** The first coefficient contributes with the highest power. */
  lemma {:induction false} ValueFront(p: Poly, x: Byte)
    requires p != []
    ensures Value(p, x) == Add(Mul(p[0], Raise(x, |p| - 1)), Value(p[1..], x))
    decreases |p|
  {
    var n := |p| - 1;
    if n == 0 {
      MulZero(x);
      MulOne(p[0]);
      AddSelf(p[0], 0);
    } else {
      ValueFront(p[..n], x);
      assert p[..n][1..] == p[1..][..n - 1];
      HornerStep(p[0], Raise(x, n - 1), Value(p[1..n], x), x, p[n]);
      assert p[1..n] == p[1..][..n - 1];
    }
  }

  /** The coefficients other than zero. */
  function Coefficients(p: Poly): seq<Byte> {
    if p == [] then [] else (if p[0] == 0 then [] else [p[0]]) + Coefficients(p[1..])
  }

  /** alpha to the exponent that each of them stands at. */
  function Points(p: Poly): (x: seq<Byte>)
    ensures |x| == |Coefficients(p)|
  {
    if p == [] then [] else (if p[0] == 0 then [] else [Power(|p| - 1)]) + Points(p[1..])
  }

  lemma {:induction false} ValueIsMoment(p: Poly, i: nat)
    ensures Value(p, Power(i)) == Moment(Coefficients(p), Points(p), i)
    decreases |p|
  {
    if p != [] {
      ValueFront(p, Power(i));
      ValueIsMoment(p[1..], i);
      RaiseSwap(i, |p| - 1);
      if p[0] == 0 {
        MulZero(Raise(Power(i), |p| - 1));
        AddSelf(Value(p[1..], Power(i)), 0);
        assert Coefficients(p) == Coefficients(p[1..]) && Points(p) == Points(p[1..]);
      } else {
        assert Coefficients(p)[1..] == Coefficients(p[1..]) && Points(p)[1..] == Points(p[1..]);
      }
    }
  }

  /** The byte is one of the first `n` powers. */
  ghost predicate IsPower(b: Byte, n: nat) {
    exists e :: 0 <= e < n && b == Power(e)
  }

  ghost predicate ArePowers(x: seq<Byte>, n: nat) {
    forall t :: 0 <= t < |x| ==> IsPower(x[t], n)
  }

  lemma NextPoint(rest: seq<Byte>, m: nat, n: nat)
    requires m < n == 255 && Distinct(rest) && ArePowers(rest, m)
    ensures Distinct([Power(m)] + rest) && ArePowers([Power(m)] + rest, m + 1) && ArePowers(rest, m + 1)
  {
    forall t | 0 <= t < |rest| ensures rest[t] != Power(m) && IsPower(rest[t], m + 1) {
      assert IsPower(rest[t], m);
      var e :| 0 <= e < m && rest[t] == Power(e);
      PowerInjective(e, m, n);
    }
    assert IsPower(Power(m), m + 1);
  }

  lemma {:induction false} PointsAreDistinct(p: Poly, n: nat)
    requires |p| <= n == 255
    ensures Distinct(Points(p)) && ArePowers(Points(p), |p|)
    decreases |p|
  {
    hide IsPower, Times2;
    if p != [] {
      PointsAreDistinct(p[1..], n);
      NextPoint(Points(p[1..]), |p| - 1, n);
      if p[0] == 0 {
        assert Points(p) == Points(p[1..]);
      }
    }
  }

  lemma HasCoefficient(p: Poly)
    requires p != [] && p[0] != 0
    ensures !AllZero(Coefficients(p))
  {
    assert Coefficients(p)[0] == p[0];
  }

  lemma {:induction false} NoCoefficients(p: Poly)
    requires AllZero(Coefficients(p))
    ensures AllZero(p)
    decreases |p|
  {
    if p != [] {
      if p[0] != 0 {
        HasCoefficient(p);
      } else {
        assert Coefficients(p) == Coefficients(p[1..]);
        NoCoefficients(p[1..]);
      }
    }
  }

  /** Fewer coefficients than roots, and the polynomial is zero. */
  lemma FewCoefficients(p: Poly, n: nat)
    requires |p| <= 255 && |Coefficients(p)| <= n && forall i :: 0 <= i < n ==> Value(p, Power(i)) == 0
    ensures AllZero(p)
  {
    var c, x := Coefficients(p), Points(p);
    PointsAreDistinct(p, 255);
    forall i | 0 <= i < |c| ensures Moment(c, x, i) == 0 {
      ValueIsMoment(p, i);
      assert Value(p, Power(i)) == 0;
    }
    MomentsDetermine(c, x);
    NoCoefficients(p);
  }

  // ----- distance

  /** In how many words two blocks differ. */
  function Distance(a: Poly, b: Poly): (d: nat)
    requires |a| == |b|
    ensures d == 0 ==> a == b
  {
    if a == [] then 0
    else
      assert a == [a[0]] + a[1..] && b == [b[0]] + b[1..];
      (if a[0] == b[0] then 0 else 1) + Distance(a[1..], b[1..])
  }

  lemma {:induction false} DistanceOfSame(a: Poly)
    ensures Distance(a, a) == 0
  {
    if a != [] { DistanceOfSame(a[1..]); }
  }

  lemma {:induction false} DistanceIsCount(a: Poly, b: Poly)
    requires |a| == |b|
    ensures |Coefficients(Sum(a, b))| == Distance(a, b)
  {
    if a != [] {
      assert Sum(a, b)[1..] == Sum(a[1..], b[1..]);
      AddSelf(a[0], b[0]);
      DistanceIsCount(a[1..], b[1..]);
    }
  }

  lemma {:induction false} Triangle(a: Poly, r: Poly, b: Poly)
    requires |a| == |r| == |b|
    ensures Distance(a, b) <= Distance(a, r) + Distance(b, r)
  {
    if a != [] { Triangle(a[1..], r[1..], b[1..]); }
  }

  /** Every syndrome is zero. */
  ghost predicate IsCodeword(w: Poly, n: nat) {
    forall i :: 0 <= i < n ==> Value(w, Power(i)) == 0
  }

  /** Different codewords differ in more than `n` words. */
  lemma CodewordsAreFarApart(a: Poly, b: Poly, n: nat)
    requires |a| == |b| <= 255 && IsCodeword(a, n) && IsCodeword(b, n) && Distance(a, b) <= n
    ensures a == b
  {
    forall i | 0 <= i < n ensures Value(Sum(a, b), Power(i)) == 0 {
      ValueSum(a, b, Power(i));
      AddSelf(0, 0);
    }
    DistanceIsCount(a, b);
    FewCoefficients(Sum(a, b), n);
    forall k | 0 <= k < |a| ensures a[k] == b[k] {
      assert Sum(a, b)[k] == 0;
      AddSelf(a[k], b[k]);
    }
  }

  /** Damage to at least one and at most `n` words of a codeword shows in a syndrome. */
  lemma DamageShows(sent: Poly, received: Poly, n: nat)
    requires |sent| == |received| <= 255 && IsCodeword(sent, n) && 0 < Distance(sent, received) <= n
    ensures !IsCodeword(received, n)
  {
    if IsCodeword(received, n) {
      CodewordsAreFarApart(sent, received, n);
      DistanceOfSame(sent);
    }
  }

  /** At most one codeword is within half of `n` words of what was read. */
  lemma RepairIsUnique(received: Poly, a: Poly, b: Poly, n: nat)
    requires |a| == |b| == |received| <= 255 && IsCodeword(a, n) && IsCodeword(b, n)
    requires 2 * Distance(a, received) <= n && 2 * Distance(b, received) <= n
    ensures a == b
  {
    Triangle(a, received, b);
    CodewordsAreFarApart(a, b, n);
  }

  lemma SameParts(a: Poly, b: Poly, c: Poly, d: Poly)
    requires |a| == |c| && a + b == c + d
    ensures a == c && b == d
  {
    assert a == (a + b)[..|a|] && c == (c + d)[..|c|];
    assert b == (a + b)[|a|..] && d == (c + d)[|c|..];
  }

  /** Data followed by its error correction words is a codeword. */
  lemma EncodedIsCodeword(data: Poly, rest: Poly, n: nat)
    requires |rest| == n && IsRemainder(data, Generator(n), rest)
    ensures IsCodeword(data + rest, n)
  {
    forall i | 0 <= i < n ensures Value(data + rest, Power(i)) == 0 {
      SyndromesVanish(data, n, rest, i);
    }
  }
}
