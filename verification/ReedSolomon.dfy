/** Reed-Solomon error correction of apps/web/src/lib/qr.ts (section 7.5.2 of ISO/IEC 18004:2015).

  Polynomials over GF(2^8) are sequences of coefficients, highest degree first.
 */
module ReedSolomon {
  import opened Bytes
  import opened Gf256
  import opened GaloisPowers
  import opened GaloisTables

  type Poly = seq<Byte>

  function Zeros(n: nat): (p: Poly)
    ensures |p| == n && forall k :: 0 <= k < n ==> p[k] == 0
  {
    seq(n, _ => 0)
  }

  /** The sum of two polynomials with as many coefficients. */
  function Sum(p: Poly, q: Poly): (r: Poly)
    requires |p| == |q|
    ensures |r| == |p| && forall k :: 0 <= k < |p| ==> r[k] == Add(p[k], q[k])
  {
    seq(|p|, k requires 0 <= k < |p| => Add(p[k], q[k]))
  }

  function Scale(p: Poly, f: Byte): (r: Poly)
    ensures |r| == |p| && forall k :: 0 <= k < |p| ==> r[k] == Mul(p[k], f)
  {
    seq(|p|, k requires 0 <= k < |p| => Mul(p[k], f))
  }

  /** The product: the partial products of `g` with each coefficient of `q`, shifted and summed. */
  function Product(q: Poly, g: Poly): (r: Poly)
    requires |g| > 0
    ensures |r| == |q| + |g| - 1
  {
    if q == [] then Zeros(|g| - 1)
    else
      var n := |q| - 1;
      Sum(Product(q[..n], g) + [0], Zeros(n) + Scale(g, q[n]))
  }

  /** The value of a polynomial at `x`, by Horner's rule. */
  function Value(p: Poly, x: Byte): Byte {
    if p == [] then 0 else Add(Mul(Value(p[..|p| - 1], x), x), p[|p| - 1])
  }

  /** The generator polynomial: the product of (x - alpha^i) for i < n. */
  function Generator(n: nat): (g: Poly)
    ensures |g| == n + 1
  {
    if n == 0 then [1] else Product(Generator(n - 1), [1, Power(n - 1)])
  }

  /** `rest` is the remainder of data(x) * x^n by `g`, with some quotient. */
  ghost predicate IsRemainder(data: Poly, g: Poly, rest: Poly)
    requires |g| == |rest| + 1
  {
    exists q: Poly :: |q| == |data| && Divides(data, g, q, rest)
  }

  /** data(x) * x^n = q(x) * g(x) + rest(x), where n is the degree of g. */
  ghost predicate Divides(data: Poly, g: Poly, q: Poly, rest: Poly)
    requires |g| == |rest| + 1 && |q| == |data|
  {
    data + Zeros(|rest|) == Sum(Product(q, g), Zeros(|data|) + rest)
  }

  // ----- the generator

  lemma ProductLinearStep(g: Poly, r: Byte, h: Poly, n: nat)
    requires |g| == n + 1 && h == Product(g[..n], [1, r])
    ensures forall k :: 0 <= k < n ==> Product(g, [1, r])[k] == h[k]
    ensures Product(g, [1, r])[n] == Add((h + [0])[n], g[n])
    ensures Product(g, [1, r])[n + 1] == Mul(g[n], r)
  {
    var shifted, partial := h + [0], Zeros(n) + Scale([1, r], g[n]);
    assert Product(g, [1, r]) == Sum(shifted, partial);
    MulOne(g[n]);
    MulCommutes(r, g[n]);
    assert partial[n] == g[n] && partial[n + 1] == Mul(g[n], r) && shifted[n + 1] == 0;
    AddSelf(Mul(g[n], r), 0);
    forall k | 0 <= k < n ensures Sum(shifted, partial)[k] == h[k] {
      AddSelf(h[k], 0);
    }
  }

  /** Multiplying by x + r adds to each coefficient r times the one before it. */
  lemma {:induction false} ProductLinear(g: Poly, r: Byte)
    requires |g| > 0
    ensures Product(g, [1, r])[0] == g[0]
    ensures Product(g, [1, r])[|g|] == Mul(g[|g| - 1], r)
    ensures forall k :: 0 < k < |g| ==> Product(g, [1, r])[k] == Add(g[k], Mul(g[k - 1], r))
  {
    var n := |g| - 1;
    var h := Product(g[..n], [1, r]);
    ProductLinearStep(g, r, h, n);
    if n == 0 {
      AddSelf(g[0], 0);
    } else {
      ProductLinear(g[..n], r);
      AddCommutes(Mul(g[n - 1], r), g[n]);
    }
  }

  lemma {:induction false} GeneratorIsMonic(n: nat)
    ensures Generator(n)[0] == 1
  {
    if n > 0 {
      GeneratorIsMonic(n - 1);
      ProductLinear(Generator(n - 1), Power(n - 1));
    }
  }

  // ----- values

  lemma {:induction false} ValueSum(p: Poly, q: Poly, x: Byte)
    requires |p| == |q|
    ensures Value(Sum(p, q), x) == Add(Value(p, x), Value(q, x))
  {
    if p == [] {
      AddSelf(0, 0);
    } else {
      var n := |p| - 1;
      ValueSum(p[..n], q[..n], x);
      assert Sum(p, q)[..n] == Sum(p[..n], q[..n]);
      MulAddLeft(Value(p[..n], x), Value(q[..n], x), x);
      AddSwap(Mul(Value(p[..n], x), x), Mul(Value(q[..n], x), x), p[n], q[n]);
    }
  }

  lemma {:induction false} ValueScale(p: Poly, f: Byte, x: Byte)
    ensures Value(Scale(p, f), x) == Mul(f, Value(p, x))
  {
    if p == [] {
      MulZero(f);
    } else {
      var n := |p| - 1;
      ValueScale(p[..n], f, x);
      assert Scale(p, f)[..n] == Scale(p[..n], f);
      MulAssociates(f, Value(p[..n], x), x);
      MulAddRight(f, Mul(Value(p[..n], x), x), p[n]);
      MulCommutes(f, p[n]);
    }
  }

  lemma {:induction false} ValueLeadingZeros(n: nat, p: Poly, x: Byte)
    ensures Value(Zeros(n) + p, x) == Value(p, x)
  {
    if p != [] {
      var m := |p| - 1;
      ValueLeadingZeros(n, p[..m], x);
      assert (Zeros(n) + p)[..n + m] == Zeros(n) + p[..m];
    } else if n > 0 {
      ValueLeadingZeros(n - 1, p, x);
      assert (Zeros(n) + p)[..n - 1] == Zeros(n - 1) + p;
      MulZero(x);
      AddSelf(0, 0);
    } else {
      assert Zeros(n) + p == p;
    }
  }

  lemma ValueShift(p: Poly, x: Byte)
    ensures Value(p + [0], x) == Mul(Value(p, x), x)
  {
    assert (p + [0])[..|p|] == p;
    AddSelf(Mul(Value(p, x), x), 0);
  }

  /** The value of a product is the product of the values. */
  lemma {:induction false} ValueProduct(q: Poly, g: Poly, x: Byte)
    requires |g| > 0
    ensures Value(Product(q, g), x) == Mul(Value(q, x), Value(g, x))
  {
    if q == [] {
      ValueLeadingZeros(|g| - 1, [], x);
      assert Zeros(|g| - 1) + [] == Zeros(|g| - 1);
      MulZero(Value(g, x));
    } else {
      var n := |q| - 1;
      var a, v, f := Value(q[..n], x), Value(g, x), q[n];
      var p := Product(q[..n], g);
      ValueProduct(q[..n], g, x);
      ValueSum(p + [0], Zeros(n) + Scale(g, f), x);
      ValueShift(p, x);
      ValueLeadingZeros(n, Scale(g, f), x);
      ValueScale(g, f, x);
      MulAssociates(a, v, x);
      MulCommutes(v, x);
      MulAssociates(a, x, v);
      MulAddLeft(Mul(a, x), f, v);
    }
  }

  /** The generator vanishes at alpha^i for every i < n. */
  lemma {:induction false} GeneratorRoots(n: nat, i: nat)
    requires i < n
    ensures Value(Generator(n), Power(i)) == 0
  {
    var x := Power(i);
    ValueProduct(Generator(n - 1), [1, Power(n - 1)], x);
    if i < n - 1 {
      GeneratorRoots(n - 1, i);
      MulZero(Value([1, Power(n - 1)], x));
    } else {
      ValueLinear(x, x);
      AddSelf(x, x);
      MulZero(Value(Generator(n - 1), x));
    }
  }

  lemma ValueLinear(r: Byte, x: Byte)
    ensures Value([1, r], x) == Add(x, r)
  {
    assert [1, r][..1] == [1];
    MulZero(x);
    AddSelf(1, 0);
    assert Value([1], x) == Add(Mul(Value([1][..0], x), x), 1);
    MulOne(x);
  }

  // ----- the remainder and its syndromes

  /** Data followed by its remainder is a multiple of the generator. */
  lemma CodewordIsMultiple(data: Poly, g: Poly, q: Poly, rest: Poly)
    requires |g| == |rest| + 1 && |q| == |data| && Divides(data, g, q, rest)
    ensures data + rest == Product(q, g)
  {
    var p, tail := Product(q, g), Zeros(|data|) + rest;
    forall k | 0 <= k < |data| + |rest| ensures (data + rest)[k] == p[k] {
      assert (data + Zeros(|rest|))[k] == Add(p[k], tail[k]);
      AddSelf(p[k], tail[k]);
      if k < |data| {
        AddSelf(p[k], 0);
      } else {
        AddSelf(p[k], tail[k]);
      }
    }
  }

  /** All syndromes of data followed by its remainder are zero. */
  lemma SyndromesVanish(data: Poly, n: nat, rest: Poly, i: nat)
    requires |rest| == n && i < n && IsRemainder(data, Generator(n), rest)
    ensures Value(data + rest, Power(i)) == 0
  {
    var q: Poly :| |q| == |data| && Divides(data, Generator(n), q, rest);
    CodewordIsMultiple(data, Generator(n), q, rest);
    ValueProduct(q, Generator(n), Power(i));
    GeneratorRoots(n, i);
    MulZero(Value(q, Power(i)));
  }

  // ----- the syndromes determine the remainder

  /** The quotient of `p` by x - r, by synthetic division. */
  function Deflate(p: Poly, r: Byte): (s: Poly)
    requires p != []
    ensures |s| == |p| - 1
    ensures forall k :: 0 <= k < |s| ==> s[k] == Value(p[..k + 1], r)
  {
    seq(|p| - 1, k requires 0 <= k < |p| - 1 => Value(p[..k + 1], r))
  }

  /** p(x) = (x - r) * Deflate(p, r)(x) + p(r). */
  lemma {:induction false} DeflateDivides(p: Poly, r: Byte, x: Byte)
    requires p != []
    ensures Value(p, x) == Add(Mul(Add(x, r), Value(Deflate(p, r), x)), Value(p, r))
    decreases |p|
  {
    var n := |p| - 1;
    if n == 0 {
      assert p[..0] == [];
      assert Deflate(p, r) == [];
      MulZero(x);
      MulZero(r);
      MulZero(Add(x, r));
      AddSelf(p[0], 0);
    } else {
      var p', c := p[..n], Value(p[..n], r);
      var s' := Value(Deflate(p', r), x);
      DeflateDivides(p', r, x);
      DeflateStep(p, r, n);
      assert Deflate(p, r)[..n - 1] == Deflate(p', r);
      assert Value(Deflate(p, r), x) == Add(Mul(s', x), c);
      DeflateAlgebra(x, r, s', c, p[n]);
    }
  }

  lemma DeflateStep(p: Poly, r: Byte, n: nat)
    requires |p| == n + 1 && n > 0
    ensures Deflate(p, r) == Deflate(p[..n], r) + [Value(p[..n], r)]
  {
    forall k | 0 <= k < n - 1 ensures Deflate(p, r)[k] == Deflate(p[..n], r)[k] {
      assert p[..n][..k + 1] == p[..k + 1];
    }
  }

  lemma DeflateAlgebra(x: Byte, r: Byte, s: Byte, c: Byte, last: Byte)
    ensures Add(Mul(Add(Mul(Add(x, r), s), c), x), last)
         == Add(Mul(Add(x, r), Add(Mul(s, x), c)), Add(Mul(c, r), last))
  {
    var y := Add(x, r);
    MulAddLeft(Mul(y, s), c, x);
    MulAssociates(y, s, x);
    var u := Mul(y, Mul(s, x));
    MulAddRight(y, Mul(s, x), c);
    MulAddLeft(x, r, c);
    MulCommutes(x, c);
    MulCommutes(r, c);
    var v, w := Mul(c, x), Mul(c, r);
    AddAssociates(u, Add(v, w), Add(w, last));
    AddAssociates(v, w, Add(w, last));
    AddAssociates(w, w, last);
    AddSelf(w, 0);
    AddSelf(last, 0);
    AddAssociates(u, v, last);
  }

  /** A polynomial of degree below n <= 255 that vanishes at alpha^0 .. alpha^(n-1) is zero. */
  lemma {:induction false} FewRoots(p: Poly, n: nat)
    requires |p| == n <= 255
    requires forall i :: 0 <= i < n ==> Value(p, Power(i)) == 0
    ensures p == Zeros(n)
    decreases n
  {
    if n > 0 {
      var r := Power(n - 1);
      var s := Deflate(p, r);
      forall i | 0 <= i < n - 1 ensures Value(s, Power(i)) == 0 {
        DeflateDivides(p, r, Power(i));
        PowerInjective(i, n - 1, 255);
        AddSelf(Power(i), r);
        AddSelf(Mul(Add(Power(i), r), Value(s, Power(i))), 0);
        NoZeroDivisors(Add(Power(i), r), Value(s, Power(i)));
      }
      FewRoots(s, n - 1);
      forall k | 0 <= k < n ensures p[k] == 0 {
        assert k < n - 1 ==> s[k] == 0;
        assert k > 0 ==> s[k - 1] == 0;
        assert p[..n] == p;
        assert Value(p[..k + 1], r) == 0;
        assert p[..k + 1][..k] == p[..k];
        assert k == 0 ==> p[..k] == [];
        MulZero(r);
        AddSelf(p[k], 0);
      }
    }
  }

  /** Equal data cancels: the tails differ by the difference of the two values. */
  lemma ValueOfDifference(data: Poly, rest: Poly, other: Poly, x: Byte)
    requires |rest| == |other|
    ensures Value(Sum(rest, other), x) == Add(Value(data + rest, x), Value(data + other, x))
  {
    ValueSum(data + rest, data + other, x);
    SumOfTails(data, rest, other);
    ValueLeadingZeros(|data|, Sum(rest, other), x);
  }

  lemma SumOfTails(data: Poly, rest: Poly, other: Poly)
    requires |rest| == |other|
    ensures Sum(data + rest, data + other) == Zeros(|data|) + Sum(rest, other)
  {
    var both, tail := Sum(data + rest, data + other), Sum(rest, other);
    forall k | 0 <= k < |both| ensures both[k] == (Zeros(|data|) + tail)[k] {
      if k < |data| { AddSelf(data[k], 0); }
    }
  }

  /** The remainder is the only tail of its length that makes every syndrome zero. */
  lemma SyndromesDetermine(data: Poly, n: nat, rest: Poly, other: Poly)
    requires |rest| == |other| == n <= 255 && IsRemainder(data, Generator(n), rest)
    requires forall i :: 0 <= i < n ==> Value(data + other, Power(i)) == 0
    ensures other == rest
  {
    var d := Sum(rest, other);
    forall i | 0 <= i < n ensures Value(d, Power(i)) == 0 {
      SyndromesVanish(data, n, rest, i);
      ValueOfDifference(data, rest, other, Power(i));
      AddSelf(0, 0);
    }
    FewRoots(d, n);
    forall k | 0 <= k < n ensures other[k] == rest[k] {
      assert d[k] == 0;
      AddSelf(rest[k], other[k]);
    }
  }

  // ----- the shift register

  /** One byte through the shift register: the quotient gains the coefficient `factor`. */
  lemma ShiftRegisterStep(data: Poly, g: Poly, q: Poly, rest: Poly, byte: Byte, rest': Poly)
    requires |rest| > 0 && |g| == |rest| + 1 == |rest'| + 1 && |q| == |data| && g[0] == 1
    requires Divides(data, g, q, rest)
    requires var factor := Add(byte, rest[0]);
      forall k :: 0 <= k < |rest| ==> rest'[k] == Add((rest[1..] + [0])[k], Mul(g[k + 1], factor))
    ensures Divides(data + [byte], g, q + [Add(byte, rest[0])], rest')
  {
    var n, d, f := |rest|, |data|, Add(byte, rest[0]);
    var p := Product(q, g) + [0];
    var left := data + [byte] + Zeros(n);
    var q' := q + [f];
    assert q'[..d] == q;
    assert Product(q', g) == Sum(p, Zeros(d) + Scale(g, f));
    var right := Sum(Product(q', g), Zeros(d + 1) + rest');
    forall k | 0 <= k < d + 1 + n ensures left[k] == right[k] {
      if k < d {
        assert (data + Zeros(n))[k] == Add(p[k], 0);
        AddSelf(p[k], 0);
      } else if k == d {
        assert (data + Zeros(n))[k] == Add(p[k], rest[0]) == 0;
        AddSelf(p[k], rest[0]);
        MulOne(f);
        AddSelf(byte, rest[0]);
        AddCommutes(byte, rest[0]);
        AddAssociates(p[k], p[k], byte);
        AddSelf(p[k], 0);
        AddSelf(byte, 0);
      } else {
        var j := k - d;
        var was, m := (rest + [0])[j], Mul(g[j], f);
        if j < n {
          assert (data + Zeros(n))[k] == Add(p[k], rest[j]) == 0;
        }
        AddSelf(p[k], was);
        assert rest'[j - 1] == Add(was, m);
        AddCommutes(was, m);
        AddAssociates(Add(p[k], m), m, was);
        AddSelf(p[k], m);
      }
    }
    assert left == right;
    assert data + [byte] + Zeros(n) == (data + [byte]) + Zeros(n);
  }

  lemma StartOfDivision(g: Poly, n: nat)
    requires |g| == n + 1
    ensures Divides([], g, [], Zeros(n))
  {
    AddSelf(0, 0);
    assert Product([], g) == Zeros(n);
    assert [] + Zeros(n) == Sum(Zeros(n), Zeros(0) + Zeros(n));
  }

  /** Multiply the generator so far by one more linear factor. */
  method NextGenerator(tables: Tables, generator: Poly, root: Byte) returns (next: Poly)
    requires tables.Valid() && |generator| > 0
    ensures next == Product(generator, [1, root])
  {
    hide Scale, Zeros, Power, Add, Mul;
    var buffer := new Byte[|generator| + 1](_ => 0);
    ghost var want := Product(generator, [1, root]);
    ProductLinear(generator, root);
    for position := 0 to |generator|
      invariant forall k :: 0 <= k < position ==> buffer[k] == want[k]
      invariant buffer[position] == if position == 0 then 0 else Mul(generator[position - 1], root)
      invariant forall k :: position < k <= |generator| ==> buffer[k] == 0
      invariant tables.Valid()
    {
      var factor := tables.Multiply(generator[position], root);
      AddCommutes(buffer[position], generator[position]);
      AddSelf(generator[position], factor);
      AddSelf(factor, 0);
      buffer[position] := Add(buffer[position], generator[position]);
      buffer[position + 1] := Add(buffer[position + 1], factor);
    }
    next := buffer[..];
  }

  /** The error correction words of one block. */
  method Encode(tables: Tables, data: seq<Byte>, ecLength: nat) returns (rest: seq<Byte>)
    requires tables.Valid() && 0 < ecLength <= 255
    ensures |rest| == ecLength && IsRemainder(data, Generator(ecLength), rest)
  {
    hide Product, HoldsLogs;
    var generator: Poly := [1];
    for index := 0 to ecLength
      invariant generator == Generator(index)
    {
      generator := NextGenerator(tables, generator, tables.exp[index]);
    }
    GeneratorIsMonic(ecLength);
    var remainder := new Byte[ecLength](_ => 0);
    ghost var quotient: Poly := [];
    StartOfDivision(generator, ecLength);
    assert remainder[..] == Zeros(ecLength);
    for count := 0 to |data|
      invariant tables.Valid()
      invariant |quotient| == count && Divides(data[..count], generator, quotient, remainder[..])
    {
      quotient := Feed(tables, generator, data[count], remainder, data[..count], quotient);
      assert data[..count + 1] == data[..count] + [data[count]];
    }
    assert data[..|data|] == data;
    rest := remainder[..];
  }

  /** Shift one data byte through the register. */
  method Feed(tables: Tables, generator: Poly, byte: Byte, remainder: array<Byte>, ghost data: Poly, ghost q: Poly)
    returns (ghost q': Poly)
    requires tables.Valid() && remainder != tables.exp && remainder != tables.log
    requires remainder.Length > 0 && |generator| == remainder.Length + 1 && generator[0] == 1
    requires |q| == |data| && Divides(data, generator, q, remainder[..])
    modifies remainder
    ensures |q'| == |data| + 1 && Divides(data + [byte], generator, q', remainder[..])
  {
    ghost var before := remainder[..];
    var factor := Add(byte, remainder[0]);
    Shift(remainder);
    AddMultiples(tables, generator, factor, remainder);
    ShiftRegisterStep(data, generator, q, before, byte, remainder[..]);
    q' := q + [factor];
  }

  /** Drop the first word and append a zero, as the source does with shift and push. */
  method Shift(a: array<Byte>)
    requires a.Length > 0
    modifies a
    ensures a[..] == old(a[1..]) + [0]
  {
    for index := 0 to a.Length - 1
      invariant forall k :: 0 <= k < index ==> a[k] == old(a[k + 1])
      invariant forall k :: index <= k < a.Length ==> a[k] == old(a[k])
    {
      a[index] := a[index + 1];
    }
    a[a.Length - 1] := 0;
  }

  /** Add to each word the matching generator coefficient times `factor`. */
  method AddMultiples(tables: Tables, generator: Poly, factor: Byte, a: array<Byte>)
    requires tables.Valid() && |generator| == a.Length + 1 && a != tables.exp && a != tables.log
    modifies a
    ensures forall k :: 0 <= k < a.Length ==> a[k] == Add(old(a[k]), Mul(generator[k + 1], factor))
  {
    for index := 0 to a.Length
      invariant tables.Valid()
      invariant forall k :: 0 <= k < index ==> a[k] == Add(old(a[k]), Mul(generator[k + 1], factor))
      invariant forall k :: index <= k < a.Length ==> a[k] == old(a[k])
    {
      var product := tables.Multiply(generator[index + 1], factor);
      a[index] := Add(a[index], product);
    }
  }
}
