/** Numbers as bit strings, the highest bit first. */
module BitStrings {
  import opened Arithmetic
  import opened Bytes

  /** The number a bit string denotes. */
  function Number(b: seq<bool>): nat {
    if b == [] then 0 else 2 * Number(b[..|b| - 1]) + if b[|b| - 1] then 1 else 0
  }

  /** The right shift of a non-negative number. */
  function ShiftRight(value: nat, index: nat): nat {
    if index == 0 then value else ShiftRight(value / 2, index - 1)
  }

  /** The bit that a right shift by `index` exposes. */
  predicate BitSet(value: nat, index: nat) {
    ShiftRight(value, index) % 2 == 1
  }

  /** The last `n` binary digits of `value`. */
  function Bits(value: nat, n: nat): (b: seq<bool>)
    ensures |b| == n
  {
    seq(n, i requires 0 <= i < n => BitSet(value, n - 1 - i))
  }

  /** The last digit is the parity, the others are those of the half. */
  lemma BitsStep(value: nat, n: nat)
    requires n > 0
    ensures Bits(value, n) == Bits(value / 2, n - 1) + [value % 2 == 1]
  {
    var half := Bits(value / 2, n - 1);
    forall i | 0 <= i < n ensures Bits(value, n)[i] == (half + [value % 2 == 1])[i] {
      var k := n - 1 - i;
      assert Bits(value, n)[i] == BitSet(value, k);
      if i < n - 1 {
        assert half[i] == BitSet(value / 2, k - 1);
      }
    }
  }

  lemma {:induction false} NumberOfBits(value: nat, n: nat)
    requires value < Pow2(n)
    ensures Number(Bits(value, n)) == value
  {
    if n > 0 {
      BitsStep(value, n);
      NumberOfBits(value / 2, n - 1);
      var b := Bits(value, n);
      assert b[..n - 1] == Bits(value / 2, n - 1);
    }
  }

  lemma {:induction false} BitsOfNumber(b: seq<bool>)
    ensures Number(b) < Pow2(|b|) && Bits(Number(b), |b|) == b
  {
    if b != [] {
      BitsOfNumber(b[..|b| - 1]);
      BitsStep(Number(b), |b|);
    }
  }

  /** A concatenation denotes the first part shifted by the length of the second. */
  lemma {:induction false} NumberOfConcat(a: seq<bool>, b: seq<bool>)
    ensures Number(a + b) == Number(a) * Pow2(|b|) + Number(b)
  {
    if b == [] {
      assert a + b == a;
    } else {
      hide Number, Pow2;
      var n := |b| - 1;
      NumberOfConcat(a, b[..n]);
      NumberStep(a + b);
      NumberStep(b);
      assert (a + b)[..|a| + n] == a + b[..n] && (a + b)[|a| + n] == b[n];
      PowerStep(n);
      DoubleProduct(Number(a), Pow2(n));
    }
  }

  lemma NumberStep(b: seq<bool>)
    requires b != []
    ensures Number(b) == 2 * Number(b[..|b| - 1]) + if b[|b| - 1] then 1 else 0
  {
  }

  lemma PowerStep(n: nat)
    ensures Pow2(n + 1) == 2 * Pow2(n)
  {
  }

  /** Bit strings of equal length that denote the same number are equal. */
  lemma NumberDetermines(a: seq<bool>, b: seq<bool>)
    requires |a| == |b| && Number(a) == Number(b)
    ensures a == b
  {
    BitsOfNumber(a);
    BitsOfNumber(b);
  }

  /** The bits of a list of bytes. */
  function BytesToBits(bytes: seq<Byte>): (b: seq<bool>)
    ensures |b| == 8 * |bytes|
  {
    if bytes == [] then []
    else BytesToBits(bytes[..|bytes| - 1]) + Bits(bytes[|bytes| - 1], 8)
  }

  lemma {:induction false} ByteBits(bytes: seq<Byte>, i: nat)
    requires i < |bytes|
    ensures BytesToBits(bytes)[8 * i..8 * i + 8] == Bits(bytes[i], 8)
  {
    var n := |bytes| - 1;
    if i < n {
      ByteBits(bytes[..n], i);
      assert BytesToBits(bytes)[8 * i..8 * i + 8] == BytesToBits(bytes[..n])[8 * i..8 * i + 8];
    }
  }

  lemma {:induction false} ByteBitAt(bytes: seq<Byte>, i: nat, k: nat)
    requires i < |bytes| && k < 8
    ensures BytesToBits(bytes)[8 * i + k] == BitSet(bytes[i], 7 - k)
  {
    var n := |bytes| - 1;
    if i < n {
      ByteBitAt(bytes[..n], i, k);
    }
  }

  /** The byte that eight bits spell. */
  function ByteOf(b: seq<bool>): Byte
    requires |b| == 8
  {
    BitsOfNumber(b);
    assert Pow2(8) == 256;
    Number(b)
  }

  /** The byte each group of eight bits spells. */
  function BitsToBytes(b: seq<bool>): (bytes: seq<Byte>)
    requires |b| % 8 == 0
    ensures |bytes| == |b| / 8
    ensures forall i :: 0 <= i < |bytes| ==> bytes[i] == ByteOf(b[8 * i..8 * i + 8])
  {
    seq(|b| / 8, i requires 0 <= i < |b| / 8 => ByteOf(b[8 * i..8 * i + 8]))
  }

  lemma BytesRoundTrip(bytes: seq<Byte>)
    ensures BitsToBytes(BytesToBits(bytes)) == bytes
  {
    forall i | 0 <= i < |bytes| ensures BitsToBytes(BytesToBits(bytes))[i] == bytes[i] {
      ByteBits(bytes, i);
      assert Pow2(8) == 256;
      NumberOfBits(bytes[i], 8);
    }
  }

  lemma BitsRoundTrip(b: seq<bool>)
    requires |b| % 8 == 0
    ensures BytesToBits(BitsToBytes(b)) == b
  {
    var bytes := BitsToBytes(b);
    forall k | 0 <= k < |b| ensures BytesToBits(bytes)[k] == b[k] {
      var i := k / 8;
      ByteBits(bytes, i);
      BitsOfNumber(b[8 * i..8 * i + 8]);
      assert BytesToBits(bytes)[k] == BytesToBits(bytes)[8 * i..8 * i + 8][k - 8 * i];
      assert b[k] == b[8 * i..8 * i + 8][k - 8 * i];
    }
  }

  lemma BytesToBitsAppend(a: seq<Byte>, b: seq<Byte>)
    ensures BytesToBits(a + b) == BytesToBits(a) + BytesToBits(b)
  {
    if b == [] {
      assert a + b == a;
    } else {
      var n := |b| - 1;
      BytesToBitsAppend(a, b[..n]);
      assert (a + b)[..|a| + n] == a + b[..n];
    }
  }
}
