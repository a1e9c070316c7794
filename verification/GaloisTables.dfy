/** The antilog and log tables of apps/web/src/lib/qr.ts and the multiplication that uses them. */
module GaloisTables {
  import opened Bytes
  import opened Gf256
  import opened GaloisPowers

  /** `exp` holds the powers of alpha below exponent `n`. */
  ghost predicate HoldsPowers(exp: array<Byte>, n: nat)
    reads exp
  {
    n <= exp.Length && forall k :: 0 <= k < n ==> exp[k] == Power(k)
  }

  /** `log` maps each power of alpha below exponent `n` back to its exponent. */
  ghost predicate HoldsLogs(log: array<Byte>, n: nat)
    reads log
  {
    log.Length == 256 && n <= 255 && forall k :: 0 <= k < n ==> log[Power(k)] == k
  }

  lemma LogsExtend(log: array<Byte>, n: nat)
    requires HoldsLogs(log, n) && n < 255
    ensures forall k :: 0 <= k < n ==> Power(k) != Power(n)
  {
    forall k | 0 <= k < n ensures Power(k) != Power(n) {
      PowerInjective(k, n, 255);
    }
  }

  lemma FirstPower()
    ensures Power(0) == 1
  {
  }

  lemma NextValue(value: Byte, index: nat)
    requires value == Power(index)
    ensures Power(index + 1) == if 2 * value >= 256 then Xor(2 * value, 0x11d) else 2 * value
  {
  }

  class Tables {
    const exp: array<Byte>
    const log: array<Byte>

    ghost predicate Valid()
      reads this, exp, log
    {
      exp.Length == 512 && HoldsPowers(exp, 512) && HoldsLogs(log, 255)
    }

    constructor ()
      ensures Valid() && fresh(exp) && fresh(log)
    {
      exp := new Byte[512](_ => 0);
      log := new Byte[256](_ => 0);
      new;
      hide Times2, Power;
      FirstPower();
      var value: nat := 1;
      var index := 0;
      while index < 255
        invariant index <= 255 && value == Power(index)
        invariant HoldsPowers(exp, index) && HoldsLogs(log, index)
      {
        LogsExtend(log, index);
        exp[index] := value;
        log[value] := index;
        NextValue(value, index);
        value := 2 * value;
        if value >= 256 {
          value := Xor(value, 0x11d);
        }
        index := index + 1;
      }
      Double();
    }

    /** Extend the antilog table so that a sum of two logs needs no reduction. */
    method Double()
      requires exp.Length == 512 && exp != log && HoldsPowers(exp, 255) && HoldsLogs(log, 255)
      modifies exp
      ensures Valid()
    {
      var index := 255;
      while index < 512
        invariant 255 <= index <= 512
        invariant HoldsPowers(exp, index) && HoldsLogs(log, 255)
      {
        Reduces(index, index - 255, 1, 255);
        exp[index] := exp[index - 255];
        index := index + 1;
      }
    }

    /** The table lookup is multiplication in the field. */
    function Multiply(left: Byte, right: Byte): (product: Byte)
      requires Valid()
      reads this, exp, log
      ensures product == Mul(left, right)
    {
      if left == 0 || right == 0 then
        (MulZero(left); MulZero(right); 0)
      else
        (LookUp(left, right); var i: nat, j: nat := log[left], log[right]; exp[i + j])
    }

    lemma LookUp(left: Byte, right: Byte)
      requires Valid() && left != 0 && right != 0
      ensures var i: nat, j: nat := log[left], log[right]; i + j < 512 && exp[i + j] == Mul(left, right)
    {
      hide Times2;
      EveryByteIsPower(left);
      EveryByteIsPower(right);
      var i :| 0 <= i < 255 && Power(i) == left;
      var j :| 0 <= j < 255 && Power(j) == right;
      PowerAdd(i, j);
    }
  }
}
