/** Bits of nonnegative integers, as Python's shift, or, xor and bin see them. */
module Bits {

  /** `x >> i` */
  function Shr(x: nat, i: nat): nat {
    if i == 0 then x else Shr(x / 2, i - 1)
  }

  predicate Bit(x: nat, i: nat) {
    Shr(x, i) % 2 == 1
  }

  /** `1 << i` */
  function Shl1(i: nat): (p: nat)
    ensures p > 0
  {
    if i == 0 then 1 else 2 * Shl1(i - 1)
  }

  /** `a | b` */
  function Or(a: nat, b: nat): nat
    decreases a + b
  {
    if a == 0 && b == 0 then 0 else 2 * Or(a / 2, b / 2) + if a % 2 == 1 || b % 2 == 1 then 1 else 0
  }

  /** `a ^ b` */
  function Xor(a: nat, b: nat): nat
    decreases a + b
  {
    if a == 0 && b == 0 then 0 else 2 * Xor(a / 2, b / 2) + (a % 2 + b % 2) % 2
  }

  /** `bin(x).count("1")` */
  function Ones(x: nat): nat {
    if x == 0 then 0 else x % 2 + Ones(x / 2)
  }

  lemma {:induction false} ZeroHasNoBit(i: nat)
    ensures !Bit(0, i)
  {
    if i > 0 {
      ZeroHasNoBit(i - 1);
    }
  }

  lemma OrHalves(a: nat, b: nat)
    ensures Or(a, b) / 2 == Or(a / 2, b / 2) && (Or(a, b) % 2 == 1 <==> a % 2 == 1 || b % 2 == 1)
  {
  }

  lemma {:induction false} BitOfOr(a: nat, b: nat, i: nat)
    ensures Bit(Or(a, b), i) <==> Bit(a, i) || Bit(b, i)
    decreases i
  {
    OrHalves(a, b);
    if i > 0 {
      BitOfOr(a / 2, b / 2, i - 1);
    }
  }

  lemma {:induction false} BitOfShl1(k: nat, i: nat)
    ensures Bit(Shl1(k), i) <==> i == k
  {
    if k == 0 {
      if i > 0 {
        ZeroHasNoBit(i - 1);
      }
    } else if i > 0 {
      BitOfShl1(k - 1, i - 1);
    }
  }

  /** Setting bit n of a number below 2^n. */
  lemma {:induction false} OrNewBit(x: nat, n: nat)
    requires x < Shl1(n)
    ensures Or(x, Shl1(n)) == x + Shl1(n) < Shl1(n + 1)
  {
    if n == 0 {
      assert Or(0, 1) == 2 * Or(0, 0) + 1;
    } else {
      assert Shl1(n) / 2 == Shl1(n - 1) && Shl1(n) % 2 == 0;
      OrNewBit(x / 2, n - 1);
    }
  }

  /** Numbers below 2^n are equal as soon as their first n bits are. */
  lemma {:induction false} BitsDetermine(a: nat, b: nat, n: nat)
    requires a < Shl1(n) && b < Shl1(n) && forall i: nat :: i < n ==> (Bit(a, i) <==> Bit(b, i))
    ensures a == b
  {
    if n > 0 {
      assert Bit(a, 0) <==> Bit(b, 0);
      forall i: nat | i < n - 1
        ensures Bit(a / 2, i) <==> Bit(b / 2, i)
      {
        assert Bit(a, i + 1) <==> Bit(b, i + 1);
      }
      BitsDetermine(a / 2, b / 2, n - 1);
    }
  }

  // ---------- Hamming distance ----------

  function Hamming(a: nat, b: nat): nat {
    Ones(Xor(a, b))
  }

  /** How many of the bits 0 to n-1 differ. */
  function DifferingBits(a: nat, b: nat, n: nat): nat {
    if n == 0 then 0 else DifferingBits(a, b, n - 1) + if Bit(a, n - 1) != Bit(b, n - 1) then 1 else 0
  }

  lemma {:induction false} DifferingBitsFromLow(a: nat, b: nat, n: nat)
    ensures DifferingBits(a, b, n + 1) == DifferingBits(a / 2, b / 2, n) + if a % 2 != b % 2 then 1 else 0
  {
    if n > 0 {
      DifferingBitsFromLow(a, b, n - 1);
    } else {
      assert DifferingBits(a, b, 1) == DifferingBits(a, b, 0) + if Bit(a, 0) != Bit(b, 0) then 1 else 0;
    }
  }

  lemma {:induction false} HammingCountsDifferences(a: nat, b: nat, n: nat)
    requires a < Shl1(n) && b < Shl1(n)
    ensures Hamming(a, b) == DifferingBits(a, b, n)
  {
    if n > 0 {
      HammingCountsDifferences(a / 2, b / 2, n - 1);
      DifferingBitsFromLow(a, b, n - 1);
      HammingStep(a, b);
    }
  }

  lemma HammingStep(a: nat, b: nat)
    ensures Hamming(a, b) == Hamming(a / 2, b / 2) + if a % 2 != b % 2 then 1 else 0
  {
    assert a + b > 0 ==> Xor(a, b) / 2 == Xor(a / 2, b / 2) && Xor(a, b) % 2 == (a % 2 + b % 2) % 2;
  }

  lemma {:induction false} HammingZero(a: nat, b: nat)
    ensures Hamming(a, b) == 0 <==> a == b
    decreases a + b
  {
    HammingStep(a, b);
    if a + b > 0 {
      HammingZero(a / 2, b / 2);
    }
  }

  lemma {:induction false} HammingSymmetric(a: nat, b: nat)
    ensures Hamming(a, b) == Hamming(b, a)
    decreases a + b
  {
    HammingStep(a, b);
    HammingStep(b, a);
    if a + b > 0 {
      HammingSymmetric(a / 2, b / 2);
    }
  }

  lemma {:induction false} HammingTriangle(a: nat, b: nat, c: nat)
    ensures Hamming(a, c) <= Hamming(a, b) + Hamming(b, c)
    decreases a + b + c
  {
    HammingStep(a, b);
    HammingStep(b, c);
    HammingStep(a, c);
    if a + b + c > 0 {
      HammingTriangle(a / 2, b / 2, c / 2);
    }
  }
}
