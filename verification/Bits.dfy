/** The bits of a word and `&` on two words, over the integers. */
module Bits {
  import opened Arith

  function Pow2(k: nat): (r: nat)
    ensures r > 0
  {
    if k == 0 then 1 else 2 * Pow2(k - 1)
  }

  /** Bit `k` of a word, the lowest being bit 0. */
  predicate Bit(a: nat, k: nat)
  {
    a / Pow2(k) % 2 == 1
  }

  lemma BitMeans(a: nat, k: nat)
    ensures Bit(a, k) <==> a / Pow2(k) % 2 == 1
  {
  }

  /** `a & b`. */
  function And(a: nat, b: nat): (r: nat)
  {
    if a == 0 || b == 0 then 0 else a % 2 * (b % 2) + 2 * And(a / 2, b / 2)
  }

  lemma HalfThen(a: nat, d: nat)
    requires 0 < d
    ensures a / (2 * d) == a / 2 / d
  {
    var q, r := a / 2 / d, a / 2 % d;
    assert a / 2 == d * q + r;
    assert a == 2 * d * q + (2 * r + a % 2);
    Quotient(a, 2 * d, q, 2 * r + a % 2);
  }

  lemma Quotient(a: nat, d: nat, q: nat, r: nat)
    requires r < d && a == d * q + r
    ensures a / d == q
  {
    Gap(a / d - q, d);
  }

  lemma BitOfHalf(a: nat, k: nat)
    ensures Bit(a, k + 1) <==> Bit(a / 2, k)
    ensures Bit(a, 0) <==> a % 2 == 1
  {
    HalfThen(a, Pow2(k));
  }

  lemma {:induction false} NoBits(k: nat)
    ensures !Bit(0, k)
  {
    if k > 0 {
      NoBits(k - 1);
      BitOfHalf(0, k - 1);
    }
  }

  /** A bit of `a & b` is set exactly when it is set in both. */
  lemma {:induction false} AndBits(a: nat, b: nat, k: nat)
    ensures Bit(And(a, b), k) <==> Bit(a, k) && Bit(b, k)
    decreases k
  {
    hide Bit;
    NoBits(k);
    if a != 0 && b != 0 {
      var low := a % 2 * (b % 2);
      LowBit(a % 2, b % 2);
      assert And(a, b) == low + 2 * And(a / 2, b / 2);
      BitOfHalf(And(a, b), if k > 0 then k - 1 else 0);
      BitOfHalf(a, if k > 0 then k - 1 else 0);
      BitOfHalf(b, if k > 0 then k - 1 else 0);
      if k > 0 {
        AndBits(a / 2, b / 2, k - 1);
      }
    }
  }

  lemma LowBit(x: nat, y: nat)
    requires x < 2 && y < 2
    ensures x * y < 2
    ensures x * y == 1 <==> x == 1 && y == 1
  {
  }

  /** A word of `n` bits is not zero exactly when one of them is set. */
  lemma {:induction false} SomeBit(a: nat, n: nat)
    requires a < Pow2(n)
    ensures a != 0 <==> exists k: nat :: k < n && Bit(a, k)
    decreases n
  {
    hide Bit;
    forall k: nat ensures !Bit(0, k) { NoBits(k); }
    if n > 0 && a != 0 {
      SomeBit(a / 2, n - 1);
      if a / 2 != 0 {
        var k: nat :| k < n - 1 && Bit(a / 2, k);
        BitOfHalf(a, k);
        assert Bit(a, k + 1);
      } else {
        BitOfHalf(a, 0);
      }
    }
  }

  lemma {:induction false} AndBelow(a: nat, b: nat)
    ensures And(a, b) <= a
  {
    if a != 0 && b != 0 {
      AndBelow(a / 2, b / 2);
      LowBit(a % 2, b % 2);
      assert a % 2 * (b % 2) <= a % 2;
    }
  }

  /** Two words of `n` bits meet exactly when some bit is set in both. */
  lemma Meet(a: nat, b: nat, n: nat)
    requires a < Pow2(n)
    ensures And(a, b) != 0 <==> exists k: nat :: k < n && Bit(a, k) && Bit(b, k)
  {
    hide And, Bit;
    AndBelow(a, b);
    SomeBit(And(a, b), n);
    forall k: nat
      ensures Bit(And(a, b), k) <==> Bit(a, k) && Bit(b, k)
    {
      AndBits(a, b, k);
    }
  }

  lemma WordBits()
    ensures Pow2(32) == 0x1_0000_0000
  {
    assert Pow2(8) == 256;
    assert Pow2(16) == 65536 by {
      assert Pow2(12) == 4096;
    }
    assert Pow2(20) == 1048576;
    assert Pow2(24) == 16777216;
    assert Pow2(28) == 268435456;
  }
}
