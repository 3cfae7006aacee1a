/** Bitwise operations on unsigned words, as arithmetic on their binary expansions. */
module Bits {
  import opened Common

  function Pow2(n: nat): (p: nat)
    ensures p >= 1
  {
    if n == 0 then 1 else 2 * Pow2(n - 1)
  }

  predicate Bit(a: nat, k: nat) {
    if k == 0 then a % 2 == 1 else Bit(a / 2, k - 1)
  }

  function And(a: nat, b: nat): nat {
    if a == 0 || b == 0 then 0 else 2 * And(a / 2, b / 2) + (if a % 2 == 1 && b % 2 == 1 then 1 else 0)
  }

  function Or(a: nat, b: nat): nat
    decreases a + b
  {
    if a == 0 && b == 0 then 0 else 2 * Or(a / 2, b / 2) + (if a % 2 == 1 || b % 2 == 1 then 1 else 0)
  }

  lemma {:induction false} ZeroHasNoBit(k: nat)
    ensures !Bit(0, k)
  {
    if k > 0 { ZeroHasNoBit(k - 1); }
  }

  lemma Halved(h: nat, low: bool, k: nat)
    requires k > 0
    ensures Bit(2 * h + (if low then 1 else 0), k) <==> Bit(h, k - 1)
  {
  }

  lemma {:induction false} AndBit(a: nat, b: nat, k: nat)
    ensures Bit(And(a, b), k) <==> Bit(a, k) && Bit(b, k)
  {
    if a == 0 || b == 0 {
      ZeroHasNoBit(k);
    } else if k > 0 {
      AndBit(a / 2, b / 2, k - 1);
      Halved(And(a / 2, b / 2), a % 2 == 1 && b % 2 == 1, k);
    }
  }

  lemma {:induction false} OrBit(a: nat, b: nat, k: nat)
    ensures Bit(Or(a, b), k) <==> Bit(a, k) || Bit(b, k)
  {
    if a == 0 && b == 0 {
      ZeroHasNoBit(k);
    } else if k > 0 {
      OrBit(a / 2, b / 2, k - 1);
      Halved(Or(a / 2, b / 2), a % 2 == 1 || b % 2 == 1, k);
    }
  }

  lemma {:induction false} Pow2Bit(n: nat, k: nat)
    ensures Bit(Pow2(n), k) <==> k == n
  {
    if n == 0 {
      if k > 0 { ZeroHasNoBit(k - 1); }
    } else if k > 0 {
      Pow2Bit(n - 1, k - 1);
    }
  }

  lemma {:induction false} NonZeroHasBit(a: nat) returns (k: nat)
    requires a != 0
    ensures Bit(a, k)
  {
    if a % 2 == 1 {
      k := 0;
    } else {
      k := NonZeroHasBit(a / 2);
      k := k + 1;
    }
  }

  /** A word is determined by its bits. */
  lemma {:induction false} SameBits(a: nat, b: nat)
    requires forall k: nat :: Bit(a, k) <==> Bit(b, k)
    ensures a == b
    decreases a + b
  {
    if a + b > 0 {
      assert Bit(a, 0) <==> Bit(b, 0);
      forall k: nat ensures Bit(a / 2, k) <==> Bit(b / 2, k) {
        assert Bit(a, k + 1) <==> Bit(b, k + 1);
      }
      SameBits(a / 2, b / 2);
    }
  }

  function Popcount(a: nat): nat {
    if a == 0 then 0 else a % 2 + Popcount(a / 2)
  }

  lemma {:induction false} Pow2Sum(m: nat, n: nat)
    ensures Pow2(m + n) == Pow2(m) * Pow2(n)
  {
    if m > 0 {
      Pow2Sum(m - 1, n);
      assert Pow2(m + n) == 2 * Pow2(m - 1 + n);
      assert 2 * (Pow2(m - 1) * Pow2(n)) == (2 * Pow2(m - 1)) * Pow2(n);
    }
  }

  lemma {:induction false} Pow2Grows(m: nat, n: nat)
    requires m < n
    ensures Pow2(m) < Pow2(n)
  {
    if m + 1 < n { Pow2Grows(m, n - 1); }
  }

  lemma {:induction false} OnesBits(n: nat, k: nat)
    ensures Bit(Pow2(n) - 1, k) <==> k < n
  {
    if n == 0 {
      ZeroHasNoBit(k);
    } else if k > 0 {
      Halved(Pow2(n - 1) - 1, true, k);
      OnesBits(n - 1, k - 1);
    }
  }

  lemma {:induction false} ShiftedUp(a: nat, m: nat, k: nat)
    ensures Bit(Pow2(m) * a, k) <==> k >= m && Bit(a, k - m)
  {
    if m > 0 {
      var h := Pow2(m - 1) * a;
      assert Pow2(m) * a == 2 * h;
      if k > 0 {
        Halved(h, false, k);
        ShiftedUp(a, m - 1, k - 1);
      }
    }
  }

  lemma {:induction false} NoHighBits(a: nat, n: nat)
    requires forall j: nat | j >= n :: !Bit(a, j)
    ensures a < Pow2(n)
    decreases n
  {
    if n == 0 {
      if a != 0 { var k := NonZeroHasBit(a); }
    } else {
      forall j: nat | j >= n - 1 ensures !Bit(a / 2, j) { assert !Bit(a, j + 1); }
      NoHighBits(a / 2, n - 1);
    }
  }

  lemma {:induction false} HasBitBelow(a: nat, n: nat, k: nat)
    requires a < Pow2(n) && Bit(a, k)
    ensures k < n
  {
    if n == 0 {
      ZeroHasNoBit(k);
    } else if k > 0 {
      HasBitBelow(a / 2, n - 1, k - 1);
    }
  }

  lemma {:induction false} OrZero(a: nat)
    ensures Or(a, 0) == a
  {
    if a > 0 { OrZero(a / 2); }
  }

  lemma WordIsPow2()
    ensures Pow2(64) == WORD
  {
    assert Pow2(2) == 4;
    Pow2Sum(2, 2);
    Pow2Sum(4, 4);
    Pow2Sum(8, 8);
    Pow2Sum(16, 16);
    Pow2Sum(32, 32);
  }
}
