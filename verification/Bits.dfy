/** Natural numbers as bit strings: shifts, bitwise operations and their bits. */
module Bits {
  import opened Arithmetic

  function Pow2(n: nat): (r: nat)
    ensures r > 0
  {
    if n == 0 then 1 else 2 * Pow2(n - 1)
  }

  function Bit(a: nat, k: nat): bool {
    if k == 0 then a % 2 == 1 else Bit(a / 2, k - 1)
  }

  function Shl(a: nat, s: nat): nat {
    if s == 0 then a else 2 * Shl(a, s - 1)
  }

  function Shr(a: nat, s: nat): nat {
    if s == 0 then a else Shr(a / 2, s - 1)
  }

  function Or(a: nat, b: nat): nat
    decreases a + b
  {
    if a == 0 && b == 0 then 0
    else 2 * Or(a / 2, b / 2) + (if a % 2 == 1 || b % 2 == 1 then 1 else 0)
  }

  function And(a: nat, b: nat): nat {
    if a == 0 then 0 else 2 * And(a / 2, b / 2) + (if a % 2 == 1 && b % 2 == 1 then 1 else 0)
  }

  function AndNot(a: nat, b: nat): nat {
    if a == 0 then 0 else 2 * AndNot(a / 2, b / 2) + (if a % 2 == 1 && b % 2 == 0 then 1 else 0)
  }

  /** The number with bits 0 to n-1 set. */
  function Mask(n: nat): nat {
    Pow2(n) - 1
  }

  lemma {:induction false} ZeroBit(k: nat)
    ensures !Bit(0, k)
  {
    if k > 0 {
      ZeroBit(k - 1);
    }
  }

  lemma {:induction false} OrBit(a: nat, b: nat, k: nat)
    ensures Bit(Or(a, b), k) <==> Bit(a, k) || Bit(b, k)
  {
    if a == 0 && b == 0 {
      ZeroBit(k);
    } else if k > 0 {
      assert Or(a, b) / 2 == Or(a / 2, b / 2);
      OrBit(a / 2, b / 2, k - 1);
    }
  }

  lemma {:induction false} AndBit(a: nat, b: nat, k: nat)
    ensures Bit(And(a, b), k) <==> Bit(a, k) && Bit(b, k)
  {
    if a == 0 {
      ZeroBit(k);
    } else if k > 0 {
      assert And(a, b) / 2 == And(a / 2, b / 2);
      AndBit(a / 2, b / 2, k - 1);
    }
  }

  lemma {:induction false} AndNotBit(a: nat, b: nat, k: nat)
    ensures Bit(AndNot(a, b), k) <==> Bit(a, k) && !Bit(b, k)
  {
    if a == 0 {
      ZeroBit(k);
    } else if k > 0 {
      assert AndNot(a, b) / 2 == AndNot(a / 2, b / 2);
      AndNotBit(a / 2, b / 2, k - 1);
    }
  }

  lemma {:induction false} ShlBit(a: nat, s: nat, k: nat)
    ensures Bit(Shl(a, s), k) <==> k >= s && Bit(a, k - s)
  {
    if s > 0 && k > 0 {
      assert Shl(a, s) / 2 == Shl(a, s - 1);
      ShlBit(a, s - 1, k - 1);
    }
  }

  lemma {:induction false} ShrBit(a: nat, s: nat, k: nat)
    ensures Bit(Shr(a, s), k) <==> Bit(a, k + s)
  {
    if s > 0 {
      ShrBit(a / 2, s - 1, k);
    }
  }

  lemma {:induction false} MaskBit(n: nat, k: nat)
    ensures Bit(Mask(n), k) <==> k < n
  {
    if n == 0 {
      ZeroBit(k);
    } else if k > 0 {
      assert Mask(n) / 2 == Mask(n - 1);
      MaskBit(n - 1, k - 1);
    }
  }

  /** Numbers with the same bits are equal. */
  lemma {:induction false} SameBits(a: nat, b: nat)
    requires forall k: nat :: Bit(a, k) == Bit(b, k)
    ensures a == b
    decreases a + b
  {
    assert Bit(a, 0) == Bit(b, 0);
    if a > 0 || b > 0 {
      forall k: nat ensures Bit(a / 2, k) == Bit(b / 2, k) {
        assert Bit(a, k + 1) == Bit(b, k + 1);
      }
      SameBits(a / 2, b / 2);
    }
  }

  lemma {:induction false} HighBitsZero(a: nat, n: nat, k: nat)
    requires a < Pow2(n) && n <= k
    ensures !Bit(a, k)
  {
    if n == 0 {
      ZeroBit(k);
    } else {
      HighBitsZero(a / 2, n - 1, k - 1);
    }
  }

  /** A number without bits from position n on is below 2^n. */
  lemma {:induction false} BoundedByBits(a: nat, n: nat)
    requires forall k: nat :: Bit(a, k) ==> k < n
    ensures a < Pow2(n)
  {
    if n == 0 {
      forall k: nat ensures Bit(a, k) == Bit(0, k) {
        ZeroBit(k);
      }
      SameBits(a, 0);
    } else {
      forall k: nat | Bit(a / 2, k) ensures k < n - 1 {
        assert Bit(a, k + 1);
      }
      BoundedByBits(a / 2, n - 1);
    }
  }

  /** A non-zero number has a bit. */
  lemma {:induction false} SomeBit(a: nat) returns (k: nat)
    requires a > 0
    ensures Bit(a, k)
  {
    if a % 2 == 1 {
      k := 0;
    } else {
      k := SomeBit(a / 2);
      k := k + 1;
    }
  }

  lemma {:induction false} ShlIsMul(a: nat, s: nat)
    ensures Shl(a, s) == a * Pow2(s)
  {
    if s > 0 {
      ShlIsMul(a, s - 1);
    }
  }

  lemma {:induction false} ShrIsDiv(a: nat, s: nat)
    ensures Shr(a, s) == a / Pow2(s)
  {
    if s > 0 {
      ShrIsDiv(a / 2, s - 1);
      DivDiv(a, Pow2(s - 1));
    }
  }

  /** Combining a number with one that fits below it is adding. */
  lemma {:induction false} OrBelow(a: nat, n: nat, b: nat)
    requires b < Pow2(n)
    ensures Or(Shl(a, n), b) == a * Pow2(n) + b
    decreases n
  {
    if n == 0 {
      OrZero(a);
    } else {
      OrBelow(a, n - 1, b / 2);
      hide Or;
      assert Shl(a, n) == 2 * Shl(a, n - 1);
      OrDouble(Shl(a, n - 1), b);
      DoubleProduct(a, Pow2(n - 1), b);
    }
  }

  lemma DoubleProduct(a: nat, p: nat, b: nat)
    ensures 2 * (a * p + b / 2) + b % 2 == a * (2 * p) + b
  {
  }

  lemma OrDouble(x: nat, b: nat)
    ensures Or(2 * x, b) == 2 * Or(x, b / 2) + b % 2
  {
    assert (2 * x) / 2 == x && (2 * x) % 2 == 0;
  }

  lemma {:induction false} OrZero(a: nat)
    ensures Or(a, 0) == a
  {
    if a > 0 {
      OrZero(a / 2);
    }
  }

  lemma {:induction false} Pow2Monotone(a: nat, b: nat)
    requires a <= b
    ensures Pow2(a) <= Pow2(b)
  {
    if a < b {
      Pow2Monotone(a, b - 1);
    }
  }

  lemma {:induction false} Pow2Add(a: nat, b: nat)
    ensures Pow2(a + b) == Pow2(a) * Pow2(b)
  {
    if a > 0 {
      Pow2Add(a - 1, b);
    }
  }

  ghost predicate IsPow2(a: nat) {
    exists n: nat :: a == Pow2(n)
  }

  lemma Squared(n: nat, v: nat)
    requires Pow2(n) == v
    ensures Pow2(n + n) == v * v
  {
    Pow2Add(n, n);
  }

  /** The sizes of machine words are powers of two. The number is a parameter, so that the powers
      are not evaluated. */
  lemma WordSizes(n: nat)
    requires n == 4
    ensures Pow2(8 * n) == TWO32 && Pow2(16 * n) == TWO64 && TWO64 == 2 * TWO63
  {
    assert Pow2(0) == 1 && Pow2(1) == 2 && Pow2(2) == 4 && Pow2(3) == 8;
    assert Pow2(n) == 16;
    hide Pow2;
    Squared(n, 16);
    Squared(2 * n, 256);
    Squared(4 * n, 65536);
    Squared(8 * n, 0x1_0000_0000);
  }

  lemma Pow2DividesPow2(m: nat, n: nat)
    requires m <= n
    ensures Pow2(n) % Pow2(m) == 0
  {
    Pow2Add(n - m, m);
    MulMod(Pow2(n - m), Pow2(m));
  }

  /** Of two powers of two, the smaller divides the larger. */
  lemma Pow2Divides(a: nat, b: nat)
    requires IsPow2(a) && IsPow2(b) && 0 < a <= b
    ensures b % a == 0
  {
    var m: nat :| a == Pow2(m);
    var n: nat :| b == Pow2(n);
    if m <= n {
      Pow2DividesPow2(m, n);
    } else {
      Pow2Monotone(n + 1, m);
    }
  }
}
