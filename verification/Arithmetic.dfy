/** Division, remainders and alignment. */
module Arithmetic {
  // Sizes of machine words.
  const TWO32: nat := 0x1_0000_0000
  const TWO63: nat := 0x8000_0000_0000_0000
  const TWO64: nat := 0x1_0000_0000_0000_0000

  function MaxNat(a: nat, b: nat): nat {
    if b > a then b else a
  }

  lemma ModUnique(x: int, m: int, q: int, r: int)
    requires m > 0 && x == q * m + r && 0 <= r < m
    ensures x / m == q && x % m == r
  {
    var d := x / m - q;
    assert x == (x / m) * m + x % m;
    assert d * m == r - x % m;
    assert d >= 1 ==> d * m >= m;
    assert d <= -1 ==> d * m <= -m;
  }

  lemma SmallMod(x: nat, m: nat)
    requires x < m
    ensures x % m == x
  {
  }

  lemma MulMod(q: nat, a: nat)
    requires a > 0
    ensures (q * a) % a == 0 && (q * a) / a == q
  {
    ModUnique(q * a, a, q, 0);
  }

  lemma AddMultiple(x: nat, q: nat, a: nat)
    requires a > 0
    ensures (x + q * a) % a == x % a && (x + q * a) / a == x / a + q
  {
    assert x + q * a == (x / a + q) * a + x % a;
    ModUnique(x + q * a, a, x / a + q, x % a);
  }

  /** Sums and products of multiples are multiples. */
  lemma SumOfMultiples(x: nat, y: nat, a: nat)
    requires a > 0 && x % a == 0 && y % a == 0
    ensures (x + y) % a == 0
  {
    AddMultiple(x, y / a, a);
  }

  lemma DifferenceOfMultiples(x: nat, y: nat, a: nat)
    requires a > 0 && x % a == 0 && y % a == 0 && y <= x
    ensures (x - y) % a == 0 && (x - y) / a == x / a - y / a
  {
    assert x - y == (x / a - y / a) * a;
    ModUnique(x - y, a, x / a - y / a, 0);
  }

  lemma ProductOfMultiple(n: nat, x: nat, a: nat)
    requires a > 0 && x % a == 0
    ensures (n * x) % a == 0 && (n * x) / a == n * (x / a)
  {
    assert x == (x / a) * a;
    assert n * x == (n * (x / a)) * a;
    MulMod(n * (x / a), a);
  }

  lemma MultipleOfMultiple(x: nat, a: nat, b: nat)
    requires a > 0 && b > 0 && x % a == 0 && a % b == 0
    ensures x % b == 0
  {
    ProductOfMultiple(x / a, a, b);
    assert x == (x / a) * a;
  }

  lemma DivDiv(a: nat, m: nat)
    requires m > 0
    ensures (a / 2) / m == a / (2 * m)
  {
    var q, r := a / (2 * m), a % (2 * m);
    assert a == q * (2 * m) + r;
    assert a / 2 == q * m + r / 2;
    ModUnique(a / 2, m, q, r / 2);
  }

  /** The smallest multiple of `a` that is at least `x`. */
  function AlignUp(x: nat, a: nat): (y: nat)
    requires a > 0
    ensures x <= y < x + a && y % a == 0
  {
    var z := x + a - 1;
    assert (z - z % a) % a == 0 by { RoundDown(z, a); }
    z - z % a
  }

  lemma RoundDown(z: nat, a: nat)
    requires a > 0
    ensures (z - z % a) % a == 0
  {
    assert z - z % a == (z / a) * a;
    MulMod(z / a, a);
  }

  lemma AlignUpOfMultiple(x: nat, a: nat)
    requires a > 0 && x % a == 0
    ensures AlignUp(x, a) == x
  {
    var y := AlignUp(x, a);
    DifferenceOfMultiples(y, x, a);
    var q := (y - x) / a;
    assert y - x == q * a;
    assert q >= 1 ==> q * a >= a;
  }

  /** The least multiple of `a` at or after `x`. */
  predicate IsLeastMultiple(y: nat, x: nat, a: nat)
    requires a > 0
  {
    x <= y < x + a && y % a == 0
  }

  lemma LeastMultipleIsLeast(y: nat, x: nat, a: nat, z: nat)
    requires a > 0 && IsLeastMultiple(y, x, a) && x <= z && z % a == 0
    ensures y <= z
  {
    var p, q := y / a, z / a;
    assert y == p * a && z == q * a;
    assert q < p ==> (q + 1) * a <= p * a;
  }
}
