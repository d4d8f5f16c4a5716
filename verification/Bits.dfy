/**
 * Bitwise operations on unsigned words, written out on natural numbers so that
 * the arithmetic meaning of a shift or a mask can be proved rather than assumed.
 */
module Bits {

  /** One more than the largest value of a 64-bit word. */
  const WORD := 0x1_0000_0000_0000_0000

  function Pow2(n: nat): (r: nat)
    ensures r > 0
  {
    if n == 0 then 1 else 2 * Pow2(n - 1)
  }

  function Or(a: nat, b: nat): nat
    decreases a + b
  {
    if a == 0 && b == 0 then 0
    else 2 * Or(a / 2, b / 2) + if a % 2 == 1 || b % 2 == 1 then 1 else 0
  }

  function And(a: nat, b: nat): nat
    decreases a + b
  {
    if a == 0 && b == 0 then 0
    else 2 * And(a / 2, b / 2) + if a % 2 == 1 && b % 2 == 1 then 1 else 0
  }

  function ShiftRight(x: nat, k: nat): nat {
    QuotientNonnegative(x, Pow2(k));
    x / Pow2(k)
  }

  /** A left shift of a 64-bit word: bits pushed past the top are lost. */
  function ShiftLeft(x: nat, k: nat): nat {
    x * Pow2(k) % WORD
  }

  lemma QuotientNonnegative(x: nat, m: nat)
    requires m > 0
    ensures x / m >= 0
  {
  }

  lemma {:induction false} OrZero(a: nat)
    ensures Or(a, 0) == a
  {
    if a > 0 {
      OrZero(a / 2);
    }
  }

  lemma {:induction false} AndZero(a: nat)
    ensures And(a, 0) == 0
  {
    if a > 0 {
      AndZero(a / 2);
    }
  }

  /** Joining a field to bits that lie entirely below it is addition. */
  lemma {:induction false} OrDisjoint(hi: nat, lo: nat, k: nat)
    requires lo < Pow2(k)
    ensures Or(hi * Pow2(k), lo) == hi * Pow2(k) + lo
  {
    if k == 0 {
      OrZero(hi);
    } else {
      var half := hi * Pow2(k - 1);
      assert hi * Pow2(k) == 2 * half;
      OrDisjoint(hi, lo / 2, k - 1);
      assert Or(2 * half, lo) == 2 * Or(half, lo / 2) + lo % 2;
    }
  }

  /** A nonzero multiple of a positive number is at least that number away from zero. */
  lemma MultipleIsFar(d: int, m: int)
    requires m > 0
    ensures d > 0 ==> d * m >= m
    ensures d < 0 ==> d * m <= -m
  {
  }

  lemma EuclidUnique(x: int, m: int, q: int, r: int)
    requires 0 <= r < m && x == q * m + r
    ensures x / m == q && x % m == r
  {
    var d := x / m - q;
    assert d * m == x / m * m - q * m;
    MultipleIsFar(d, m);
  }

  /** Dropping the lowest bit of a number drops it from its remainder too. */
  lemma HalveRemainder(x: nat, m: nat)
    requires m > 0
    ensures x % (2 * m) == 2 * (x / 2 % m) + x % 2
  {
    var q, r := x / 2 / m, x / 2 % m;
    assert x / 2 == q * m + r;
    assert q * (2 * m) == 2 * (q * m);
    EuclidUnique(x, 2 * m, q, 2 * r + x % 2);
  }

  /** Masking with k one bits is the remainder by the k-th power of two. */
  lemma {:induction false} AndMask(x: nat, k: nat)
    ensures And(x, Pow2(k) - 1) == x % Pow2(k)
  {
    if k == 0 {
      AndZero(x);
    } else {
      AndMask(x / 2, k - 1);
      AndMaskStep(x, Pow2(k - 1));
    }
  }

  lemma AndMaskStep(x: nat, m: nat)
    requires m > 0 && And(x / 2, m - 1) == x / 2 % m
    ensures And(x, 2 * m - 1) == x % (2 * m)
  {
    HalveRemainder(x, m);
    AndOddMask(x, m);
  }

  lemma AndOddMask(x: nat, m: nat)
    requires m > 0
    ensures And(x, 2 * m - 1) == 2 * And(x / 2, m - 1) + x % 2
  {
    var mask := 2 * m - 1;
    assert mask / 2 == m - 1 && mask % 2 == 1;
  }
}
