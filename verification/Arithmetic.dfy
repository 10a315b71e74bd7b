/** Minima, powers of two, and waits that double up to a cap. */
module Arithmetic {
  function Min(a: int, b: int): int { if a <= b then a else b }

  function Pow2(n: nat): nat { if n == 0 then 1 else 2 * Pow2(n - 1) }

  /** min(base · 2^n, cap) */
  function Doubling(base: int, cap: int, n: nat): int { Min(base * Pow2(n), cap) }

  lemma PowerIsPositive(n: nat)
    ensures Pow2(n) > 0
  {
  }

  lemma Twice(base: nat, p: nat)
    requires base > 0 && p > 0
    ensures base * (2 * p) == 2 * (base * p) && base * p > 0
  {
  }

  /** Such a wait is positive, doubles with each step up to the cap, and never shrinks. */
  lemma DoublesToTheCap(base: int, cap: int, n: nat)
    requires base > 0 && cap > 0
    ensures Doubling(base, cap, 0) == Min(base, cap)
    ensures 0 < Doubling(base, cap, n) <= cap
    ensures Doubling(base, cap, n) <= Doubling(base, cap, n + 1)
    ensures Doubling(base, cap, n + 1) == Min(2 * Doubling(base, cap, n), cap)
  {
    PowerIsPositive(n);
    Twice(base, Pow2(n));
  }
}
