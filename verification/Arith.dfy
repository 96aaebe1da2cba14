/** Minimum and maximum, powers of two, and facts about products and remainders that the solver does not find by
    itself. */
module Arith {

  function Min(a: int, b: int): int {
    if a <= b then a else b
  }

  function Max(a: int, b: int): int {
    if a <= b then b else a
  }

  /** 2^n. */
  function Pow2(n: nat): (r: nat)
    ensures r >= 1
  {
    if n == 0 then 1 else 2 * Pow2(n - 1)
  }

  lemma ProductAtLeast(x: int, n: int)
    requires x >= 1 && n >= 0
    ensures x * n >= n
  {
  }

  /** The only multiple of n strictly between -n and n is zero. */
  lemma SmallMultiple(k: int, n: int)
    requires -n < k * n < n
    ensures k == 0
  {
    if k >= 1 {
      ProductAtLeast(k, n);
    }
    if k <= -1 {
      ProductAtLeast(-k, n);
    }
  }

  /** Quotient and remainder are determined by the division identity. */
  lemma DivModUnique(a: int, n: int, q: int, r: int)
    requires n > 0 && a == q * n + r && 0 <= r < n
    ensures a % n == r && a / n == q
  {
    assert a == (a / n) * n + a % n;
    assert (q - a / n) * n == a % n - r;
    SmallMultiple(q - a / n, n);
  }

  /** Adding a multiple of n does not change the remainder. */
  lemma ModAddMultiple(a: int, k: int, n: int)
    requires n > 0
    ensures (a + k * n) % n == a % n
  {
    var q := a / n;
    assert a + k * n == (q + k) * n + a % n;
    DivModUnique(a + k * n, n, q + k, a % n);
  }

  /** Two numbers less than n apart have different remainders. */
  lemma ModDistinct(a: int, b: int, n: int)
    requires b < a < b + n
    ensures a % n != b % n
  {
    assert a == (a / n) * n + a % n && b == (b / n) * n + b % n;
    var k := a / n - b / n;
    assert a - b == k * n + (a % n - b % n);
    if a % n == b % n {
      SmallMultiple(k, n);
    }
  }
}
