/** Division facts that the solver does not find when the divisor is a variable. */
module Arithmetic {

  lemma MultipleIsLarge(d: int, n: int)
    requires 1 <= d && 0 < n
    ensures n <= d * n
  {
    assert (d - 1) * n >= 0;
  }

  /** The only multiple of n strictly between -n and n is 0. */
  lemma SmallMultiple(d: int, n: int, x: int)
    requires -n < x < n && d * n == x
    ensures d == 0 && x == 0
  {
    if d != 0 {
      MultipleIsLarge(if d > 0 then d else -d, n);
    }
  }

  /** Quotient and remainder are unique. */
  lemma DivMod(a: int, q: int, r: nat, n: nat)
    requires r < n && a == q * n + r
    ensures a / n == q && a % n == r
  {
    assert a == a / n * n + a % n;
    SmallMultiple(a / n - q, n, r - a % n);
  }
}
