/** Quotients and remainders from any representation. */
module Arithmetic {
  lemma DivModUnique(x: nat, n: nat, q: int, r: nat)
    requires n > 0 && x == n * q + r && r < n
    ensures x / n == q && x % n == r
  {
    var d := x / n - q;
    assert n * d == r - x % n;
    assert d > 0 ==> n * d >= n;
    assert d < 0 ==> n * d + n <= 0;
  }

  lemma MulDiv(n: nat, m: nat)
    requires m > 0
    ensures n * m / m == n && n * m % m == 0
  {
    DivModUnique(n * m, m, n, 0);
  }
}
