/** Multiplication and division facts that the solver does not find by itself. */
module Arithmetic {

  lemma {:induction false} MulGrows(b: int, q: nat)
    requires b >= 1
    ensures b * q >= q
    decreases b
  {
    if b > 1 {
      MulGrows(b - 1, q);
      assert b * q == (b - 1) * q + q;
    }
  }

  lemma MulMonotone(k: int, m: int, n: int)
    requires k >= 1 && m <= n
    ensures m * k <= n * k
  {
    MulGrows(k, n - m);
    assert k * (n - m) == n * k - m * k;
  }

  lemma Quotient(a: nat, n: int)
    requires n >= 1
    ensures a == a / n * n + a % n && 0 <= a % n < n
  {
  }

  lemma SmallMultiple(k: int, n: nat)
    requires 0 - n < k * n < n
    ensures k == 0
  {
    if k >= 1 {
      MulGrows(k, n);
    } else if k <= -1 {
      MulGrows(-k, n);
    }
  }

  /** The quotient and the remainder of a division are the only ones. */
  lemma DivisionUnique(a: nat, n: int, q: int, r: int)
    requires n >= 1 && a == q * n + r && 0 <= r < n
    ensures a / n == q && a % n == r
  {
    var p := a / n;
    Quotient(a, n);
    assert (p - q) * n == p * n - q * n;
    SmallMultiple(p - q, n);
  }
}
