/** Division by a variable, one fact at a time. */
module Division {

  lemma Quotient(n: int, d: int)
    requires n >= 0 && d > 0
    ensures n / d >= 0 && n / d * d <= n < n / d * d + d
  {
    assert n == n / d * d + n % d;
  }

  lemma {:induction false} MultiplesApart(a: int, b: int, d: int)
    requires a < b && d > 0
    ensures a * d + d <= b * d
    decreases b - a
  {
    assert (a + 1) * d == a * d + d;
    if a + 1 < b { MultiplesApart(a + 1, b, d); }
  }

  lemma ExactQuotient(k: nat, d: int, n: int)
    requires d > 0 && n == k * d && n >= 0
    ensures n / d == k
  {
    Quotient(n, d);
    if k > n / d { MultiplesApart(n / d, k, d); }
    if k < n / d { MultiplesApart(k, n / d, d); }
  }
}
