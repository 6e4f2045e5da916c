/** Remainders. */
module Arithmetic {

  lemma {:induction false} AtLeast(k: nat, n: nat)
    requires k > 0
    ensures k * n >= n
  {
    if k > 1 {
      AtLeast(k - 1, n);
      assert k * n == (k - 1) * n + n;
    }
  }

  /** Quotient and remainder are unique. */
  lemma Remainder(a: int, n: nat, q: int, r: nat)
    requires n > 0 && a == q * n + r && r < n
    ensures a % n == r
  {
    var q', r' := a / n, a % n;
    assert a == q' * n + r';
    assert (q - q') * n == q * n - q' * n;
    assert (q' - q) * n == q' * n - q * n;
    if q > q' {
      AtLeast(q - q', n);
    } else if q < q' {
      AtLeast(q' - q, n);
    }
  }

  lemma OnePeriodMore(a: int, n: nat)
    requires n > 0
    ensures (a + n) % n == a % n
  {
    var q, r := a / n, a % n;
    assert a + n == (q + 1) * n + r;
    Remainder(a + n, n, q + 1, r);
  }

  lemma InRange(a: nat, n: nat)
    requires a < n
    ensures a % n == a
  {
    Remainder(a, n, 0, a);
  }

  lemma NextRemainder(a: nat, n: nat)
    requires n > 0
    ensures (a + 1) % n == if a % n + 1 == n then 0 else a % n + 1
  {
    var q, r := a / n, a % n;
    assert a == q * n + r;
    if r + 1 < n {
      Remainder(a + 1, n, q, r + 1);
    } else {
      assert a + 1 == (q + 1) * n;
      Remainder(a + 1, n, q + 1, 0);
    }
  }
}
