/** Remainders with a variable divisor. */
module Remainders {
  lemma {:induction false} RemainderUnique(x: nat, n: nat, q: nat, m: nat)
    requires m < n && x == q * n + m
    ensures x % n == m
  {
    var d := x / n - q;
    assert x == n * (x / n) + x % n;
    assert d * n == m - x % n by {
      assert d * n == (x / n) * n - q * n;
    }
    assert d >= 1 ==> d * n >= n;
    assert d <= -1 ==> d * n <= (-1) * n;
  }

  lemma {:induction false} RemainderWhole(x: nat, n: nat)
    requires n > 0
    ensures (x + n) % n == x % n
  {
    assert (x / n + 1) * n == (x / n) * n + n;
    RemainderUnique(x + n, n, x / n + 1, x % n);
  }

  /** Counting on by one modulo `n`. */
  lemma {:induction false} RemainderStep(x: nat, n: nat)
    requires n > 0
    ensures (x + 1) % n == if x % n + 1 < n then x % n + 1 else 0
  {
    var q, m := x / n, x % n;
    if m + 1 < n {
      RemainderUnique(x + 1, n, q, m + 1);
    } else {
      assert (q + 1) * n == q * n + n;
      RemainderUnique(x + 1, n, q + 1, 0);
    }
  }
}
