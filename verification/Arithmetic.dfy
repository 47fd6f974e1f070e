/** Facts about products and quotients, stated where the verifier should not search for
    them. */
module Arithmetic {

  function Abs(a: int): nat {
    if a < 0 then -a else a
  }

  lemma ProductMonotone(a: int, b: int, t: nat)
    requires a <= b
    ensures a * t <= b * t && t * a <= t * b
  {
    assert (b - a) * t >= 0;
    assert (b - a) * t == b * t - a * t;
  }

  lemma OneMore(n: int, k: int)
    ensures (n + 1) * k == n * k + k
  {
  }

  lemma Bigger(n: nat, a: int, b: int)
    requires a < b
    ensures a * n + n <= b * n
  {
    ProductMonotone(a + 1, b, n);
    OneMore(a, n);
  }

  lemma Regroup(a: int, b: int, c: int)
    ensures a * b * c == a * (b * c)
  {
  }

  lemma DivMod(n: nat, q: nat, r: nat)
    requires r < n
    ensures (q * n + r) / n == q && (q * n + r) % n == r
  {
    var m := q * n + r;
    assert m == n * (m / n) + m % n;
    if m / n < q {
      Bigger(n, m / n, q);
    } else if m / n > q {
      Bigger(n, q, m / n);
    }
  }

  lemma ShiftedQuotient(n: nat, d: nat, e: nat)
    requires n > 0
    ensures (d + e * n) / n == d / n + e && (d + e * n) % n == d % n
  {
    var (q, r) := (d / n, d % n);
    assert d == n * q + r;
    assert d + e * n == (q + e) * n + r;
    DivMod(n, q + e, r);
  }
}
