/** The few facts about products and quotients that the solver does not find by itself. */
module Arithmetic {

  lemma MulDistributes(a: int, m: int, n: int)
    ensures a * (m + n) == a * m + a * n
    ensures a * (m - n) == a * m - a * n
  {
  }

  lemma MulPositive(a: int, d: int)
    requires 0 < a && 0 < d
    ensures 0 < a * d
  {
  }

  lemma MulOrder(a: int, m: int, n: int)
    requires 0 < a
    ensures a * m <= a * n <==> m <= n
    ensures a * m == a * n <==> m == n
  {
    MulDistributes(a, n, m);
    if m < n {
      MulPositive(a, n - m);
    } else if n < m {
      MulPositive(a, m - n);
      MulDistributes(a, m, n);
    }
  }

  /** Quotient and remainder are determined by what they mean. */
  lemma DivModUnique(n: int, d: int, q: int, r: int)
    requires 0 < d && 0 <= r < d && n == d * q + r
    ensures n / d == q && n % d == r
  {
    var q', r' := n / d, n % d;
    assert n == d * q' + r';
    MulDistributes(d, q, q');
    if q < q' {
      MulOrder(d, 1, q' - q);
      MulDistributes(d, q', q);
    } else if q' < q {
      MulOrder(d, 1, q - q');
    }
  }

  lemma DivModDistinguish(m: int, n: int, d: int)
    requires 0 < d && m != n
    ensures m / d != n / d || m % d != n % d
  {
    assert m == d * (m / d) + m % d && n == d * (n / d) + n % d;
  }

  /** a * n as a sum of n terms, which keeps loops that add a at a time linear. */
  function Times(a: nat, n: nat): (total: nat) {
    if n == 0 then 0 else Times(a, n - 1) + a
  }

  lemma {:induction false} TimesIsProduct(a: nat, n: nat)
    ensures Times(a, n) == a * n
  {
    if n == 0 {
    } else {
      TimesIsProduct(a, n - 1);
      MulDistributes(a, n - 1, 1);
    }
  }

  lemma {:induction false} TimesAdds(a: nat, m: nat, n: nat)
    ensures Times(a, m + n) == Times(a, m) + Times(a, n)
  {
    if n == 0 {
    } else {
      TimesAdds(a, m, n - 1);
    }
  }

  lemma TimesOrder(a: nat, m: nat, n: nat)
    requires 0 < a
    ensures Times(a, m) <= Times(a, n) <==> m <= n
    ensures Times(a, m) == Times(a, n) <==> m == n
  {
    TimesIsProduct(a, m);
    TimesIsProduct(a, n);
    MulOrder(a, m, n);
  }

  lemma WholeQuotient(n: nat, a: nat)
    requires 0 < a && n % a == 0
    ensures Times(a, n / a) == n
  {
    TimesIsProduct(a, n / a);
  }
}
