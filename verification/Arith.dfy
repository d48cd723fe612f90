/** Facts about quotients and remainders that the solver needs spelled out. */
module Arith {

  lemma MulLe(a: int, b: int, m: int)
    requires a <= b && m >= 0
    ensures a * m <= b * m
  {
    assert 0 <= (b - a) * m;
  }

  lemma StepApart(i: int, j: int, s: int)
    requires i < j && s >= 0
    ensures i * s + s <= j * s
  {
    assert (i + 1) * s == i * s + s;
    MulLe(i + 1, j, s);
  }

  // A decomposition x = q*m + r with 0 <= r < m is the quotient and the remainder.
  lemma DivUnique(x: int, m: int, q: int, r: int)
    requires m > 0 && x == q * m + r && 0 <= r < m
    ensures x / m == q && x % m == r
  {
    var q', r' := x / m, x % m;
    assert x == q' * m + r';
    if q' < q {
      StepApart(q', q, m);
    } else if q < q' {
      StepApart(q, q', m);
    }
  }

  lemma DivIff(x: int, m: int, q: int)
    requires m > 0
    ensures q * m <= x < q * m + m <==> x / m == q
  {
    if q * m <= x < q * m + m { DivUnique(x, m, q, x - q * m); }
  }

  lemma MulStep(i: int, m: int)
    ensures (i + 1) * m == i * m + m
  {
  }

  // Two numbers less than m apart with the same remainder are equal.
  lemma ModEqual(a: nat, c: nat, m: nat)
    requires m > 0 && a <= c < a + m && a % m == c % m
    ensures a == c
  {
    var p, q := a / m, c / m;
    assert c - a == (q - p) * m;
    if q > p { StepApart(p, q, m); }
    if q < p { StepApart(q, p, m); }
  }

  // `x % m` of an index that may have run past the end by less than m.
  lemma Wrap(x: nat, m: nat)
    requires x < 2 * m
    ensures x % m == if x < m then x else x - m
  {
    if x < m { DivUnique(x, m, 0, x); } else { DivUnique(x, m, 1, x - m); }
  }

  lemma ModStep(k: nat, m: nat)
    requires m > 0
    ensures (k + 1) % m == if k % m + 1 == m then 0 else k % m + 1
  {
    var q, r := k / m, k % m;
    if r + 1 < m {
      DivUnique(k + 1, m, q, r + 1);
    } else {
      MulStep(q, m);
      DivUnique(k + 1, m, q + 1, 0);
    }
  }

  lemma Exact(x: nat, m: nat)
    requires m > 0 && x % m == 0
    ensures x == x / m * m
  {
  }
}
