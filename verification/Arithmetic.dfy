/** The few facts about products and quotients that the layout proofs rest on. */
module Arithmetic {

  lemma MulSucc(n: int, b: int)
    ensures (n + 1) * b == n * b + b
    ensures (n - 1) * b == n * b - b
  {
  }

  lemma MulSplit(m: int, n: int, b: int)
    ensures (m + n) * b == m * b + n * b
    ensures (m - n) * b == m * b - n * b
  {
  }

  lemma MulMonotone(m: int, n: int, b: int)
    requires m <= n && 0 <= b
    ensures m * b <= n * b
  {
    MulSplit(n, m, b);
    assert 0 <= (n - m) * b;
  }

  lemma MulMonotoneRight(n: int, a: int, b: int)
    requires a <= b && 0 <= n
    ensures n * a <= n * b
  {
    MulMonotone(a, b, n);
    assert n * a == a * n && n * b == b * n;
  }

  lemma MulStrict(m: int, n: int, b: int)
    requires m < n && 0 < b
    ensures m * b + b <= n * b
  {
    MulMonotone(m + 1, n, b);
    MulSucc(m, b);
  }

  lemma MulCancel(m: int, n: int, b: int)
    requires 0 < b
    ensures m * b == n * b <==> m == n
  {
    if m < n {
      MulStrict(m, n, b);
    } else if n < m {
      MulStrict(n, m, b);
    }
  }

  /** `n` is the quotient `a / b` rounded up. */
  predicate IsCeiling(n: int, a: int, b: int) {
    (n - 1) * b < a <= n * b
  }

  lemma DivMod(a: nat, b: nat)
    requires b > 0
    ensures a == a / b * b + a % b && 0 <= a % b < b && a / b >= 0
  {
  }

  lemma QuotientUnique(q: int, r: int, b: int)
    requires 0 <= r < b
    ensures (q * b + r) / b == q && (q * b + r) % b == r
  {
    var a := q * b + r;
    var q', r' := a / b, a % b;
    assert a == q' * b + r';
    if q < q' {
      MulStrict(q, q', b);
    } else if q' < q {
      MulStrict(q', q, b);
    }
  }

  lemma CeilingOf(a: nat, b: nat)
    requires a > 0 && b > 0
    ensures IsCeiling(if a % b != 0 then a / b + 1 else a / b, a, b)
  {
    DivMod(a, b);
    MulSucc(a / b, b);
  }

  /** `m * b + s` lies in the `b`-wide interval that ends at `(n + 1) * b` only if `m == n`. */
  lemma SameMultiple(n: int, m: int, b: int, s: int)
    requires 0 < s <= b
    ensures n * b < m * b + s <= n * b + b <==> n == m
  {
    if n < m {
      MulStrict(n, m, b);
    } else if m < n {
      MulStrict(m, n, b);
    }
  }
}
