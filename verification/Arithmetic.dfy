/** Facts about products and division that the models share. */
module Arithmetic {

  lemma MultipleAtLeast(d: nat, k: int)
    requires k >= 1
    ensures d * k >= d
  {
  }

  lemma Commuted(a: nat, b: nat)
    ensures a * b == b * a
  {
  }

  lemma ScaledLess(d: nat, i: nat, k: nat)
    requires d >= 1 && i < k
    ensures i * d + d <= k * d
  {
    assert k * d == i * d + (k - i) * d;
    MultipleAtLeast(d, k - i);
    assert (k - i) * d == d * (k - i);
  }

  /** Quotient and remainder are the only way to write m as a multiple of d plus something below d. */
  lemma DivModUnique(m: nat, d: nat, q: int, r: nat)
    requires d >= 1 && r < d && m == d * q + r
    ensures m % d == r && m / d == q
  {
    var k := q - m / d;
    assert d * k == m % d - r by {
      assert d * q == d * (m / d) + d * k;
    }
    assert d * k == -(d * -k);
    if k >= 1 {
      MultipleAtLeast(d, k);
    } else if k <= -1 {
      MultipleAtLeast(d, -k);
    }
  }

  lemma DivModStep(n: nat, d: nat)
    requires d >= 1
    ensures (n + d) / d == n / d + 1 && (n + d) % d == n % d
  {
    assert n + d == d * (n / d + 1) + n % d;
    DivModUnique(n + d, d, n / d + 1, n % d);
  }

  /** Counting on by one. */
  lemma NextDivMod(n: nat, d: nat)
    requires d >= 1
    ensures n % d + 1 < d ==> (n + 1) % d == n % d + 1 && (n + 1) / d == n / d
    ensures n % d + 1 == d ==> (n + 1) % d == 0 && (n + 1) / d == n / d + 1
  {
    var q, r := n / d, n % d;
    assert n == d * q + r;
    if r + 1 < d {
      DivModUnique(n + 1, d, q, r + 1);
    } else {
      assert d * (q + 1) == d * q + d;
      DivModUnique(n + 1, d, q + 1, 0);
    }
  }

  lemma SmallMod(n: nat, d: nat)
    requires n <= d && d >= 1
    ensures n % d == if n == d then 0 else n
  {
    if n == d {
      DivModUnique(n, d, 1, 0);
    } else {
      DivModUnique(n, d, 0, n);
    }
  }

  lemma QuotientBelow(n: nat, d: nat, q: nat)
    requires d >= 1 && n < d * q
    ensures n / d < q
  {
    WholeMultiples(n, d);
    assert d * (n / d) == d * q + d * (n / d - q);
    if n / d > q {
      MultipleAtLeast(d, n / d - q);
    }
  }

  lemma WholeMultiples(n: nat, d: nat)
    requires d >= 1
    ensures d * (n / d) <= n
  {
  }

  // ----- C's `/` and `%`, which truncate towards 0 -----

  function Quotient(a: int, b: nat): int
    requires b >= 1
  {
    if a >= 0 then a / b else -(-a / b)
  }

  function Remainder(a: int, b: nat): int
    requires b >= 1
  {
    if a >= 0 then a % b else -(-a % b)
  }

  // ----- real numbers -----

  function Min(x: real, y: real): real {
    if x < y then x else y
  }

  function Max(x: real, y: real): real {
    if x > y then x else y
  }
}
