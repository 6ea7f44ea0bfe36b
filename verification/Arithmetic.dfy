/** Products and remainders, one small fact at a time. */
module Arithmetic {

  lemma ModOfOffset(first: nat, n: nat, position: nat)
    requires position < n
    ensures (first + (position + n - first % n) % n) % n == position
  {
    var r := first % n;
    var q := first / n;
    assert first == q * n + r;
    if position >= r {
      assert position + n - r == (position - r) + 1 * n;
      ModPlusMultiple(position - r, 1, n);
      assert first + (position - r) == position + q * n;
      ModPlusMultiple(position, q, n);
    } else {
      ModPlusMultiple(position + n - r, 0, n);
      assert first + (position + n - r) == position + (q + 1) * n;
      ModPlusMultiple(position, q + 1, n);
    }
  }

  lemma ModPlusMultiple(r: nat, q: nat, n: nat)
    requires r < n
    ensures (r + q * n) % n == r
  {
    var x := r + q * n;
    EuclideanUnique(x / n, q, x % n, r, n);
  }

  lemma ModInjectiveInWindow(i: nat, j: nat, n: nat)
    requires n > 0 && i % n == j % n
    requires i < j + n && j < i + n
    ensures i == j
  {
    CloseMultiples(i / n, j / n, i % n, i, j, n);
  }

  lemma CloseMultiples(a: nat, b: nat, r: nat, i: nat, j: nat, n: nat)
    requires i == a * n + r && j == b * n + r
    requires i < j + n && j < i + n
    ensures i == j
  {
    if a > b { ProductAtLeast(a, b, n); }
    if b > a { ProductAtLeast(b, a, n); }
  }

  lemma EuclideanUnique(a: nat, b: nat, r: nat, s: nat, n: nat)
    requires a * n + r == b * n + s && r < n && s < n
    ensures a == b && r == s
  {
    if a > b { ProductAtLeast(a, b, n); }
    if b > a { ProductAtLeast(b, a, n); }
  }

  lemma {:induction false} ProductAtLeast(a: nat, b: nat, n: nat)
    requires a > b
    ensures a * n >= b * n + n
  {
    if a == b + 1 {
    } else {
      ProductAtLeast(a - 1, b, n);
    }
    assert a * n == (a - 1) * n + n;
  }

  lemma Distribute(a: nat, b: nat, c: nat)
    ensures a * (b + c) == a * b + a * c
  {
  }

  lemma QuotientIs(n: nat, m: nat, q: nat, r: nat)
    requires n == q * m + r && r < m
    ensures n / m == q
  {
    EuclideanUnique(n / m, q, n % m, r, m);
  }

  /** Dividing by 256 and then by more is dividing by all of it at once. */
  lemma DivideTwice(n: nat, m: nat)
    requires m > 0
    ensures n / 0x100 / m == n / (0x100 * m)
  {
    var q, r := n / 0x100 / m, n / 0x100 % m;
    var rest := 0x100 * r + n % 0x100;
    assert n / 0x100 == q * m + r;
    assert n == q * (0x100 * m) + rest;
    QuotientIs(n, 0x100 * m, q, rest);
  }

  /** The sum of the numbers up to k. */
  function Triangle(k: nat): nat {
    if k == 0 then 0 else Triangle(k - 1) + k
  }

  lemma {:induction false} TriangleClosed(k: nat)
    ensures 2 * Triangle(k) == k * (k + 1)
  {
    if k == 0 {
    } else {
      TriangleClosed(k - 1);
      Distribute(k, k - 1, 2);
    }
  }

  lemma DoubleProduct(a: nat, b: nat, c: nat)
    requires 2 * b == c
    ensures 2 * (a * b) == a * c
  {
    Distribute(a, b, b);
  }
}
