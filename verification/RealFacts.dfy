/** Products and quotients of reals, where the solver needs a hand. */
module RealFacts {

  lemma ProductIsMonotonic(x: real, y: real, n: real)
    requires n > 0.0
    ensures x < y ==> x * n < y * n
    ensures x * n <= y * n <==> x <= y
  {
    if x < y {
      ProductIsPositive(y - x, n);
      assert (y - x) * n == y * n - x * n;
    } else if x > y {
      ProductIsPositive(x - y, n);
      assert (x - y) * n == x * n - y * n;
    }
  }

  lemma ProductIsPositive(a: real, b: real)
    requires a > 0.0 && b > 0.0
    ensures a * b > 0.0
  {
  }

  lemma QuotientTimes(a: real, n: real)
    requires n > 0.0
    ensures (a / n) * n == a
  {
  }

  lemma QuotientBounds(total: real, n: real, low: real, high: real)
    requires n > 0.0
    ensures low <= total / n <==> low * n <= total
    ensures total / n <= high <==> total <= high * n
  {
    QuotientTimes(total, n);
    ProductIsMonotonic(low, total / n, n);
    ProductIsMonotonic(total / n, high, n);
  }
}
