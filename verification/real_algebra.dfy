/** The identities and inequalities over real numbers the laws of the aggregations rest on. */
module RealAlgebra {

  lemma QuotientTimes(a: real, n: real)
    requires n != 0.0
    ensures a / n * n == a
  {
  }

  lemma ProductSign(a: real, b: real)
    ensures a > 0.0 && b > 0.0 ==> a * b > 0.0
    ensures a >= 0.0 && b >= 0.0 ==> a * b >= 0.0
    ensures a < 0.0 && b < 0.0 ==> a * b > 0.0
  {
  }

  lemma Cancel(a: real, b: real, n: real)
    requires n > 0.0
    ensures a * n <= b * n <==> a <= b
    ensures a * n == b * n <==> a == b
  {
    if a < b {
      assert (b - a) * n > 0.0;
    }
    if b < a {
      assert (a - b) * n > 0.0;
    }
  }

  function Times(a: real, b: real): real {
    a * b
  }

  function Sq(x: real): real {
    Times(x, x)
  }

  lemma TimesSign(a: real, b: real)
    ensures a > 0.0 && b > 0.0 ==> Times(a, b) > 0.0
    ensures a < 0.0 && b < 0.0 ==> Times(a, b) > 0.0
    ensures a == 0.0 ==> Times(a, b) == 0.0
  {
  }

  lemma SqSign(x: real)
    ensures Sq(x) >= 0.0
    ensures Sq(x) == 0.0 <==> x == 0.0
  {
    hide Times;
    TimesSign(x, x);
  }

  lemma SqDifference(a: real, b: real)
    ensures Sq(a - b) == Sq(a) - 2.0 * (a * b) + Sq(b)
  {
  }

  lemma SqOfAbs(x: real, y: real)
    requires y == x || y == -x
    ensures Sq(y) == Sq(x)
  {
  }

  lemma SquareMonotone(d: real, g: real)
    requires -g <= d <= g
    ensures Sq(d) <= Sq(g)
  {
    var x, y := g - d, g + d;
    ProductSign(x, y);
    assert x * y == g * g - d * d;
  }

  lemma QuotientWithin(d: real, g: real, n: real, t: real, gap: real)
    requires n > 0.0 && g * n == gap && d * n == t && -gap <= t <= gap
    ensures -g <= d <= g
  {
    Cancel(d, g, n);
    var e := -d;
    assert e * n == -t;
    Cancel(e, g, n);
  }

  lemma SqGrows(a: real, b: real)
    requires 0.0 <= a < b
    ensures Sq(a) < Sq(b)
  {
    var x, y := b - a, b + a;
    ProductSign(x, y);
    assert x * y == b * b - a * a;
  }

  lemma RootBound(d: real, g: real)
    requires g >= 0.0 && Sq(d) <= Sq(g)
    ensures -g <= d <= g
  {
    hide Sq;
    SqOfAbs(d, -d);
    if d > g {
      SqGrows(g, d);
    }
    if -d > g {
      SqGrows(g, -d);
    }
  }

  /** Completing the square about the mean `m` of `n` values with sum `s` and sum of squares `q`. */
  lemma AboutMean(q: real, s: real, n: real, m: real, c: real)
    requires s == m * n
    ensures q - 2.0 * (c * s) + n * Sq(c) == (q - 2.0 * (m * s) + n * Sq(m)) + n * Sq(c - m)
  {
    SqDifference(c, m);
    var cc, cm, mm := c * c, c * m, m * m;
    assert c * s == n * cm;
    assert m * s == n * mm;
    assert n * (cc - 2.0 * cm + mm) == n * cc - 2.0 * (n * cm) + n * mm;
  }

  lemma MomentForm(q: real, s: real, n: real, m: real)
    requires n > 0.0 && s == m * n
    ensures (q - 2.0 * (m * s) + n * Sq(m)) / n == q / n - Sq(m)
  {
    var mm := m * m;
    assert m * s == n * mm;
    QuotientTimes(q - n * mm, n);
    QuotientTimes(q, n);
    assert (q / n - mm) * n == q / n * n - mm * n;
    Cancel((q - n * mm) / n, q / n - mm, n);
  }

  /** From a bound on the sum of squares to a bound on the variance. */
  lemma SpreadForm(q: real, s: real, n: real, m: real, low: real, high: real)
    requires n > 0.0 && s == m * n
    requires q <= (low + high) * s - n * (low * high)
    ensures q / n - Sq(m) <= (high - m) * (m - low)
  {
    var lm, hm, lh, mm := low * m, high * m, low * high, m * m;
    assert (high - m) * (m - low) == hm - lh - mm + lm;
    assert (low + high) * s == (lm + hm) * n;
    QuotientTimes(q, n);
    assert (lm + hm - lh) * n == (lm + hm) * n - n * lh;
    Cancel(q / n, lm + hm - lh, n);
  }

  lemma SpreadStep(x: real, s: real, k: real, low: real, high: real)
    requires low <= x <= high
    ensures (low + high) * (s + x) - (k + 1.0) * (low * high)
         >= ((low + high) * s - k * (low * high)) + Sq(x)
  {
    var lh := low * high;
    var a, b := high - x, x - low;
    ProductSign(a, b);
    assert a * b == (low + high) * x - lh - x * x;
    assert (low + high) * (s + x) == (low + high) * s + (low + high) * x;
    assert (k + 1.0) * lh == k * lh + lh;
  }

  lemma AddOne(c: real, k: real)
    ensures c * (k + 1.0) == c * k + c
  {
  }

  lemma Scaled(a: real, b: real, n: real, k: real)
    requires n > 0.0 && k >= 0.0 && a <= b
    ensures a / n * k <= b / n * k
  {
    var x, y := a / n, b / n;
    QuotientTimes(a, n);
    QuotientTimes(b, n);
    Cancel(x, y, n);
    ProductSign(y - x, k);
    assert (y - x) * k == y * k - x * k;
  }

  lemma ScaledEnds(n: real, k: real)
    requires n > 0.0
    ensures 0.0 / n * k == 0.0 && n / n * k == k
  {
    assert 0.0 / n == 0.0 && n / n == 1.0;
  }

  lemma SharesAddUp(a: real, b: real, n: real, k: real)
    requires n > 0.0 && a + b == n
    ensures a / n * k + b / n * k == k
  {
    var x, y := a / n, b / n;
    QuotientTimes(a, n);
    QuotientTimes(b, n);
    assert (x + y) * n == x * n + y * n;
    Cancel(x + y, 1.0, n);
    assert (x + y) * k == x * k + y * k;
  }
}
