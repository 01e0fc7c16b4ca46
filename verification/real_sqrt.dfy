/** The square root the source takes from numpy, as a hypothesis on a
    function parameter: every member that needs a square root receives
    one and requires that it behaves as the non-negative root. A few
    facts of real arithmetic the solver needs spelled out live here too;
    they name the product they speak about (`p == a * b`) so that the
    fact lands on that name. */
module RealSqrt {

  ghost predicate IsSqrt(sqrt: real -> real) {
    forall x :: 0.0 <= x ==> 0.0 <= sqrt(x) && sqrt(x) * sqrt(x) == x
  }

  lemma PositiveProduct(a: real, b: real, p: real)
    requires 0.0 < a && 0.0 < b && p == a * b
    ensures 0.0 < p
  {
  }

  /** A factor common to both sides of an equation can be cancelled. */
  lemma Cancel(k: real, q: real, n: real)
    requires 0.0 < n && k * n == q * n
    ensures k == q
  {
    if k > q {
      PositiveProduct(k - q, n, (k - q) * n);
    } else if k < q {
      PositiveProduct(q - k, n, (q - k) * n);
    }
  }

  /** Dividing (a, b) by its length m gives a vector of length 1. */
  lemma UnitScale(a: real, b: real, m: real)
    requires 0.0 < m && m * m == a * a + b * b
    ensures (a / m) * (a / m) + (b / m) * (b / m) == 1.0
  {
    var p := a / m;
    var q := b / m;
    assert p * m == a && q * m == b;
    var mm := m * m;
    PositiveProduct(m, m, mm);
    assert (p * p + q * q) * mm == (p * m) * (p * m) + (q * m) * (q * m);
  }

  /** A square is never negative, and zero only at zero. */
  lemma Square(a: real, sq: real)
    requires sq == a * a
    ensures 0.0 <= sq
    ensures sq == 0.0 <==> a == 0.0
  {
    if a > 0.0 {
      PositiveProduct(a, a, sq);
    } else if a < 0.0 {
      PositiveProduct(-a, -a, sq);
    }
  }

  /** A sum of two squares is non-negative, and zero exactly when both terms are. */
  lemma SumOfSquares(a: real, b: real, n: real)
    requires n == a * a + b * b
    ensures 0.0 <= n
    ensures n == 0.0 <==> a == 0.0 && b == 0.0
  {
    Square(a, a * a);
    Square(b, b * b);
  }

  /** A non-negative number whose square is 1 is 1. */
  lemma UnitRoot(s: real)
    requires 0.0 <= s && s * s == 1.0
    ensures s == 1.0
  {
    if s > 1.0 {
      PositiveProduct(s, s - 1.0, s * (s - 1.0));
    } else if s < 1.0 {
      PositiveProduct(1.0 - s, 1.0 + s, (1.0 - s) * (1.0 + s));
    }
  }

  lemma SqrtOne(sqrt: real -> real)
    requires IsSqrt(sqrt)
    ensures sqrt(1.0) == 1.0
  {
    UnitRoot(sqrt(1.0));
  }

  /** The root vanishes exactly at zero. */
  lemma SqrtZeroIff(sqrt: real -> real, x: real)
    requires IsSqrt(sqrt) && 0.0 <= x
    ensures sqrt(x) == 0.0 <==> x == 0.0
  {
    Square(sqrt(x), x);
  }

  /** The root of a square is the absolute value. */
  lemma SqrtOfSquare(sqrt: real -> real, a: real)
    requires IsSqrt(sqrt)
    ensures sqrt(a * a) == if a < 0.0 then -a else a
  {
    var s := sqrt(a * a);
    var t := if a < 0.0 then -a else a;
    Square(a, a * a);
    assert s * s == t * t;
    if s > t {
      PositiveProduct(s - t, s + t, (s - t) * (s + t));
    } else if s < t {
      PositiveProduct(t - s, t + s, (t - s) * (t + s));
    }
  }
}
