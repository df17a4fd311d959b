/** Small facts about real products and quotients. */
module Reals {

  lemma SignOfProduct(x: real, t: real)
    requires t > 0.0
    ensures x * t > 0.0 <==> x > 0.0
    ensures x * t < 0.0 <==> x < 0.0
  {
    if x > 0.0 {
      assert x * t > 0.0;
    } else if x < 0.0 {
      assert (-x) * t > 0.0;
      assert x * t == -((-x) * t);
    } else {
      assert x * t == 0.0;
    }
  }

  lemma NonZeroProduct(x: real, y: real)
    requires x != 0.0 && y != 0.0
    ensures x * y != 0.0
  {
    if y > 0.0 {
      SignOfProduct(x, y);
    } else {
      SignOfProduct(x, -y);
      assert x * -y == -(x * y);
    }
  }

  lemma QuotientTimes(a: real, b: real)
    requires b != 0.0
    ensures a / b * b == a
  {
  }

  lemma QuotientNonZero(a: real, b: real)
    requires a != 0.0 && b != 0.0
    ensures a / b != 0.0
  {
    QuotientTimes(a, b);
  }

  lemma QuotientNonNegative(a: real, b: real)
    requires a >= 0.0 && b > 0.0
    ensures a / b >= 0.0
  {
    QuotientTimes(a, b);
    SignOfProduct(a / b, b);
  }

  lemma QuotientOrder(a: real, b: real, n: real)
    requires n > 0.0
    ensures a <= b <==> a / n <= b / n
  {
    var p, q := a / n, b / n;
    QuotientTimes(a, n);
    QuotientTimes(b, n);
    assert (q - p) * n == b - a;
    SignOfProduct(q - p, n);
  }

  /** A quotient compares with a bound as its dividend does with the bound times the divisor. */
  lemma QuotientAgainst(a: real, n: real, bound: real)
    requires n > 0.0
    ensures a / n <= bound <==> a <= bound * n
    ensures a / n == bound <==> a == bound * n
  {
    var q := a / n;
    QuotientTimes(a, n);
    assert (q - bound) * n == q * n - bound * n;
    SignOfProduct(q - bound, n);
  }

  lemma QuotientDifference(a: real, b: real, c: real)
    requires c > 0.0
    ensures b / c - a / c == (b - a) / c
  {
    QuotientTimes(a, c);
    QuotientTimes(b, c);
    QuotientTimes(b - a, c);
    var d := b / c - a / c - (b - a) / c;
    assert d * c == 0.0;
    SignOfProduct(d, c);
  }

  lemma QuotientUnique(q: real, a: real, b: real)
    requires b > 0.0 && q * b == a
    ensures q == a / b
  {
    QuotientTimes(a, b);
    assert (q - a / b) * b == 0.0;
    SignOfProduct(q - a / b, b);
  }

  lemma NonPositiveProduct(c: int, d: int)
    requires c > 0 && d <= 0
    ensures c * d <= 0
  {
    assert c * -d >= 0;
  }

  lemma QuotientGrows(x: nat, y: nat, c: nat)
    requires c > 0 && x + c <= y
    ensures x / c < y / c
  {
    assert x == c * (x / c) + x % c && y == c * (y / c) + y % c;
    assert c * (y / c - x / c) == y - y % c - (x - x % c);
    if y / c <= x / c {
      NonPositiveProduct(c, y / c - x / c);
    }
  }

  lemma FloorOfReal(d: real, m: real, r: real, c: real)
    requires c > 0.0 && r * c == d * c + m && 0.0 <= m < c
    ensures d <= r < d + 1.0
  {
    assert (r - d) * c == m;
    SignOfProduct(r - d, c);
    assert (r - d - 1.0) * c == m - c;
    SignOfProduct(r - d - 1.0, c);
  }

  lemma FloorOfQuotient(x: nat, c: nat)
    requires c > 0
    ensures (x / c) as real <= x as real / c as real < (x / c) as real + 1.0
  {
    QuotientTimes(x as real, c as real);
    assert x == (x / c) * c + x % c;
    assert ((x / c) * c) as real == (x / c) as real * c as real;
    FloorOfReal((x / c) as real, (x % c) as real, x as real / c as real, c as real);
  }
}
