/** Facts of integer arithmetic that the solver does not find on its own:
 *  products and quotients with a symbolic factor. */
module Arith {
  /** A positive multiple of y is at least y. */
  lemma MulAtLeast(a: int, y: int)
    requires a >= 1 && y > 0
    ensures a * y >= y
  {
    var k := a - 1;
    assert a * y == k * y + y;
    assert k * y >= 0;
  }

  /** Multiplying by a non-negative factor keeps the order. */
  lemma MulMonotone(a: int, b: int, y: int)
    requires a <= b && y >= 0
    ensures a * y <= b * y
  {
    assert b * y - a * y == (b - a) * y;
  }

  /** An exact product divides back: the quotient is unique. */
  lemma QuotientOfExactProduct(x: int, y: int, q: int)
    requires y > 0 && x == q * y
    ensures x / y == q
  {
    var r := x / y;
    var m := x % y;
    assert x == r * y + m && 0 <= m < y;
    assert (q - r) * y == m;
    if q - r >= 1 {
      MulAtLeast(q - r, y);
    } else if q - r <= -1 {
      MulAtLeast(r - q, y);
    }
  }

  /** Quotient and remainder by y of q * y + m, for 0 <= m < y. */
  lemma DivModOfSum(q: int, y: int, m: int)
    requires y > 0 && 0 <= m < y
    ensures (q * y + m) / y == q && (q * y + m) % y == m
  {
    var x := q * y + m;
    var r := x / y;
    var n := x % y;
    assert (q - r) * y == n - m;
    if q - r >= 1 {
      MulAtLeast(q - r, y);
    } else if q - r <= -1 {
      MulAtLeast(r - q, y);
    }
  }

  /** Halving a quotient by p is dividing by 2 * p. */
  lemma HalfQuotient(v: nat, p: int)
    requires p >= 1
    ensures v / p / 2 == v / (2 * p)
  {
    var s := v / p;
    var q := s / 2;
    var m := s % 2;
    var n := v % p;
    assert v == s * p + n;
    assert s == 2 * q + m;
    assert s * p == q * (2 * p) + m * p;
    assert 0 <= m * p + n < 2 * p by {
      if m == 1 {
        assert m * p == p;
      } else {
        assert m * p == 0;
      }
    }
    DivModOfSum(q, 2 * p, m * p + n);
  }

  /** Doubling a factor doubles the product. */
  lemma MulDouble(a: int, x: int, x2: int)
    requires x2 == 2 * x
    ensures a * x2 == 2 * (a * x)
  {
  }

  /** Scaling a quotient-and-remainder form by y: the remainder, scaled,
   *  stays below the scaled divisor. */
  lemma SplitScaled(top: int, rest: int, x: int, y: int)
    requires 0 <= rest < x && y > 0
    ensures (top * x + rest) * y == top * (x * y) + rest * y
    ensures 0 <= rest * y < x * y
  {
    MulMonotone(rest, x - 1, y);
    assert (x - 1) * y == x * y - y;
  }

  /** A number b = top * x + rest with rest < x, scaled by y to w: dividing
   *  w by xy = x * y recovers top. */
  lemma ScaledQuotient(b: int, w: int, top: int, rest: int, x: int, y: int, xy: int)
    requires 0 <= top && 0 <= rest < x && y > 0
    requires b == top * x + rest && w == b * y && xy == x * y
    ensures w / xy == top
  {
    SplitScaled(top, rest, x, y);
    DivModOfSum(top, x * y, rest * y);
  }

  /** A number b = top * x + rest with rest < x, scaled by y to w and then
   *  by z: the remainder modulo xyz = x * y * z is rest scaled by
   *  yz = y * z. */
  lemma ScaledRemainder(b: int, w: int, top: int, rest: int, x: int, y: int, z: int, yz: int, xyz: int)
    requires 0 <= top && 0 <= rest < x && y > 0 && z > 0
    requires b == top * x + rest && w == b * y && yz == y * z && xyz == x * yz
    ensures w * z % xyz == rest * yz
  {
    SplitScaled(top, rest, x, yz);
    MulAssoc(b, y, z);
    assert w * z == b * yz;
    DivModOfSum(top, xyz, rest * yz);
  }

  /** Doubling a sum of two parts and adding c doubles one part and adds c
   *  to the double of the other. */
  lemma DoubledSum(a: int, a1: int, c: int, h: int, h1: int, r: int, r1: int)
    requires a1 == h1 + r1 && a == 2 * a1 + c && r == 2 * r1 + c && h == 2 * h1
    ensures a == h + r
  {
  }

  /** A number b = h * p + c with c < p, scaled by y: h scaled by x = p * y
   *  plus c scaled by y, where c * y stays below x. */
  lemma ScaledSum(b: int, h: int, p: int, c: int, x: int, y: int)
    requires b == h * p + c && x == p * y && y > 0 && 0 <= c < p
    ensures h * x + c * y == b * y && c * y < x
  {
    SplitScaled(h, c, p, y);
  }

  /** v < p scaled by y stays below p * y and is a multiple of y. */
  lemma ScaledBelow(v: int, p: int, y: int, py: int, w: int)
    requires 0 <= v < p && y > 0 && py == p * y && w == v * y
    ensures w < py && w % y == 0
  {
    SplitScaled(0, v, p, y);
    DivModOfSum(v, y, 0);
  }

  /** Products regroup. */
  lemma MulAssoc(a: int, b: int, c: int)
    ensures (a * b) * c == a * (b * c)
  {
  }

  /** One more row of b. */
  lemma MulSucc(a: int, b: int)
    ensures (a + 1) * b == a * b + b
  {
  }
}
