/** The JavaScript number operations the app relies on, written out over
    unbounded integers and exact reals. */
module JsMath {

  /** `Math.trunc`: rounds toward zero. */
  function Trunc(x: real): (t: int)
    ensures x >= 0.0 ==> t as real <= x < t as real + 1.0
    ensures x < 0.0 ==> t as real - 1.0 < x <= t as real
  {
    if x >= 0.0 then x.Floor else -((-x).Floor)
  }

  /** `a % b` on numbers: the remainder of truncated division, with the sign
      of the dividend (unlike Dafny's Euclidean `%`). */
  function Rem(a: real, b: real): real
    requires b != 0.0
  {
    a - b * Trunc(a / b) as real
  }

  /** `a % b` on integral numbers. */
  function IntRem(a: int, b: int): (r: int)
    requires b != 0
  {
    if a >= 0 then a % b else -((-a) % b)
  }

  /** `Math.round`: to the nearest integer, halves toward +Infinity. */
  function Round(x: real): (r: int)
    ensures r as real - 0.5 <= x < r as real + 0.5
  {
    (x + 0.5).Floor
  }

  function Abs(x: real): real { if x < 0.0 then -x else x }

  function MinReal(a: real, b: real): real { if a <= b then a else b }

  function MinInt(a: int, b: int): int { if a <= b then a else b }

  function MaxInt(a: int, b: int): int { if a >= b then a else b }

  /** For a non-negative dividend and a positive divisor the remainder lies in
      [0, b), and the dividend is the remainder plus a whole number of b. */
  lemma RemOfNonNegative(a: real, b: real)
    requires a >= 0.0 && b > 0.0
    ensures 0.0 <= Rem(a, b) < b
    ensures Trunc(a / b) >= 0 && a == Rem(a, b) + b * Trunc(a / b) as real
  {
    var tr := Trunc(a / b) as real;
    DivisionBounds(a, b, tr, tr + 1.0);
    assert (tr + 1.0) * b == b * tr + b;
  }

  /** For a non-positive dividend the remainder lies in (-b, 0]. */
  lemma RemOfNonPositive(a: real, b: real)
    requires a <= 0.0 && b > 0.0
    ensures -b < Rem(a, b) <= 0.0
  {
    var tr := Trunc(a / b) as real;
    if a == 0.0 {
      assert a / b == 0.0;
    } else {
      assert a / b * b == a;
      assert a / b < 0.0;
      assert tr - 1.0 < a / b <= tr;
      assert -a / b == -(a / b);
      DivisionBounds(-a, b, -tr, -tr + 1.0);
      assert (-tr + 1.0) * b == -(b * tr) + b;
    }
  }

  /** Bounds on a quotient carry over to the dividend. */
  lemma DivisionBounds(a: real, b: real, lo: real, hi: real)
    requires b > 0.0 && lo <= a / b < hi
    ensures lo * b <= a < hi * b
  {
    assert a / b * b == a;
  }

  /** The JavaScript remainder is zero exactly on multiples of the divisor,
      negative dividends included. */
  lemma IntRemZero(a: int, b: int)
    requires b > 0
    ensures IntRem(a, b) == 0 <==> a % b == 0
  {
    if a < 0 {
      var q, r := (-a) / b, (-a) % b;
      assert -a == b * q + r;
      if r == 0 {
        assert a == b * (-q) + 0 by {
          assert b * (-q) == -(b * q);
        }
        EuclideanUnique(a, b, -q, 0);
      } else {
        assert a == b * (-q - 1) + (b - r) by {
          assert b * (-q - 1) == -(b * q) - b;
        }
        EuclideanUnique(a, b, -q - 1, b - r);
      }
    }
  }

  /** Division with a remainder in [0, b) is unique. */
  lemma EuclideanUnique(a: int, b: int, q: int, r: int)
    requires b > 0 && a == b * q + r && 0 <= r < b
    ensures a % b == r
  {
    var q', r' := a / b, a % b;
    assert a == b * q' + r';
    assert b * (q - q') == r' - r by {
      assert b * (q - q') == b * q - b * q';
    }
    MulBound(b, q - q');
  }

  /** A non-zero multiple of a positive number is at least that number away
      from zero. */
  lemma {:induction false} MulBound(b: int, k: int)
    requires b > 0
    ensures k >= 1 ==> b * k >= b
    ensures k <= -1 ==> b * k <= -b
    decreases if k >= 0 then k else -k
  {
    if k > 1 {
      MulBound(b, k - 1);
      assert b * k == b * (k - 1) + b;
    } else if k < -1 {
      MulBound(b, k + 1);
      assert b * k == b * (k + 1) - b;
    }
  }

  /** The integer remainder of a non-negative dividend is Dafny's. */
  lemma IntRemOfNonNegative(a: int, b: int)
    requires a >= 0 && b > 0
    ensures IntRem(a, b) == a % b && 0 <= IntRem(a, b) < b
  {
  }
}
