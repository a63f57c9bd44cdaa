/** Products, squares and quotients of reals by name, with the few laws the interval proofs use. */
module Reals {

  function Times(x: real, y: real): real { x * y }

  function Square(x: real): real { Times(x, x) }

  lemma TimesNonNegative(x: real, y: real)
    requires x >= 0.0 && y >= 0.0
    ensures Times(x, y) >= 0.0
  {
  }

  lemma TimesPositive(x: real, y: real)
    requires x > 0.0 && y > 0.0
    ensures Times(x, y) > 0.0
  {
  }

  lemma SquareNonNegative(x: real)
    ensures Square(x) >= 0.0
  {
  }

  lemma TimesMonotone(x: real, y: real, d: real)
    requires x <= y && d >= 0.0
    ensures Times(x, d) <= Times(y, d) && Times(d, x) <= Times(d, y)
  {
  }

  lemma TimesCommutes(x: real, y: real)
    ensures Times(x, y) == Times(y, x)
  {
  }

  lemma TimesOrder(x: real, y: real, d: real)
    requires d > 0.0
    ensures x <= y <==> Times(d, x) <= Times(d, y)
  {
    if x > y {
      TimesPositive(d, x - y);
      TimesLinear(d, x, -y);
      assert Times(d, -y) == -Times(d, y);
    } else {
      TimesMonotone(x, y, d);
    }
  }

  lemma TimesLinear(x: real, y: real, z: real)
    ensures Times(x, y + z) == Times(x, y) + Times(x, z)
  {
  }

  lemma TimesNegate(x: real, y: real)
    ensures Times(x, -y) == -Times(x, y) && Times(-x, y) == -Times(x, y)
  {
  }

  lemma TimesAssociates(x: real, y: real, z: real)
    ensures Times(Times(x, y), z) == Times(x, Times(y, z))
  {
  }

  lemma TimesExchanges(x: real, y: real, z: real)
    ensures Times(x, Times(y, z)) == Times(y, Times(x, z))
  {
  }

  lemma TimesCancels(d: real, x: real, y: real)
    requires d > 0.0 && Times(d, x) == Times(d, y)
    ensures x == y
  {
    TimesOrder(x, y, d);
    TimesOrder(y, x, d);
  }

  lemma SquareOfTimes(x: real, y: real)
    ensures Square(Times(x, y)) == Times(Square(x), Square(y))
  {
  }

  lemma QuotientTimes(x: real, d: real)
    requires d != 0.0
    ensures Times(d, x / d) == x
  {
  }

  lemma QuotientIs(x: real, d: real, q: real)
    requires d != 0.0 && Times(d, q) == x
    ensures x / d == q
  {
  }

  lemma QuotientPositive(x: real, d: real)
    requires x > 0.0 && d > 0.0
    ensures x / d > 0.0
  {
    QuotientTimes(x, d);
    TimesOrder(x / d, 0.0, d);
  }

  lemma RealProduct(x: int, y: int)
    ensures (x * y) as real == Times(x as real, y as real)
  {
  }

  lemma QuotientNonNegative(x: real, d: real)
    requires x >= 0.0 && d > 0.0
    ensures x / d >= 0.0
  {
  }

  lemma DifferenceOfSquares(h: real, x: real)
    ensures Square(h) - Square(x) == Times(h - x, h + x)
  {
  }

  /** Comparing with a nonnegative bound is comparing the squares. */
  lemma SquareOrder(x: real, h: real)
    requires h >= 0.0
    ensures -h <= x <= h <==> Square(x) <= Square(h)
  {
    if -h <= x <= h {
      DifferenceOfSquares(h, x);
      TimesNonNegative(h - x, h + x);
    } else if x > h {
      DifferenceOfSquares(x, h);
      TimesPositive(x - h, x + h);
    } else {
      DifferenceOfSquares(-x, h);
      TimesPositive(-x - h, -x + h);
      assert Square(-x) == Square(x);
    }
  }

  ghost predicate IsRootOf(r: real, x: real) {
    r >= 0.0 && Square(r) == x
  }

  /** `math.sqrt`, over the reals. */
  ghost predicate IsSqrt(sqrt: real -> real) {
    forall x: real :: x >= 0.0 ==> IsRootOf(sqrt(x), x)
  }
}
