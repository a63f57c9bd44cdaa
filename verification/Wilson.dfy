/** The Wilson score interval (eval/wilson.py). */
module Wilson {
  import opened Common
  import opened Reals

  /** z^2 / n. */
  function Weight(z: real, n: real): (w: real)
    requires n > 0.0
  {
    Square(z) / n
  }

  lemma WeightIs(z: real, n: real)
    requires n > 0.0
    ensures Weight(z, n) >= 0.0 && Times(n, Weight(z, n)) == Square(z)
  {
    SquareNonNegative(z);
    QuotientNonNegative(Square(z), n);
    QuotientTimes(Square(z), n);
  }

  function Center(p: real, z: real, n: real): real
    requires n > 0.0
  {
    WeightIs(z, n);
    (p + Square(z) / (2.0 * n)) / (1.0 + Weight(z, n))
  }

  /** The radicand. */
  function Spread(p: real, z: real, n: real): real
    requires n > 0.0
  {
    TimesPositive(n, n);
    Times(p, 1.0 - p) / n + Square(z) / (4.0 * Square(n))
  }

  function Margin(p: real, z: real, n: real, sqrt: real -> real): real
    requires n > 0.0
  {
    WeightIs(z, n);
    Times(z / (1.0 + Weight(z, n)), sqrt(Spread(p, z, n)))
  }

  function Clamped(p: real): real { MinReal(MaxReal(p, 0.0), 1.0) }

  /** `wilson_ci`. */
  function WilsonCi(p: real, n: int, z: real, sqrt: real -> real): (real, real) {
    if n <= 0 then (0.0, 0.0) else
      var center := Center(Clamped(p), z, n as real);
      var margin := Margin(Clamped(p), z, n as real, sqrt);
      (MaxReal(0.0, center - margin), MinReal(1.0, center + margin))
  }

  // ---------- center and margin solve the score equation ----------

  function Discriminant(p: real, w: real): real {
    Times(w, Times(p, 1.0 - p)) + Square(w) / 4.0
  }

  /** d = 1 + w times the center is the midpoint of the score equation's roots, d times the margin their
      half-width. */
  ghost predicate Solves(c: real, m: real, p: real, w: real) {
    && Times(1.0 + w, c) == p + w / 2.0
    && IsRootOf(Times(1.0 + w, m), Discriminant(p, w))
  }

  /** The radicand times z^2 is the discriminant. */
  lemma ScaledSpread(p: real, z: real, n: real)
    requires n > 0.0
    ensures Times(Square(z), Spread(p, z, n)) == Discriminant(p, Weight(z, n))
  {
    var t, v := 1.0 / n, Times(p, 1.0 - p);
    Reciprocal(v, n);
    Reciprocal(Square(z), n);
    QuarterReciprocal(Square(z), n);
    SpreadTerms(Square(z), v, t);
  }

  lemma Reciprocal(x: real, n: real)
    requires n > 0.0
    ensures x / n == Times(x, 1.0 / n)
  {
  }

  lemma QuarterReciprocal(s: real, n: real)
    requires n > 0.0
    ensures Square(n) > 0.0 && s / (4.0 * Square(n)) == Times(s, Square(1.0 / n)) / 4.0
  {
    var t := 1.0 / n;
    TimesPositive(n, n);
    QuotientTimes(1.0, n);
    SquareOfTimes(n, t);
    assert Square(1.0) == 1.0;
    Rearrange(Square(n), s, Square(t));
    QuotientIs(s, 4.0 * Square(n), Times(s, Square(t)) / 4.0);
  }

  lemma Rearrange(x: real, s: real, y: real)
    requires Times(x, y) == 1.0
    ensures Times(4.0 * x, Times(s, y) / 4.0) == s
  {
    assert x * (s * y) == s * (x * y);
  }

  lemma SpreadTerms(s: real, v: real, t: real)
    ensures Times(s, Times(v, t) + Times(s, Square(t)) / 4.0) == Times(Times(s, t), v) + Square(Times(s, t)) / 4.0
  {
  }

  lemma SpreadNonNegative(p: real, z: real, n: real)
    requires 0.0 <= p <= 1.0 && n > 0.0
    ensures Spread(p, z, n) >= 0.0
  {
    TimesNonNegative(p, 1.0 - p);
    QuotientNonNegative(Times(p, 1.0 - p), n);
    SquareNonNegative(z);
    TimesPositive(n, n);
    QuotientNonNegative(Square(z), 4.0 * Square(n));
  }

  lemma CenterAndMarginSolve(p: real, z: real, n: real, sqrt: real -> real)
    requires 0.0 <= p <= 1.0 && z >= 0.0 && n > 0.0 && IsSqrt(sqrt)
    ensures Solves(Center(p, z, n), Margin(p, z, n, sqrt), p, Weight(z, n))
  {
    var w, r := Weight(z, n), sqrt(Spread(p, z, n));
    WeightIs(z, n);
    SpreadNonNegative(p, z, n);
    HalfShare(Square(z), n);
    QuotientTimes(p + Square(z) / (2.0 * n), 1.0 + w);
    assert IsRootOf(r, Spread(p, z, n));
    QuotientTimes(z, 1.0 + w);
    TimesAssociates(1.0 + w, z / (1.0 + w), r);
    TimesNonNegative(z, r);
    SquareOfTimes(z, r);
    ScaledSpread(p, z, n);
  }

  lemma HalfShare(s: real, n: real)
    requires n > 0.0
    ensures s / (2.0 * n) == s / n / 2.0
  {
    QuotientTimes(s, n);
    assert Times(2.0 * n, s / n / 2.0) == Times(n, s / n);
    QuotientIs(s, 2.0 * n, s / n / 2.0);
  }

  // ---------- which proportions are inside ----------

  /** The score equation with the square completed. */
  lemma CompleteSquare(p: real, w: real, theta: real)
    ensures Square(Times(1.0 + w, theta) - (p + w / 2.0)) - Discriminant(p, w)
            == Times(1.0 + w, Square(p - theta) - Times(w, Times(theta, 1.0 - theta)))
  {
    OuterSquare(1.0 + w, theta, p + w / 2.0);
    MidpointSquare(p, w);
    InnerQuadratic(p, w, theta);
    ScaleQuadratic(1.0 + w, Square(p), p + w / 2.0, theta);
  }

  lemma OuterSquare(d: real, theta: real, a: real)
    ensures Square(Times(d, theta) - a) == Times(d, Times(d, Square(theta))) - 2.0 * Times(d, Times(a, theta))
          + Square(a)
  {
  }

  lemma MidpointSquare(p: real, w: real)
    ensures Square(p + w / 2.0) - Discriminant(p, w) == Times(1.0 + w, Square(p))
  {
  }

  lemma InnerQuadratic(p: real, w: real, theta: real)
    ensures Square(p - theta) - Times(w, Times(theta, 1.0 - theta))
            == Square(p) - 2.0 * Times(p + w / 2.0, theta) + Times(1.0 + w, Square(theta))
  {
  }

  lemma ScaleQuadratic(d: real, s: real, a: real, theta: real)
    ensures Times(d, s - 2.0 * Times(a, theta) + Times(d, Square(theta)))
            == Times(d, s) - 2.0 * Times(d, Times(a, theta)) + Times(d, Times(d, Square(theta)))
  {
  }

  lemma InsideIff(c: real, m: real, p: real, w: real, theta: real)
    requires Solves(c, m, p, w) && w >= 0.0
    ensures c - m <= theta <= c + m <==> Square(p - theta) <= Times(w, Times(theta, 1.0 - theta))
  {
    var x, h, v := Times(1.0 + w, theta) - (p + w / 2.0), Times(1.0 + w, m), Times(w, Times(theta, 1.0 - theta));
    ScaledBetween(c, m, theta, 1.0 + w);
    SquareOrder(x, h);
    CompleteSquare(p, w, theta);
    DifferenceSign(1.0 + w, Square(p - theta), v);
  }

  lemma ScaledBetween(c: real, m: real, theta: real, d: real)
    requires d > 0.0
    ensures c - m <= theta <= c + m <==> -Times(d, m) <= Times(d, theta) - Times(d, c) <= Times(d, m)
  {
    TimesOrder(c - m, theta, d);
    TimesOrder(theta, c + m, d);
    TimesLinear(d, c, m);
    TimesLinear(d, c, -m);
    TimesNegate(d, m);
  }

  lemma DifferenceSign(d: real, x: real, y: real)
    requires d > 0.0
    ensures Times(d, x - y) <= 0.0 <==> x <= y
  {
    TimesOrder(x - y, 0.0, d);
  }

  /** The proportion is inside and both ends are proportions. */
  lemma EndsAreProportions(c: real, m: real, p: real, w: real)
    requires Solves(c, m, p, w) && w >= 0.0 && 0.0 <= p <= 1.0
    ensures 0.0 <= c - m <= p <= c + m <= 1.0
  {
    TimesNonNegative(p, 1.0 - p);
    TimesNonNegative(w, Times(p, 1.0 - p));
    InsideIff(c, m, p, w, p);
    DiscriminantBound(p, w);
    SquareOrder(Times(1.0 + w, m), p + w / 2.0);
    DiscriminantMirrored(p, w);
    DiscriminantBound(1.0 - p, w);
    SquareOrder(Times(1.0 + w, m), 1.0 - p + w / 2.0);
    ScaledEnds(c, m, p, w);
  }

  lemma DiscriminantBound(p: real, w: real)
    requires w >= 0.0
    ensures Discriminant(p, w) <= Square(p + w / 2.0)
  {
    MidpointSquare(p, w);
    SquareNonNegative(p);
    TimesNonNegative(1.0 + w, Square(p));
  }

  lemma DiscriminantMirrored(p: real, w: real)
    ensures Discriminant(1.0 - p, w) == Discriminant(p, w)
  {
    TimesCommutes(p, 1.0 - p);
  }

  lemma ScaledEnds(c: real, m: real, p: real, w: real)
    requires w >= 0.0 && Times(1.0 + w, c) == p + w / 2.0
    requires Times(1.0 + w, m) <= p + w / 2.0 && Times(1.0 + w, m) <= 1.0 - p + w / 2.0
    ensures 0.0 <= c - m && c + m <= 1.0
  {
    TimesOrder(m, c, 1.0 + w);
    TimesLinear(1.0 + w, c, m);
    TimesOrder(c + m, 1.0, 1.0 + w);
  }

  // ---------- the interval ----------

  /** The interval holds the proportion, clamped if need be, and neither clamp of its ends fires. */
  lemma WilsonHoldsProportion(p: real, n: int, z: real, sqrt: real -> real)
    requires n > 0 && z >= 0.0 && IsSqrt(sqrt)
    ensures var (lower, upper) := WilsonCi(p, n, z, sqrt);
      && 0.0 <= lower <= Clamped(p) <= upper <= 1.0
      && lower == Center(Clamped(p), z, n as real) - Margin(Clamped(p), z, n as real, sqrt)
      && upper == Center(Clamped(p), z, n as real) + Margin(Clamped(p), z, n as real, sqrt)
  {
    var q := Clamped(p);
    WeightIs(z, n as real);
    CenterAndMarginSolve(q, z, n as real, sqrt);
    EndsAreProportions(Center(q, z, n as real), Margin(q, z, n as real, sqrt), q, Weight(z, n as real));
  }

  /** A score test at z does not reject theta. */
  ghost predicate ScoreAccepts(theta: real, p: real, n: int, z: real) {
    Times(n as real, Square(p - theta)) <= Times(Square(z), Times(theta, 1.0 - theta))
  }

  /** The interval is exactly the set of proportions a score test at z does not reject. */
  lemma WilsonIsScoreInterval(p: real, n: int, z: real, sqrt: real -> real, theta: real)
    requires n > 0 && z >= 0.0 && IsSqrt(sqrt)
    ensures var (lower, upper) := WilsonCi(p, n, z, sqrt);
      lower <= theta <= upper <==> ScoreAccepts(theta, Clamped(p), n, z)
  {
    var q, m, w, v := Clamped(p), n as real, Weight(z, n as real), Times(theta, 1.0 - theta);
    WilsonHoldsProportion(p, n, z, sqrt);
    WeightIs(z, m);
    CenterAndMarginSolve(q, z, m, sqrt);
    InsideIff(Center(q, z, m), Margin(q, z, m, sqrt), q, w, theta);
    TimesOrder(Square(q - theta), Times(w, v), m);
    TimesAssociates(m, w, v);
  }

  /** More trials with the same proportion never widen the interval, and neither does a smaller critical value. */
  lemma WilsonNarrows(p: real, n: int, n': int, z: real, z': real, sqrt: real -> real)
    requires 0 < n <= n' && 0.0 <= z' <= z && IsSqrt(sqrt)
    ensures var (lower, upper) := WilsonCi(p, n, z, sqrt); var (lower', upper') := WilsonCi(p, n', z', sqrt);
      lower <= lower' && upper' <= upper
  {
    var (lower', upper') := WilsonCi(p, n', z', sqrt);
    WilsonHoldsProportion(p, n', z', sqrt);
    WilsonIsScoreInterval(p, n', z', sqrt, lower');
    WilsonIsScoreInterval(p, n', z', sqrt, upper');
    AcceptsMore(lower', Clamped(p), n, n', z, z');
    AcceptsMore(upper', Clamped(p), n, n', z, z');
    WilsonIsScoreInterval(p, n, z, sqrt, lower');
    WilsonIsScoreInterval(p, n, z, sqrt, upper');
  }

  lemma AcceptsMore(theta: real, p: real, n: int, n': int, z: real, z': real)
    requires 0.0 <= theta <= 1.0 && n <= n' && 0.0 <= z' <= z && ScoreAccepts(theta, p, n', z')
    ensures ScoreAccepts(theta, p, n, z)
  {
    SquareOrder(z', z);
    TimesNonNegative(theta, 1.0 - theta);
    SquareNonNegative(p - theta);
    TimesMonotone(n as real, n' as real, Square(p - theta));
    TimesMonotone(Square(z'), Square(z), Times(theta, 1.0 - theta));
  }

  /** Counting failures instead of successes mirrors the interval. */
  lemma WilsonMirrored(p: real, n: int, z: real, sqrt: real -> real)
    requires n > 0 && z >= 0.0 && IsSqrt(sqrt)
    ensures WilsonCi(1.0 - p, n, z, sqrt) == (1.0 - WilsonCi(p, n, z, sqrt).1, 1.0 - WilsonCi(p, n, z, sqrt).0)
  {
    var q, m := Clamped(p), n as real;
    assert Clamped(1.0 - p) == 1.0 - q;
    WilsonHoldsProportion(p, n, z, sqrt);
    WilsonHoldsProportion(1.0 - p, n, z, sqrt);
    MarginMirrored(q, z, m, sqrt);
    WeightIs(z, m);
    CenterAndMarginSolve(q, z, m, sqrt);
    CenterAndMarginSolve(1.0 - q, z, m, sqrt);
    CentersMirror(Center(q, z, m), Center(1.0 - q, z, m), q, Weight(z, m));
  }

  lemma MarginMirrored(p: real, z: real, n: real, sqrt: real -> real)
    requires n > 0.0
    ensures Margin(1.0 - p, z, n, sqrt) == Margin(p, z, n, sqrt)
  {
    TimesCommutes(p, 1.0 - p);
    assert 1.0 - (1.0 - p) == p;
    assert Spread(1.0 - p, z, n) == Spread(p, z, n);
  }

  lemma CentersMirror(c: real, c': real, p: real, w: real)
    requires w >= 0.0 && Times(1.0 + w, c) == p + w / 2.0 && Times(1.0 + w, c') == 1.0 - p + w / 2.0
    ensures c' == 1.0 - c
  {
    TimesLinear(1.0 + w, c, c');
    TimesOrder(c + c', 1.0, 1.0 + w);
    TimesOrder(1.0, c + c', 1.0 + w);
  }
}
