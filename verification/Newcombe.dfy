/** Newcombe's interval for a paired difference of proportions, and the paired statistics built on it
    (eval/injection_guard_order.py). */
module Newcombe {
  import opened Common
  import opened McNemar
  import opened Reals
  import opened Wilson

  const DEFAULT_Z := 1.96

  function Share(k: nat, n: nat): real
    requires n > 0
  {
    k as real / n as real
  }

  /** `wilson`: k of n. */
  function WilsonOf(k: nat, n: nat, sqrt: real -> real): (real, real) {
    if n == 0 then (0.0, 1.0) else WilsonCi(Share(k, n), n, DEFAULT_Z, sqrt)
  }

  function Product(x: nat, y: nat): nat { x * y }

  /** The product of the four marginal totals. */
  function Marginals(a: nat, b: nat, c: nat, d: nat): nat {
    Product(Product(Product(a + b, c + d), a + c), b + d)
  }

  function Corrected(a: nat, b: nat, c: nat, d: nat): real {
    var half := (a + b + c + d) as real / 2.0;
    var num := Product(a, d) - Product(b, c);
    if num as real > half then num as real - half else if num >= 0 then 0.0 else num as real
  }

  /** `_newcombe_phi`. */
  function Phi(a: nat, b: nat, c: nat, d: nat, sqrt: real -> real): real
    requires IsSqrt(sqrt)
  {
    var denom := Marginals(a, b, c, d);
    if denom == 0 then 0.0 else
      RootIsPositive(denom, sqrt);
      Corrected(a, b, c, d) / sqrt(denom as real)
  }

  lemma RootIsPositive(x: nat, sqrt: real -> real)
    requires x > 0 && IsSqrt(sqrt)
    ensures sqrt(x as real) > 0.0
  {
    assert IsRootOf(sqrt(x as real), x as real);
  }

  /** The radicand x^2 + y^2 - 2 phi x y. */
  function Radicand(x: real, y: real, phi: real): real {
    Square(x) + Square(y) - 2.0 * Times(phi, Times(x, y))
  }

  datatype Interval = Interval(diff: real, lower: real, upper: real)

  /** The interval from the two proportions, their Wilson intervals and the correlation. */
  function Combined(p1: real, w1: (real, real), p2: real, w2: (real, real), phi: real, sqrt: real -> real): Interval {
    var (l1, u1) := w1;
    var (l2, u2) := w2;
    var delta := p1 - p2;
    var lo := delta - sqrt(MaxReal(0.0, Radicand(p1 - l1, u2 - p2, phi)));
    var hi := delta + sqrt(MaxReal(0.0, Radicand(u1 - p1, p2 - l2, phi)));
    Interval(p2 - p1, -hi, -lo)
  }

  /** `newcombe_paired_diff`. */
  function PairedDiff(a: nat, b: nat, c: nat, d: nat, sqrt: real -> real): Interval
    requires IsSqrt(sqrt)
  {
    var n := a + b + c + d;
    if n == 0 then Interval(0.0, -1.0, 1.0) else
      Combined(Share(a + b, n), WilsonOf(a + b, n, sqrt), Share(a + c, n), WilsonOf(a + c, n, sqrt),
               Phi(a, b, c, d, sqrt), sqrt)
  }

  // ---------- the correlation estimate ----------

  lemma ProductMonotone(x: nat, x': nat, y: nat, y': nat)
    requires x <= x' && y <= y'
    ensures Product(x, y) <= Product(x', y')
  {
    assert x * y <= x' * y;
    assert x' * y <= x' * y';
  }

  /** The square of a product of two cells of different rows and columns is at most the product of the marginals. */
  lemma DiagonalBound(x: nat, y: nat, e: nat, f: nat, g: nat, h: nat)
    requires x <= e && y <= f && ((x <= g && y <= h) || (y <= g && x <= h))
    ensures Product(Product(x, y), Product(x, y)) <= Product(Product(Product(e, f), g), h)
  {
    ProductMonotone(x, e, y, f);
    if x <= g && y <= h {
      ProductMonotone(x, g, y, h);
    } else {
      ProductMonotone(y, g, x, h);
      ProductCommutes(x, y);
    }
    ProductMonotone(Product(x, y), Product(e, f), Product(x, y), Product(g, h));
    ProductAssociates(Product(e, f), g, h);
  }

  lemma ProductCommutes(x: nat, y: nat)
    ensures Product(x, y) == Product(y, x)
  {
  }

  lemma ProductAssociates(x: nat, y: nat, z: nat)
    ensures Product(Product(x, y), z) == Product(x, Product(y, z))
  {
  }

  /** The determinant of a table is at most the root of the product of its marginals. */
  lemma DeterminantBound(a: nat, b: nat, c: nat, d: nat, x: int)
    requires 0 - Product(b, c) <= x <= Product(a, d)
    ensures Square(x as real) <= Marginals(a, b, c, d) as real
  {
    DiagonalBound(a, d, a + b, c + d, a + c, b + d);
    DiagonalBound(b, c, a + b, c + d, a + c, b + d);
    if x >= 0 {
      ProductMonotone(x, Product(a, d), x, Product(a, d));
    } else {
      ProductMonotone(-x, Product(b, c), -x, Product(b, c));
    }
    SquareOfInt(x);
  }

  lemma SquareOfInt(x: int)
    ensures Square(x as real) == Product(if x >= 0 then x else -x, if x >= 0 then x else -x) as real
  {
    assert x * x == -x * -x;
  }

  lemma CorrectedShrinks(a: nat, b: nat, c: nat, d: nat)
    ensures var num := (Product(a, d) - Product(b, c)) as real; var k := Corrected(a, b, c, d);
      if num >= 0.0 then 0.0 <= k <= num else k == num
  {
  }

  /** The estimate is a correlation, so the radicands are never negative. */
  lemma PhiIsCorrelation(a: nat, b: nat, c: nat, d: nat, sqrt: real -> real)
    requires IsSqrt(sqrt)
    ensures -1.0 <= Phi(a, b, c, d, sqrt) <= 1.0
  {
    var denom := Marginals(a, b, c, d);
    if denom > 0 {
      DeterminantBound(a, b, c, d, Product(a, d) - Product(b, c));
      assert IsRootOf(sqrt(denom as real), denom as real);
      SquareOrder((Product(a, d) - Product(b, c)) as real, sqrt(denom as real));
      CorrectedShrinks(a, b, c, d);
      RootIsPositive(denom, sqrt);
      RatioBounded(Corrected(a, b, c, d), sqrt(denom as real));
    }
  }

  lemma RatioBounded(k: real, root: real)
    requires root > 0.0 && -root <= k <= root
    ensures -1.0 <= k / root <= 1.0
  {
    QuotientTimes(k, root);
    TimesOrder(k / root, 1.0, root);
    TimesOrder(-1.0, k / root, root);
  }

  lemma RadicandBounds(x: real, y: real, phi: real)
    requires x >= 0.0 && y >= 0.0 && -1.0 <= phi <= 1.0
    ensures Square(x - y) <= Radicand(x, y, phi) <= Square(x + y)
  {
    TimesNonNegative(x, y);
    TimesMonotone(phi, 1.0, Times(x, y));
    TimesMonotone(-1.0, phi, Times(x, y));
    assert Square(x - y) == Square(x) - 2.0 * Times(x, y) + Square(y);
    assert Square(x + y) == Square(x) + 2.0 * Times(x, y) + Square(y);
  }

  /** The half-width lies between the difference and the sum of the two Wilson half-widths it combines. */
  lemma HalfWidthBounds(x: real, y: real, phi: real, sqrt: real -> real)
    requires x >= 0.0 && y >= 0.0 && -1.0 <= phi <= 1.0 && IsSqrt(sqrt)
    ensures Radicand(x, y, phi) >= 0.0
    ensures var r := sqrt(MaxReal(0.0, Radicand(x, y, phi))); r >= 0.0 && x - y <= r && y - x <= r && r <= x + y
  {
    var r := sqrt(MaxReal(0.0, Radicand(x, y, phi)));
    RadicandBounds(x, y, phi);
    SquareNonNegative(x - y);
    assert IsRootOf(r, Radicand(x, y, phi));
    SquareOrder(x - y, r);
    SquareOrder(r, x + y);
  }

  // ---------- the interval ----------

  lemma ShareBounds(k: nat, n: nat)
    requires k <= n && n > 0
    ensures 0.0 <= Share(k, n) <= 1.0
  {
    QuotientNonNegative(k as real, n as real);
    QuotientTimes(k as real, n as real);
    TimesOrder(Share(k, n), 1.0, n as real);
  }

  lemma WilsonOfHolds(k: nat, n: nat, sqrt: real -> real)
    requires k <= n && n > 0 && IsSqrt(sqrt)
    ensures 0.0 <= WilsonOf(k, n, sqrt).0 <= Share(k, n) <= WilsonOf(k, n, sqrt).1 <= 1.0
  {
    ShareBounds(k, n);
    WilsonHoldsProportion(Share(k, n), n, DEFAULT_Z, sqrt);
  }

  /** The interval holds the observed difference and lies inside the difference of the two Wilson intervals, and so
      inside [-1, 1]; neither guard against a negative radicand ever fires. */
  lemma PairedDiffHolds(a: nat, b: nat, c: nat, d: nat, sqrt: real -> real)
    requires IsSqrt(sqrt)
    ensures var i := PairedDiff(a, b, c, d, sqrt); var n := a + b + c + d;
      && -1.0 <= i.lower <= i.diff <= i.upper <= 1.0
      && (n > 0 ==>
            var (l1, u1) := WilsonOf(a + b, n, sqrt); var (l2, u2) := WilsonOf(a + c, n, sqrt);
            var p1, p2 := Share(a + b, n), Share(a + c, n);
            && l2 - u1 <= i.lower && i.upper <= u2 - l1
            && Radicand(p1 - l1, u2 - p2, Phi(a, b, c, d, sqrt)) >= 0.0
            && Radicand(u1 - p1, p2 - l2, Phi(a, b, c, d, sqrt)) >= 0.0)
  {
    var n := a + b + c + d;
    if n > 0 {
      var p1, p2 := Share(a + b, n), Share(a + c, n);
      var (l1, u1) := WilsonOf(a + b, n, sqrt);
      var (l2, u2) := WilsonOf(a + c, n, sqrt);
      WilsonOfHolds(a + b, n, sqrt);
      WilsonOfHolds(a + c, n, sqrt);
      PhiIsCorrelation(a, b, c, d, sqrt);
      HalfWidthBounds(p1 - l1, u2 - p2, Phi(a, b, c, d, sqrt), sqrt);
      HalfWidthBounds(u1 - p1, p2 - l2, Phi(a, b, c, d, sqrt), sqrt);
    }
  }

  function Negated(i: Interval): Interval { Interval(-i.diff, -i.upper, -i.lower) }

  lemma MarginalsSwap(a: nat, b: nat, c: nat, d: nat)
    ensures Marginals(a, c, b, d) == Marginals(a, b, c, d) == Marginals(d, b, c, a)
  {
    RegroupFour(a + b, c + d, a + c, b + d);
  }

  lemma RegroupFour(x: nat, y: nat, z: nat, t: nat)
    ensures Product(Product(Product(z, t), x), y) == Product(Product(Product(x, y), z), t)
            == Product(Product(Product(t, z), y), x)
  {
    ProductAssociates(Product(x, y), z, t);
    ProductAssociates(Product(z, t), x, y);
    ProductAssociates(Product(t, z), y, x);
    ProductCommutes(z, t);
    ProductCommutes(x, y);
    ProductCommutes(Product(x, y), Product(z, t));
  }

  lemma RadicandSwap(x: real, y: real, phi: real)
    ensures Radicand(x, y, phi) == Radicand(y, x, phi)
  {
    TimesCommutes(x, y);
  }

  /** Exchanging the two measures negates the difference and flips the interval. */
  lemma PairedDiffSwapped(a: nat, b: nat, c: nat, d: nat, sqrt: real -> real)
    requires IsSqrt(sqrt)
    ensures PairedDiff(a, c, b, d, sqrt) == Negated(PairedDiff(a, b, c, d, sqrt))
  {
    var n := a + b + c + d;
    MarginalsSwap(a, b, c, d);
    ProductCommutes(b, c);
    if n > 0 {
      var p1, p2 := Share(a + b, n), Share(a + c, n);
      var (l1, u1) := WilsonOf(a + b, n, sqrt);
      var (l2, u2) := WilsonOf(a + c, n, sqrt);
      var phi := Phi(a, b, c, d, sqrt);
      RadicandSwap(p1 - l1, u2 - p2, phi);
      RadicandSwap(u1 - p1, p2 - l2, phi);
    }
  }

  lemma ComplementShare(k: nat, n: nat, sqrt: real -> real)
    requires k <= n && n > 0 && IsSqrt(sqrt)
    ensures Share(n - k, n) == 1.0 - Share(k, n)
    ensures WilsonOf(n - k, n, sqrt) == (1.0 - WilsonOf(k, n, sqrt).1, 1.0 - WilsonOf(k, n, sqrt).0)
  {
    ShareBounds(k, n);
    QuotientTimes(k as real, n as real);
    TimesLinear(n as real, 1.0, -Share(k, n));
    TimesNegate(n as real, Share(k, n));
    QuotientIs((n - k) as real, n as real, 1.0 - Share(k, n));
    WilsonMirrored(Share(k, n), n, DEFAULT_Z, sqrt);
  }

  lemma CombinedMirrored(p1: real, w1: (real, real), p2: real, w2: (real, real), phi: real, sqrt: real -> real)
    ensures Combined(1.0 - p2, (1.0 - w2.1, 1.0 - w2.0), 1.0 - p1, (1.0 - w1.1, 1.0 - w1.0), phi, sqrt)
            == Combined(p1, w1, p2, w2, phi, sqrt)
  {
    RadicandSwap(p1 - w1.0, w2.1 - p2, phi);
    RadicandSwap(w1.1 - p1, p2 - w2.0, phi);
    assert (1.0 - p2) - (1.0 - w2.1) == w2.1 - p2 && (1.0 - w1.0) - (1.0 - p1) == p1 - w1.0;
    assert (1.0 - w2.0) - (1.0 - p2) == p2 - w2.0 && (1.0 - p1) - (1.0 - w1.1) == w1.1 - p1;
  }

  lemma ComplementsCombined(k1: nat, k2: nat, n: nat, phi: real, sqrt: real -> real)
    requires IsSqrt(sqrt) && k1 <= n && k2 <= n && n > 0
    ensures Combined(Share(n - k2, n), WilsonOf(n - k2, n, sqrt), Share(n - k1, n), WilsonOf(n - k1, n, sqrt), phi,
          sqrt)
      == Combined(Share(k1, n), WilsonOf(k1, n, sqrt), Share(k2, n), WilsonOf(k2, n, sqrt), phi, sqrt)
  {
    ComplementShare(k1, n, sqrt);
    ComplementShare(k2, n, sqrt);
    CombinedMirrored(Share(k1, n), WilsonOf(k1, n, sqrt), Share(k2, n), WilsonOf(k2, n, sqrt), phi, sqrt);
  }

  function CombinedOf(k1: nat, k2: nat, n: nat, phi: real, sqrt: real -> real): Interval
    requires n > 0
  {
    Combined(Share(k1, n), WilsonOf(k1, n, sqrt), Share(k2, n), WilsonOf(k2, n, sqrt), phi, sqrt)
  }

  lemma PairedDiffIs(a: nat, b: nat, c: nat, d: nat, n: nat, sqrt: real -> real)
    requires IsSqrt(sqrt) && n == a + b + c + d > 0
    ensures PairedDiff(a, b, c, d, sqrt) == CombinedOf(a + b, a + c, n, Phi(a, b, c, d, sqrt), sqrt)
  {
  }

  lemma CombinedOfComplements(k1: nat, k2: nat, n: nat, phi: real, sqrt: real -> real)
    requires IsSqrt(sqrt) && k1 <= n && k2 <= n && n > 0
    ensures CombinedOf(n - k2, n - k1, n, phi, sqrt) == CombinedOf(k1, k2, n, phi, sqrt)
  {
    ComplementsCombined(k1, k2, n, phi, sqrt);
  }

  /** Counting negatives instead of positives also exchanges the roles of the two proportions, so that exchanging
      "both positive" with "neither" changes nothing. */
  lemma PairedDiffComplemented(a: nat, b: nat, c: nat, d: nat, sqrt: real -> real)
    requires IsSqrt(sqrt)
    ensures PairedDiff(d, b, c, a, sqrt) == PairedDiff(a, b, c, d, sqrt)
  {
    var n := a + b + c + d;
    if n > 0 {
      PhiComplemented(a, b, c, d, sqrt);
      PairedDiffIs(a, b, c, d, n, sqrt);
      PairedDiffIs(d, b, c, a, n, sqrt);
      assert d + b == n - (a + c) && d + c == n - (a + b);
      CombinedOfComplements(a + b, a + c, n, Phi(a, b, c, d, sqrt), sqrt);
    }
  }

  lemma PhiComplemented(a: nat, b: nat, c: nat, d: nat, sqrt: real -> real)
    requires IsSqrt(sqrt)
    ensures Phi(d, b, c, a, sqrt) == Phi(a, b, c, d, sqrt)
  {
    MarginalsSwap(a, b, c, d);
    ProductCommutes(a, d);
  }

  /** The estimate is positive exactly when the determinant exceeds half the table, negative exactly when it is
      negative, unless a marginal is empty. */
  lemma PhiSign(a: nat, b: nat, c: nat, d: nat, sqrt: real -> real)
    requires IsSqrt(sqrt) && Marginals(a, b, c, d) > 0
    ensures Phi(a, b, c, d, sqrt) > 0.0 <==> 2 * (Product(a, d) - Product(b, c)) > a + b + c + d
    ensures Phi(a, b, c, d, sqrt) < 0.0 <==> Product(a, d) < Product(b, c)
  {
    var root := sqrt(Marginals(a, b, c, d) as real);
    RootIsPositive(Marginals(a, b, c, d), sqrt);
    QuotientTimes(Corrected(a, b, c, d), root);
    TimesOrder(0.0, Corrected(a, b, c, d) / root, root);
    TimesOrder(Corrected(a, b, c, d) / root, 0.0, root);
    assert Times(root, 0.0) == 0.0;
  }

  /** The third side of a triangle with sides x and y whose enclosed angle has cosine `phi`. */
  ghost predicate ThirdSide(side: real, x: real, y: real, phi: real) {
    Square(side) == Square(x) + Square(y) - 2.0 * phi * x * y
  }

  lemma HalfWidthIs(x: real, y: real, phi: real, sqrt: real -> real)
    requires x >= 0.0 && y >= 0.0 && -1.0 <= phi <= 1.0 && IsSqrt(sqrt)
    ensures ThirdSide(sqrt(MaxReal(0.0, Radicand(x, y, phi))), x, y, phi)
  {
    HalfWidthBounds(x, y, phi, sqrt);
    assert IsRootOf(sqrt(Radicand(x, y, phi)), Radicand(x, y, phi));
    RadicandExpanded(x, y, phi);
  }

  lemma RadicandExpanded(x: real, y: real, phi: real)
    ensures Radicand(x, y, phi) == Square(x) + Square(y) - 2.0 * phi * x * y
  {
  }

  lemma CombinedHalfWidths(p1: real, w1: (real, real), p2: real, w2: (real, real), phi: real, sqrt: real -> real)
    requires IsSqrt(sqrt) && w1.0 <= p1 <= w1.1 && w2.0 <= p2 <= w2.1 && -1.0 <= phi <= 1.0
    ensures var i := Combined(p1, w1, p2, w2, phi, sqrt);
      && i.diff == p2 - p1
      && ThirdSide(i.diff - i.lower, w1.1 - p1, p2 - w2.0, phi) == true
      && ThirdSide(i.upper - i.diff, p1 - w1.0, w2.1 - p2, phi) == true
  {
    HalfWidthIs(w1.1 - p1, p2 - w2.0, phi, sqrt);
    HalfWidthIs(p1 - w1.0, w2.1 - p2, phi, sqrt);
  }

  /** The half-widths on both sides of the observed difference, in terms of the two proportions, their Wilson intervals
      and the correlation; an empty table says nothing about the difference. */
  lemma HalfWidthsOfTable(a: nat, b: nat, c: nat, d: nat, sqrt: real -> real)
    requires IsSqrt(sqrt)
    ensures a + b + c + d == 0 ==> PairedDiff(a, b, c, d, sqrt) == Interval(0.0, -1.0, 1.0)
    ensures a + b + c + d > 0 ==>
      var i := PairedDiff(a, b, c, d, sqrt); var n := a + b + c + d; var phi := Phi(a, b, c, d, sqrt);
      var (l1, u1) := WilsonOf(a + b, n, sqrt); var (l2, u2) := WilsonOf(a + c, n, sqrt);
      var p1, p2 := Share(a + b, n), Share(a + c, n);
      && i.lower <= i.diff == p2 - p1 <= i.upper
      && ThirdSide(i.diff - i.lower, u1 - p1, p2 - l2, phi) == true
      && ThirdSide(i.upper - i.diff, p1 - l1, u2 - p2, phi) == true
  {
    var n := a + b + c + d;
    if n > 0 {
      WilsonOfHolds(a + b, n, sqrt);
      WilsonOfHolds(a + c, n, sqrt);
      PhiIsCorrelation(a, b, c, d, sqrt);
      PairedDiffHolds(a, b, c, d, sqrt);
      CombinedHalfWidths(Share(a + b, n), WilsonOf(a + b, n, sqrt), Share(a + c, n), WilsonOf(a + c, n, sqrt),
                         Phi(a, b, c, d, sqrt), sqrt);
    }
  }

  /** The estimate by its defining equation: times the root of the product of the marginals it is the determinant,
      reduced by half the table where that leaves something positive and to 0 where the determinant is not negative
      otherwise; and it is 0 when a marginal is empty. */
  lemma PhiEquation(a: nat, b: nat, c: nat, d: nat, sqrt: real -> real)
    requires IsSqrt(sqrt)
    ensures var phi := Phi(a, b, c, d, sqrt); var det := (Product(a, d) - Product(b, c)) as real;
      var half := (a + b + c + d) as real / 2.0;
      var root := sqrt(Product(Product(Product(a + b, c + d), a + c), b + d) as real);
      if a + b == 0 || c + d == 0 || a + c == 0 || b + d == 0 then phi == 0.0
      else Times(phi, root) == if det > half then det - half else if det >= 0.0 then 0.0 else det
  {
    var denom := Marginals(a, b, c, d);
    EmptyMarginal(a + b, c + d, a + c, b + d);
    if denom > 0 {
      RootIsPositive(denom, sqrt);
      QuotientTimes(Corrected(a, b, c, d), sqrt(denom as real));
      TimesCommutes(sqrt(denom as real), Phi(a, b, c, d, sqrt));
    }
  }

  lemma EmptyMarginal(x: nat, y: nat, z: nat, t: nat)
    ensures Product(Product(Product(x, y), z), t) == 0 <==> x == 0 || y == 0 || z == 0 || t == 0
  {
    ZeroProduct(x, y);
    ZeroProduct(Product(x, y), z);
    ZeroProduct(Product(Product(x, y), z), t);
  }

  lemma ZeroProduct(x: nat, y: nat)
    ensures Product(x, y) == 0 <==> x == 0 || y == 0
  {
  }

  /** What the half-widths would be for independent measures. */
  lemma HalfWidthSquares(p1: real, w1: (real, real), p2: real, w2: (real, real), phi: real, sqrt: real -> real)
    requires IsSqrt(sqrt) && w1.0 <= p1 <= w1.1 && w2.0 <= p2 <= w2.1 && -1.0 <= phi <= 1.0
    ensures var i := Combined(p1, w1, p2, w2, phi, sqrt);
      && (phi >= 0.0 ==> Square(i.diff - i.lower) <= Square(w1.1 - p1) + Square(p2 - w2.0))
      && (phi >= 0.0 ==> Square(i.upper - i.diff) <= Square(p1 - w1.0) + Square(w2.1 - p2))
      && (phi <= 0.0 ==> Square(i.diff - i.lower) >= Square(w1.1 - p1) + Square(p2 - w2.0))
      && (phi <= 0.0 ==> Square(i.upper - i.diff) >= Square(p1 - w1.0) + Square(w2.1 - p2))
  {
    RootSquare(w1.1 - p1, p2 - w2.0, phi, sqrt);
    RootSquare(p1 - w1.0, w2.1 - p2, phi, sqrt);
  }

  lemma RootSquare(x: real, y: real, phi: real, sqrt: real -> real)
    requires IsSqrt(sqrt) && x >= 0.0 && y >= 0.0 && -1.0 <= phi <= 1.0
    ensures var s := Square(sqrt(MaxReal(0.0, Radicand(x, y, phi))));
      (phi >= 0.0 ==> s <= Square(x) + Square(y)) && (phi <= 0.0 ==> s >= Square(x) + Square(y))
  {
    HalfWidthBounds(x, y, phi, sqrt);
    assert IsRootOf(sqrt(Radicand(x, y, phi)), Radicand(x, y, phi));
    TimesNonNegative(x, y);
    if phi >= 0.0 {
      TimesMonotone(0.0, phi, Times(x, y));
    }
    if phi <= 0.0 {
      TimesMonotone(phi, 0.0, Times(x, y));
    }
    assert Times(0.0, Times(x, y)) == 0.0;
  }

  /** Concordant tables narrow the interval, discordant ones widen it, against independent measures. */
  lemma AssociationNarrows(a: nat, b: nat, c: nat, d: nat, sqrt: real -> real)
    requires IsSqrt(sqrt) && a + b + c + d > 0
    ensures var i := PairedDiff(a, b, c, d, sqrt); var n := a + b + c + d;
      var (l1, u1) := WilsonOf(a + b, n, sqrt); var (l2, u2) := WilsonOf(a + c, n, sqrt);
      var p1, p2 := Share(a + b, n), Share(a + c, n);
      && (Product(a, d) >= Product(b, c) ==>
            Square(i.diff - i.lower) <= Square(u1 - p1) + Square(p2 - l2)
            && Square(i.upper - i.diff) <= Square(p1 - l1) + Square(u2 - p2))
      && (Product(a, d) <= Product(b, c) ==>
            Square(i.diff - i.lower) >= Square(u1 - p1) + Square(p2 - l2)
            && Square(i.upper - i.diff) >= Square(p1 - l1) + Square(u2 - p2))
  {
    var n := a + b + c + d;
    WilsonOfHolds(a + b, n, sqrt);
    WilsonOfHolds(a + c, n, sqrt);
    PhiIsCorrelation(a, b, c, d, sqrt);
    if Marginals(a, b, c, d) > 0 {
      PhiSign(a, b, c, d, sqrt);
    }
    HalfWidthSquares(Share(a + b, n), WilsonOf(a + b, n, sqrt), Share(a + c, n), WilsonOf(a + c, n, sqrt),
                     Phi(a, b, c, d, sqrt), sqrt);
  }

  // ---------- paired statistics ----------

  /** The pairs with outcomes (x, y), of (CURRENT flagged, NEW flagged). */
  function CountOf(pairs: seq<(bool, bool)>, x: bool, y: bool): (r: nat) {
    if pairs == [] then 0 else CountOf(pairs[1..], x, y) + if pairs[0] == (x, y) then 1 else 0
  }

  lemma {:induction false} CountsCover(pairs: seq<(bool, bool)>)
    ensures CountOf(pairs, true, true) + CountOf(pairs, true, false) + CountOf(pairs, false, true)
            + CountOf(pairs, false, false) == |pairs|
  {
    if pairs != [] {
      CountsCover(pairs[1..]);
      var (x, y) := pairs[0];
      assert (x || !x) && (y || !y);
    }
  }

  /** The result of `paired_stats`; its totals, rates and Wilson intervals are functions of the four counts. */
  datatype Stats = Stats(both: nat, currentOnly: nat, newOnly: nat, neither: nat, mcnemarP: real, diff: Interval)

  datatype Table = Table(both: nat, currentOnly: nat, newOnly: nat, neither: nat)

  /** The counts of `paired_stats`; what is left over when three are taken off is the fourth. */
  function TableOf(pairs: seq<(bool, bool)>): Table {
    var a, b, c := CountOf(pairs, true, true), CountOf(pairs, true, false), CountOf(pairs, false, true);
    CountsCover(pairs);
    Table(a, b, c, |pairs| - a - b - c)
  }

  function StatsOf(t: Table, sqrt: real -> real): Stats
    requires IsSqrt(sqrt)
  {
    Stats(t.both, t.currentOnly, t.newOnly, t.neither, McnemarExact(t.currentOnly, t.newOnly),
          PairedDiff(t.both, t.currentOnly, t.newOnly, t.neither, sqrt))
  }

  /** `paired_stats`. */
  function PairedStats(pairs: seq<(bool, bool)>, sqrt: real -> real): Stats
    requires IsSqrt(sqrt)
  {
    StatsOf(TableOf(pairs), sqrt)
  }

  function Exchanged(pairs: seq<(bool, bool)>): seq<(bool, bool)> {
    if pairs == [] then [] else [(pairs[0].1, pairs[0].0)] + Exchanged(pairs[1..])
  }

  lemma {:induction false} CountExchanged(pairs: seq<(bool, bool)>, x: bool, y: bool)
    ensures |Exchanged(pairs)| == |pairs| && CountOf(Exchanged(pairs), x, y) == CountOf(pairs, y, x)
  {
    if pairs != [] {
      CountExchanged(pairs[1..], x, y);
      assert Exchanged(pairs)[1..] == Exchanged(pairs[1..]);
    }
  }

  function Mirrored(s: Stats): Stats {
    Stats(s.both, s.newOnly, s.currentOnly, s.neither, s.mcnemarP, Negated(s.diff))
  }

  lemma StatsOfExchanged(t: Table, sqrt: real -> real)
    requires IsSqrt(sqrt)
    ensures StatsOf(Table(t.both, t.newOnly, t.currentOnly, t.neither), sqrt) == Mirrored(StatsOf(t, sqrt))
  {
    ImplementationsAgree(t.currentOnly, t.newOnly);
    PairedDiffSwapped(t.both, t.currentOnly, t.newOnly, t.neither, sqrt);
  }

  lemma TableExchanged(pairs: seq<(bool, bool)>)
    ensures var t := TableOf(pairs);
      TableOf(Exchanged(pairs)) == Table(t.both, t.newOnly, t.currentOnly, t.neither)
  {
    CountExchanged(pairs, true, true);
    CountExchanged(pairs, true, false);
    CountExchanged(pairs, false, true);
  }

  /** Exchanging the two guards exchanges their columns, keeps the p-value and mirrors the difference. */
  lemma StatsExchanged(pairs: seq<(bool, bool)>, sqrt: real -> real)
    requires IsSqrt(sqrt)
    ensures PairedStats(Exchanged(pairs), sqrt) == Mirrored(PairedStats(pairs, sqrt))
  {
    TableExchanged(pairs);
    StatsOfExchanged(TableOf(pairs), sqrt);
  }

  lemma {:induction false} CountIsMultiplicity(pairs: seq<(bool, bool)>, x: bool, y: bool)
    ensures CountOf(pairs, x, y) == multiset(pairs)[(x, y)]
  {
    if pairs != [] {
      CountIsMultiplicity(pairs[1..], x, y);
      var first, rest := pairs[0], pairs[1..];
      assert pairs == [first] + rest;
      assert multiset(pairs) == multiset{first} + multiset(rest);
    }
  }

  /** The order of the rows does not matter, and the count left over is of the pairs neither guard flagged. */
  lemma StatsOfReordered(pairs: seq<(bool, bool)>, pairs': seq<(bool, bool)>, sqrt: real -> real)
    requires IsSqrt(sqrt) && multiset(pairs) == multiset(pairs')
    ensures PairedStats(pairs, sqrt) == PairedStats(pairs', sqrt)
    ensures PairedStats(pairs, sqrt).neither == multiset(pairs)[(false, false)]
  {
    TableOfReordered(pairs, pairs');
  }

  lemma TableOfReordered(pairs: seq<(bool, bool)>, pairs': seq<(bool, bool)>)
    requires multiset(pairs) == multiset(pairs')
    ensures TableOf(pairs) == TableOf(pairs') && TableOf(pairs).neither == multiset(pairs)[(false, false)]
  {
    SameCounts(pairs, pairs', true, true);
    SameCounts(pairs, pairs', true, false);
    SameCounts(pairs, pairs', false, true);
    assert |pairs| == |multiset(pairs)| == |pairs'|;
    CountsCover(pairs);
    CountIsMultiplicity(pairs, false, false);
  }

  /** The statistics in terms of how many pairs have each outcome; the difference is the second guard's rate less the
      first one's. */
  lemma StatsOfPairs(pairs: seq<(bool, bool)>, sqrt: real -> real)
    requires IsSqrt(sqrt)
    ensures var s := PairedStats(pairs, sqrt); var m := multiset(pairs);
      && s.both == m[(true, true)] && s.currentOnly == m[(true, false)]
      && s.newOnly == m[(false, true)] && s.neither == m[(false, false)]
      && s.mcnemarP == McnemarExact(m[(true, false)], m[(false, true)])
      && (pairs != [] ==> s.diff.diff == (m[(false, true)] as real - m[(true, false)] as real) / |pairs| as real)
  {
    CountIsMultiplicity(pairs, true, true);
    CountIsMultiplicity(pairs, true, false);
    CountIsMultiplicity(pairs, false, true);
    CountIsMultiplicity(pairs, false, false);
    CountsCover(pairs);
    if pairs != [] {
      var t := TableOf(pairs);
      DifferenceOfRates(t.both, t.currentOnly, t.newOnly, t.neither, sqrt);
    }
  }

  lemma DifferenceOfRates(a: nat, b: nat, c: nat, d: nat, sqrt: real -> real)
    requires IsSqrt(sqrt) && a + b + c + d > 0
    ensures PairedDiff(a, b, c, d, sqrt).diff == (c as real - b as real) / (a + b + c + d) as real
  {
    ShareDifference(a + b, a + c, a + b + c + d);
  }

  lemma ShareDifference(j: nat, k: nat, n: nat)
    requires n > 0
    ensures Share(k, n) - Share(j, n) == (k as real - j as real) / n as real
  {
  }

  lemma SameCounts(pairs: seq<(bool, bool)>, pairs': seq<(bool, bool)>, x: bool, y: bool)
    requires multiset(pairs) == multiset(pairs')
    ensures CountOf(pairs, x, y) == CountOf(pairs', x, y)
  {
    CountIsMultiplicity(pairs, x, y);
    CountIsMultiplicity(pairs', x, y);
  }
}
