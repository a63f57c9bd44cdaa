/** The Mahalanobis open-set scorer (engine/scoring.py) and its served copy (engine/serve.py). */
module Mahalanobis {
  import opened Reals
  import opened LinearAlgebra

  function Minus(x: Vec, y: Vec): Vec { i => x(i) - y(i) }

  // ---------- fitting ----------

  ghost predicate Labelled(emb: seq<Vec>, y: seq<nat>, classes: nat) {
    && |emb| == |y| > 0
    && (forall k :: 0 <= k < |y| ==> y[k] < classes)
    && forall c :: 0 <= c < classes ==> c in y
  }

  /** The values of coordinate j over the rows of class c, zero elsewhere. */
  function InClass(rows: seq<Vec>, y: seq<nat>, c: nat, j: int): Vec
    requires |rows| == |y|
  {
    k => if 0 <= k < |rows| && y[k] == c then rows[k](j) else 0.0
  }

  function Members(y: seq<nat>, c: nat): Vec { k => if 0 <= k < |y| && y[k] == c then 1.0 else 0.0 }

  function MeanAt(emb: seq<Vec>, y: seq<nat>, c: nat, j: int): real
    requires |emb| == |y| && c in y
  {
    MembersPositive(y, c);
    Sum(|emb|, InClass(emb, y, c, j)) / Sum(|y|, Members(y, c))
  }

  function ClassMean(emb: seq<Vec>, y: seq<nat>, c: nat): Vec
    requires |emb| == |y| && c in y
  {
    j => MeanAt(emb, y, c, j)
  }

  lemma MembersPositive(y: seq<nat>, c: nat)
    requires c in y
    ensures Sum(|y|, Members(y, c)) >= 1.0
  {
    SumNonNegative(|y|, Members(y, c));
    var k :| 0 <= k < |y| && y[k] == c;
    assert Members(y, c)(k) == 1.0;
  }

  function Means(emb: seq<Vec>, y: seq<nat>, classes: nat): (mu: seq<Vec>)
    requires Labelled(emb, y, classes)
    ensures |mu| == classes
  {
    seq(classes, c requires 0 <= c < classes => ClassMean(emb, y, c))
  }

  function Centred(emb: seq<Vec>, y: seq<nat>, mu: seq<Vec>): (rows: seq<Vec>)
    requires |emb| == |y| && forall k :: 0 <= k < |y| ==> y[k] < |mu|
    ensures |rows| == |emb|
  {
    seq(|emb|, k requires 0 <= k < |emb| => Minus(emb[k], mu[y[k]]))
  }

  /** centred^T centred. */
  function Gram(rows: seq<Vec>): Mat {
    if rows == [] then (i, j) => 0.0 else
      var rest, r := Gram(rows[1..]), rows[0];
      (i, j) => Mix(1.0, rest(i, j), 1.0, Outer(r)(i, j))
  }

  /** centred^T centred / n + eps I. */
  function Covariance(rows: seq<Vec>, eps: real): Mat
    requires |rows| > 0
  {
    var gram, scale := Gram(rows), 1.0 / |rows| as real;
    (i, j) => Mix(scale, gram(i, j), eps, Identity()(i, j))
  }

  /** The products of coordinates i and j over the rows. */
  function Products(rows: seq<Vec>, i: int, j: int): Vec {
    k => if 0 <= k < |rows| then Times(rows[k](i), rows[k](j)) else 0.0
  }

  lemma {:induction false} SumFromFront(n: nat, f: Vec, g: Vec)
    requires forall k :: 0 <= k < n ==> g(k) == f(k + 1)
    ensures Sum(n + 1, f) == f(0) + Sum(n, g)
  {
    if n > 0 {
      SumFromFront(n - 1, f, g);
    }
  }

  lemma {:induction false} GramIs(rows: seq<Vec>, i: int, j: int)
    ensures Gram(rows)(i, j) == Sum(|rows|, Products(rows, i, j))
  {
    if rows != [] {
      GramIs(rows[1..], i, j);
      SumFromFront(|rows| - 1, Products(rows, i, j), Products(rows[1..], i, j));
      assert Mix(1.0, Gram(rows[1..])(i, j), 1.0, Outer(rows[0])(i, j))
          == Gram(rows[1..])(i, j) + Times(rows[0](i), rows[0](j));
    }
  }

  /** The covariance is the pooled one: times the number of rows, and less the regularisation on the diagonal, it is
      the sum over the rows of the products of the centred coordinates. */
  lemma CovarianceIs(rows: seq<Vec>, eps: real, i: int, j: int)
    requires |rows| > 0
    ensures Times(|rows| as real, Covariance(rows, eps)(i, j) - if i == j then eps else 0.0)
         == Sum(|rows|, Products(rows, i, j))
  {
    GramIs(rows, i, j);
    ScaledBack(|rows| as real, Gram(rows)(i, j), eps, Identity()(i, j));
  }

  lemma ScaledBack(n: real, gram: real, eps: real, unit: real)
    requires n > 0.0 && (unit == 0.0 || unit == 1.0)
    ensures Times(n, Mix(1.0 / n, gram, eps, unit) - if unit == 1.0 then eps else 0.0) == gram
  {
    assert Mix(1.0 / n, gram, eps, unit) == (1.0 / n) * gram + if unit == 1.0 then eps else 0.0;
    assert n * ((1.0 / n) * gram) == gram;
  }

  /** What `np.linalg.inv` promises: cov * prec is the identity. */
  ghost predicate IsInverse(D: nat, cov: Mat, prec: Mat) {
    forall i :: 0 <= i < D ==> Same(D, VecMat(D, Row(cov, i), prec), Unit(i))
  }

  // ---------- the class means ----------

  /** Whatever the centres, a class's residuals sum to its total less its size times its centre. */
  lemma ResidualSum(emb: seq<Vec>, y: seq<nat>, mu: seq<Vec>, c: nat, j: int)
    requires |emb| == |y| && (forall k :: 0 <= k < |y| ==> y[k] < |mu|) && c < |mu|
    ensures Sum(|emb|, InClass(Centred(emb, y, mu), y, c, j))
            == Mix(1.0, Sum(|emb|, InClass(emb, y, c, j)), -mu[c](j), Sum(|emb|, Members(y, c)))
  {
    var m := mu[c](j);
    var h, f, g := InClass(Centred(emb, y, mu), y, c, j), InClass(emb, y, c, j), Members(y, c);
    forall k | 0 <= k < |emb|
      ensures h(k) == Mix(1.0, f(k), -m, g(k))
    {
      Residual(f(k), m, y[k] == c);
    }
    SumMix(|emb|, h, 1.0, f, -m, g);
  }

  /** The residuals of every class sum to zero in every coordinate. */
  lemma ResidualsSumToZero(emb: seq<Vec>, y: seq<nat>, classes: nat, mu: seq<Vec>, c: nat, j: int)
    requires Labelled(emb, y, classes) && c < classes && mu == Means(emb, y, classes)
    ensures Sum(|emb|, InClass(Centred(emb, y, mu), y, c, j)) == 0.0
  {
    MeansAt(emb, y, classes, c, j);
    ResidualSum(emb, y, mu, c, j);
    MeanTakenOff(emb, y, c, j);
  }

  lemma MeansAt(emb: seq<Vec>, y: seq<nat>, classes: nat, c: nat, j: int)
    requires Labelled(emb, y, classes) && c < classes
    ensures Means(emb, y, classes)[c](j) == MeanAt(emb, y, c, j)
  {
  }

  lemma MeanTakenOff(emb: seq<Vec>, y: seq<nat>, c: nat, j: int)
    requires |emb| == |y| && c in y
    ensures Mix(1.0, Sum(|emb|, InClass(emb, y, c, j)), -MeanAt(emb, y, c, j), Sum(|emb|, Members(y, c))) == 0.0
  {
    MembersPositive(y, c);
    TakenOff(Sum(|emb|, InClass(emb, y, c, j)), Sum(|y|, Members(y, c)), MeanAt(emb, y, c, j));
  }

  lemma Residual(x: real, m: real, inside: bool)
    ensures Mix(1.0, x, -m, if inside then 1.0 else 0.0) == if inside then x - m else x
  {
  }

  lemma TakenOff(total: real, count: real, m: real)
    requires count > 0.0 && m == total / count
    ensures Mix(1.0, total, -m, count) == 0.0
  {
    QuotientTimes(total, count);
    TimesNegate(m, count);
    TimesCommutes(m, count);
  }

  // ---------- the covariance is symmetric and positive definite ----------

  lemma {:induction false} GramSymmetric(D: nat, rows: seq<Vec>)
    ensures Symmetric(D, Gram(rows))
  {
    if rows != [] {
      GramSymmetric(D, rows[1..]);
      forall i, j | 0 <= i < D && 0 <= j < D
        ensures Gram(rows)(i, j) == Gram(rows)(j, i)
      {
        TimesCommutes(rows[0](i), rows[0](j));
      }
    }
  }

  lemma {:induction false} GramNonNegative(D: nat, rows: seq<Vec>, y: Vec)
    ensures Form(D, y, Gram(rows), y) >= 0.0
  {
    if rows == [] {
      forall i, j | 0 <= i < D && 0 <= j < D
        ensures Gram(rows)(i, j) == Mix(0.0, Identity()(i, j), 0.0, Identity()(i, j))
      {
      }
      FormMix(D, y, Gram(rows), 0.0, Identity(), 0.0, Identity(), y);
    } else {
      GramNonNegative(D, rows[1..], y);
      FormMix(D, y, Gram(rows), 1.0, Gram(rows[1..]), 1.0, Outer(rows[0]), y);
      FormOuter(D, rows[0], y);
      SquareNonNegative(Dot(D, rows[0], y));
    }
  }

  lemma CovarianceSymmetric(D: nat, rows: seq<Vec>, eps: real)
    requires |rows| > 0
    ensures Symmetric(D, Covariance(rows, eps))
  {
    GramSymmetric(D, rows);
    forall i, j | 0 <= i < D && 0 <= j < D
      ensures Covariance(rows, eps)(i, j) == Covariance(rows, eps)(j, i)
    {
      assert Gram(rows)(i, j) == Gram(rows)(j, i);
    }
  }

  lemma CovarianceForm(D: nat, rows: seq<Vec>, eps: real, y: Vec)
    requires |rows| > 0 && eps >= 0.0
    ensures Form(D, y, Covariance(rows, eps), y) >= Times(eps, Dot(D, y, y))
  {
    var scale := 1.0 / |rows| as real;
    QuotientNonNegative(1.0, |rows| as real);
    FormMix(D, y, Covariance(rows, eps), scale, Gram(rows), eps, Identity(), y);
    FormIdentity(D, y, y);
    GramNonNegative(D, rows, y);
    TimesNonNegative(scale, Form(D, y, Gram(rows), y));
  }

  // ---------- the precision is symmetric and positive definite ----------

  /** cov (prec x) = x. */
  lemma SolvesFor(D: nat, cov: Mat, prec: Mat, x: Vec)
    requires IsInverse(D, cov, prec)
    ensures Same(D, MatVec(D, cov, MatVec(D, prec, x)), x)
  {
    forall i | 0 <= i < D
      ensures MatVec(D, cov, MatVec(D, prec, x))(i) == x(i)
    {
      FormAssociates(D, Row(cov, i), prec, x);
      DotSame(D, VecMat(D, Row(cov, i), prec), Unit(i), x, x);
      UnitSum(D, i, x);
    }
  }

  /** The precision's form at x and z is the covariance's form at prec z and prec x. */
  lemma FormOfInverse(D: nat, cov: Mat, prec: Mat, x: Vec, z: Vec)
    requires IsInverse(D, cov, prec)
    ensures Form(D, x, prec, z) == Form(D, MatVec(D, prec, z), cov, MatVec(D, prec, x))
  {
    var u, v := MatVec(D, prec, x), MatVec(D, prec, z);
    SolvesFor(D, cov, prec, x);
    FormAssociates(D, x, prec, z);
    FormAssociates(D, v, cov, u);
    DotSame(D, v, v, MatVec(D, cov, u), x);
    DotCommutes(D, v, x);
  }

  /** The inverse of the regularised covariance has a symmetric form. */
  lemma PrecisionSymmetric(D: nat, rows: seq<Vec>, eps: real, prec: Mat, x: Vec, z: Vec)
    requires |rows| > 0 && IsInverse(D, Covariance(rows, eps), prec)
    ensures Form(D, x, prec, z) == Form(D, z, prec, x)
  {
    var cov := Covariance(rows, eps);
    FormOfInverse(D, cov, prec, x, z);
    FormOfInverse(D, cov, prec, z, x);
    CovarianceSymmetric(D, rows, eps);
    FormSymmetric(D, MatVec(D, prec, z), cov, MatVec(D, prec, x));
  }

  /** And a positive definite one. */
  lemma PrecisionPositive(D: nat, rows: seq<Vec>, eps: real, prec: Mat, x: Vec)
    requires |rows| > 0 && eps > 0.0 && IsInverse(D, Covariance(rows, eps), prec)
    ensures Form(D, x, prec, x) >= 0.0
    ensures Form(D, x, prec, x) == 0.0 <==> Same(D, x, Zero())
  {
    var cov, u := Covariance(rows, eps), MatVec(D, prec, x);
    FormOfInverse(D, cov, prec, x, x);
    CovarianceForm(D, rows, eps, u);
    DotPositive(D, u);
    TimesNonNegative(eps, Dot(D, u, u));
    SolvesFor(D, cov, prec, x);
    if Form(D, x, prec, x) == 0.0 {
      TimesOrder(Dot(D, u, u), 0.0, eps);
      assert Times(eps, 0.0) == 0.0;
      forall i | 0 <= i < D
        ensures x(i) == 0.0
      {
        DotZero(D, Row(cov, i), u);
        assert MatVec(D, cov, u)(i) == x(i);
      }
    }
    if Same(D, x, Zero()) {
      DotZero(D, VecMat(D, x, prec), x);
    }
  }

  function Zero(): Vec { i => 0.0 }

  lemma DotZero(D: nat, x: Vec, u: Vec)
    requires forall i :: 0 <= i < D ==> u(i) == 0.0
    ensures Dot(D, x, u) == 0.0
  {
    SumZero(D, Cells(x, u));
  }

  // ---------- the score ----------

  /** (x - mu) P (x - mu)^T. */
  function Direct(D: nat, x: Vec, mu: Vec, prec: Mat): real {
    Form(D, Minus(x, mu), prec, Minus(x, mu))
  }

  /** The form the code computes, from x P and mu P. */
  function Expanded(D: nat, x: Vec, mu: Vec, prec: Mat): real {
    var xp, mp := VecMat(D, x, prec), VecMat(D, mu, prec);
    Dot(D, xp, x) - 2.0 * Dot(D, xp, mu) + Dot(D, mp, mu)
  }

  /** The two forms agree exactly where the cross terms do. */
  lemma ExpandedIsDirectIff(D: nat, x: Vec, mu: Vec, prec: Mat)
    ensures Direct(D, x, mu, prec) - Expanded(D, x, mu, prec) == Form(D, x, prec, mu) - Form(D, mu, prec, x)
    ensures Expanded(D, x, mu, prec) == Direct(D, x, mu, prec) <==> Form(D, x, prec, mu) == Form(D, mu, prec, x)
  {
    var v := Minus(x, mu);
    var vp, xp, mp := VecMat(D, v, prec), VecMat(D, x, prec), VecMat(D, mu, prec);
    forall i | 0 <= i < D
      ensures v(i) == Mix(1.0, x(i), -1.0, mu(i))
    {
    }
    forall j | 0 <= j < D
      ensures vp(j) == Mix(1.0, xp(j), -1.0, mp(j))
    {
      DotMix(D, v, 1.0, x, -1.0, mu, Row(Flip(prec), j));
    }
    DotMix(D, vp, 1.0, xp, -1.0, mp, v);
    DotMix(D, v, 1.0, x, -1.0, mu, xp);
    DotMix(D, v, 1.0, x, -1.0, mu, mp);
  }

  /** With an asymmetric precision the code's form is wrong already at two unit vectors. */
  lemma AsymmetryShows(D: nat, prec: Mat, i: nat, j: nat)
    requires i < D && j < D && prec(i, j) != prec(j, i)
    ensures Expanded(D, Unit(i), Unit(j), prec) != Direct(D, Unit(i), Unit(j), prec)
  {
    ExpandedIsDirectIff(D, Unit(i), Unit(j), prec);
    UnitForm(D, prec, i, j);
    UnitForm(D, prec, j, i);
  }

  lemma UnitForm(D: nat, prec: Mat, i: nat, j: nat)
    requires i < D && j < D
    ensures Form(D, Unit(i), prec, Unit(j)) == prec(i, j)
  {
    FormAssociates(D, Unit(i), prec, Unit(j));
    UnitSum(D, i, MatVec(D, prec, Unit(j)));
    DotCommutes(D, Row(prec, i), Unit(j));
    UnitSum(D, j, Row(prec, i));
  }

  function Distances(D: nat, x: Vec, mu: seq<Vec>, prec: Mat): Vec {
    c => if 0 <= c < |mu| then Expanded(D, x, mu[c], prec) else 0.0
  }

  /** One row of `Mahalanobis.score`, and of `Predictor._known_score`; a batch is scored row by row. */
  function Score(D: nat, x: Vec, mu: seq<Vec>, prec: Mat): real
    requires |mu| > 0
  {
    -MinOver(|mu|, Distances(D, x, mu, prec))
  }

  ghost predicate Fitted(D: nat, emb: seq<Vec>, y: seq<nat>, classes: nat, eps: real, mu: seq<Vec>, prec: Mat) {
    && Labelled(emb, y, classes) && eps > 0.0
    && mu == Means(emb, y, classes)
    && IsInverse(D, Covariance(Centred(emb, y, mu), eps), prec)
  }

  /** After a fit the score is the negated squared distance to the nearest class, at most zero, and zero exactly at a
      class mean. */
  lemma ScoreIsNearestDistance(
      D: nat, emb: seq<Vec>, y: seq<nat>, classes: nat, eps: real, mu: seq<Vec>, prec: Mat, x: Vec)
    requires Fitted(D, emb, y, classes, eps, mu, prec)
    ensures |mu| > 0
    ensures forall c :: 0 <= c < classes ==> -Score(D, x, mu, prec) <= Direct(D, x, mu[c], prec)
    ensures exists c :: 0 <= c < classes && -Score(D, x, mu, prec) == Direct(D, x, mu[c], prec)
    ensures Score(D, x, mu, prec) <= 0.0
    ensures Score(D, x, mu, prec) == 0.0 <==> exists c :: 0 <= c < classes && Same(D, x, mu[c])
  {
    var rows := Centred(emb, y, mu);
    assert y[0] < classes;
    var f := Distances(D, x, mu, prec);
    MinOverIs(classes, f);
    forall c | 0 <= c < classes
      ensures f(c) == Direct(D, x, mu[c], prec) >= 0.0
      ensures f(c) == 0.0 <==> Same(D, x, mu[c])
    {
      PrecisionSymmetric(D, rows, eps, prec, x, mu[c]);
      ExpandedIsDirectIff(D, x, mu[c], prec);
      PrecisionPositive(D, rows, eps, prec, Minus(x, mu[c]));
      SameIffNoDifference(D, x, mu[c]);
    }
    var c :| 0 <= c < classes && MinOver(classes, f) == f(c);
    assert -Score(D, x, mu, prec) == Direct(D, x, mu[c], prec);
    if c' :| 0 <= c' < classes && Same(D, x, mu[c']) {
      assert f(c') == 0.0;
    }
  }

  lemma SameIffNoDifference(D: nat, x: Vec, mu: Vec)
    ensures Same(D, Minus(x, mu), Zero()) <==> Same(D, x, mu)
  {
    if Same(D, Minus(x, mu), Zero()) {
      forall i | 0 <= i < D
        ensures x(i) == mu(i)
      {
        assert Minus(x, mu)(i) == Zero()(i);
      }
    }
  }

  /** `predict_batch`'s flag. */
  predicate IsUnknown(D: nat, x: Vec, mu: seq<Vec>, prec: Mat, threshold: real)
    requires |mu| > 0
  {
    Score(D, x, mu, prec) < threshold
  }

  /** A served item is flagged unknown exactly when it is further than -threshold from every class. */
  lemma UnknownIffFarFromAll(
      D: nat, emb: seq<Vec>, y: seq<nat>, classes: nat, eps: real, mu: seq<Vec>, prec: Mat, x: Vec, threshold: real)
    requires Fitted(D, emb, y, classes, eps, mu, prec)
    ensures |mu| > 0
    ensures IsUnknown(D, x, mu, prec, threshold)
            <==> forall c :: 0 <= c < classes ==> Direct(D, x, mu[c], prec) > -threshold
  {
    ScoreIsNearestDistance(D, emb, y, classes, eps, mu, prec, x);
  }
}
