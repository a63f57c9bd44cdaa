/** Vectors, matrices and quadratic forms over the reals. A vector of dimension D is read at 0 .. D - 1 only. */
module LinearAlgebra {
  import opened Reals

  type Vec = int -> real

  type Mat = (int, int) -> real

  function Sum(n: nat, f: int -> real): real {
    if n == 0 then 0.0 else Sum(n - 1, f) + f(n - 1)
  }

  ghost predicate Same(n: nat, f: Vec, g: Vec) {
    forall i :: 0 <= i < n ==> f(i) == g(i)
  }

  /** h is a f + b g at the first n places. */
  ghost predicate Mixes(n: nat, h: Vec, a: real, f: Vec, b: real, g: Vec) {
    forall i :: 0 <= i < n ==> h(i) == Mix(a, f(i), b, g(i))
  }

  function Mix(a: real, x: real, b: real, y: real): real { Times(a, x) + Times(b, y) }

  lemma {:induction false} SumSame(n: nat, f: Vec, g: Vec)
    requires Same(n, f, g)
    ensures Sum(n, f) == Sum(n, g)
  {
    if n > 0 {
      SumSame(n - 1, f, g);
    }
  }

  /** Sums are linear. */
  lemma {:induction false} SumMix(n: nat, h: Vec, a: real, f: Vec, b: real, g: Vec)
    requires Mixes(n, h, a, f, b, g)
    ensures Sum(n, h) == Mix(a, Sum(n, f), b, Sum(n, g))
  {
    if n > 0 {
      SumMix(n - 1, h, a, f, b, g);
      TimesLinear(a, Sum(n - 1, f), f(n - 1));
      TimesLinear(b, Sum(n - 1, g), g(n - 1));
    }
  }

  lemma {:induction false} SumNonNegative(n: nat, f: Vec)
    requires forall i :: 0 <= i < n ==> f(i) >= 0.0
    ensures Sum(n, f) >= 0.0
    ensures forall i :: 0 <= i < n ==> f(i) <= Sum(n, f)
  {
    if n > 0 {
      SumNonNegative(n - 1, f);
    }
  }

  function RowSums(f: Mat, m: nat): Vec { i => Sum(m, Row(f, i)) }

  function Row(f: Mat, i: int): Vec { j => f(i, j) }

  function Flip(f: Mat): Mat { (j, i) => f(i, j) }

  lemma {:induction false} SumZero(n: nat, f: Vec)
    requires forall i :: 0 <= i < n ==> f(i) == 0.0
    ensures Sum(n, f) == 0.0
  {
    if n > 0 {
      SumZero(n - 1, f);
    }
  }

  /** The order of a double sum does not matter. */
  lemma {:induction false} SumSwap(n: nat, m: nat, f: Mat)
    ensures Sum(n, RowSums(f, m)) == Sum(m, RowSums(Flip(f), n))
  {
    if n == 0 {
      SumZero(m, RowSums(Flip(f), 0));
    } else {
      SumSwap(n - 1, m, f);
      var h, g := RowSums(Flip(f), n), RowSums(Flip(f), n - 1);
      forall j | 0 <= j < m
        ensures h(j) == Mix(1.0, g(j), 1.0, Row(f, n - 1)(j))
      {
        assert Sum(n, Row(Flip(f), j)) == Sum(n - 1, Row(Flip(f), j)) + f(n - 1, j);
      }
      SumMix(m, h, 1.0, g, 1.0, Row(f, n - 1));
    }
  }

  function MinOver(n: nat, f: Vec): real
    requires n > 0
  {
    if n == 1 || f(n - 1) < MinOver(n - 1, f) then f(n - 1) else MinOver(n - 1, f)
  }

  lemma {:induction false} MinOverIs(n: nat, f: Vec)
    requires n > 0
    ensures forall c :: 0 <= c < n ==> MinOver(n, f) <= f(c)
    ensures exists c :: 0 <= c < n && MinOver(n, f) == f(c)
  {
    if n == 1 {
      assert MinOver(n, f) == f(0);
    } else {
      MinOverIs(n - 1, f);
      var c :| 0 <= c < n - 1 && MinOver(n - 1, f) == f(c);
      assert MinOver(n, f) == f(n - 1) || MinOver(n, f) == f(c);
    }
  }

  // ---------- products ----------

  function Cells(x: Vec, y: Vec): Vec { i => Times(x(i), y(i)) }

  function Dot(D: nat, x: Vec, y: Vec): real { Sum(D, Cells(x, y)) }

  /** The row vector x M. */
  function VecMat(D: nat, x: Vec, M: Mat): Vec { j => Dot(D, x, Row(Flip(M), j)) }

  /** The column vector M y. */
  function MatVec(D: nat, M: Mat, y: Vec): Vec { i => Dot(D, Row(M, i), y) }

  /** x M y. */
  function Form(D: nat, x: Vec, M: Mat, y: Vec): real { Dot(D, VecMat(D, x, M), y) }

  lemma DotCommutes(D: nat, x: Vec, y: Vec)
    ensures Dot(D, x, y) == Dot(D, y, x)
  {
    forall i | 0 <= i < D
      ensures Cells(x, y)(i) == Cells(y, x)(i)
    {
      TimesCommutes(x(i), y(i));
    }
    SumSame(D, Cells(x, y), Cells(y, x));
  }

  lemma DotSame(D: nat, x: Vec, x': Vec, y: Vec, y': Vec)
    requires Same(D, x, x') && Same(D, y, y')
    ensures Dot(D, x, y) == Dot(D, x', y')
  {
    SumSame(D, Cells(x, y), Cells(x', y'));
  }

  /** The inner product is linear in its first argument. */
  lemma DotMix(D: nat, h: Vec, a: real, f: Vec, b: real, g: Vec, y: Vec)
    requires Mixes(D, h, a, f, b, g)
    ensures Dot(D, h, y) == Mix(a, Dot(D, f, y), b, Dot(D, g, y))
    ensures Dot(D, y, h) == Mix(a, Dot(D, y, f), b, Dot(D, y, g))
  {
    forall i | 0 <= i < D
      ensures Cells(h, y)(i) == Mix(a, Cells(f, y)(i), b, Cells(g, y)(i))
    {
      MixTimes(a, f(i), b, g(i), y(i));
    }
    SumMix(D, Cells(h, y), a, Cells(f, y), b, Cells(g, y));
    DotCommutes(D, h, y);
    DotCommutes(D, f, y);
    DotCommutes(D, g, y);
  }

  lemma MixTimes(a: real, x: real, b: real, y: real, z: real)
    ensures Times(Mix(a, x, b, y), z) == Mix(a, Times(x, z), b, Times(y, z))
  {
  }

  /** (x M) y = x (M y). */
  lemma FormAssociates(D: nat, x: Vec, M: Mat, y: Vec)
    ensures Form(D, x, M, y) == Dot(D, x, MatVec(D, M, y))
  {
    var cells: Mat := (i, j) => Times(Times(x(i), M(i, j)), y(j));
    forall j | 0 <= j < D
      ensures Cells(VecMat(D, x, M), y)(j) == RowSums(Flip(cells), D)(j)
    {
      var products := Cells(x, Row(Flip(M), j));
      forall i | 0 <= i < D
        ensures Row(Flip(cells), j)(i) == Mix(y(j), products(i), 0.0, products(i))
      {
        TimesCommutes(products(i), y(j));
      }
      SumMix(D, Row(Flip(cells), j), y(j), products, 0.0, products);
      TimesCommutes(Sum(D, products), y(j));
    }
    SumSame(D, Cells(VecMat(D, x, M), y), RowSums(Flip(cells), D));
    forall i | 0 <= i < D
      ensures Cells(x, MatVec(D, M, y))(i) == RowSums(cells, D)(i)
    {
      var products := Cells(Row(M, i), y);
      forall j | 0 <= j < D
        ensures Row(cells, i)(j) == Mix(x(i), products(j), 0.0, products(j))
      {
        TimesAssociates(x(i), M(i, j), y(j));
      }
      SumMix(D, Row(cells, i), x(i), products, 0.0, products);
    }
    SumSame(D, Cells(x, MatVec(D, M, y)), RowSums(cells, D));
    SumSwap(D, D, cells);
  }

  ghost predicate Symmetric(D: nat, M: Mat) {
    forall i, j :: 0 <= i < D && 0 <= j < D ==> M(i, j) == M(j, i)
  }

  /** The form of a symmetric matrix is symmetric. */
  lemma FormSymmetric(D: nat, x: Vec, M: Mat, y: Vec)
    requires Symmetric(D, M)
    ensures Form(D, x, M, y) == Form(D, y, M, x)
  {
    FormAssociates(D, x, M, y);
    forall i | 0 <= i < D
      ensures MatVec(D, M, y)(i) == VecMat(D, y, M)(i)
    {
      DotCommutes(D, Row(M, i), y);
      DotSame(D, y, y, Row(M, i), Row(Flip(M), i));
    }
    DotSame(D, x, x, MatVec(D, M, y), VecMat(D, y, M));
    DotCommutes(D, x, VecMat(D, y, M));
  }

  ghost predicate MatMixes(D: nat, M: Mat, a: real, A: Mat, b: real, B: Mat) {
    forall i, j :: 0 <= i < D && 0 <= j < D ==> M(i, j) == Mix(a, A(i, j), b, B(i, j))
  }

  /** The form is linear in the matrix. */
  lemma FormMix(D: nat, x: Vec, M: Mat, a: real, A: Mat, b: real, B: Mat, y: Vec)
    requires MatMixes(D, M, a, A, b, B)
    ensures Form(D, x, M, y) == Mix(a, Form(D, x, A, y), b, Form(D, x, B, y))
  {
    forall j | 0 <= j < D
      ensures VecMat(D, x, M)(j) == Mix(a, VecMat(D, x, A)(j), b, VecMat(D, x, B)(j))
    {
      DotMix(D, Row(Flip(M), j), a, Row(Flip(A), j), b, Row(Flip(B), j), x);
    }
    DotMix(D, VecMat(D, x, M), a, VecMat(D, x, A), b, VecMat(D, x, B), y);
  }

  function Unit(i: int): Vec { j => if i == j then 1.0 else 0.0 }

  function Identity(): Mat { (i, j) => if i == j then 1.0 else 0.0 }

  lemma {:induction false} UnitSum(n: nat, i: int, y: Vec)
    ensures Sum(n, Cells(Unit(i), y)) == if 0 <= i < n then y(i) else 0.0
  {
    if n > 0 {
      UnitSum(n - 1, i, y);
      assert Times(1.0, y(n - 1)) == y(n - 1) && Times(0.0, y(n - 1)) == 0.0;
    }
  }

  lemma FormIdentity(D: nat, x: Vec, y: Vec)
    ensures Form(D, x, Identity(), y) == Dot(D, x, y)
  {
    FormAssociates(D, x, Identity(), y);
    forall i | 0 <= i < D
      ensures MatVec(D, Identity(), y)(i) == y(i)
    {
      UnitSum(D, i, y);
      DotSame(D, Row(Identity(), i), Unit(i), y, y);
    }
    DotSame(D, x, x, MatVec(D, Identity(), y), y);
  }

  function Outer(r: Vec): Mat { (i, j) => Times(r(i), r(j)) }

  /** The form of an outer product is a product of inner products. */
  lemma FormOuter(D: nat, r: Vec, y: Vec)
    ensures Form(D, y, Outer(r), y) == Square(Dot(D, r, y))
  {
    var k := Dot(D, y, r);
    forall j | 0 <= j < D
      ensures VecMat(D, y, Outer(r))(j) == Mix(k, r(j), 0.0, r(j))
    {
      var column := Row(Flip(Outer(r)), j);
      forall i | 0 <= i < D
        ensures column(i) == Mix(r(j), r(i), 0.0, r(i))
      {
        TimesCommutes(r(i), r(j));
      }
      DotMix(D, column, r(j), r, 0.0, r, y);
      TimesCommutes(k, r(j));
    }
    DotMix(D, VecMat(D, y, Outer(r)), k, r, 0.0, r, y);
    DotCommutes(D, y, r);
  }

  lemma DotPositive(D: nat, y: Vec)
    ensures Dot(D, y, y) >= 0.0
    ensures Dot(D, y, y) == 0.0 ==> forall i :: 0 <= i < D ==> y(i) == 0.0
  {
    forall i | 0 <= i < D
      ensures Cells(y, y)(i) >= 0.0
    {
      SquareNonNegative(y(i));
    }
    SumNonNegative(D, Cells(y, y));
    if Dot(D, y, y) == 0.0 {
      forall i | 0 <= i < D
        ensures y(i) == 0.0
      {
        assert Cells(y, y)(i) <= 0.0;
        ZeroSquare(y(i));
      }
    }
  }

  lemma ZeroSquare(x: real)
    requires Times(x, x) <= 0.0
    ensures x == 0.0
  {
    if x > 0.0 {
      TimesPositive(x, x);
    } else if x < 0.0 {
      assert Times(-x, -x) == Times(x, x);
      TimesPositive(-x, -x);
    }
  }
}
