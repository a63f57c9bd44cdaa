/** On fully covered nominal data the two statistics of eval/agreement.py determine each other. */
module AlphaKappa {
  import opened Common
  import opened Reals
  import opened Sums
  import opened Agreement
  import opened AlphaLaws
  import opened Fleiss

  // ---------- closed forms of the two weighted sums at the nominal level ----------

  ghost function Nominal01(): (Value, Value) -> real {
    (v, w) => if v == w then 0.0 else 1.0
  }

  ghost function Diagonal(units: seq<Unit>): Value -> real {
    v => Coincidence(units, v, v)
  }

  lemma TimesOne(x: real)
    ensures Times(x, 1.0) == x
  {
  }

  /** The observed sum is the total less the diagonal. */
  lemma NominalObserved(units: seq<Unit>)
    ensures OffSum(Observed(units), ObservedWeight(units, Nominal01()))
         == Total(units) - SumSet(Observed(units), Diagonal(units))
  {
    var V, f := Observed(units), OffDiagonal(ObservedWeight(units, Nominal01()));
    SumByRows(V, V, f);
    forall v | v in V ensures RowTotals(units)(v) == GridRows(V, f)(v) + Diagonal(units)(v) {
      SumSetRemove(V, CellsOf(f, v), v);
      SumSetRemove(V, CoincidenceRow(units, v), v);
      forall w | w in V - {v} ensures CellsOf(f, v)(w) == CoincidenceRow(units, v)(w) {
        TimesOne(Coincidence(units, v, w));
      }
      SumSetCongruent(V - {v}, CellsOf(f, v), CoincidenceRow(units, v));
    }
    SumSetAdd(V, GridRows(V, f), Diagonal(units), RowTotals(units));
  }

  ghost function SquaresOf(g: Value -> real): Value -> real {
    v => Square(g(v))
  }

  ghost function SumOf(f: Value -> real, g: Value -> real): Value -> real {
    v => f(v) + g(v)
  }

  lemma Commute(z: real, x: real, y: real)
    requires IsProduct(z, x, y)
    ensures IsProduct(z, y, x)
  {
  }

  lemma RowOfProducts(V: set<Value>, f: Value -> real, g: Value -> real, v: Value)
    requires v in V && f(v) == 0.0
    requires forall w :: w in V && w != v ==> IsProduct(f(w), g(v), g(w))
    ensures IsProduct(SumSet(V, f) + Square(g(v)), SumSet(V, g), g(v))
  {
    SumSetRemove(V, f, v);
    SumSetRemove(V, g, v);
    SumSetScale(V - {v}, g, g(v), f);
    AddProducts(Square(g(v)), g(v), SumSet(V - {v}, f), SumSet(V - {v}, g), g(v));
    Commute(SumSet(V, f) + Square(g(v)), g(v), SumSet(V, g));
  }

  /** Products of different entries sum to the square of the sum less the squares. */
  lemma ProductsOfDifferent(V: set<Value>, f: ((Value, Value)) -> real, g: Value -> real)
    requires forall v :: v in V ==> f((v, v)) == 0.0
    requires forall v, w :: v in V && w in V && w != v ==> IsProduct(f((v, w)), g(v), g(w))
    ensures SumSet(Grid(V, V), f) == Square(SumSet(V, g)) - SumSet(V, SquaresOf(g))
  {
    SumByRows(V, V, f);
    var h := SumOf(GridRows(V, f), SquaresOf(g));
    forall v | v in V ensures IsProduct(h(v), SumSet(V, g), g(v)) {
      RowOfProducts(V, CellsOf(f, v), g, v);
    }
    SumSetScale(V, g, SumSet(V, g), h);
    SumSetAdd(V, GridRows(V, f), SquaresOf(g), h);
    SquareLess(SumSet(V, h), SumSet(V, SquaresOf(g)), SumSet(V, g));
  }

  lemma SquareLess(z: real, squares: real, s: real)
    requires IsProduct(z, s, s)
    ensures z - squares == Square(s) - squares
  {
  }

  lemma NominalCell(units: seq<Unit>, v: Value, w: Value)
    requires v != w
    ensures IsProduct(OffDiagonal(ExpectedWeight(units, Nominal01()))((v, w)), RowTotals(units)(v), RowTotals(units)(w))
  {
    var x, y := RowTotals(units)(v), RowTotals(units)(w);
    assert Times(x, y) == Times(RowTotal(units, v), RowTotal(units, w));
    TimesOne(Times(x, y));
  }

  /** The expected sum is the squared total less the squared row totals. */
  lemma NominalExpected(units: seq<Unit>)
    ensures OffSum(Observed(units), ExpectedWeight(units, Nominal01()))
         == Square(Total(units)) - SumSet(Observed(units), SquaresOf(RowTotals(units)))
  {
    var f := OffDiagonal(ExpectedWeight(units, Nominal01()));
    forall v, w | w != v ensures IsProduct(f((v, w)), RowTotals(units)(v), RowTotals(units)(w)) {
      NominalCell(units, v, w);
    }
    ProductsOfDifferent(Observed(units), f, RowTotals(units));
  }

  // ---------- the table of counts of fully covered units ----------

  /** How many raters put each unit in each category. */
  function TableRow(u: Unit, categories: seq<Value>): seq<nat> {
    seq(|categories|, j requires 0 <= j < |categories| => u[categories[j]])
  }

  function TableOf(units: seq<Unit>, categories: seq<Value>): Table {
    seq(|units|, i requires 0 <= i < |units| => TableRow(units[i], categories))
  }

  ghost function SquaredMultiplicity(u: Unit): Value -> real {
    v => Square(u[v] as real)
  }

  lemma {:induction false} RowAsSums(u: Unit, categories: seq<Value>)
    ensures SumSeq(categories, Multiplicity(u)) == Fleiss.RowSum(TableRow(u, categories)) as real
    ensures SumSeq(categories, SquaredMultiplicity(u)) == SquareSum(TableRow(u, categories)) as real
  {
    if categories != [] {
      var init, c := categories[..|categories| - 1], u[categories[|categories| - 1]];
      RowAsSums(u, init);
      assert TableRow(u, categories)[..|init|] == TableRow(u, init);
      SquareOfCount(c);
    }
  }

  lemma SquareOfCount(c: nat)
    ensures Square(c as real) == (c * c) as real
  {
  }

  lemma RowOfUnit(u: Unit, categories: seq<Value>)
    requires Distinct(categories) && Support(u) <= Elements(categories)
    ensures Fleiss.RowSum(TableRow(u, categories)) == |u|
    ensures SumSet(Elements(categories), SquaredMultiplicity(u)) == SquareSum(TableRow(u, categories)) as real
  {
    RowAsSums(u, categories);
    SumSeqAsSet(categories, Multiplicity(u));
    SumSeqAsSet(categories, SquaredMultiplicity(u));
    MultiplicitiesSumToSize(Elements(categories), u);
  }

  lemma {:induction false} ColumnOfTable(units: seq<Unit>, categories: seq<Value>, j: nat)
    requires j < |categories|
    ensures ColumnSum(TableOf(units, categories), j) == Occurrences(units, categories[j])
  {
    if units != [] {
      var init := units[..|units| - 1];
      ColumnOfTable(init, categories, j);
      assert TableOf(units, categories)[..|init|] == TableOf(init, categories);
    }
  }

  lemma {:induction false} ColumnsOfTable(units: seq<Unit>, categories: seq<Value>, k: nat)
    requires k <= |categories|
    ensures ColumnSquares(TableOf(units, categories), k) as real
          == SumSeq(categories[..k], SquaresOf(OccurrencesOf(units)))
  {
    if k != 0 {
      ColumnsOfTable(units, categories, k - 1);
      ColumnOfTable(units, categories, k - 1);
      assert categories[..k][..k - 1] == categories[..k - 1];
      SquareOfCount(Occurrences(units, categories[k - 1]));
    }
  }

  lemma SumOnSupport(V: set<Value>, C: set<Value>, f: Value -> real)
    requires V <= C && forall v :: v in C - V ==> f(v) == 0.0
    ensures SumSet(C, f) == SumSet(V, f)
  {
    SumSetZero(C - V, f);
    SumSetUnion(V, C - V, f);
    assert V + (C - V) == C;
  }

  lemma ColumnsAreOccurrences(units: seq<Unit>, categories: seq<Value>)
    requires Distinct(categories) && Observed(units) <= Elements(categories)
    ensures ColumnSquares(TableOf(units, categories), |categories|) as real
         == SumSet(Observed(units), SquaresOf(OccurrencesOf(units)))
  {
    var V, C, f := Observed(units), Elements(categories), SquaresOf(OccurrencesOf(units));
    ColumnsOfTable(units, categories, |categories|);
    assert categories[..|categories|] == categories;
    SumSeqAsSet(categories, f);
    forall v | v in C - V ensures f(v) == 0.0 {
      UnobservedSquare(units, v);
    }
    SumOnSupport(V, C, f);
  }

  lemma UnobservedSquare(units: seq<Unit>, v: Value)
    requires v !in Observed(units)
    ensures SquaresOf(OccurrencesOf(units))(v) == 0.0
  {
    ObservedOccurs(units, v);
    assert OccurrencesOf(units)(v) == 0.0 && Square(0.0) == 0.0;
  }

  lemma SameSquare(units: seq<Unit>, v: Value)
    requires Pairable(units) && v in Observed(units)
    ensures SquaresOf(OccurrencesOf(units))(v) == SquaresOf(RowTotals(units))(v)
  {
    RowTotalIsOccurrences(units, v);
    assert OccurrencesOf(units)(v) == RowTotals(units)(v);
  }

  /** The squared column sums of the table are the squared row totals of the coincidence matrix. */
  lemma ColumnsAreTotals(units: seq<Unit>, categories: seq<Value>)
    requires Pairable(units) && Distinct(categories) && Observed(units) <= Elements(categories)
    ensures ColumnSquares(TableOf(units, categories), |categories|) as real
         == SumSet(Observed(units), SquaresOf(RowTotals(units)))
  {
    var V, f := Observed(units), SquaresOf(OccurrencesOf(units));
    ColumnsAreOccurrences(units, categories);
    forall v | v in V ensures f(v) == SquaresOf(RowTotals(units))(v) {
      SameSquare(units, v);
    }
    SumSetCongruent(V, f, SquaresOf(RowTotals(units)));
  }

  // ---------- the diagonal of the coincidence matrix ----------

  ghost function DiagonalOf(u: Unit): Value -> real {
    v => Contribution(u, v, v)
  }

  ghost function Reciprocal(m: nat): real
    requires m >= 2
  {
    1.0 / (m - 1) as real
  }

  lemma DiagonalCell(u: Unit, v: Value, m: nat)
    requires |u| == m && m >= 2
    ensures IsProduct(DiagonalOf(u)(v), Reciprocal(m), SquaredMultiplicity(u)(v) - Multiplicity(u)(v))
  {
    var c: int := u[v];
    SquareOfCount(u[v]);
    assert (c * (c - 1)) as real == Square(c as real) - c as real;
    DivideAsProduct((c * (c - 1)) as real, (m - 1) as real);
  }

  lemma DivideAsProduct(x: real, m: real)
    requires m != 0.0
    ensures IsProduct(x / m, 1.0 / m, x)
  {
  }

  ghost function Difference(f: Value -> real, g: Value -> real): Value -> real {
    v => f(v) - g(v)
  }

  lemma DiagonalOfUnit(C: set<Value>, u: Unit, m: nat)
    requires Support(u) <= C && |u| == m && m >= 2
    ensures IsProduct(SumSet(C, DiagonalOf(u)), Reciprocal(m), SumSet(C, SquaredMultiplicity(u)) - m as real)
  {
    var d := Difference(SquaredMultiplicity(u), Multiplicity(u));
    forall v | v in C ensures IsProduct(DiagonalOf(u)(v), Reciprocal(m), d(v)) {
      DiagonalCell(u, v, m);
    }
    SumSetScale(C, d, Reciprocal(m), DiagonalOf(u));
    SumSetAdd(C, d, Multiplicity(u), SquaredMultiplicity(u));
    MultiplicitiesSumToSize(C, u);
  }

  lemma {:induction false} DiagonalOfUnits(C: set<Value>, units: seq<Unit>, categories: seq<Value>, m: nat)
    requires m >= 2 && C == Elements(categories) && Distinct(categories)
    requires forall u :: u in units ==> |u| == m && Support(u) <= C
    ensures IsProduct(SumSet(C, Diagonal(units)), Reciprocal(m),
                      (TableSquares(TableOf(units, categories)) - |units| * m) as real)
  {
    if units == [] {
      SumSetZero(C, Diagonal(units));
    } else {
      var init, u := units[..|units| - 1], units[|units| - 1];
      DiagonalOfUnits(C, init, categories, m);
      DiagonalOfUnit(C, u, m);
      RowOfUnit(u, categories);
      SumSetAdd(C, Diagonal(init), DiagonalOf(u), Diagonal(units));
      assert TableOf(units, categories)[..|init|] == TableOf(init, categories);
      ProductStep(|init|, m);
      AddProducts(SumSet(C, Diagonal(init)), (TableSquares(TableOf(init, categories)) - |init| * m) as real,
                  SumSet(C, DiagonalOf(u)), SumSet(C, SquaredMultiplicity(u)) - m as real, Reciprocal(m));
    }
  }

  lemma {:induction false} DiagonalOfUnobserved(units: seq<Unit>, v: Value)
    requires v !in Observed(units)
    ensures Coincidence(units, v, v) == 0.0
  {
    if units != [] {
      DiagonalOfUnobserved(units[..|units| - 1], v);
      ContributionOutside(units[|units| - 1], v, v);
    }
  }

  // ---------- the identity ----------

  lemma NominalDistance(units: seq<Unit>)
    requires Total(units) >= 2.0
    ensures AlphaWith(units, Distance(Nominal, Marginals(units))) == AlphaWith(units, Nominal01())
  {
    var V, delta := Observed(units), Distance(Nominal, Marginals(units));
    assert forall v, w :: delta(v, w) == Nominal01()(v, w);
    SumSetCongruent(Grid(V, V), OffDiagonal(ObservedWeight(units, delta)),
          OffDiagonal(ObservedWeight(units, Nominal01())));
    SumSetCongruent(Grid(V, V), OffDiagonal(ExpectedWeight(units, delta)),
          OffDiagonal(ExpectedWeight(units, Nominal01())));
  }

  /** Observed agreement: `n - q / (m - 1)` is n times one less the average item agreement. */
  lemma ObservedShare(n: real, items: real, m: real, q: real, diagonal: real, pBar: real)
    requires m >= 2.0 && items > 0.0 && n == items * m
    requires IsProduct(diagonal, 1.0 / (m - 1.0), q)
    requires pBar == q / (m * (m - 1.0)) / items
    ensures n - diagonal == n * (1.0 - pBar)
  {
    var r := 1.0 / (m - 1.0);
    assert r * (m - 1.0) == 1.0;
    var d := m * (m - 1.0);
    assert d > 0.0;
    assert q / d * d == q;
    assert pBar * items == q / d;
    calc {
      n * pBar;
      m * (pBar * items);
      m * (q / d);
      m * (q / d) * (r * (m - 1.0));
      (q / d * d) * r;
      q * r;
    }
  }

  lemma ExpectedShare(n: real, s2: real, pE: real)
    requires n > 0.0 && pE == s2 / (n * n)
    ensures Square(n) - s2 == (n * n) * (1.0 - pE)
  {
    assert n * n > 0.0;
    assert pE * (n * n) == s2;
  }

  lemma Regroup(d: real, t: real, n: real, e: real)
    requires d * t == e
    ensures d * (n * (n * t)) == (n * n) * e
  {
    assert d * (n * (n * t)) == (n * n) * (d * t);
  }

  lemma RegroupXTE(x: real, t: real, d: real, e: real)
    requires d * t == e
    ensures (x * t) * d == x * e
  {
    assert (x * t) * d == x * (d * t);
  }

  /** With observed sum n(1 - pBar) and expected sum n^2(1 - pE), alpha = kappa + (1 - kappa) / n. */
  lemma ChanceOfShares(n: real, so: real, se: real, pBar: real, pE: real)
    requires n >= 2.0 && so == n * (1.0 - pBar) && se == (n * n) * (1.0 - pE) && pE < 1.0
    ensures KappaOf(pBar, pE).Some? && Chance(n, so, se).Some?
    ensures var kappa := KappaOf(pBar, pE).value; Chance(n, so, se).value == kappa + (1.0 - kappa) / n
  {
    var e, t := 1.0 - pE, (n - 1.0) / n;
    assert n * t == n - 1.0;
    var x, d := (1.0 - pBar) / e, e / t;
    assert x * e == 1.0 - pBar;
    QuotientIs(pBar - pE, e, 1.0 - x);
    QuotientIs(so, n, 1.0 - pBar);
    assert d * t == e;
    Regroup(d, t, n, e);
    QuotientIs(se, n * (n - 1.0), d);
    RegroupXTE(x, t, d, e);
    QuotientIs(1.0 - pBar, d, x * t);
    assert x * t == x - x / n by {
      assert t == 1.0 - 1.0 / n;
      assert x * (1.0 / n) == x / n;
    }
  }

  /** Every rater rated every unit. */
  ghost predicate FullyCovered(data: Matrix) {
    RowsReach(data) && forall r, u :: 0 <= r < |data| && 0 <= u < UnitCount(data) ==> data[r][u].Some?
  }

  /** The units have `m` ratings each, and `categories` lists every value that occurs, once. */
  ghost predicate Tabulated(units: seq<Unit>, m: nat, categories: seq<Value>) {
    m >= 2 && units != [] && Distinct(categories) && forall u :: u in units ==>
          |u| == m && Support(u) <= Elements(categories)
  }

  lemma {:induction false} RatingsFull(rows: Matrix, u: nat)
    requires forall r :: 0 <= r < |rows| ==> u < |rows[r]| && rows[r][u].Some?
    ensures |Ratings(rows, u)| == |rows|
  {
    if rows != [] {
      RatingsFull(rows[..|rows| - 1], u);
    }
  }

  lemma {:induction false} AllKept(columns: seq<Unit>)
    requires forall k :: 0 <= k < |columns| ==> |columns[k]| >= 2
    ensures KeptOf(columns) == columns
  {
    if columns != [] {
      AllKept(columns[..|columns| - 1]);
    }
  }

  lemma UnitsFullyCovered(data: Matrix)
    requires FullyCovered(data) && |data| >= 2
    ensures Units(data) == Columns(data) && forall u :: u in Units(data) ==> |u| == |data|
  {
    forall u | 0 <= u < UnitCount(data) ensures |Columns(data)[u]| == |data| {
      RatingsFull(data, u);
    }
    AllKept(Columns(data));
  }

  lemma {:induction false} RatingsOfFullUnits(units: seq<Unit>, m: nat)
    requires forall u :: u in units ==> |u| == m
    ensures RatingCount(units) == |units| * m
  {
    if units != [] {
      RatingsOfFullUnits(units[..|units| - 1], m);
      ProductStep(|units| - 1, m);
    }
  }

  lemma ObservedInCategories(units: seq<Unit>, m: nat, categories: seq<Value>)
    requires Tabulated(units, m, categories)
    ensures Pairable(units) && Observed(units) <= Elements(categories)
    ensures Total(units) == (|units| * m) as real >= 2.0
  {
    forall v | v in Observed(units) ensures v in Elements(categories) {
      ObservedOccurs(units, v);
    }
    TotalIsRatingCount(units);
    RatingsOfFullUnits(units, m);
  }

  lemma TableAccepted(units: seq<Unit>, m: nat, categories: seq<Value>)
    requires Tabulated(units, m, categories)
    ensures var table := TableOf(units, categories);
      Accepted(table) && |table| == |units| && |table[0]| == |categories| && Fleiss.RowSum(table[0]) == m
  {
    var table := TableOf(units, categories);
    forall i | 0 <= i < |table| ensures Fleiss.RowSum(table[i]) == m {
      RowOfUnit(units[i], categories);
    }
  }

  /** The average item agreement and the expected agreement, as `fleiss_kappa` computes them. */
  ghost function PBar(table: Table, m: nat): real
    requires table != [] && m >= 2
  {
    AgreementSum(table, m) / |table| as real
  }

  ghost function PE(table: Table, m: nat): real
    requires Accepted(table) && |table| * m > 0
  {
    SharesSquared(table, |table[0]|, |table| * m)
  }

  lemma KappaParts(table: Table, m: nat)
    requires Accepted(table) && Fleiss.RowSum(table[0]) == m
    ensures |table| * m > 0
    ensures FleissKappa(table) == Ok(KappaOf(PBar(table, m), PE(table, m)))
  {
  }

  lemma ObservedShareOfCounts(items: nat, m: nat, q: int, diagonal: real, sum: real, n: real, so: real, pBar: real)
    requires m >= 2 && items > 0 && n == (items * m) as real && so == n - diagonal
    requires IsProduct(diagonal, Reciprocal(m), q as real)
    requires m * (m - 1) > 0 && sum == q as real / (m * (m - 1)) as real && pBar == sum / items as real
    ensures IsProduct(so, n, 1.0 - pBar)
  {
    RealProduct(m, m - 1);
    RealProduct(items, m);
    ObservedShare(n, items as real, m as real, q as real, diagonal, pBar);
  }

  lemma DiagonalOfTable(units: seq<Unit>, m: nat, categories: seq<Value>)
    requires Tabulated(units, m, categories) && Observed(units) <= Elements(categories)
    ensures IsProduct(SumSet(Observed(units), Diagonal(units)), Reciprocal(m),
                      (TableSquares(TableOf(units, categories)) - |units| * m) as real)
  {
    var V, C := Observed(units), Elements(categories);
    DiagonalOfUnits(C, units, categories, m);
    forall v | v in C - V ensures Diagonal(units)(v) == 0.0 {
      DiagonalOfUnobserved(units, v);
    }
    SumOnSupport(V, C, Diagonal(units));
  }

  lemma ObservedSumOfTable(units: seq<Unit>, m: nat, categories: seq<Value>, so: real, pBar: real)
    requires Tabulated(units, m, categories)
    requires so == OffSum(Observed(units), ObservedWeight(units, Nominal01()))
    requires pBar == PBar(TableOf(units, categories), m)
    ensures IsProduct(so, Total(units), 1.0 - pBar)
  {
    var table := TableOf(units, categories);
    ObservedInCategories(units, m, categories);
    NominalObserved(units);
    DiagonalOfTable(units, m, categories);
    AgreementAsQuotient(table, m);
    ObservedShareOfCounts(|units|, m, TableSquares(table) - |units| * m, SumSet(Observed(units), Diagonal(units)),
                          AgreementSum(table, m), Total(units), so, pBar);
  }

  lemma ExpectedShareOfCounts(total: nat, s2: nat, n: real, se: real, pE: real)
    requires total > 0 && total * total > 0 && n == total as real
    requires se == Square(n) - s2 as real && pE == s2 as real / (total * total) as real
    ensures IsProduct(se, Square(n), 1.0 - pE)
  {
    RealProduct(total, total);
    ExpectedShare(n, s2 as real, pE);
  }

  lemma ExpectedSumOfTable(units: seq<Unit>, m: nat, categories: seq<Value>, se: real, pE: real)
    requires Tabulated(units, m, categories) && Accepted(TableOf(units, categories)) && |units| * m > 0
    requires se == OffSum(Observed(units), ExpectedWeight(units, Nominal01()))
    requires pE == PE(TableOf(units, categories), m)
    ensures IsProduct(se, Square(Total(units)), 1.0 - pE)
  {
    var table, total := TableOf(units, categories), |units| * m;
    ObservedInCategories(units, m, categories);
    NominalExpected(units);
    ColumnsAreTotals(units, categories);
    SharesAsQuotient(table, |categories|, total);
    ExpectedShareOfCounts(total, ColumnSquares(table, |categories|), Total(units), se, pE);
  }

  /** Both are numbers, and alpha = kappa + (1 - kappa) / n, which is not below kappa. */
  ghost predicate Linked(alpha: Result<Option<real>, Error>, kappa: Result<Option<real>, Error>, n: nat) {
    && n > 0 && kappa.Ok? && kappa.value.Some? && alpha.Ok? && alpha.value.Some?
    && alpha.value.value == kappa.value.value + (1.0 - kappa.value.value) / n as real
    && alpha.value.value >= kappa.value.value
  }

  lemma NotBelow(kappa: real, n: real)
    requires n > 0.0 && kappa <= 1.0
    ensures kappa + (1.0 - kappa) / n >= kappa
  {
  }

  lemma LinkedBelowOne(k: nat, n: real, so: real, se: real, pBar: real, pE: real)
    requires n == k as real && n >= 2.0 && pE <= 1.0 && IsProduct(so, n, 1.0 - pBar)
          && IsProduct(se, Square(n), 1.0 - pE)
    requires KappaOf(pBar, pE).Some? && KappaOf(pBar, pE).value <= 1.0 && Chance(n, so, se).Some?
    ensures Linked(Ok(Chance(n, so, se)), Ok(KappaOf(pBar, pE)), k)
  {
    if pE < 1.0 {
      ChanceOfShares(n, so, se, pBar, pE);
      NotBelow(KappaOf(pBar, pE).value, n);
    } else {
      NoExpected(n, so, se);
    }
  }

  lemma NoExpected(n: real, so: real, se: real)
    requires n >= 2.0 && IsProduct(se, Square(n), 0.0) && Chance(n, so, se).Some?
    ensures Chance(n, so, se) == Some(1.0)
  {
  }

  lemma IdentityOfUnits(units: seq<Unit>, m: nat, categories: seq<Value>)
    requires Tabulated(units, m, categories)
    ensures Linked(Alpha(units, Nominal), FleissKappa(TableOf(units, categories)), |units| * m)
  {
    var V, table := Observed(units), TableOf(units, categories);
    ObservedInCategories(units, m, categories);
    TableAccepted(units, m, categories);
    KappaParts(table, m);
    var so, se := OffSum(V, ObservedWeight(units, Nominal01())), OffSum(V, ExpectedWeight(units, Nominal01()));
    var pBar, pE := PBar(table, m), PE(table, m);
    ObservedSumOfTable(units, m, categories, so, pBar);
    ExpectedSumOfTable(units, m, categories, se, pE);
    ExpectedAgreement(table, |categories|, m);
    KappaOutcome(table);
    NominalDistance(units);
    NominalAlpha(units);
    LinkedBelowOne(|units| * m, Total(units), so, se, pBar, pE);
  }

  lemma NominalAlpha(units: seq<Unit>)
    requires Pairable(units) && units != [] && Total(units) >= 2.0
    ensures Alpha(units, Nominal) == Ok(AlphaWith(units, Distance(Nominal, Marginals(units))))
    ensures AlphaWith(units, Distance(Nominal, Marginals(units))).Some?
  {
    assert !Raises(Marginals(units), Nominal);
    LevelSeparates(units, Nominal);
    AlphaBounded(units, Distance(Nominal, Marginals(units)));
  }

  function CellCount(data: Matrix): nat {
    UnitCount(data) * |data|
  }

  /** On every fully covered matrix with two or more raters and one or more units, whatever list of categories the
      table uses, alpha = kappa + (1 - kappa) / (units * raters); so alpha is never below kappa. */
  lemma AlphaKappaIdentity(data: Matrix, categories: seq<Value>)
    requires FullyCovered(data) && |data| >= 2 && UnitCount(data) >= 1
    requires Distinct(categories) && Observed(Units(data)) <= Elements(categories)
    ensures Linked(Alpha(Units(data), Nominal), FleissKappa(TableOf(Units(data), categories)), CellCount(data))
  {
    var units := Units(data);
    UnitsFullyCovered(data);
    forall u | u in units ensures Support(u) <= Elements(categories) {
      SupportObserved(units, u);
    }
    IdentityOfUnits(units, |data|, categories);
  }

  lemma SupportObserved(units: seq<Unit>, u: Unit)
    requires u in units
    ensures Support(u) <= Observed(units)
  {
    forall v | v in u ensures v in Observed(units) {
      ObservedOccurs(units, v);
    }
  }
}
