/** What Krippendorff's alpha, as eval/agreement.py computes it, satisfies on every input. */
module AlphaLaws {
  import opened Common
  import opened Reals
  import opened Sums
  import opened Agreement

  // ---------- signs of the weighted sums ----------

  ghost predicate Vanishes(V: set<Value>, weight: (Value, Value) -> real) {
    forall v, w :: v in V && w in V && v != w ==> weight(v, w) == 0.0
  }

  lemma OffSumSign(V: set<Value>, weight: (Value, Value) -> real)
    requires forall v, w :: v in V && w in V && v != w ==> weight(v, w) >= 0.0
    ensures OffSum(V, weight) >= 0.0
    ensures OffSum(V, weight) == 0.0 <==> Vanishes(V, weight)
  {
    var f := OffDiagonal(weight);
    SumSetNonNegative(Grid(V, V), f);
    if Vanishes(V, weight) {
      SumSetZero(Grid(V, V), f);
    } else {
      var v, w :| v in V && w in V && v != w && weight(v, w) != 0.0;
      assert f((v, w)) > 0.0 && (v, w) in Grid(V, V);
    }
  }

  // ---------- alpha is defined, at most 1, and 1 exactly on unanimous data ----------

  ghost predicate Unanimous(u: Unit) {
    forall v, w :: v in u && w in u ==> v == w
  }

  /** Positive between different observed values. */
  ghost predicate Separates(V: set<Value>, delta: (Value, Value) -> real) {
    forall v, w :: v in V && w in V && v != w ==> delta(v, w) > 0.0
  }

  lemma SignOfProduct(x: real, d: real)
    requires x >= 0.0 && d > 0.0
    ensures Times(x, d) >= 0.0 && (Times(x, d) == 0.0 <==> x == 0.0)
  {
  }

  lemma RowTotalAtLeastOne(units: seq<Unit>, v: Value)
    requires Pairable(units) && v in Observed(units)
    ensures RowTotal(units, v) >= 1.0
  {
    RowTotalIsOccurrences(units, v);
    ObservedOccurs(units, v);
  }

  lemma ObservedDisagreement(units: seq<Unit>, delta: (Value, Value) -> real)
    requires Pairable(units) && Separates(Observed(units), delta)
    ensures OffSum(Observed(units), ObservedWeight(units, delta)) >= 0.0
    ensures OffSum(Observed(units), ObservedWeight(units, delta)) == 0.0 <==> forall u :: u in units ==> Unanimous(u)
  {
    var V, weight := Observed(units), ObservedWeight(units, delta);
    forall v, w | v in V && w in V && v != w
      ensures weight(v, w) >= 0.0
      ensures weight(v, w) == 0.0 <==> !exists u :: u in units && v in u && w in u
    {
      CoincidencePositive(units, v, w);
      SignOfProduct(Coincidence(units, v, w), delta(v, w));
    }
    OffSumSign(V, weight);
    if u :| u in units && !Unanimous(u) {
      var v, w :| v in u && w in u && v != w;
      ObservedOccurs(units, v);
      ObservedOccurs(units, w);
      assert weight(v, w) != 0.0;
    }
  }

  lemma ExpectedDisagreement(units: seq<Unit>, delta: (Value, Value) -> real)
    requires Pairable(units) && Separates(Observed(units), delta)
    ensures OffSum(Observed(units), ExpectedWeight(units, delta)) >= 0.0
    ensures OffSum(Observed(units), ExpectedWeight(units, delta)) == 0.0
            <==> forall v, w :: v in Observed(units) && w in Observed(units) ==> v == w
  {
    var V, weight := Observed(units), ExpectedWeight(units, delta);
    forall v, w | v in V && w in V && v != w ensures weight(v, w) > 0.0 {
      RowTotalAtLeastOne(units, v);
      RowTotalAtLeastOne(units, w);
      SignOfProduct(RowTotal(units, v), RowTotal(units, w));
      SignOfProduct(Times(RowTotal(units, v), RowTotal(units, w)), delta(v, w));
    }
    OffSumSign(V, weight);
  }

  lemma ChanceSign(n: real, so: real, se: real)
    requires n >= 2.0 && so >= 0.0 && se >= 0.0 && (se == 0.0 ==> so == 0.0)
    ensures Chance(n, so, se).Some? && Chance(n, so, se).value <= 1.0
    ensures Chance(n, so, se).value == 1.0 <==> so == 0.0
  {
    QuotientSign(so, n);
    assert n * (n - 1.0) > 0.0;
    QuotientSign(se, n * (n - 1.0));
    if se != 0.0 {
      QuotientSign(so / n, se / (n * (n - 1.0)));
    }
  }

  lemma QuotientSign(x: real, y: real)
    requires x >= 0.0 && y > 0.0
    ensures x / y >= 0.0 && (x / y == 0.0 <==> x == 0.0)
  {
  }

  /** For every distance that separates the observed values alpha exists, is at most 1, and is 1 exactly when
      no unit holds two different values: the `None` of a zero expected disagreement is never returned. */
  lemma AlphaBounded(units: seq<Unit>, delta: (Value, Value) -> real)
    requires Pairable(units) && units != [] && Separates(Observed(units), delta)
    ensures Total(units) >= 2.0
    ensures AlphaWith(units, delta).Some? && AlphaWith(units, delta).value <= 1.0
    ensures AlphaWith(units, delta).value == 1.0 <==> forall u :: u in units ==> Unanimous(u)
  {
    TotalIsRatingCount(units);
    ObservedDisagreement(units, delta);
    ExpectedDisagreement(units, delta);
    var V := Observed(units);
    if forall v, w :: v in V && w in V ==> v == w {
      forall u, v, w | u in units && v in u && w in u ensures v == w {
        ObservedOccurs(units, v);
        ObservedOccurs(units, w);
      }
    }
    ChanceSign(Total(units), OffSum(V, ObservedWeight(units, delta)), OffSum(V, ExpectedWeight(units, delta)));
  }

  // ---------- the three distances separate ----------

  lemma OrdinalSpread(units: seq<Unit>, rank: map<Value, nat>, v: Value, w: Value)
    requires Pairable(units) && v in Observed(units) && w in Observed(units) && v != w
    requires v in rank && w in rank && Between(rank, v, w) <= Observed(units)
    ensures Spread(Marginals(units), rank, v, w) >= 1.0
  {
    var B, f := Between(rank, v, w), MarginalOf(Marginals(units));
    forall c | c in B ensures f(c) >= 1.0 {
      RowTotalAtLeastOne(units, c);
    }
    SumSetRemove(B, f, v);
    SumSetRemove(B - {v}, f, w);
    SumSetNonNegative(B - {v} - {w}, f);
  }

  lemma SameSignProduct(x: real, y: real)
    requires (x > 0.0 && y > 0.0) || (x < 0.0 && y < 0.0)
    ensures Times(x, y) > 0.0
  {
    if x < 0.0 {
      assert x * y == (-x) * (-y);
    }
  }

  lemma SquarePositive(x: real)
    requires x != 0.0
    ensures Square(x) > 0.0
  {
    SameSignProduct(x, x);
    assert Square(x) == Times(x, x);
  }

  lemma LevelSeparates(units: seq<Unit>, level: Level)
    requires Pairable(units) && !Raises(Marginals(units), level)
    ensures Separates(Observed(units), Distance(level, Marginals(units)))
  {
    var nV := Marginals(units);
    forall v, w | v in Observed(units) && w in Observed(units) && v != w
      ensures Distance(level, nV)(v, w) > 0.0
    {
      assert RowDefined(nV, level, v);
      assert Delta(level, nV, v, w).Ok?;
      match level
      case Interval => SquarePositive(v.x - w.x);
      case Ordinal(Some(categories)) =>
        OrdinalSpread(units, Rank(categories), v, w);
        SquarePositive(Spread(nV, Rank(categories), v, w));
      case _ =>
    }
  }

  /** Alpha is `None` only when no unit is pairable; otherwise it is an error of the level or a number that is
      at most 1, and equals 1 exactly on unanimous units. */
  lemma AlphaOutcome(data: Matrix, level: Level)
    requires RowsReach(data)
    ensures Alpha(Units(data), level) == Ok(None) <==> Units(data) == []
    ensures Alpha(Units(data), level).Err?
            <==> Units(data) != []
                  && (level == Unrecognised || level == Ordinal(None) || Raises(Marginals(Units(data)), level))
    ensures Alpha(Units(data), level).Ok? && Units(data) != [] ==>
              var a := Alpha(Units(data), level).value.value;
              a <= 1.0 && (a == 1.0 <==> forall u :: u in Units(data) ==> Unanimous(u))
  {
    var units := Units(data);
    KeptArePairable(Columns(data));
    if units != [] {
      TotalIsRatingCount(units);
      if level != Unrecognised && level != Ordinal(None) && !Raises(Marginals(units), level) {
        LevelSeparates(units, level);
        AlphaBounded(units, Distance(level, Marginals(units)));
      }
    }
  }

  // ---------- exactly when the ordinal level is defined ----------

  /** Every observed value is a category, and no category strictly between two observed ones is unobserved. */
  ghost predicate RanksWithoutGaps(observed: set<Value>, rank: map<Value, nat>) {
    && observed <= rank.Keys
    && forall v, c, w :: v in observed && w in observed && c in rank && rank[v] < rank[c] < rank[w] ==> c in observed
  }

  lemma {:induction false} RankInjective(categories: seq<Value>, v: Value, w: Value)
    requires v in Rank(categories) && w in Rank(categories) && v != w
    ensures Rank(categories)[v] != Rank(categories)[w]
    ensures Rank(categories)[v] < |categories| && Rank(categories)[w] < |categories|
  {
    var init, last := categories[..|categories| - 1], categories[|categories| - 1];
    if v != last && w != last {
      RankInjective(init, v, w);
    } else {
      RankBelow(init);
    }
  }

  lemma {:induction false} RankBelow(categories: seq<Value>)
    ensures forall v :: v in Rank(categories) ==> Rank(categories)[v] < |categories|
  {
    if categories != [] {
      RankBelow(categories[..|categories| - 1]);
    }
  }

  lemma GapFreeDefined(units: seq<Unit>, categories: seq<Value>, v: Value, w: Value)
    requires RanksWithoutGaps(Observed(units), Rank(categories))
    requires v in Observed(units) && w in Observed(units)
    ensures Delta(Ordinal(Some(categories)), Marginals(units), v, w).Ok?
  {
    var rank := Rank(categories);
    forall c | c in Between(rank, v, w) ensures c in Observed(units) {
      if rank[c] == rank[v] && c != v {
        RankInjective(categories, c, v);
      }
      if rank[c] == rank[w] && c != w {
        RankInjective(categories, c, w);
      }
    }
  }

  lemma DefinedGapFree(units: seq<Unit>, categories: seq<Value>, a: Value, b: Value)
    requires a in Observed(units) && b in Observed(units) && a != b
    requires !Raises(Marginals(units), Ordinal(Some(categories)))
    ensures RanksWithoutGaps(Observed(units), Rank(categories))
  {
    var V, rank, level := Observed(units), Rank(categories), Ordinal(Some(categories));
    forall v, w | v in V && w in V && v != w
      ensures v in rank && w in rank && Between(rank, v, w) <= V
    {
      assert RowDefined(Marginals(units), level, v);
      assert Delta(level, Marginals(units), v, w).Ok?;
    }
    forall v | v in V ensures v in rank {
      assert v != a || v != b;
    }
    forall v, c, w | v in V && w in V && c in rank && rank[v] < rank[c] < rank[w] ensures c in V {
      assert c in Between(rank, v, w);
    }
  }

  /** With two or more observed values the ordinal level raises KeyError exactly when the ranks have a gap. */
  lemma OrdinalDefinedIff(units: seq<Unit>, categories: seq<Value>, a: Value, b: Value)
    requires a in Observed(units) && b in Observed(units) && a != b
    ensures Raises(Marginals(units), Ordinal(Some(categories)))
          <==> !RanksWithoutGaps(Observed(units), Rank(categories))
  {
    var nV, level := Marginals(units), Ordinal(Some(categories));
    if RanksWithoutGaps(Observed(units), Rank(categories)) {
      forall v | v in nV ensures RowDefined(nV, level, v) {
        forall w | w in nV ensures Delta(level, nV, v, w).Ok? {
          GapFreeDefined(units, categories, v, w);
        }
      }
    }
    if !Raises(nV, level) {
      DefinedGapFree(units, categories, a, b);
    }
  }

  lemma ColumnOfEqualRows(row: seq<Option<Value>>, u: nat)
    requires u < |row| && row[u].Some?
    ensures Ratings([row, row], u) == multiset{row[u].value, row[u].value}
  {
    assert [row, row][..1] == [row] && [row][..0] == [];
    assert Ratings([row], u) == Rating(row[u]);
  }

  lemma TwoUnits(data: Matrix, first: Unit, second: Unit)
    requires RowsReach(data) && UnitCount(data) == 2
    requires Ratings(data, 0) == first && Ratings(data, 1) == second && |first| >= 2 && |second| >= 2
    ensures Units(data) == [first, second]
  {
    assert Columns(data) == [first, second] && Columns(data)[..1] == [first] && [first][..0] == [];
    assert KeptOf([first]) == [first];
  }

  lemma RankOfThree(x: Value, y: Value, z: Value)
    requires x != y && y != z && x != z
    ensures Rank([x, y, z]) == map[x := 0, y := 1, z := 2]
  {
    assert [x, y, z][..2] == [x, y] && [x, y][..1] == [x] && [x][..0] == [];
    assert Rank([x]) == map[x := 0];
    assert Rank([x, y]) == map[x := 0, y := 1];
  }

  lemma MiddleMissing(observed: set<Value>, x: Value, y: Value, z: Value)
    requires x != y && y != z && x != z && x in observed && y !in observed && z in observed
    ensures !RanksWithoutGaps(observed, Rank([x, y, z]))
  {
    RankOfThree(x, y, z);
  }

  lemma GapRaises(units: seq<Unit>, x: Value, y: Value, z: Value)
    requires Pairable(units) && units != [] && x != y && y != z && x != z
    requires x in Observed(units) && y !in Observed(units) && z in Observed(units)
    ensures Alpha(units, Ordinal(Some([x, y, z]))) == Err(KeyError)
  {
    TotalIsRatingCount(units);
    MiddleMissing(Observed(units), x, y, z);
    OrdinalDefinedIff(units, [x, y, z], x, z);
  }

  lemma TwoUnitsRaise(data: Matrix, first: Unit, second: Unit, low: Value, medium: Value, high: Value)
    requires low != medium && medium != high && low != high
    requires RowsReach(data) && UnitCount(data) == 2 && Ratings(data, 0) == first && Ratings(data, 1) == second
    requires |first| >= 2 && |second| >= 2 && low in first && high in second && medium !in first && medium !in second
    ensures Alpha(Units(data), Ordinal(Some([low, medium, high]))) == Err(KeyError)
  {
    TwoUnits(data, first, second);
    var units := Units(data);
    assert units[0] == first && units[1] == second;
    ObservedOccurs(units, low);
    ObservedOccurs(units, medium);
    ObservedOccurs(units, high);
    GapRaises(units, low, medium, high);
  }

  /** Two raters who never use the middle category: the call raises instead of returning an alpha. */
  lemma UnobservedMiddleCategoryRaises(low: Value, medium: Value, high: Value)
    requires low != medium && medium != high && low != high
    ensures Alpha(Units([[Some(low), Some(high)], [Some(low), Some(high)]]), Ordinal(Some([low, medium, high])))
          == Err(KeyError)
  {
    var row := [Some(low), Some(high)];
    ColumnOfEqualRows(row, 0);
    ColumnOfEqualRows(row, 1);
    TwoUnitsRaise([row, row], multiset{low, low}, multiset{high, high}, low, medium, high);
  }

  // ---------- the order of units and of raters is irrelevant ----------

  ghost function ContributionAt(v: Value, w: Value): Unit -> real {
    u => Contribution(u, v, w)
  }

  lemma {:induction false} CoincidenceAsSum(units: seq<Unit>, v: Value, w: Value)
    ensures Coincidence(units, v, w) == SumSeq(units, ContributionAt(v, w))
  {
    if units != [] {
      CoincidenceAsSum(units[..|units| - 1], v, w);
    }
  }

  lemma PermutedCoincidence(units: seq<Unit>, units': seq<Unit>, v: Value, w: Value)
    requires multiset(units) == multiset(units')
    ensures Coincidence(units, v, w) == Coincidence(units', v, w)
  {
    CoincidenceAsSum(units, v, w);
    CoincidenceAsSum(units', v, w);
    SumSeqPermuted(units, units', ContributionAt(v, w));
  }

  lemma PermutedObserved(units: seq<Unit>, units': seq<Unit>)
    requires multiset(units) == multiset(units')
    ensures Observed(units) == Observed(units')
  {
    forall u ensures u in units <==> u in units' {
      assert u in multiset(units) <==> u in multiset(units');
    }
    forall v ensures v in Observed(units) <==> v in Observed(units') {
      ObservedOccurs(units, v);
      ObservedOccurs(units', v);
    }
  }

  lemma PermutedMarginals(units: seq<Unit>, units': seq<Unit>)
    requires multiset(units) == multiset(units')
    ensures Marginals(units) == Marginals(units') && Total(units) == Total(units')
  {
    PermutedObserved(units, units');
    forall v | v in Observed(units) ensures RowTotal(units, v) == RowTotal(units', v) {
      forall w ensures Coincidence(units, v, w) == Coincidence(units', v, w) {
        PermutedCoincidence(units, units', v, w);
      }
      SumSetCongruent(Observed(units), CoincidenceRow(units, v), CoincidenceRow(units', v));
    }
    SumSetCongruent(Observed(units), RowTotals(units), RowTotals(units'));
  }

  lemma PermutedSums(units: seq<Unit>, units': seq<Unit>, delta: (Value, Value) -> real)
    requires multiset(units) == multiset(units')
    ensures OffSum(Observed(units), ObservedWeight(units, delta))
          == OffSum(Observed(units'), ObservedWeight(units', delta))
    ensures OffSum(Observed(units), ExpectedWeight(units, delta))
          == OffSum(Observed(units'), ExpectedWeight(units', delta))
  {
    var V := Observed(units);
    PermutedObserved(units, units');
    PermutedMarginals(units, units');
    forall v, w ensures Coincidence(units, v, w) == Coincidence(units', v, w) {
      PermutedCoincidence(units, units', v, w);
    }
    SumSetCongruent(Grid(V, V), OffDiagonal(ObservedWeight(units, delta)), OffDiagonal(ObservedWeight(units', delta)));
    forall v | v in V ensures RowTotal(units, v) == RowTotal(units', v) {
      assert Marginals(units)[v] == Marginals(units')[v];
    }
    SumSetCongruent(Grid(V, V), OffDiagonal(ExpectedWeight(units, delta)), OffDiagonal(ExpectedWeight(units', delta)));
  }

  /** Alpha depends only on which units there are, not on their order. */
  lemma AlphaOfPermutedUnits(units: seq<Unit>, units': seq<Unit>, level: Level)
    requires multiset(units) == multiset(units')
    ensures Alpha(units, level) == Alpha(units', level)
  {
    PermutedMarginals(units, units');
    PermutedSums(units, units', Distance(level, Marginals(units)));
    assert |units| == |multiset(units)| == |multiset(units')| == |units'|;
  }

  ghost function RatingAt(u: nat): seq<Option<Value>> -> Unit {
    (row: seq<Option<Value>>) => if u < |row| then Rating(row[u]) else multiset{}
  }

  lemma {:induction false} RatingsAsBag(rows: Matrix, u: nat)
    requires forall r :: 0 <= r < |rows| ==> u < |rows[r]|
    ensures Ratings(rows, u) == Bag(rows, RatingAt(u))
  {
    if rows != [] {
      RatingsAsBag(rows[..|rows| - 1], u);
    }
  }

  lemma PermutedRatings(rows: Matrix, rows': Matrix, u: nat)
    requires multiset(rows) == multiset(rows')
    requires forall r :: 0 <= r < |rows| ==> u < |rows[r]|
    requires forall r :: 0 <= r < |rows'| ==> u < |rows'[r]|
    ensures Ratings(rows, u) == Ratings(rows', u)
  {
    RatingsAsBag(rows, u);
    RatingsAsBag(rows', u);
    BagPermuted(rows, rows', RatingAt(u));
  }

  /** Exchanging raters does not change alpha; rows longer than the first one's are allowed in both orders. */
  lemma AlphaOfPermutedRaters(data: Matrix, data': Matrix, level: Level)
    requires RowsReach(data) && RowsReach(data') && multiset(data) == multiset(data')
    ensures Alpha(Units(data), level) == Alpha(Units(data'), level)
  {
    assert |data| == |multiset(data)| == |multiset(data')| == |data'|;
    if data != [] {
      assert data[0] in multiset(data') && data'[0] in multiset(data);
      assert data[0] in data' && data'[0] in data;
    }
    forall u: nat | u < UnitCount(data) ensures Ratings(data, u) == Ratings(data', u) {
      PermutedRatings(data, data', u);
    }
    assert Columns(data) == Columns(data');
  }

  ghost function KeptBag(): Unit -> multiset<Unit> {
    u => multiset(Kept(u))
  }

  lemma {:induction false} KeptAsBag(columns: seq<Unit>)
    ensures multiset(KeptOf(columns)) == Bag(columns, KeptBag())
  {
    if columns != [] {
      KeptAsBag(columns[..|columns| - 1]);
    }
  }

  ghost function At(columns: seq<Unit>): int -> multiset<Unit> {
    j => if 0 <= j < |columns| then multiset{columns[j]} else multiset{}
  }

  ghost function Upto(n: nat): seq<int> {
    seq(n, i => i)
  }

  /** Picking the columns `order` one by one. */
  lemma {:induction false} PickedColumns(columns: seq<Unit>, picked: seq<Unit>, order: seq<int>)
    requires |picked| == |order|
    requires forall j :: 0 <= j < |order| ==> 0 <= order[j] < |columns| && picked[j] == columns[order[j]]
    ensures multiset(picked) == Bag(order, At(columns))
  {
    if order != [] {
      var n := |order| - 1;
      PickedColumns(columns, picked[..n], order[..n]);
      assert picked == picked[..n] + [picked[n]];
    }
  }

  /** Unit j of `data'` is unit `order[j]` of `data`, for every rater, and `order` lists each unit once. */
  ghost predicate Rearranges(data: Matrix, data': Matrix, order: seq<int>) {
    && RowsReach(data) && RowsReach(data') && |data| == |data'|
    && UnitCount(data) == UnitCount(data') == |order| && multiset(order) == multiset(Upto(|order|))
    && (forall j :: 0 <= j < |order| ==> 0 <= order[j] < |order|)
    && forall r, j :: 0 <= r < |data| && 0 <= j < |order| ==> data'[r][j] == data[r][order[j]]
  }

  lemma {:induction false} SameColumn(rows: Matrix, rows': Matrix, u: nat, u': nat)
    requires |rows| == |rows'|
    requires forall r :: 0 <= r < |rows| ==> u < |rows[r]| && u' < |rows'[r]| && rows[r][u] == rows'[r][u']
    ensures Ratings(rows, u) == Ratings(rows', u')
  {
    if rows != [] {
      SameColumn(rows[..|rows| - 1], rows'[..|rows| - 1], u, u');
    }
  }

  lemma RearrangedColumns(data: Matrix, data': Matrix, order: seq<int>)
    requires Rearranges(data, data', order)
    ensures forall j :: 0 <= j < |order| ==> Columns(data')[j] == Columns(data)[order[j]]
  {
    forall j | 0 <= j < |order| ensures Columns(data')[j] == Columns(data)[order[j]] {
      SameColumn(data, data', order[j], j);
    }
  }

  /** Exchanging units, in the same way for every rater, does not change alpha. */
  lemma AlphaOfPermutedColumns(data: Matrix, data': Matrix, order: seq<int>, level: Level)
    requires Rearranges(data, data', order)
    ensures Alpha(Units(data), level) == Alpha(Units(data'), level)
  {
    var columns, columns', n := Columns(data), Columns(data'), UnitCount(data);
    RearrangedColumns(data, data', order);
    PickedColumns(columns, columns', order);
    PickedColumns(columns, columns, Upto(n));
    BagPermuted(order, Upto(n), At(columns));
    KeptAsBag(columns);
    KeptAsBag(columns');
    BagPermuted(columns, columns', KeptBag());
    AlphaOfPermutedUnits(Units(data), Units(data'), level);
  }
}
