/**
 The ordinal and the interval distance of eval/agreement.py in terms of how often each value was given: ordinal
 distances are squares of lengths on a line, and interval disagreements are sums of squares about a mean.
 */
module AlphaLevels {
  import opened Common
  import opened Reals
  import opened Sums
  import opened Agreement
  import opened AlphaLaws

  // ---------- the ordinal level ----------

  /** The rank of a category is its last position in the list. */
  lemma {:induction false} RankIs(categories: seq<Value>, v: Value)
    ensures v in Rank(categories) <==> v in categories
    ensures v in Rank(categories) ==> var k := Rank(categories)[v];
      k < |categories| && categories[k] == v && forall j :: k < j < |categories| ==> categories[j] != v
  {
    if categories != [] {
      RankIs(categories[..|categories| - 1], v);
    }
  }

  /** The observed values ranked strictly between two others. */
  ghost function Inside(units: seq<Unit>, rank: map<Value, nat>, v: Value, w: Value): set<Value>
    requires v in rank && w in rank
  {
    set c | c in Observed(units) && c in rank && rank[v] < rank[c] < rank[w]
  }

  /** Half the occurrences of both ends and all occurrences in between. */
  ghost function Length(units: seq<Unit>, rank: map<Value, nat>, v: Value, w: Value): real
    requires v in rank && w in rank
  {
    Occurrences(units, v) as real / 2.0 + SumSet(Inside(units, rank, v, w), OccurrencesOf(units))
      + Occurrences(units, w) as real / 2.0
  }

  lemma BetweenIs(units: seq<Unit>, categories: seq<Value>, v: Value, w: Value)
    requires RanksWithoutGaps(Observed(units), Rank(categories)) && v in Observed(units) && w in Observed(units)
    requires Rank(categories)[v] < Rank(categories)[w]
    ensures Between(Rank(categories), v, w) == Inside(units, Rank(categories), v, w) + {v, w}
    ensures Between(Rank(categories), w, v) == Between(Rank(categories), v, w)
  {
    var rank := Rank(categories);
    forall c | c in Between(rank, v, w) ensures c in Inside(units, rank, v, w) + {v, w} {
      if c != v && c != w {
        RankInjective(categories, c, v);
        RankInjective(categories, c, w);
      }
    }
  }

  lemma SumWithEnds(inside: set<Value>, f: Value -> real, g: Value -> real, v: Value, w: Value)
    requires v !in inside && w !in inside && v != w
    requires forall c :: c in inside + {v, w} ==> f(c) == g(c)
    ensures SumSet(inside + {v, w}, f) == SumSet(inside, g) + g(v) + g(w)
  {
    SumSetCongruent(inside, f, g);
    SumSetInsert(inside, f, v);
    SumSetInsert(inside + {v}, f, w);
    assert inside + {v} + {w} == inside + {v, w};
  }

  lemma MarginalIsOccurrences(units: seq<Unit>, c: Value)
    requires Pairable(units) && c in Observed(units)
    ensures c in Marginals(units) && Marginals(units)[c] == OccurrencesOf(units)(c)
    ensures MarginalOf(Marginals(units))(c) == OccurrencesOf(units)(c)
  {
    RowTotalIsOccurrences(units, c);
  }

  lemma SpreadIsLength(units: seq<Unit>, categories: seq<Value>, v: Value, w: Value)
    requires Pairable(units) && RanksWithoutGaps(Observed(units), Rank(categories))
    requires v in Observed(units) && w in Observed(units) && Rank(categories)[v] < Rank(categories)[w]
    requires Between(Rank(categories), v, w) <= Marginals(units).Keys
    ensures Spread(Marginals(units), Rank(categories), v, w) == Length(units, Rank(categories), v, w)
  {
    var inside := Inside(units, Rank(categories), v, w);
    BetweenIs(units, categories, v, w);
    forall c | c in inside + {v, w} ensures MarginalOf(Marginals(units))(c) == OccurrencesOf(units)(c) {
      MarginalIsOccurrences(units, c);
    }
    SumWithEnds(inside, MarginalOf(Marginals(units)), OccurrencesOf(units), v, w);
    MarginalIsOccurrences(units, v);
    MarginalIsOccurrences(units, w);
  }

  lemma SpreadReversed(marginals: map<Value, real>, rank: map<Value, nat>, v: Value, w: Value)
    requires v in rank && w in rank && Between(rank, v, w) <= marginals.Keys
    ensures Between(rank, w, v) == Between(rank, v, w)
    ensures Spread(marginals, rank, w, v) == Spread(marginals, rank, v, w)
  {
    assert Between(rank, w, v) == Between(rank, v, w);
  }

  /** Between gap-free ranks the distance of two observed values is the square of the length between them, whichever
      of the two comes first. */
  lemma OrdinalDistance(units: seq<Unit>, categories: seq<Value>, v: Value, w: Value)
    requires Pairable(units) && RanksWithoutGaps(Observed(units), Rank(categories))
    requires v in Observed(units) && w in Observed(units) && Rank(categories)[v] < Rank(categories)[w]
    ensures var delta := Distance(Ordinal(Some(categories)), Marginals(units));
      delta(v, w) == delta(w, v) == Square(Length(units, Rank(categories), v, w))
  {
    GapFreeDefined(units, categories, v, w);
    SpreadIsLength(units, categories, v, w);
    SpreadReversed(Marginals(units), Rank(categories), v, w);
  }

  /** The roots of ordinal distances add up: a value in between splits the length. */
  lemma OrdinalRootsAdd(units: seq<Unit>, categories: seq<Value>, v: Value, c: Value, w: Value)
    requires Pairable(units) && RanksWithoutGaps(Observed(units), Rank(categories))
    requires v in Observed(units) && c in Observed(units) && w in Observed(units)
    requires Rank(categories)[v] < Rank(categories)[c] < Rank(categories)[w]
    ensures var delta := Distance(Ordinal(Some(categories)), Marginals(units));
      exists x: real, y: real :: x > 0.0 && y > 0.0
            && delta(v, c) == Square(x) && delta(c, w) == Square(y) && delta(v, w) == Square(x + y)
  {
    var rank := Rank(categories);
    var x, y := Length(units, rank, v, c), Length(units, rank, c, w);
    OrdinalDistance(units, categories, v, c);
    OrdinalDistance(units, categories, c, w);
    OrdinalDistance(units, categories, v, w);
    LengthsAdd(units, categories, v, c, w);
  }

  lemma LengthPositive(units: seq<Unit>, rank: map<Value, nat>, v: Value, w: Value)
    requires v in rank && w in rank && v in Observed(units) && w in Observed(units)
    ensures Length(units, rank, v, w) > 0.0
  {
    ObservedOccurs(units, v);
    SumSetNonNegative(Inside(units, rank, v, w), OccurrencesOf(units));
  }

  lemma LengthsAdd(units: seq<Unit>, categories: seq<Value>, v: Value, c: Value, w: Value)
    requires v in Observed(units) && c in Observed(units) && w in Observed(units)
    requires var rank := Rank(categories); v in rank && c in rank && w in rank && rank[v] < rank[c] < rank[w]
    ensures var rank := Rank(categories);
      && Length(units, rank, v, w) == Length(units, rank, v, c) + Length(units, rank, c, w)
      && Length(units, rank, v, c) > 0.0 && Length(units, rank, c, w) > 0.0
  {
    var rank, f := Rank(categories), OccurrencesOf(units);
    var left, right := Inside(units, rank, v, c), Inside(units, rank, c, w);
    LengthPositive(units, rank, v, c);
    LengthPositive(units, rank, c, w);
    forall d | d in Inside(units, rank, v, w) ensures d in left + {c} + right {
      if d != c {
        RankInjective(categories, d, c);
      }
    }
    assert Inside(units, rank, v, w) == left + {c} + right;
    SumSetInsert(left, f, c);
    SumSetUnion(left + {c}, right, f);
  }

  // ---------- the interval level ----------

  ghost function Position(v: Value): real {
    match v
    case Number(x) => x
    case Label(_) => 0.0
  }

  ghost predicate AllNumbers(units: seq<Unit>) {
    forall v :: v in Observed(units) ==> v.Number?
  }

  ghost function FirstMoment(g: Value -> real): Value -> real {
    v => Times(g(v), Position(v))
  }

  ghost function SecondMoment(g: Value -> real): Value -> real {
    v => Times(g(v), Square(Position(v)))
  }

  /** n times the sum of squares less the square of the sum: n times the sum of squares about the mean. */
  ghost function Scatter(V: set<Value>, g: Value -> real): real {
    Times(SumSet(V, g), SumSet(V, SecondMoment(g))) - Square(SumSet(V, FirstMoment(g)))
  }

  /** f is a combination of three others. */
  ghost predicate CombinesAt(f: Value -> real, a: real, fa: Value -> real, b: real, fb: Value -> real, c: real,
        fc: Value -> real, v: Value)
  {
    f(v) == Times(a, fa(v)) + Times(b, fb(v)) + Times(c, fc(v))
  }

  lemma {:induction false} SumSetCombines(V: set<Value>, f: Value -> real, a: real, fa: Value -> real, b: real,
        fb: Value -> real, c: real, fc: Value -> real)
    requires forall v :: v in V ==> CombinesAt(f, a, fa, b, fb, c, fc, v) == true
    ensures SumSet(V, f) == Times(a, SumSet(V, fa)) + Times(b, SumSet(V, fb)) + Times(c, SumSet(V, fc))
  {
    if V == {} {
      TimesZero(a, b, c);
    } else {
      var v :| v in V;
      SumSetCombines(V - {v}, f, a, fa, b, fb, c, fc);
      SumSetRemove(V, f, v);
      SumSetRemove(V, fa, v);
      SumSetRemove(V, fb, v);
      SumSetRemove(V, fc, v);
      assert CombinesAt(f, a, fa, b, fb, c, fc, v);
      TimesLinear(a, fa(v), SumSet(V - {v}, fa));
      TimesLinear(b, fb(v), SumSet(V - {v}, fb));
      TimesLinear(c, fc(v), SumSet(V - {v}, fc));
    }
  }

  lemma TimesZero(a: real, b: real, c: real)
    ensures Times(a, 0.0) == Times(b, 0.0) == Times(c, 0.0) == 0.0
  {
  }

  lemma SquaredDifference(g: real, h: real, x: real, y: real)
    ensures Times(Times(g, h), Square(x - y))
         == Times(Times(g, Square(x)), h) + Times(-2.0 * Times(g, x), Times(h, y)) + Times(g, Times(h, Square(y)))
  {
  }

  lemma RowAgain(g: real, x: real, n: real, s: real, q: real)
    ensures Times(Times(g, Square(x)), n) + Times(-2.0 * Times(g, x), s) + Times(g, q)
         == Times(n, Times(g, Square(x))) + Times(-2.0 * s, Times(g, x)) + Times(q, g)
  {
  }

  lemma ScatterTwice(n: real, s: real, q: real)
    ensures Times(n, q) + Times(-2.0 * s, s) + Times(q, n) == 2.0 * (Times(n, q) - Square(s))
  {
  }

  /** Each cell is the product of two weights and the squared difference of the positions. */
  ghost predicate WeighedAt(f: ((Value, Value)) -> real, g: Value -> real, v: Value, w: Value) {
    f((v, w)) == Times(Times(g(v), g(w)), Square(Position(v) - Position(w)))
  }

  lemma WeighedRow(V: set<Value>, f: ((Value, Value)) -> real, g: Value -> real, v: Value)
    requires forall w :: w in V ==> WeighedAt(f, g, v, w) == true
    ensures SumSet(V, CellsOf(f, v)) == Times(SumSet(V, g), SecondMoment(g)(v))
          + Times(-2.0 * SumSet(V, FirstMoment(g)), FirstMoment(g)(v)) + Times(SumSet(V, SecondMoment(g)), g(v))
  {
    var x := Position(v);
    var a, b, c := Times(g(v), Square(x)), -2.0 * Times(g(v), x), g(v);
    forall w | w in V ensures CombinesAt(CellsOf(f, v), a, g, b, FirstMoment(g), c, SecondMoment(g), w) {
      assert WeighedAt(f, g, v, w);
      SquaredDifference(g(v), g(w), x, Position(w));
    }
    SumSetCombines(V, CellsOf(f, v), a, g, b, FirstMoment(g), c, SecondMoment(g));
    RowAgain(g(v), x, SumSet(V, g), SumSet(V, FirstMoment(g)), SumSet(V, SecondMoment(g)));
  }

  /** Weighted squared differences over all pairs sum to twice the scatter. */
  lemma SquaredDifferences(V: set<Value>, f: ((Value, Value)) -> real, g: Value -> real)
    requires forall v, w :: v in V && w in V ==> WeighedAt(f, g, v, w) == true
    ensures SumSet(Grid(V, V), f) == 2.0 * Scatter(V, g)
  {
    var n, s, q := SumSet(V, g), SumSet(V, FirstMoment(g)), SumSet(V, SecondMoment(g));
    SumByRows(V, V, f);
    forall v | v in V
      ensures CombinesAt(GridRows(V, f), n, SecondMoment(g), -2.0 * s, FirstMoment(g), q, g, v)
    {
      WeighedRow(V, f, g, v);
    }
    SumSetCombines(V, GridRows(V, f), n, SecondMoment(g), -2.0 * s, FirstMoment(g), q, g);
    ScatterTwice(n, s, q);
  }

  lemma NoDifference(x: real, p: real)
    ensures Times(x, Square(p - p)) == 0.0
  {
  }

  ghost function IntervalOf(units: seq<Unit>): (Value, Value) -> real {
    Distance(Interval, Marginals(units))
  }

  /** The expected sum at the interval level: with n ratings x, it is 2 (n sum(x^2) - (sum x)^2). */
  lemma IntervalExpected(units: seq<Unit>)
    requires Pairable(units) && AllNumbers(units)
    ensures OffSum(Observed(units), ExpectedWeight(units, IntervalOf(units)))
         == 2.0 * Scatter(Observed(units), OccurrencesOf(units))
  {
    var V, g := Observed(units), OccurrencesOf(units);
    var f := OffDiagonal(ExpectedWeight(units, IntervalOf(units)));
    forall v, w | v in V && w in V ensures WeighedAt(f, g, v, w) {
      RowTotalIsOccurrences(units, v);
      RowTotalIsOccurrences(units, w);
      NoDifference(Times(g(v), g(w)), Position(v));
    }
    SquaredDifferences(V, f, g);
  }

  ghost function SquaredGap(): (Value, Value) -> real {
    (v, w) => Square(Position(v) - Position(w))
  }

  /** What each unit adds to the observed sum: the scatter of its own ratings, over one less than their number. */
  ghost function ScatterWithin(V: set<Value>, units: seq<Unit>): real {
    if units == [] then 0.0 else
      var u := units[|units| - 1];
      ScatterWithin(V, units[..|units| - 1]) + if |u| < 2 then 0.0 else Scatter(V, Multiplicity(u)) / (|u| - 1) as real
  }

  ghost function UnitWeight(u: Unit): (Value, Value) -> real {
    (v, w) => Times(Contribution(u, v, w), Square(Position(v) - Position(w)))
  }

  ghost function PairsWeight(u: Unit): (Value, Value) -> real {
    (v, w) => Times(Times(u[v] as real, u[w] as real), Square(Position(v) - Position(w)))
  }

  lemma ShareOfProduct(c: int, e: int, m: int, d: real)
    requires m > 0
    ensures IsProduct(Times((c * e) as real / m as real, d), 1.0 / m as real, Times(Times(c as real, e as real), d))
  {
  }

  lemma ScaledByOne(z: real, m: real, scatter: real)
    requires m > 0.0 && IsProduct(z, 1.0 / m, 2.0 * scatter)
    ensures z == 2.0 * (scatter / m)
  {
  }

  lemma ScatterOfUnit(V: set<Value>, u: Unit)
    requires |u| >= 2
    ensures OffSum(V, UnitWeight(u)) == 2.0 * (Scatter(V, Multiplicity(u)) / (|u| - 1) as real)
  {
    var f, h := OffDiagonal(UnitWeight(u)), OffDiagonal(PairsWeight(u));
    forall v, w | v in V && w in V ensures WeighedAt(h, Multiplicity(u), v, w) {
      NoDifference(Times(u[v] as real, u[w] as real), Position(v));
    }
    SquaredDifferences(V, h, Multiplicity(u));
    forall p | p in Grid(V, V) ensures IsProduct(f(p), 1.0 / (|u| - 1) as real, h(p)) {
      if p.0 != p.1 {
        ShareOfProduct(u[p.0], u[p.1], |u| - 1, Square(Position(p.0) - Position(p.1)));
      }
    }
    SumSetScale(Grid(V, V), h, 1.0 / (|u| - 1) as real, f);
    ScaledByOne(SumSet(Grid(V, V), f), (|u| - 1) as real, Scatter(V, Multiplicity(u)));
  }

  lemma TimesSum(x: real, y: real, d: real)
    ensures Times(x + y, d) == Times(x, d) + Times(y, d)
    ensures Times(0.0, d) == 0.0
  {
  }

  lemma ObservedStep(V: set<Value>, units: seq<Unit>)
    requires units != []
    ensures OffSum(V, ObservedWeight(units, SquaredGap()))
         == OffSum(V, ObservedWeight(units[..|units| - 1], SquaredGap())) + OffSum(V, UnitWeight(units[|units| - 1]))
  {
    var init, u := units[..|units| - 1], units[|units| - 1];
    var f, g := OffDiagonal(ObservedWeight(units, SquaredGap())), OffDiagonal(ObservedWeight(init, SquaredGap()));
    forall p | p in Grid(V, V) ensures f(p) == g(p) + OffDiagonal(UnitWeight(u))(p) {
      TimesSum(Coincidence(init, p.0, p.1), Contribution(u, p.0, p.1), SquaredGap()(p.0, p.1));
    }
    SumSetAdd(Grid(V, V), g, OffDiagonal(UnitWeight(u)), f);
  }

  lemma {:induction false} ObservedScatter(V: set<Value>, units: seq<Unit>)
    requires Pairable(units)
    ensures OffSum(V, ObservedWeight(units, SquaredGap())) == 2.0 * ScatterWithin(V, units)
  {
    var f := OffDiagonal(ObservedWeight(units, SquaredGap()));
    if units == [] {
      forall p | p in Grid(V, V) ensures f(p) == 0.0 {
        TimesSum(0.0, 0.0, SquaredGap()(p.0, p.1));
      }
      SumSetZero(Grid(V, V), f);
    } else {
      ObservedScatter(V, units[..|units| - 1]);
      ScatterOfUnit(V, units[|units| - 1]);
      ObservedStep(V, units);
    }
  }

  /** The observed sum at the interval level: twice the scatters within the units, each over one less than its
      number of ratings. */
  lemma IntervalObserved(units: seq<Unit>)
    requires Pairable(units) && AllNumbers(units)
    ensures OffSum(Observed(units), ObservedWeight(units, IntervalOf(units)))
         == 2.0 * ScatterWithin(Observed(units), units)
  {
    var V := Observed(units);
    ObservedScatter(V, units);
    SumSetCongruent(Grid(V, V), OffDiagonal(ObservedWeight(units, IntervalOf(units))),
                    OffDiagonal(ObservedWeight(units, SquaredGap())));
  }

  lemma ChanceAsRatio(n: real, within: real, scatter: real)
    requires n >= 2.0 && scatter > 0.0
    ensures Chance(n, 2.0 * within, 2.0 * scatter) == Some(1.0 - Times(n - 1.0, within) / scatter)
  {
    var e := n * (n - 1.0);
    assert e > 0.0;
    QuotientPositive(2.0 * scatter, e);
    assert (2.0 * within / n) / (2.0 * scatter / e) == Times(n - 1.0, within) / scatter by {
      RatioOfQuotients(n, within, scatter);
    }
  }

  lemma RatioOfQuotients(n: real, within: real, scatter: real)
    requires n >= 2.0 && scatter > 0.0 && n * (n - 1.0) > 0.0 && 2.0 * scatter / (n * (n - 1.0)) > 0.0
    ensures (2.0 * within / n) / (2.0 * scatter / (n * (n - 1.0))) == Times(n - 1.0, within) / scatter
  {
    var q := Times(n - 1.0, within) / scatter;
    var d := 2.0 * scatter / (n * (n - 1.0));
    assert q * scatter == (n - 1.0) * within;
    assert d * (n * (n - 1.0)) == 2.0 * scatter;
    assert (d * q * n) * (n - 1.0) == 2.0 * within * (n - 1.0);
    assert d * q * n == 2.0 * within;
    QuotientIs(2.0 * within, n, d * q);
    QuotientIs(2.0 * within / n, d, q);
  }

  lemma AlphaOfSums(units: seq<Unit>, so: real, se: real)
    requires AllNumbers(units) && units != [] && Total(units) >= 2.0
    requires so == OffSum(Observed(units), ObservedWeight(units, IntervalOf(units)))
    requires se == OffSum(Observed(units), ExpectedWeight(units, IntervalOf(units)))
    ensures Alpha(units, Interval) == Ok(Chance(Total(units), so, se))
  {
    assert !Raises(Marginals(units), Interval);
  }

  /** Two different numbers have a positive scatter. */
  lemma ScatterPositive(units: seq<Unit>, a: Value, b: Value)
    requires Pairable(units) && AllNumbers(units) && a in Observed(units) && b in Observed(units) && a != b
    ensures Scatter(Observed(units), OccurrencesOf(units)) > 0.0
  {
    IntervalExpected(units);
    assert !Raises(Marginals(units), Interval);
    LevelSeparates(units, Interval);
    ExpectedDisagreement(units, IntervalOf(units));
  }

  /** Alpha at the interval level, for n ratings of two or more different numbers: one less n - 1 times the scatter
      within the units over the scatter of all ratings. */
  lemma IntervalAlpha(units: seq<Unit>, a: Value, b: Value)
    requires Pairable(units) && AllNumbers(units) && a in Observed(units) && b in Observed(units) && a != b
    ensures var V := Observed(units); var scatter := Scatter(V, OccurrencesOf(units));
      && scatter > 0.0
      && Alpha(units, Interval)
         == Ok(Some(1.0 - Times(RatingCount(units) as real - 1.0, ScatterWithin(V, units)) / scatter))
  {
    var within, scatter := ScatterWithin(Observed(units), units), Scatter(Observed(units), OccurrencesOf(units));
    TotalIsRatingCount(units);
    IntervalExpected(units);
    IntervalObserved(units);
    ScatterPositive(units, a, b);
    AlphaOfSums(units, 2.0 * within, 2.0 * scatter);
    ChanceAsRatio(RatingCount(units) as real, within, scatter);
  }
}
