/**
 Krippendorff's alpha and Fleiss' kappa (eval/agreement.py).

 A rating is a number or a label.  A Counter is a multiset, so `sum(counts.values())` is its
 cardinality.  All arithmetic is exact.
 */
module Agreement {
  import opened Common
  import opened Reals
  import opened Sums

  datatype Value = Number(x: real) | Label(name: string)
  type Unit = multiset<Value>
  type Matrix = seq<seq<Option<Value>>>

  datatype Level = Nominal | Interval | Ordinal(categories: Option<seq<Value>>) | Unrecognised

  datatype Error = ValueError | TypeError | KeyError | IndexError | ZeroDivisionError

  // ---------- pairable units ----------

  /** Every rater's row reaches as far as the first rater's row. */
  predicate RowsReach(data: Matrix) {
    forall r :: 0 <= r < |data| ==> |data[0]| <= |data[r]|
  }

  function UnitCount(data: Matrix): nat {
    if data == [] then 0 else |data[0]|
  }

  function Rating(x: Option<Value>): Unit {
    match x
    case None => multiset{}
    case Some(v) => multiset{v}
  }

  /** The values the given rows hold for unit `u`. */
  function Ratings(rows: Matrix, u: nat): Unit
    requires forall r :: 0 <= r < |rows| ==> u < |rows[r]|
  {
    if rows == [] then multiset{} else Ratings(rows[..|rows| - 1], u) + Rating(rows[|rows| - 1][u])
  }

  /** The ratings of each unit, one column of the matrix each. */
  function Columns(data: Matrix): seq<Unit>
    requires RowsReach(data)
  {
    seq(UnitCount(data), u requires 0 <= u < UnitCount(data) => Ratings(data, u))
  }

  function Kept(counts: Unit): seq<Unit> {
    if |counts| >= 2 then [counts] else []
  }

  function KeptOf(columns: seq<Unit>): seq<Unit> {
    if columns == [] then [] else KeptOf(columns[..|columns| - 1]) + Kept(columns[|columns| - 1])
  }

  function Units(data: Matrix): seq<Unit>
    requires RowsReach(data)
  {
    KeptOf(Columns(data))
  }

  ghost predicate Pairable(units: seq<Unit>) {
    forall u :: u in units ==> |u| >= 2
  }

  lemma {:induction false} KeptArePairable(columns: seq<Unit>)
    ensures Pairable(KeptOf(columns))
  {
    if columns != [] {
      KeptArePairable(columns[..|columns| - 1]);
    }
  }

  lemma KeptStep(columns: seq<Unit>, u: nat)
    requires u < |columns|
    ensures KeptOf(columns[..u + 1]) == KeptOf(columns[..u]) + Kept(columns[u])
  {
    assert columns[..u + 1][..u] == columns[..u];
  }

  lemma WholeColumns(columns: seq<Unit>)
    ensures columns[..|columns|] == columns
  {
  }

  method CountRatings(data: Matrix, u: nat) returns (counts: Unit)
    requires forall r :: 0 <= r < |data| ==> u < |data[r]|
    ensures counts == Ratings(data, u)
  {
    counts := multiset{};
    for r := 0 to |data|
      invariant counts == Ratings(data[..r], u)
    {
      assert data[..r + 1][..r] == data[..r];
      counts := counts + Rating(data[r][u]);
    }
    assert data[..|data|] == data;
  }

  method UnitsFromRatersMatrix(data: Matrix) returns (units: seq<Unit>)
    requires RowsReach(data)
    ensures units == Units(data) && Pairable(units)
  {
    var nRaters := |data|;
    var nUnits := if nRaters > 0 then |data[0]| else 0;
    units := [];
    for u := 0 to nUnits
      invariant units == KeptOf(Columns(data)[..u])
    {
      var counts := CountRatings(data, u);
      KeptStep(Columns(data), u);
      units := units + Kept(counts);
    }
    WholeColumns(Columns(data));
    KeptArePairable(Columns(data));
  }

  // ---------- the coincidence matrix ----------

  /** What one unit adds to cell (v, w). */
  function Contribution(u: Unit, v: Value, w: Value): real {
    if |u| < 2 then 0.0
    else if v == w then (u[v] * (u[v] as int - 1)) as real / (|u| - 1) as real
    else (u[v] * u[w]) as real / (|u| - 1) as real
  }

  ghost function Coincidence(units: seq<Unit>, v: Value, w: Value): real {
    if units == [] then 0.0
    else Coincidence(units[..|units| - 1], v, w) + Contribution(units[|units| - 1], v, w)
  }

  ghost function Support(u: Unit): set<Value> {
    set v | v in u
  }

  ghost function Observed(units: seq<Unit>): set<Value> {
    if units == [] then {} else Observed(units[..|units| - 1]) + Support(units[|units| - 1])
  }

  ghost function CoincidenceRow(units: seq<Unit>, v: Value): Value -> real {
    w => Coincidence(units, v, w)
  }

  ghost function RowTotal(units: seq<Unit>, v: Value): real {
    SumSet(Observed(units), CoincidenceRow(units, v))
  }

  ghost function RowTotals(units: seq<Unit>): Value -> real {
    v => RowTotal(units, v)
  }

  ghost function Total(units: seq<Unit>): real {
    SumSet(Observed(units), RowTotals(units))
  }

  ghost function Marginals(units: seq<Unit>): map<Value, real> {
    map v | v in Observed(units) :: RowTotal(units, v)
  }

  /** How often `v` was given, over all units. */
  ghost function Occurrences(units: seq<Unit>, v: Value): nat {
    if units == [] then 0 else Occurrences(units[..|units| - 1], v) + units[|units| - 1][v]
  }

  ghost function RatingCount(units: seq<Unit>): nat {
    if units == [] then 0 else RatingCount(units[..|units| - 1]) + |units[|units| - 1]|
  }

  lemma {:induction false} CoincidenceSymmetric(units: seq<Unit>, v: Value, w: Value)
    ensures Coincidence(units, v, w) == Coincidence(units, w, v)
  {
    if units != [] {
      CoincidenceSymmetric(units[..|units| - 1], v, w);
    }
  }

  ghost function Multiplicity(u: Unit): Value -> real {
    w => u[w] as real
  }

  lemma {:induction false} MultiplicitiesSumToSize(V: set<Value>, u: Unit)
    requires Support(u) <= V
    ensures SumSet(V, Multiplicity(u)) == |u| as real
    decreases V
  {
    if V == {} {
      assert u == multiset{} by {
        forall v ensures u[v] == 0 { assert v !in Support(u); }
      }
    } else {
      var x := Pick(V);
      var rest := u[x := 0];
      MultiplicitiesSumToSize(V - {x}, rest);
      SumSetCongruent(V - {x}, Multiplicity(u), Multiplicity(rest));
      SumSetRemove(V, Multiplicity(u), x);
    }
  }

  ghost function ContributionRow(u: Unit, v: Value): Value -> real {
    w => Contribution(u, v, w)
  }

  /** The factor by which v's row of one unit scales the unit's multiplicities. */
  ghost function Rate(u: Unit, v: Value): real {
    if |u| < 2 then 0.0 else u[v] as real / (|u| - 1) as real
  }

  lemma DivideProduct(c: int, k: int, m: int, x: real)
    requires m != 0 && x == k as real
    ensures (c * k) as real / m as real == (c as real / m as real) * x
  {
  }

  /** v's row of one unit is `rate` times the unit's multiplicities, one less at v itself. */
  ghost predicate ScaledAt(row: Value -> real, rate: real, counts: Value -> real, v: Value, w: Value) {
    IsProduct(row(w), rate, if v == w then counts(w) - 1.0 else counts(w))
  }

  lemma ContributionIsScaled(u: Unit, v: Value, w: Value)
    requires |u| >= 2
    ensures ScaledAt(ContributionRow(u, v), Rate(u, v), Multiplicity(u), v, w)
  {
    if v == w {
      DivideProduct(u[v], u[v] as int - 1, |u| - 1, Multiplicity(u)(w) - 1.0);
    } else {
      DivideProduct(u[v], u[w], |u| - 1, Multiplicity(u)(w));
    }
  }

  lemma RateTimesRest(u: Unit, v: Value, size: real)
    requires |u| >= 2 && size == |u| as real
    ensures IsProduct(u[v] as real, Rate(u, v), size - 1.0)
  {
  }

  lemma ScaledRow(V: set<Value>, f: Value -> real, g: Value -> real, k: real, v: Value, total: real)
    requires v in V && forall w :: w in V ==> ScaledAt(f, k, g, v, w)
    requires IsProduct(total, k, SumSet(V, g) - 1.0)
    ensures SumSet(V, f) == total
  {
    SumSetRemove(V, f, v);
    SumSetRemove(V, g, v);
    assert ScaledAt(f, k, g, v, v);
    forall w | w in V - {v} ensures IsProduct(f(w), k, g(w)) {
      assert ScaledAt(f, k, g, v, w);
    }
    SumSetScale(V - {v}, g, k, f);
    AddProducts(f(v), g(v) - 1.0, SumSet(V - {v}, f), SumSet(V - {v}, g), k);
    SameProduct(total, SumSet(V, g) - 1.0, SumSet(V, f), g(v) - 1.0 + SumSet(V - {v}, g), k);
  }

  lemma RowOfOneUnit(V: set<Value>, u: Unit, v: Value)
    requires Support(u) <= V && |u| >= 2 && v in V
    ensures SumSet(V, ContributionRow(u, v)) == u[v] as real
  {
    MultiplicitiesSumToSize(V, u);
    forall w | w in V ensures ScaledAt(ContributionRow(u, v), Rate(u, v), Multiplicity(u), v, w) {
      ContributionIsScaled(u, v, w);
    }
    RateTimesRest(u, v, SumSet(V, Multiplicity(u)));
    ScaledRow(V, ContributionRow(u, v), Multiplicity(u), Rate(u, v), v, u[v] as real);
  }

  lemma {:induction false} CoincidenceRowSum(V: set<Value>, units: seq<Unit>, v: Value)
    requires Pairable(units) && Observed(units) <= V && v in V
    ensures SumSet(V, CoincidenceRow(units, v)) == Occurrences(units, v) as real
  {
    if units == [] {
      SumSetZero(V, CoincidenceRow(units, v));
    } else {
      var init, u := units[..|units| - 1], units[|units| - 1];
      CoincidenceRowSum(V, init, v);
      RowOfOneUnit(V, u, v);
      SumSetAdd(V, CoincidenceRow(init, v), ContributionRow(u, v), CoincidenceRow(units, v));
    }
  }

  /** The row sum of the coincidence matrix for v is the number of times v was given. */
  lemma RowTotalIsOccurrences(units: seq<Unit>, v: Value)
    requires Pairable(units) && v in Observed(units)
    ensures RowTotal(units, v) == Occurrences(units, v) as real
  {
    CoincidenceRowSum(Observed(units), units, v);
  }

  ghost function OccurrencesOf(units: seq<Unit>): Value -> real {
    v => Occurrences(units, v) as real
  }

  lemma {:induction false} OccurrencesSum(V: set<Value>, units: seq<Unit>)
    requires Observed(units) <= V
    ensures SumSet(V, OccurrencesOf(units)) == RatingCount(units) as real
  {
    if units == [] {
      SumSetZero(V, OccurrencesOf(units));
    } else {
      var init, u := units[..|units| - 1], units[|units| - 1];
      OccurrencesSum(V, init);
      MultiplicitiesSumToSize(V, u);
      SumSetAdd(V, OccurrencesOf(init), Multiplicity(u), OccurrencesOf(units));
    }
  }

  /** The grand total n is the number of pairable ratings, so it is at least 2 as soon as one unit is pairable. */
  lemma TotalIsRatingCount(units: seq<Unit>)
    requires Pairable(units)
    ensures Total(units) == RatingCount(units) as real
    ensures units != [] ==> Total(units) >= 2.0
  {
    OccurrencesSum(Observed(units), units);
    forall v | v in Observed(units) ensures RowTotals(units)(v) == OccurrencesOf(units)(v) {
      RowTotalIsOccurrences(units, v);
    }
    SumSetCongruent(Observed(units), RowTotals(units), OccurrencesOf(units));
  }

  lemma {:induction false} ObservedOccurs(units: seq<Unit>, v: Value)
    ensures v in Observed(units) <==> Occurrences(units, v) >= 1
    ensures v in Observed(units) <==> exists u :: u in units && v in u
  {
    if units != [] {
      var init, last := units[..|units| - 1], units[|units| - 1];
      ObservedOccurs(init, v);
      assert units == init + [last];
    }
  }

  lemma ContributionPositive(u: Unit, v: Value, w: Value)
    requires |u| >= 2 && v != w
    ensures Contribution(u, v, w) >= 0.0
    ensures Contribution(u, v, w) > 0.0 <==> v in u && w in u
  {
    var p, m := u[v] * u[w], |u| - 1;
    assert p >= 1 <==> v in u && w in u;
    if p > 0 {
      QuotientPositive(p as real, m as real);
    } else {
      QuotientIs(0.0, m as real, 0.0);
    }
  }

  lemma {:induction false} CoincidencePositive(units: seq<Unit>, v: Value, w: Value)
    requires Pairable(units) && v != w
    ensures Coincidence(units, v, w) >= 0.0
    ensures Coincidence(units, v, w) > 0.0 <==> exists u :: u in units && v in u && w in u
  {
    if units != [] {
      var init, last := units[..|units| - 1], units[|units| - 1];
      CoincidencePositive(init, v, w);
      assert units == init + [last];
      ContributionPositive(last, v, w);
    }
  }

  // ---------- distances ----------

  /** The rank of each category: its last position in the list. */
  function Rank(categories: seq<Value>): map<Value, nat> {
    if categories == [] then map[] else
      Rank(categories[..|categories| - 1])[categories[|categories| - 1] := |categories| - 1]
  }

  ghost function Between(rank: map<Value, nat>, v: Value, w: Value): set<Value>
    requires v in rank && w in rank
  {
    set c | c in rank && (rank[v] <= rank[c] <= rank[w] || rank[w] <= rank[c] <= rank[v])
  }

  ghost function MarginalOf(marginals: map<Value, real>): Value -> real {
    c => if c in marginals then marginals[c] else 0.0
  }

  ghost function OrdinalDelta(marginals: map<Value, real>, rank: map<Value, nat>, v: Value, w: Value)
    : Result<real, Error>
  {
    if v !in rank || w !in rank || !(Between(rank, v, w) <= marginals.Keys) then Err(KeyError)
    else Ok(Square(Spread(marginals, rank, v, w)))
  }

  ghost function Spread(marginals: map<Value, real>, rank: map<Value, nat>, v: Value, w: Value): real
    requires v in rank && w in rank && Between(rank, v, w) <= marginals.Keys
  {
    SumSet(Between(rank, v, w), MarginalOf(marginals)) - (marginals[v] + marginals[w]) / 2.0
  }

  ghost function Delta(level: Level, marginals: map<Value, real>, v: Value, w: Value): Result<real, Error> {
    match level
    case Nominal => Ok(if v == w then 0.0 else 1.0)
    case Interval =>
      if v.Number? && w.Number? then Ok(Square(v.x - w.x)) else Err(TypeError)
    case Ordinal(Some(categories)) => OrdinalDelta(marginals, Rank(categories), v, w)
    case Ordinal(None) => Err(ValueError)
    case Unrecognised => Err(ValueError)
  }

  /** The distance as a plain function, 0 where the program would raise. */
  ghost function Distance(level: Level, marginals: map<Value, real>): (Value, Value) -> real {
    (v, w) => match Delta(level, marginals, v, w) case Ok(d) => d case Err(_) => 0.0
  }

  method SumBetween(marginals: map<Value, real>, rank: map<Value, nat>, v: Value, w: Value)
    returns (r: Result<real, Error>)
    requires v in rank && w in rank
    ensures r.Ok? <==> Between(rank, v, w) <= marginals.Keys
    ensures r.Ok? ==> r.value == SumSet(Between(rank, v, w), MarginalOf(marginals))
    ensures r.Err? ==> r.error == KeyError
  {
    var lo, hi := MinNat(rank[v], rank[w]), if rank[v] <= rank[w] then rank[w] else rank[v];
    var total, todo := 0.0, rank.Keys;
    ghost var done: set<Value> := {};
    while todo != {}
      invariant done + todo == rank.Keys && done !! todo
      invariant Between(rank, v, w) * done <= marginals.Keys
      invariant total == SumSet(Between(rank, v, w) * done, MarginalOf(marginals))
    {
      var c :| c in todo;
      if lo <= rank[c] <= hi {
        if c !in marginals {
          assert c in Between(rank, v, w);
          return Err(KeyError);
        }
        SumSetInsert(Between(rank, v, w) * done, MarginalOf(marginals), c);
        assert Between(rank, v, w) * (done + {c}) == Between(rank, v, w) * done + {c};
        total := total + marginals[c];
      } else {
        assert Between(rank, v, w) * (done + {c}) == Between(rank, v, w) * done;
      }
      todo, done := todo - {c}, done + {c};
    }
    assert Between(rank, v, w) * done == Between(rank, v, w);
    r := Ok(total);
  }

  method MeasureDelta(level: Level, marginals: map<Value, real>, v: Value, w: Value)
    returns (r: Result<real, Error>)
    ensures r == Delta(level, marginals, v, w)
  {
    match level
    case Nominal =>
      r := Ok(if v == w then 0.0 else 1.0);
    case Interval =>
      r := if v.Number? && w.Number? then Ok(Square(v.x - w.x)) else Err(TypeError);
    case Ordinal(Some(categories)) =>
      var rank := Rank(categories);
      if v !in rank || w !in rank {
        return Err(KeyError);
      }
      var total := SumBetween(marginals, rank, v, w);
      if total.Ok? {
        assert v in Between(rank, v, w) && w in Between(rank, v, w);
        var spread := total.value - (marginals[v] + marginals[w]) / 2.0;
        assert spread == Spread(marginals, rank, v, w);
        r := Ok(Square(spread));
      } else {
        r := Err(KeyError);
      }
    case Ordinal(None) =>
      r := Err(ValueError);
    case Unrecognised =>
      r := Err(ValueError);
  }

  // ---------- alpha as a function of the units ----------

  ghost function OffDiagonal(weight: (Value, Value) -> real): ((Value, Value)) -> real {
    (p: (Value, Value)) => if p.0 == p.1 then 0.0 else weight(p.0, p.1)
  }

  /** The sum of `weight` over all pairs of different values. */
  ghost function OffSum(V: set<Value>, weight: (Value, Value) -> real): real {
    SumSet(Grid(V, V), OffDiagonal(weight))
  }

  ghost function ObservedWeight(units: seq<Unit>, delta: (Value, Value) -> real): (Value, Value) -> real {
    (v, w) => Times(Coincidence(units, v, w), delta(v, w))
  }

  ghost function ExpectedWeight(units: seq<Unit>, delta: (Value, Value) -> real): (Value, Value) -> real {
    (v, w) => Times(Times(RowTotal(units, v), RowTotal(units, w)), delta(v, w))
  }

  /** The closing arithmetic: `so` and `se` are the two weighted sums and `n` the grand total. */
  function Chance(n: real, so: real, se: real): Option<real>
    requires n >= 2.0
  {
    var dO, dE := so / n, se / (n * (n - 1.0));
    if dE == 0.0 then if dO == 0.0 then Some(1.0) else None
    else Some(1.0 - dO / dE)
  }

  ghost function AlphaWith(units: seq<Unit>, delta: (Value, Value) -> real): Option<real>
    requires Total(units) >= 2.0
  {
    Chance(Total(units), OffSum(Observed(units), ObservedWeight(units, delta)),
           OffSum(Observed(units), ExpectedWeight(units, delta)))
  }

  /** Some distance between two different observed values raises. */
  ghost predicate Raises(marginals: map<Value, real>, level: Level) {
    exists v {:trigger RowDefined(marginals, level, v)} :: v in marginals && !RowDefined(marginals, level, v)
  }

  ghost predicate RowDefined(marginals: map<Value, real>, level: Level, v: Value) {
    forall w :: w in marginals && w != v ==> Delta(level, marginals, v, w).Ok?
  }

  function LevelError(level: Level): Error {
    match level
    case Interval => TypeError
    case Ordinal(Some(_)) => KeyError
    case _ => ValueError
  }

  ghost function Alpha(units: seq<Unit>, level: Level): Result<Option<real>, Error> {
    if units == [] || Total(units) < 2.0 then Ok(None)
    else if level == Unrecognised || level == Ordinal(None) then Err(ValueError)
    else if Raises(Marginals(units), level) then Err(LevelError(level))
    else Ok(AlphaWith(units, Distance(level, Marginals(units))))
  }

  // ---------- the program ----------

  type Dict = map<Value, map<Value, real>>

  function Get(o: Dict, v: Value, w: Value): real {
    if v in o && w in o[v] then o[v][w] else 0.0
  }

  /** `o.setdefault(v, {}).setdefault(w, 0.0)` followed by `o[v][w] += x`. */
  function AddTo(o: Dict, v: Value, w: Value, x: real): (o': Dict)
    ensures forall a, b :: Get(o', a, b) == if a == v && b == w then Get(o, v, w) + x else Get(o, a, b)
  {
    var row := if v in o then o[v] else map[];
    o[v := row[w := Get(o, v, w) + x]]
  }

  lemma ContributionOutside(u: Unit, v: Value, w: Value)
    requires v !in u || w !in u
    ensures Contribution(u, v, w) == 0.0
  {
    if |u| >= 2 {
      var m := |u| - 1;
      assert 0.0 / m as real == 0.0;
      assert u[v] * u[w] == 0;
    }
  }

  method AddRow(o: Dict, u: Unit, values: set<Value>, v: Value) returns (o': Dict)
    requires |u| >= 2 && v in values && values == Support(u)
    ensures forall a, b :: Get(o', a, b) == Get(o, a, b) + if a == v then Contribution(u, v, b) else 0.0
  {
    o' := AddTo(o, v, v, (u[v] * (u[v] as int - 1)) as real / (|u| - 1) as real);
    var todo := values;
    while todo != {}
      invariant todo <= values
      invariant forall a, b ::
                  Get(o', a, b) == Get(o, a, b)
                        + (if a == v && (b == v || b in values - todo) then Contribution(u, v, b) else 0.0)
    {
      var w :| w in todo;
      if w != v {
        o' := AddTo(o', v, w, (u[v] * u[w]) as real / (|u| - 1) as real);
      }
      todo := todo - {w};
    }
    forall b | b !in values ensures Contribution(u, v, b) == 0.0 {
      ContributionOutside(u, v, b);
    }
  }

  method AddUnit(o: Dict, u: Unit) returns (o': Dict)
    requires |u| >= 2
    ensures forall a, b :: Get(o', a, b) == Get(o, a, b) + Contribution(u, a, b)
  {
    var values := set v | v in u;
    var todo := values;
    o' := o;
    while todo != {}
      invariant todo <= values
      invariant forall a, b ::
                  Get(o', a, b) == Get(o, a, b) + (if a in values - todo then Contribution(u, a, b) else 0.0)
    {
      var v :| v in todo;
      o' := AddRow(o', u, values, v);
      todo := todo - {v};
    }
    forall a, b | a !in values ensures Contribution(u, a, b) == 0.0 {
      ContributionOutside(u, a, b);
    }
  }

  ghost predicate Tabulates(o: Dict, units: seq<Unit>) {
    forall v, w :: Get(o, v, w) == Coincidence(units, v, w)
  }

  method CoincidenceMatrix(units: seq<Unit>) returns (o: Dict)
    requires Pairable(units)
    ensures Tabulates(o, units)
  {
    o := map[];
    for k := 0 to |units|
      invariant Tabulates(o, units[..k])
    {
      assert units[..k + 1][..k] == units[..k];
      o := AddUnit(o, units[k]);
    }
    assert units[..|units|] == units;
  }

  method AllValues(units: seq<Unit>) returns (all: set<Value>)
    ensures all == Observed(units)
  {
    all := {};
    for k := 0 to |units|
      invariant all == Observed(units[..k])
    {
      assert units[..k + 1][..k] == units[..k];
      all := all + set v | v in units[k];
    }
    assert units[..|units|] == units;
  }

  method SumRow(all: set<Value>, o: Dict, ghost units: seq<Unit>, v: Value) returns (total: real)
    requires Tabulates(o, units)
    ensures total == SumSet(all, CoincidenceRow(units, v))
  {
    total := 0.0;
    var todo := all;
    while todo != {}
      invariant todo <= all
      invariant total == SumSet(all - todo, CoincidenceRow(units, v))
    {
      var w :| w in todo;
      SumSetTake(all, todo, CoincidenceRow(units, v), w);
      total := total + Get(o, v, w);
      todo := todo - {w};
    }
    assert all - todo == all;
  }

  method MarginalTotals(all: set<Value>, o: Dict, ghost units: seq<Unit>) returns (nV: map<Value, real>)
    requires all == Observed(units) && Tabulates(o, units)
    ensures nV == Marginals(units)
  {
    nV := map[];
    var todo := all;
    while todo != {}
      invariant todo <= all && nV.Keys == all - todo
      invariant forall v :: v in nV ==> nV[v] == RowTotal(units, v)
    {
      var v :| v in todo;
      var total := SumRow(all, o, units, v);
      nV := nV[v := total];
      todo := todo - {v};
    }
  }

  method GrandTotal(all: set<Value>, nV: map<Value, real>, ghost units: seq<Unit>) returns (n: real)
    requires all == Observed(units) && nV == Marginals(units)
    ensures n == Total(units)
  {
    n := 0.0;
    var todo := all;
    while todo != {}
      invariant todo <= all
      invariant n == SumSet(all - todo, RowTotals(units))
    {
      var v :| v in todo;
      SumSetTake(all, todo, RowTotals(units), v);
      n := n + nV[v];
      todo := todo - {v};
    }
    assert all - todo == all;
  }

  /** Where the distance of two values is defined, it is `delta`. */
  ghost predicate Computes(delta: (Value, Value) -> real, level: Level, nV: map<Value, real>) {
    forall v, w {:trigger Delta(level, nV, v, w)} :: Delta(level, nV, v, w).Ok? ==>
          Delta(level, nV, v, w).value == delta(v, w)
  }

  ghost function ObservedCells(o: Dict, delta: (Value, Value) -> real): ((Value, Value)) -> real {
    (p: (Value, Value)) => if p.0 == p.1 then 0.0 else Times(Get(o, p.0, p.1), delta(p.0, p.1))
  }

  ghost function ExpectedCells(nV: map<Value, real>, delta: (Value, Value) -> real): ((Value, Value)) -> real {
    (p: (Value, Value)) =>
      if p.0 == p.1 || p.0 !in nV || p.1 !in nV then 0.0 else Times(Times(nV[p.0], nV[p.1]), delta(p.0, p.1))
  }

  /** The two weighted sums of a double loop, or the error it raised. */
  datatype Disagreement = Sums(observed: real, expected: real) | Raised(error: Error)

  /** One row of the double loop over pairs of values: both weighted sums, or the first error raised. */
  method RowDisagreement(o: Dict, nV: map<Value, real>, level: Level, v: Value, ghost delta: (Value, Value) -> real)
    returns (r: Disagreement)
    requires v in nV && Computes(delta, level, nV)
    ensures r.Raised? ==> Raises(nV, level) && r.error == LevelError(level)
    ensures r.Sums? ==> RowDefined(nV, level, v)
    ensures r.Sums? ==> r.observed == SumSet(Grid({v}, nV.Keys), ObservedCells(o, delta))
    ensures r.Sums? ==> r.expected == SumSet(Grid({v}, nV.Keys), ExpectedCells(nV, delta))
  {
    ghost var fo, fe := CellsOf(ObservedCells(o, delta), v), CellsOf(ExpectedCells(nV, delta), v);
    var so, se := 0.0, 0.0;
    var todo := nV.Keys;
    while todo != {}
      invariant todo <= nV.Keys
      invariant so == SumSet(nV.Keys - todo, fo) && se == SumSet(nV.Keys - todo, fe)
      invariant forall w :: w in nV.Keys - todo && w != v ==> Delta(level, nV, v, w).Ok?
    {
      var w :| w in todo;
      SumSetTake(nV.Keys, todo, fo, w);
      SumSetTake(nV.Keys, todo, fe, w);
      if v != w {
        var d := MeasureDelta(level, nV, v, w);
        if d.Err? {
          ErrorIsLevelError(level, nV, v, w);
          assert !RowDefined(nV, level, v);
          return Raised(d.error);
        }
        so := so + Times(Get(o, v, w), d.value);
        se := se + Times(Times(nV[v], nV[w]), d.value);
      }
      todo := todo - {w};
    }
    assert nV.Keys - todo == nV.Keys;
    SumOfRow(v, nV.Keys, ObservedCells(o, delta));
    SumOfRow(v, nV.Keys, ExpectedCells(nV, delta));
    r := Sums(so, se);
  }

  lemma ErrorIsLevelError(level: Level, nV: map<Value, real>, v: Value, w: Value)
    ensures Delta(level, nV, v, w).Err? ==> Delta(level, nV, v, w).error == LevelError(level)
  {
  }

  method Disagreements(o: Dict, nV: map<Value, real>, level: Level, ghost delta: (Value, Value) -> real)
    returns (r: Disagreement)
    requires Computes(delta, level, nV)
    ensures r.Raised? <==> Raises(nV, level)
    ensures r.Raised? ==> r.error == LevelError(level)
    ensures r.Sums? ==> r.observed == SumSet(Grid(nV.Keys, nV.Keys), ObservedCells(o, delta))
    ensures r.Sums? ==> r.expected == SumSet(Grid(nV.Keys, nV.Keys), ExpectedCells(nV, delta))
  {
    ghost var fo, fe := ObservedCells(o, delta), ExpectedCells(nV, delta);
    var V := nV.Keys;
    var so, se := 0.0, 0.0;
    var todo := V;
    assert Grid(V - todo, V) == {};
    while todo != {}
      invariant todo <= V
      invariant so == SumSet(Grid(V - todo, V), fo) && se == SumSet(Grid(V - todo, V), fe)
      invariant forall v {:trigger RowDefined(nV, level, v)} :: v in V - todo ==> RowDefined(nV, level, v)
    {
      var v :| v in todo;
      var row := RowDisagreement(o, nV, level, v, delta);
      if row.Raised? {
        return row;
      }
      SumGridTake(V, V, todo, v, fo);
      SumGridTake(V, V, todo, v, fe);
      so, se := so + row.observed, se + row.expected;
      todo := todo - {v};
    }
    assert V - todo == V;
    r := Sums(so, se);
  }

  /** The two sums the loops leave determine alpha. */
  lemma AlphaFromSums(o: Dict, units: seq<Unit>, level: Level, r: Disagreement)
    requires Tabulates(o, units) && units != [] && Total(units) >= 2.0
    requires level != Unrecognised && level != Ordinal(None)
    requires r.Raised? <==> Raises(Marginals(units), level)
    requires r.Raised? ==> r.error == LevelError(level)
    requires r.Sums? ==> var V, delta := Observed(units), Distance(level, Marginals(units));
      && r.observed == SumSet(Grid(V, V), ObservedCells(o, delta))
      && r.expected == SumSet(Grid(V, V), ExpectedCells(Marginals(units), delta))
    ensures Alpha(units, level) ==
            if r.Raised? then Err(r.error) else Ok(Chance(Total(units), r.observed, r.expected))
  {
    var V, delta := Observed(units), Distance(level, Marginals(units));
    SumSetCongruent(Grid(V, V), ExpectedCells(Marginals(units), delta), OffDiagonal(ExpectedWeight(units, delta)));
    forall v, w ensures Get(o, v, w) == Coincidence(units, v, w) {
    }
    SumSetCongruent(Grid(V, V), ObservedCells(o, delta), OffDiagonal(ObservedWeight(units, delta)));
  }

  method KrippendorffAlpha(data: Matrix, level: Level) returns (r: Result<Option<real>, Error>)
    requires RowsReach(data)
    ensures r == Alpha(Units(data), level)
  {
    var units := UnitsFromRatersMatrix(data);
    if units == [] {
      return Ok(None);
    }
    var o := CoincidenceMatrix(units);
    var all := AllValues(units);
    var nV := MarginalTotals(all, o, units);
    var n := GrandTotal(all, nV, units);
    if n < 2.0 {
      return Ok(None);
    }
    if level == Unrecognised || level == Ordinal(None) {
      return Err(ValueError);
    }
    var sums := Disagreements(o, nV, level, Distance(level, nV));
    assert nV.Keys == all;
    AlphaFromSums(o, units, level, sums);
    r := if sums.Raised? then Err(sums.error) else Ok(Chance(n, sums.observed, sums.expected));
  }
}
