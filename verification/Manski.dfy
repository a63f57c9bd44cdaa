/** Worst-case and best-case bounds for a score with unscored pairs, and their narrowing by a second panel
    (eval/heldout_unscored.py). */
module Manski {
  import opened Common
  import opened Reals
  import opened LinearAlgebra
  import opened PartialScores

  /** One review of the published artifact: `unresolved_fields` and the as-deployed `field_scores`. */
  datatype Record = Record(id: string, exposed: bool, unresolved: set<string>, scores: map<string, real>)

  /** From (review, field) to the score of the prediction against panel 2's silver value, where panel 2 has one. */
  type Silver = map<(string, string), real>

  datatype Failure = MeanOfNothing

  /** `_published_records`. */
  function Published(records: seq<Record>, excludeExposed: bool): seq<Record> {
    if records == [] then [] else
      (if excludeExposed && records[0].exposed then [] else [records[0]]) + Published(records[1..], excludeExposed)
  }

  /** The next record is published, after the others, unless it is exposed and those are excluded. */
  lemma {:induction false} PublishedNext(records: seq<Record>, r: Record, excludeExposed: bool)
    ensures Published(records + [r], excludeExposed)
         == Published(records, excludeExposed) + if r.exposed && excludeExposed then [] else [r]
  {
    if records == [] {
      assert records + [r] == [r] && [r][1..] == [];
    } else {
      assert (records + [r])[1..] == records[1..] + [r];
      PublishedNext(records[1..], r, excludeExposed);
    }
  }

  /** So each record is published as often as it is listed, an exposed one not at all when those are excluded. */
  lemma {:induction false} PublishedIs(records: seq<Record>, excludeExposed: bool, r: Record)
    ensures multiset(Published(records, excludeExposed))[r]
         == if excludeExposed && r.exposed then 0 else multiset(records)[r]
  {
    if records != [] {
      var n := |records| - 1;
      assert records == records[..n] + [records[n]];
      PublishedIs(records[..n], excludeExposed, r);
      PublishedNext(records[..n], records[n], excludeExposed);
    }
  }

  ghost predicate IsScore(x: real) { 0.0 <= x <= 1.0 }

  /** Every pair has a stored score, and every score is one. */
  ghost predicate Scored(kept: seq<Record>, fields: seq<string>, silver: Silver) {
    && (forall i, j :: 0 <= i < |kept| && 0 <= j < |fields| ==>
          fields[j] in kept[i].scores && IsScore(kept[i].scores[fields[j]]))
    && forall k :: k in silver ==> IsScore(silver[k])
  }

  /** The pair is unscored and panel 2 has no silver value for it either. */
  predicate Unknown(r: Record, f: string, silver: Silver) { f in r.unresolved && (r.id, f) !in silver }

  function KnownScore(r: Record, f: string, silver: Silver): real {
    if f in r.unresolved then (if (r.id, f) in silver then silver[(r.id, f)] else 0.0)
    else if f in r.scores then r.scores[f] else 0.0
  }

  /** The unknown pairs, reviews by fields; with no silver these are panel 1's unscored pairs. */
  function UnknownTable(kept: seq<Record>, fields: seq<string>, silver: Silver): Mat {
    (i, j) => if 0 <= i < |kept| && 0 <= j < |fields| && Unknown(kept[i], fields[j], silver) then 1.0 else 0.0
  }

  function KnownTable(kept: seq<Record>, fields: seq<string>, silver: Silver): Mat {
    (i, j) => if 0 <= i < |kept| && 0 <= j < |fields| then KnownScore(kept[i], fields[j], silver) else 0.0
  }

  lemma TablesArePartial(kept: seq<Record>, fields: seq<string>, silver: Silver)
    requires Scored(kept, fields, silver)
    ensures IsPartial(|kept|, |fields|, KnownTable(kept, fields, silver), UnknownTable(kept, fields, silver))
  {
    forall i, j | 0 <= i < |kept| && 0 <= j < |fields|
      ensures var L, K := KnownTable(kept, fields, silver), UnknownTable(kept, fields, silver);
        (K(i, j) == 0.0 && 0.0 <= L(i, j) <= 1.0) || (K(i, j) == 1.0 && L(i, j) == 0.0)
    {
      assert IsScore(kept[i].scores[fields[j]]);
    }
  }

  /** The overall score when the unknown pairs have the scores `fill`; 0 without reviews. */
  function OverallWith(kept: seq<Record>, fields: seq<string>, silver: Silver, fill: Mat): real
    requires fields != []
  {
    if kept == [] then 0.0 else
      Overall(|kept|, |fields|, Filled(KnownTable(kept, fields, silver), UnknownTable(kept, fields, silver), fill))
  }

  function UnknownShare(kept: seq<Record>, fields: seq<string>, silver: Silver): real
    requires fields != []
  {
    if kept == [] then 0.0 else Overall(|kept|, |fields|, UnknownTable(kept, fields, silver))
  }

  function KnownOnly(kept: seq<Record>, fields: seq<string>, silver: Silver): real {
    MeanOrZero(KnownMeans(|kept|, |fields|, KnownTable(kept, fields, silver), UnknownTable(kept, fields, silver)))
  }

  // ---------- one review ----------

  /** Adding the next known score to a list of known scores. */
  lemma KnownStep(known: seq<real>, x: real, j: nat, l: Vec, k: Vec)
    requires Total(known) == Sum(j, l) && |known| as real == j as real - Sum(j, k)
    requires (x == l(j) && k(j) == 0.0) || (l(j) == 0.0 && k(j) == 1.0)
    ensures var known' := if k(j) == 0.0 then known + [x] else known;
      Total(known') == Sum(j + 1, l) && |known'| as real == (j + 1) as real - Sum(j + 1, k)
  {
    TotalAppend(known, x);
  }

  /** The inner loop of `adjudicated_block`, and with no silver of `unscored_block`: a review's scores in the worst
      and the best case, and those that are known. */
  method ReviewScores(kept: seq<Record>, fields: seq<string>, silver: Silver, i: nat)
    returns (worst: seq<real>, best: seq<real>, known: seq<real>, unscored: nat, resolved: nat)
    requires i < |kept| && Scored(kept, fields, silver)
    ensures var L, K := KnownTable(kept, fields, silver), UnknownTable(kept, fields, silver); var m := |fields|;
      && worst == Prefix(m, Row(Worst(L, K), i)) && best == Prefix(m, Row(Best(L, K), i))
      && Total(known) == Sum(m, Row(L, i)) && |known| as real == KnownCount(m, K, i)
      && unscored as real == Sum(m, Row(UnknownTable(kept, fields, map[]), i))
      && (unscored - resolved) as real == Sum(m, Row(K, i))
  {
    var r := kept[i];
    ghost var L, K := KnownTable(kept, fields, silver), UnknownTable(kept, fields, silver);
    ghost var K1 := UnknownTable(kept, fields, map[]);
    ghost var l, k, w, b := Row(L, i), Row(K, i), Row(Worst(L, K), i), Row(Best(L, K), i);
    worst, best, known, unscored, resolved := [], [], [], 0, 0;
    for j := 0 to |fields|
      invariant worst == Prefix(j, w) && best == Prefix(j, b)
      invariant Total(known) == Sum(j, l) && |known| as real == j as real - Sum(j, k)
      invariant unscored as real == Sum(j, Row(K1, i)) && (unscored - resolved) as real == Sum(j, k)
    {
      var f := fields[j];
      PrefixStep(j, w);
      PrefixStep(j, b);
      if f !in r.unresolved {
        KnownStep(known, r.scores[f], j, l, k);
        worst, best, known := worst + [r.scores[f]], best + [r.scores[f]], known + [r.scores[f]];
      } else {
        unscored := unscored + 1;
        if (r.id, f) in silver {
          var s := silver[(r.id, f)];
          KnownStep(known, s, j, l, k);
          resolved := resolved + 1;
          worst, best, known := worst + [s], best + [s], known + [s];
        } else {
          KnownStep(known, 0.0, j, l, k);
          worst, best := worst + [0.0], best + [1.0];
        }
      }
    }
  }

  // ---------- `unscored_block` ----------

  /** `filled`. */
  method FilledMeans(kept: seq<Record>, fields: seq<string>, fill: real) returns (out: seq<real>)
    requires fields != []
    ensures out == Prefix(|kept|, RowMeans(
      Filled(KnownTable(kept, fields, map[]), UnknownTable(kept, fields, map[]), Constant(fill)), |fields|))
  {
    var M := Filled(KnownTable(kept, fields, map[]), UnknownTable(kept, fields, map[]), Constant(fill));
    out := [];
    for i := 0 to |kept|
      invariant out == Prefix(i, RowMeans(M, |fields|))
    {
      PrefixStep(i, RowMeans(M, |fields|));
      out := out + [Mean(|fields|, Row(M, i))];
    }
  }

  /** The per-review means over scored pairs, of the reviews that have any. */
  method ScoredOnlyMeans(kept: seq<Record>, fields: seq<string>) returns (out: seq<real>)
    requires Scored(kept, fields, map[])
    ensures out == KnownMeans(|kept|, |fields|, KnownTable(kept, fields, map[]), UnknownTable(kept, fields, map[]))
  {
    out := [];
    for i := 0 to |kept|
      invariant out == KnownMeans(i, |fields|, KnownTable(kept, fields, map[]), UnknownTable(kept, fields, map[]))
    {
      var _, _, used, _, _ := ReviewScores(kept, fields, map[], i);
      if used != [] {
        out := out + [Total(used) / |used| as real];
      }
    }
  }

  datatype FieldCell = FieldCell(unscored: nat, fraction: real, scoredOnly: real, lower: real, upper: real)

  /** The column of field j. */
  method FieldColumn(kept: seq<Record>, fields: seq<string>, j: nat) returns (scored: seq<real>, unscored: nat)
    requires j < |fields| && Scored(kept, fields, map[])
    ensures var l, k := Row(Flip(KnownTable(kept, fields, map[])), j), Row(Flip(UnknownTable(kept, fields, map[])), j);
      Total(scored) == Sum(|kept|, l) && |scored| as real == |kept| as real - Sum(|kept|, k)
      && unscored as real == Sum(|kept|, k)
  {
    ghost var l, k := Row(Flip(KnownTable(kept, fields, map[])), j), Row(Flip(UnknownTable(kept, fields, map[])), j);
    scored, unscored := [], 0;
    for i := 0 to |kept|
      invariant Total(scored) == Sum(i, l) && |scored| as real == i as real - Sum(i, k)
      invariant unscored as real == Sum(i, k)
    {
      if fields[j] in kept[i].unresolved {
        KnownStep(scored, 0.0, i, l, k);
        unscored := unscored + 1;
      } else {
        KnownStep(scored, kept[i].scores[fields[j]], i, l, k);
        scored := scored + [kept[i].scores[fields[j]]];
      }
    }
  }

  /** The cell of field j agrees with the tables. */
  ghost predicate IsCellOf(cell: FieldCell, kept: seq<Record>, fields: seq<string>, j: nat)
    requires kept != []
  {
    var L, K := KnownTable(kept, fields, map[]), UnknownTable(kept, fields, map[]);
    && cell.unscored as real == Sum(|kept|, Row(Flip(K), j))
    && cell.fraction == Mean(|kept|, Row(Flip(K), j))
    && cell.scoredOnly == KnownMean(|kept|, Flip(L), Flip(K), j)
    && cell.lower == Mean(|kept|, Row(Flip(Worst(L, K)), j))
    && cell.upper == Mean(|kept|, Row(Flip(Best(L, K)), j))
  }

  lemma {:induction false} ColumnTotals(kept: seq<Record>, fields: seq<string>, j: nat, n: nat)
    requires j < |fields| && n <= |kept| && Scored(kept, fields, map[])
    ensures var L, K := KnownTable(kept, fields, map[]), UnknownTable(kept, fields, map[]);
      && Sum(n, Row(Flip(Worst(L, K)), j)) == Sum(n, Row(Flip(L), j))
      && Sum(n, Row(Flip(Best(L, K)), j)) == Sum(n, Row(Flip(L), j)) + Sum(n, Row(Flip(K), j))
  {
    if n > 0 {
      ColumnTotals(kept, fields, j, n - 1);
    }
  }

  method FieldCellOf(kept: seq<Record>, fields: seq<string>, j: nat) returns (cell: FieldCell)
    requires j < |fields| && Scored(kept, fields, map[])
    ensures kept == [] ==> cell == FieldCell(0, 0.0, 0.0, 0.0, 0.0)
    ensures kept != [] ==> IsCellOf(cell, kept, fields, j)
  {
    var scored, k := FieldColumn(kept, fields, j);
    if kept == [] {
      return FieldCell(0, 0.0, 0.0, 0.0, 0.0);
    }
    ColumnTotals(kept, fields, j, |kept|);
    var n := |kept| as real;
    cell := FieldCell(k, k as real / n, MeanOrZero(scored), Total(scored) / n, (Total(scored) + k as real) / n);
  }

  datatype Block = Block(
    reviews: nat, pairs: nat, unscored: nat, unscoredFraction: real, anyUnscored: nat, everyUnscored: nat,
    perField: seq<FieldCell>, scoredOnly: real, lower: real, upper: real, defaults: real)

  /** Some pair of the review is unscored. */
  predicate SomeUnscored(r: Record, fields: seq<string>) {
    exists j :: 0 <= j < |fields| && fields[j] in r.unresolved
  }

  function Affected(kept: seq<Record>, fields: seq<string>): seq<Record> {
    if kept == [] then [] else
      Affected(kept[..|kept| - 1], fields)
      + if SomeUnscored(kept[|kept| - 1], fields) then [kept[|kept| - 1]] else []
  }

  function Unscored(kept: seq<Record>, fields: seq<string>): seq<Record> {
    if kept == [] then [] else
      Unscored(kept[..|kept| - 1], fields)
      + if AllUnknown(kept[|kept| - 1], fields, map[]) then [kept[|kept| - 1]] else []
  }

  /** How many reviews have any unscored pair, and how many have nothing else. */
  method CountReviews(kept: seq<Record>, fields: seq<string>) returns (any: nat, every: nat)
    ensures any == |Affected(kept, fields)| && every == |Unscored(kept, fields)|
  {
    any, every := 0, 0;
    for i := 0 to |kept|
      invariant any == |Affected(kept[..i], fields)| && every == |Unscored(kept[..i], fields)|
    {
      assert kept[..i + 1][..i] == kept[..i];
      if exists j :: 0 <= j < |fields| && fields[j] in kept[i].unresolved {
        any := any + 1;
      }
      if forall j :: 0 <= j < |fields| ==> fields[j] in kept[i].unresolved {
        every := every + 1;
      }
    }
    assert kept[..|kept|] == kept;
  }

  /** The stored scores, the default of an unscored pair included. */
  function StoredTable(kept: seq<Record>, fields: seq<string>): Mat {
    (i, j) => if 0 <= i < |kept| && 0 <= j < |fields| && fields[j] in kept[i].scores then kept[i].scores[fields[j]]
          else 0.0
  }

  function UnscoredIn(cells: seq<FieldCell>): nat {
    if cells == [] then 0 else UnscoredIn(cells[..|cells| - 1]) + cells[|cells| - 1].unscored
  }

  /** The block's figures are the ones the tables determine. */
  ghost predicate IsBlockOf(b: Block, kept: seq<Record>, fields: seq<string>)
    requires fields != []
  {
    && b.reviews == |kept| && b.pairs == |kept| * |fields| && |b.perField| == |fields|
    && (kept != [] ==> forall j :: 0 <= j < |fields| ==> IsCellOf(b.perField[j], kept, fields, j))
    && b.unscored == UnscoredIn(b.perField)
    && b.anyUnscored == |Affected(kept, fields)| && b.everyUnscored == |Unscored(kept, fields)|
    && b.unscoredFraction == UnknownShare(kept, fields, map[])
    && b.scoredOnly == KnownOnly(kept, fields, map[])
    && b.lower == OverallWith(kept, fields, map[], Constant(0.0))
    && b.upper == OverallWith(kept, fields, map[], Constant(1.0))
    && b.defaults == OverallWith(kept, fields, map[], StoredTable(kept, fields))
  }

  lemma {:induction false} UnscoredTotal(kept: seq<Record>, fields: seq<string>, cells: seq<FieldCell>)
    requires kept != [] && |cells| <= |fields|
    requires forall j :: 0 <= j < |cells| ==> IsCellOf(cells[j], kept, fields, j)
    ensures UnscoredIn(cells) as real == Sum(|cells|, RowSums(Flip(UnknownTable(kept, fields, map[])), |kept|))
  {
    if cells != [] {
      var n := |cells| - 1;
      UnscoredTotal(kept, fields, cells[..n]);
      assert IsCellOf(cells[n], kept, fields, n);
    }
  }

  /** The counted fraction is the share of unknown pairs. */
  lemma UnscoredFraction(kept: seq<Record>, fields: seq<string>, unscored: nat)
    requires kept != [] && fields != []
    requires unscored as real == Sum(|fields|, RowSums(Flip(UnknownTable(kept, fields, map[])), |kept|))
    ensures |kept| * |fields| > 0 && unscored as real / (|kept| * |fields|) as real == UnknownShare(kept, fields, map[])
  {
    var n, m, K := |kept|, |fields|, UnknownTable(kept, fields, map[]);
    SumSwap(n, m, K);
    CountOverPairs(n, m, K, unscored);
  }

  /** Dividing the sum of all cells by their number. */
  lemma CountOverPairs(n: nat, m: nat, K: Mat, total: int)
    requires n > 0 && m > 0 && total as real == Sum(n, RowSums(K, m))
    ensures n * m > 0 && total as real / (n * m) as real == Overall(n, m, K)
  {
    OverallTimes(n, m, K);
    TimesAssociates(n as real, m as real, Overall(n, m, K));
    RealProduct(n, m);
    TimesPositive(n as real, m as real);
    QuotientIs(total as real, (n * m) as real, Overall(n, m, K));
  }

  /** `unscored_block`; it raises exactly when there are reviews but no fields to average. */
  method UnscoredBlock(records: seq<Record>, fields: seq<string>, excludeExposed: bool)
    returns (r: Result<Block, Failure>)
    requires Distinct(fields) && Scored(Published(records, excludeExposed), fields, map[])
    ensures r.Err? <==> Published(records, excludeExposed) != [] && fields == []
    ensures r.Ok? && fields != [] ==> IsBlockOf(r.value, Published(records, excludeExposed), fields)
  {
    var kept := Published(records, excludeExposed);
    if fields == [] {
      return if kept == [] then Ok(Block(0, 0, 0, 0.0, 0, 0, [], 0.0, 0.0, 0.0, 0.0)) else Err(MeanOfNothing);
    }
    var n, m := |kept|, |fields|;
    var perField: seq<FieldCell> := [];
    var unscored := 0;
    for j := 0 to m
      invariant |perField| == j && unscored == UnscoredIn(perField)
      invariant kept != [] ==> forall i :: 0 <= i < j ==> IsCellOf(perField[i], kept, fields, i)
    {
      var cell := FieldCellOf(kept, fields, j);
      assert (perField + [cell])[..j] == perField;
      perField, unscored := perField + [cell], unscored + cell.unscored;
    }
    var lowers := FilledMeans(kept, fields, 0.0);
    var uppers := FilledMeans(kept, fields, 1.0);
    var used := ScoredOnlyMeans(kept, fields);
    var defaults := StoredMeans(kept, fields);
    var any, every := CountReviews(kept, fields);
    if kept == [] {
      return Ok(Block(0, 0, unscored, 0.0, any, every, perField,
                      MeanOrZero(used), MeanOrZero(lowers), MeanOrZero(uppers), MeanOrZero(defaults)));
    }
    UnscoredTotal(kept, fields, perField);
    UnscoredFraction(kept, fields, unscored);
    BlockMeans(kept, fields, 0.0, lowers);
    BlockMeans(kept, fields, 1.0, uppers);
    StoredMeansAre(kept, fields, defaults);
    r := Ok(Block(n, n * m, unscored, unscored as real / (n * m) as real, any, every, perField,
                  MeanOrZero(used), MeanOrZero(lowers), MeanOrZero(uppers), MeanOrZero(defaults)));
  }

  /** `defaults_as_labels`. */
  method StoredMeans(kept: seq<Record>, fields: seq<string>) returns (out: seq<real>)
    requires fields != []
    ensures out == Prefix(|kept|, RowMeans(StoredTable(kept, fields), |fields|))
  {
    var M := StoredTable(kept, fields);
    out := [];
    for i := 0 to |kept|
      invariant out == Prefix(i, RowMeans(M, |fields|))
    {
      PrefixStep(i, RowMeans(M, |fields|));
      out := out + [Mean(|fields|, Row(M, i))];
    }
  }

  lemma BlockMeans(kept: seq<Record>, fields: seq<string>, fill: real, out: seq<real>)
    requires kept != [] && fields != []
    requires out == Prefix(|kept|, RowMeans(
      Filled(KnownTable(kept, fields, map[]), UnknownTable(kept, fields, map[]), Constant(fill)), |fields|))
    ensures MeanOrZero(out) == OverallWith(kept, fields, map[], Constant(fill))
  {
    MeanOfPrefix(|kept|, RowMeans(
      Filled(KnownTable(kept, fields, map[]), UnknownTable(kept, fields, map[]), Constant(fill)), |fields|));
  }

  lemma StoredMeansAre(kept: seq<Record>, fields: seq<string>, out: seq<real>)
    requires kept != [] && fields != [] && Scored(kept, fields, map[])
    requires out == Prefix(|kept|, RowMeans(StoredTable(kept, fields), |fields|))
    ensures MeanOrZero(out) == OverallWith(kept, fields, map[], StoredTable(kept, fields))
  {
    var n, m, M := |kept|, |fields|, StoredTable(kept, fields);
    var F := Filled(KnownTable(kept, fields, map[]), UnknownTable(kept, fields, map[]), M);
    MeanOfPrefix(n, RowMeans(M, m));
    forall i, j | 0 <= i < n && 0 <= j < m
      ensures M(i, j) <= F(i, j) && F(i, j) <= M(i, j)
    {
    }
    OverallAtMost(n, m, M, F);
    OverallAtMost(n, m, F, M);
  }

  // ---------- `adjudicated_block` ----------

  datatype Adjudicated = Adjudicated(
    pairs: nat, unscored: nat, resolved: nat, resolvedFraction: real, stillUnresolvedFraction: real,
    perField: seq<FieldAdjudication>, lower: real, upper: real, point: real)

  /** Of one field: the unscored pairs, those that panel 2 resolved, and the mean score on the latter. */
  datatype FieldAdjudication = FieldAdjudication(unscored: nat, resolved: nat, score: Option<real>)

  /** The scores against silver on the pairs that panel 1 left unresolved and panel 2 resolved. */
  function SilverScores(kept: seq<Record>, f: string, silver: Silver): seq<real> {
    if kept == [] then [] else
      var r := kept[|kept| - 1];
      SilverScores(kept[..|kept| - 1], f, silver)
      + if f in r.unresolved && (r.id, f) in silver then [silver[(r.id, f)]] else []
  }

  /** The field's counts agree with the tables, and its score is the mean of the silver scores. */
  ghost predicate IsAdjudicationOfField(x: FieldAdjudication, kept: seq<Record>, fields: seq<string>, silver: Silver,
        j: nat)
    requires j < |fields|
  {
    var scores := SilverScores(kept, fields[j], silver);
    && x.unscored as real == Sum(|kept|, Row(Flip(UnknownTable(kept, fields, map[])), j))
    && x.resolved == |scores|
    && (x.unscored - x.resolved) as real == Sum(|kept|, Row(Flip(UnknownTable(kept, fields, silver)), j))
    && x.score == if scores == [] then None else Some(MeanOrZero(scores))
  }

  method AdjudicateField(kept: seq<Record>, fields: seq<string>, silver: Silver, j: nat) returns (x: FieldAdjudication)
    requires j < |fields|
    ensures IsAdjudicationOfField(x, kept, fields, silver, j)
  {
    var scores: seq<real>, unscored: nat := [], 0;
    for i := 0 to |kept|
      invariant scores == SilverScores(kept[..i], fields[j], silver) && |scores| <= unscored
      invariant unscored as real == Sum(i, Row(Flip(UnknownTable(kept, fields, map[])), j))
      invariant (unscored - |scores|) as real == Sum(i, Row(Flip(UnknownTable(kept, fields, silver)), j))
    {
      var r, f := kept[i], fields[j];
      assert kept[..i + 1][..i] == kept[..i];
      if f in r.unresolved {
        unscored := unscored + 1;
        if (r.id, f) in silver {
          scores := scores + [silver[(r.id, f)]];
        }
      }
    }
    assert kept[..|kept|] == kept;
    x := FieldAdjudication(unscored, |scores|, if scores == [] then None else Some(MeanOrZero(scores)));
  }

  method AdjudicateFields(kept: seq<Record>, fields: seq<string>, silver: Silver) returns (r: seq<FieldAdjudication>)
    ensures |r| == |fields|
    ensures forall j :: 0 <= j < |r| ==> IsAdjudicationOfField(r[j], kept, fields, silver, j) == true
  {
    r := [];
    for j := 0 to |fields|
      invariant |r| == j && forall k :: 0 <= k < j ==> IsAdjudicationOfField(r[k], kept, fields, silver, k) == true
    {
      var x := AdjudicateField(kept, fields, silver, j);
      r := r + [x];
    }
  }

  /** Every field of some kept review is unresolved by both panels. */
  ghost predicate SomeReviewUnknown(kept: seq<Record>, fields: seq<string>, silver: Silver) {
    exists r :: r in kept && AllUnknown(r, fields, silver)
  }

  predicate AllUnknown(r: Record, fields: seq<string>, silver: Silver) {
    forall j :: 0 <= j < |fields| ==> Unknown(r, fields[j], silver)
  }

  /** The figures of the second panel are the ones the narrowed tables determine. */
  ghost predicate IsAdjudicationOf(a: Adjudicated, kept: seq<Record>, fields: seq<string>, silver: Silver)
    requires fields != []
  {
    && a.pairs == |kept| * |fields|
    && a.unscored as real == Sum(|kept|, RowSums(UnknownTable(kept, fields, map[]), |fields|))
    && (a.unscored - a.resolved) as real == Sum(|kept|, RowSums(UnknownTable(kept, fields, silver), |fields|))
    && a.resolvedFraction == (if a.unscored == 0 then 0.0 else a.resolved as real / a.unscored as real)
    && a.stillUnresolvedFraction == UnknownShare(kept, fields, silver)
    && |a.perField| == |fields|
    && (forall j :: 0 <= j < |fields| ==> IsAdjudicationOfField(a.perField[j], kept, fields, silver, j))
    && a.lower == OverallWith(kept, fields, silver, Constant(0.0))
    && a.upper == OverallWith(kept, fields, silver, Constant(1.0))
    && a.point == KnownOnly(kept, fields, silver)
  }

  lemma AllReviewsSeen(kept: seq<Record>, fields: seq<string>, silver: Silver, i: nat)
    requires i == |kept|
    ensures SomeReviewUnknown(kept[..i], fields, silver) <==> SomeReviewUnknown(kept, fields, silver)
  {
    assert kept[..i] == kept;
  }

  lemma SomeUnknownStep(kept: seq<Record>, fields: seq<string>, silver: Silver, i: nat)
    requires i < |kept|
    ensures SomeReviewUnknown(kept[..i + 1], fields, silver)
            <==> SomeReviewUnknown(kept[..i], fields, silver) || AllUnknown(kept[i], fields, silver)
    ensures AllUnknown(kept[i], fields, silver) ==> SomeReviewUnknown(kept, fields, silver)
  {
    assert kept[..i + 1] == kept[..i] + [kept[i]];
    assert kept[i] in kept;
  }

  lemma {:induction false} CountUnknown(kept: seq<Record>, fields: seq<string>, silver: Silver, i: nat, m: nat)
    requires i < |kept| && m <= |fields|
    ensures var k := Sum(m, Row(UnknownTable(kept, fields, silver), i));
      k <= m as real && (k == m as real <==> forall j :: 0 <= j < m ==> Unknown(kept[i], fields[j], silver))
  {
    if m > 0 {
      CountUnknown(kept, fields, silver, i, m - 1);
    }
  }

  /** A review has no known pair exactly when both panels left every field of it unresolved. */
  lemma NothingKnownIff(kept: seq<Record>, fields: seq<string>, silver: Silver, i: nat)
    requires i < |kept|
    ensures KnownCount(|fields|, UnknownTable(kept, fields, silver), i) == 0.0 <==> AllUnknown(kept[i], fields, silver)
  {
    CountUnknown(kept, fields, silver, i, |fields|);
  }

  /** The review's mean in the worst case, in the best case and over its known pairs. */
  ghost predicate AreMeansOf(means: (real, real, real), kept: seq<Record>, fields: seq<string>, silver: Silver, i: nat)
    requires fields != []
  {
    var L, K := KnownTable(kept, fields, silver), UnknownTable(kept, fields, silver); var m := |fields|;
    && KnownCount(m, K, i) != 0.0
    && means == (RowMeans(Worst(L, K), m)(i), RowMeans(Best(L, K), m)(i), KnownMean(m, L, K, i))
  }

  /** One review of `adjudicated_block`: its three means and its counts, unless it has no known pair to average. */
  method ReviewMeansOf(kept: seq<Record>, fields: seq<string>, silver: Silver, i: nat)
    returns (r: Option<(real, real, real)>, unscored: nat, resolved: nat)
    requires i < |kept| && Scored(kept, fields, silver)
    ensures r.None? <==> AllUnknown(kept[i], fields, silver)
    ensures unscored as real == Sum(|fields|, Row(UnknownTable(kept, fields, map[]), i))
    ensures (unscored - resolved) as real == Sum(|fields|, Row(UnknownTable(kept, fields, silver), i))
    ensures r.Some? ==> fields != [] && AreMeansOf(r.value, kept, fields, silver, i)
  {
    var worst, best, known, u, s := ReviewScores(kept, fields, silver, i);
    ghost var L, K := KnownTable(kept, fields, silver), UnknownTable(kept, fields, silver);
    unscored, resolved := u, s;
    NothingKnownIff(kept, fields, silver, i);
    if known == [] {
      return None, unscored, resolved;
    }
    CountUnknown(kept, fields, silver, i, |fields|);
    TotalPrefix(|fields|, Row(Worst(L, K), i));
    TotalPrefix(|fields|, Row(Best(L, K), i));
    r := Some((Total(worst) / |worst| as real, Total(best) / |best| as real, Total(known) / |known| as real));
  }

  datatype Lists = Lists(lower: seq<real>, upper: seq<real>, point: seq<real>, unscored: nat, resolved: nat)

  ghost predicate ListsOf(x: Lists, i: nat, worst: Vec, best: Vec, known: seq<real>, unscored: Vec, unknown: Vec) {
    && x.lower == Prefix(i, worst) && x.upper == Prefix(i, best) && x.point == known
    && x.unscored as real == Sum(i, unscored)
    && (x.unscored - x.resolved) as real == Sum(i, unknown)
  }

  /** The lists and counters of `adjudicated_block` after the first i reviews. */
  ghost predicate ListsAfter(x: Lists, i: nat, kept: seq<Record>, fields: seq<string>, silver: Silver)
    requires fields != []
  {
    var L, K := KnownTable(kept, fields, silver), UnknownTable(kept, fields, silver); var m := |fields|;
    ListsOf(x, i, RowMeans(Worst(L, K), m), RowMeans(Best(L, K), m), KnownMeans(i, m, L, K),
            RowSums(UnknownTable(kept, fields, map[]), m), RowSums(K, m))
  }

  function Extended(x: Lists, lo: real, up: real, pt: real, u: nat, s: nat): Lists {
    Lists(x.lower + [lo], x.upper + [up], x.point + [pt], x.unscored + u, x.resolved + s)
  }

  lemma ListsStep(x: Lists, i: nat, worst: Vec, best: Vec, known: seq<real>, unscored: Vec, unknown: Vec,
                  pt: real, u: nat, s: nat)
    requires ListsOf(x, i, worst, best, known, unscored, unknown)
    requires u as real == unscored(i) && (u - s) as real == unknown(i)
    ensures ListsOf(Extended(x, worst(i), best(i), pt, u, s), i + 1, worst, best, known + [pt], unscored, unknown)
  {
    PrefixStep(i, worst);
    PrefixStep(i, best);
  }

  lemma NextReview(x: Lists, i: nat, kept: seq<Record>, fields: seq<string>, silver: Silver,
                   means: (real, real, real), u: nat, s: nat)
    requires fields != [] && i < |kept| && ListsAfter(x, i, kept, fields, silver)
    requires u as real == Sum(|fields|, Row(UnknownTable(kept, fields, map[]), i))
    requires (u - s) as real == Sum(|fields|, Row(UnknownTable(kept, fields, silver), i))
    requires AreMeansOf(means, kept, fields, silver, i)
    ensures ListsAfter(Extended(x, means.0, means.1, means.2, u, s), i + 1, kept, fields, silver)
  {
    var L, K := KnownTable(kept, fields, silver), UnknownTable(kept, fields, silver); var m := |fields|;
    ListsStep(x, i, RowMeans(Worst(L, K), m), RowMeans(Best(L, K), m), KnownMeans(i, m, L, K),
              RowSums(UnknownTable(kept, fields, map[]), m), RowSums(K, m), means.2, u, s);
  }

  method NextLists(x: Lists, i: nat, kept: seq<Record>, fields: seq<string>, silver: Silver) returns (r: Option<Lists>)
    requires i < |kept| && Scored(kept, fields, silver) && (fields != [] ==> ListsAfter(x, i, kept, fields, silver))
    ensures r.None? <==> AllUnknown(kept[i], fields, silver)
    ensures r.Some? ==> fields != [] && ListsAfter(r.value, i + 1, kept, fields, silver)
  {
    var means, u, s := ReviewMeansOf(kept, fields, silver, i);
    if means.None? {
      return None;
    }
    NextReview(x, i, kept, fields, silver, means.value, u, s);
    r := Some(Extended(x, means.value.0, means.value.1, means.value.2, u, s));
  }

  /** The loop over the reviews. */
  method AdjudicationLists(kept: seq<Record>, fields: seq<string>, silver: Silver) returns (r: Result<Lists, Failure>)
    requires Scored(kept, fields, silver)
    ensures r.Err? <==> SomeReviewUnknown(kept, fields, silver)
    ensures r.Ok? && kept != [] ==> fields != []
    ensures r.Ok? && fields != [] ==> ListsAfter(r.value, |kept|, kept, fields, silver)
  {
    var x := Lists([], [], [], 0, 0);
    for i := 0 to |kept|
      invariant fields == [] ==> i == 0
      invariant !SomeReviewUnknown(kept[..i], fields, silver)
      // == true keeps the predicate folded
      invariant fields != [] ==> ListsAfter(x, i, kept, fields, silver) == true
    {
      var next := NextLists(x, i, kept, fields, silver);
      SomeUnknownStep(kept, fields, silver, i);
      if next.None? {
        return Err(MeanOfNothing);
      }
      x := next.value;
    }
    AllReviewsSeen(kept, fields, silver, |kept|);
    r := Ok(x);
  }

  /** `adjudicated_block`: the mean of the known pairs of a review has nothing to average, and raises, exactly when
      some kept review has every field unresolved by both panels. */
  method AdjudicatedBlock(records: seq<Record>, fields: seq<string>, silver: Silver, excludeExposed: bool)
    returns (r: Result<Adjudicated, Failure>)
    requires Distinct(fields) && Scored(Published(records, excludeExposed), fields, silver)
    ensures r.Err? <==> SomeReviewUnknown(Published(records, excludeExposed), fields, silver)
    ensures r.Ok? && fields != [] ==> IsAdjudicationOf(r.value, Published(records, excludeExposed), fields, silver)
  {
    var kept := Published(records, excludeExposed);
    var lists := AdjudicationLists(kept, fields, silver);
    if lists.Err? {
      return Err(lists.error);
    }
    var perField := AdjudicateFields(kept, fields, silver);
    if kept == [] {
      return Ok(Adjudicated(0, 0, 0, 0.0, 0.0, perField, 0.0, 0.0, 0.0));
    }
    Figures(lists.value, perField, kept, fields, silver);
    r := Ok(FiguresOf(lists.value, perField, |kept|, |fields|));
  }

  function FiguresOf(x: Lists, perField: seq<FieldAdjudication>, n: nat, m: nat): Adjudicated
    requires n > 0 && m > 0
  {
    TimesPositive(n as real, m as real);
    RealProduct(n, m);
    var share := if x.unscored == 0 then 0.0 else x.resolved as real / x.unscored as real;
    Adjudicated(n * m, x.unscored, x.resolved, share, (x.unscored - x.resolved) as real / (n * m) as real,
                perField, MeanOrZero(x.lower), MeanOrZero(x.upper), MeanOrZero(x.point))
  }

  lemma Figures(x: Lists, perField: seq<FieldAdjudication>, kept: seq<Record>, fields: seq<string>, silver: Silver)
    requires kept != [] && fields != [] && ListsAfter(x, |kept|, kept, fields, silver) && |perField| == |fields|
    requires forall j :: 0 <= j < |fields| ==> IsAdjudicationOfField(perField[j], kept, fields, silver, j)
    ensures IsAdjudicationOf(FiguresOf(x, perField, |kept|, |fields|), kept, fields, silver) == true
  {
    var n, m := |kept|, |fields|;
    var L, K := KnownTable(kept, fields, silver), UnknownTable(kept, fields, silver);
    MeanOfPrefix(n, RowMeans(Worst(L, K), m));
    MeanOfPrefix(n, RowMeans(Best(L, K), m));
    CountOverPairs(n, m, K, x.unscored - x.resolved);
  }

  // ---------- what the bounds mean ----------

  /** For every assignment of true scores to the unscored pairs the overall score lies within the published bounds;
      so do the scored-only figure and the defaults taken as labels. */
  lemma BoundsAreValid(b: Block, kept: seq<Record>, fields: seq<string>, truth: Mat)
    requires fields != [] && Scored(kept, fields, map[]) && IsBlockOf(b, kept, fields)
    requires AreScores(|kept|, |fields|, truth)
    ensures b.lower <= OverallWith(kept, fields, map[], truth) <= b.upper
    ensures b.lower <= b.scoredOnly <= b.upper
    ensures b.lower <= b.defaults <= b.upper
  {
    var n, m := |kept|, |fields|;
    var L, K := KnownTable(kept, fields, map[]), UnknownTable(kept, fields, map[]);
    if kept != [] {
      TablesArePartial(kept, fields, map[]);
      BoundsHold(n, m, L, K, truth);
      KnownOnlyInside(n, m, L, K);
      forall i, j | 0 <= i < n && 0 <= j < m
        ensures 0.0 <= StoredTable(kept, fields)(i, j) <= 1.0
      {
        assert IsScore(kept[i].scores[fields[j]]);
      }
      BoundsHold(n, m, L, K, StoredTable(kept, fields));
    }
  }

  /** The bounds are as wide as the unscored fraction, and every value between them is reached. */
  lemma BoundsAreSharp(b: Block, kept: seq<Record>, fields: seq<string>, v: real) returns (c: real)
    requires fields != [] && Scored(kept, fields, map[]) && IsBlockOf(b, kept, fields) && b.lower <= v <= b.upper
    ensures b.upper - b.lower == b.unscoredFraction
    ensures 0.0 <= c <= 1.0 && OverallWith(kept, fields, map[], Constant(c)) == v
  {
    c := 0.0;
    if kept != [] {
      TablesArePartial(kept, fields, map[]);
      var L, K := KnownTable(kept, fields, map[]), UnknownTable(kept, fields, map[]);
      WidthIsUnknownShare(|kept|, |fields|, L, K);
      c := BoundsSharp(|kept|, |fields|, L, K, v);
    }
  }

  function Lowers(cells: seq<FieldCell>): Vec { j => if 0 <= j < |cells| then cells[j].lower else 0.0 }

  function Uppers(cells: seq<FieldCell>): Vec { j => if 0 <= j < |cells| then cells[j].upper else 0.0 }

  /** The overall bounds are the averages of the per-field bounds. */
  lemma BoundsAverageFields(b: Block, kept: seq<Record>, fields: seq<string>)
    requires fields != [] && kept != [] && Scored(kept, fields, map[]) && IsBlockOf(b, kept, fields)
    ensures b.lower == Mean(|fields|, Lowers(b.perField)) && b.upper == Mean(|fields|, Uppers(b.perField))
  {
    var n, m := |kept|, |fields|;
    var L, K := KnownTable(kept, fields, map[]), UnknownTable(kept, fields, map[]);
    OverallByColumns(n, m, Worst(L, K));
    OverallByColumns(n, m, Best(L, K));
    forall j | 0 <= j < m
      ensures Lowers(b.perField)(j) == RowMeans(Flip(Worst(L, K)), n)(j)
      ensures Uppers(b.perField)(j) == RowMeans(Flip(Best(L, K)), n)(j)
    {
      assert IsCellOf(b.perField[j], kept, fields, j);
    }
    SumSame(m, Lowers(b.perField), RowMeans(Flip(Worst(L, K)), n));
    SumSame(m, Uppers(b.perField), RowMeans(Flip(Best(L, K)), n));
  }

  /** A field's scored-only figure lies within its bounds when any of its pairs is scored. */
  lemma FieldScoredOnlyInside(b: Block, kept: seq<Record>, fields: seq<string>, j: nat)
    requires j < |fields| && kept != [] && Scored(kept, fields, map[]) && IsBlockOf(b, kept, fields)
    requires b.perField[j].unscored != |kept|
    ensures b.perField[j].lower <= b.perField[j].scoredOnly <= b.perField[j].upper
  {
    var L, K := KnownTable(kept, fields, map[]), UnknownTable(kept, fields, map[]);
    TablesArePartial(kept, fields, map[]);
    assert IsCellOf(b.perField[j], kept, fields, j);
    var n := |kept|;
    assert IsPartial(|fields|, n, Flip(L), Flip(K));
    KnownMeanBetween(|fields|, n, Flip(L), Flip(K), j);
    SumSame(n, Row(Flip(Worst(L, K)), j), Row(Worst(Flip(L), Flip(K)), j));
    SumSame(n, Row(Flip(Best(L, K)), j), Row(Best(Flip(L), Flip(K)), j));
  }

  /** The second panel's interval is nested in the published one, as wide as the fraction still unresolved, and holds
      the silver estimate. */
  lemma SecondPanelNarrows(a: Adjudicated, b: Block, kept: seq<Record>, fields: seq<string>, silver: Silver)
    requires fields != [] && Scored(kept, fields, silver)
    requires IsBlockOf(b, kept, fields) && IsAdjudicationOf(a, kept, fields, silver)
    ensures b.lower <= a.lower <= a.point <= a.upper <= b.upper
    ensures a.upper - a.lower == a.stillUnresolvedFraction
  {
    if kept != [] {
      var n, m := |kept|, |fields|;
      var L, K := KnownTable(kept, fields, map[]), UnknownTable(kept, fields, map[]);
      var L', K' := KnownTable(kept, fields, silver), UnknownTable(kept, fields, silver);
      TablesArePartial(kept, fields, map[]);
      TablesArePartial(kept, fields, silver);
      KnowingMoreNarrows(n, m, L, K, L', K');
      KnownOnlyInside(n, m, L', K');
      WidthIsUnknownShare(n, m, L', K');
    }
  }

  // ---------- `judge_sensitivity` ----------

  /** judges[k](i, j) is the prediction's score on pair (i, j) against judge k's vote. */
  function VotesOn(judges: seq<Mat>, i: int, j: int, sign: real): Vec {
    k => if 0 <= k < |judges| then Times(sign, judges[k](i, j)) else 0.0
  }

  /** The per-pair minimum over the judges. */
  function LowestVotes(judges: seq<Mat>): Mat
    requires judges != []
  {
    (i, j) => MinOver(|judges|, VotesOn(judges, i, j, 1.0))
  }

  /** The per-pair maximum over the judges. */
  function HighestVotes(judges: seq<Mat>): Mat
    requires judges != []
  {
    (i, j) => -MinOver(|judges|, VotesOn(judges, i, j, -1.0))
  }

  /** On every pair the score against the judge that is picked for it. */
  function Picked(judges: seq<Mat>, pick: (int, int) -> int): Mat {
    (i, j) => if 0 <= pick(i, j) < |judges| then judges[pick(i, j)](i, j) else 0.0
  }

  /** The envelope over the judges lies within the published bounds and holds the score against every single judge,
      and against any mixture that picks one judge per pair. */
  lemma EnvelopeInside(b: Block, kept: seq<Record>, fields: seq<string>, judges: seq<Mat>, pick: (int, int) -> int)
    requires fields != [] && Scored(kept, fields, map[]) && IsBlockOf(b, kept, fields) && judges != []
    requires forall k :: 0 <= k < |judges| ==> AreScores(|kept|, |fields|, judges[k])
    requires forall i, j :: 0 <= i < |kept| && 0 <= j < |fields| ==> 0 <= pick(i, j) < |judges|
    ensures b.lower <= OverallWith(kept, fields, map[], LowestVotes(judges))
      <= OverallWith(kept, fields, map[], Picked(judges, pick))
      <= OverallWith(kept, fields, map[], HighestVotes(judges)) <= b.upper
  {
    var n, m := |kept|, |fields|;
    var picked := Picked(judges, pick);
    var low, high := LowestVotes(judges), HighestVotes(judges);
    if kept != [] {
      forall i, j | 0 <= i < n && 0 <= j < m
        ensures 0.0 <= low(i, j) <= picked(i, j) <= high(i, j) <= 1.0
      {
        VotesBetween(judges, i, j, pick(i, j), n, m);
      }
      var L, K := KnownTable(kept, fields, map[]), UnknownTable(kept, fields, map[]);
      BoundsHold(n, m, L, K, low);
      BoundsHold(n, m, L, K, high);
      OverallAtMost(n, m, Filled(L, K, low), Filled(L, K, picked));
      OverallAtMost(n, m, Filled(L, K, picked), Filled(L, K, high));
    }
  }

  lemma VotesBetween(judges: seq<Mat>, i: int, j: int, k: int, n: nat, m: nat)
    requires 0 <= k < |judges| && 0 <= i < n && 0 <= j < m
    requires forall k :: 0 <= k < |judges| ==> AreScores(n, m, judges[k])
    ensures 0.0 <= LowestVotes(judges)(i, j) <= judges[k](i, j) <= HighestVotes(judges)(i, j) <= 1.0
  {
    var up, down := VotesOn(judges, i, j, 1.0), VotesOn(judges, i, j, -1.0);
    MinOverIs(|judges|, up);
    MinOverIs(|judges|, down);
    forall c | 0 <= c < |judges|
      ensures up(c) == judges[c](i, j) && down(c) == -judges[c](i, j) && 0.0 <= judges[c](i, j) <= 1.0
    {
      assert AreScores(n, m, judges[c]);
    }
    assert MinOver(|judges|, up) <= up(k) && MinOver(|judges|, down) <= down(k);
  }
}
