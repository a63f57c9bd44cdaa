/**
 What the intervals of eval/heldout_unscored.py say about the true scores: each is exactly the set of overall scores
 that the true scores of all pairs could have, given what is known of them.
 */
module Truths {
  import opened Common
  import opened Reals
  import opened LinearAlgebra
  import opened PartialScores
  import opened Manski
  import opened JudgeSensitivity

  /** Scores in [0, 1] of all pairs that keep the stored score where the first panel resolved the pair, and the score
      against the second panel's value where only that one did. */
  ghost predicate CouldBe(truth: Mat, kept: seq<Record>, fields: seq<string>, silver: Silver) {
    forall i, j :: 0 <= i < |kept| && 0 <= j < |fields| ==>
      CellCouldBe(truth(i, j), kept[i], fields[j], silver) == true
  }

  ghost predicate CellCouldBe(x: real, r: Record, f: string, silver: Silver) {
    && 0.0 <= x <= 1.0
    && (f !in r.unresolved ==> f in r.scores && x == r.scores[f])
    && (f in r.unresolved && (r.id, f) in silver ==> x == silver[(r.id, f)])
  }

  /** The tables with the unknown pairs filled in from `fill`. */
  function FilledIn(kept: seq<Record>, fields: seq<string>, silver: Silver, fill: Mat): Mat {
    Filled(KnownTable(kept, fields, silver), UnknownTable(kept, fields, silver), fill)
  }

  lemma FillCouldBe(kept: seq<Record>, fields: seq<string>, silver: Silver, fill: Mat)
    requires Scored(kept, fields, silver) && AreScores(|kept|, |fields|, fill)
    ensures CouldBe(FilledIn(kept, fields, silver, fill), kept, fields, silver)
  {
    forall i, j | 0 <= i < |kept| && 0 <= j < |fields|
      ensures CellCouldBe(FilledIn(kept, fields, silver, fill)(i, j), kept[i], fields[j], silver)
    {
      assert IsScore(kept[i].scores[fields[j]]);
    }
  }

  lemma TruthFillsIn(truth: Mat, kept: seq<Record>, fields: seq<string>, silver: Silver)
    requires CouldBe(truth, kept, fields, silver)
    ensures forall i, j :: 0 <= i < |kept| && 0 <= j < |fields| ==>
              FilledIn(kept, fields, silver, truth)(i, j) == truth(i, j)
  {
    forall i, j | 0 <= i < |kept| && 0 <= j < |fields|
      ensures FilledIn(kept, fields, silver, truth)(i, j) == truth(i, j)
    {
      assert CellCouldBe(truth(i, j), kept[i], fields[j], silver);
    }
  }

  lemma SameOverall(n: nat, m: nat, M: Mat, M': Mat)
    requires n > 0 && m > 0 && forall i, j :: 0 <= i < n && 0 <= j < m ==> M(i, j) == M'(i, j)
    ensures Overall(n, m, M) == Overall(n, m, M')
  {
    OverallAtMost(n, m, M, M');
    OverallAtMost(n, m, M', M);
  }

  lemma OverallOfTruth(truth: Mat, kept: seq<Record>, fields: seq<string>, silver: Silver)
    requires kept != [] && fields != [] && CouldBe(truth, kept, fields, silver)
    ensures AreScores(|kept|, |fields|, truth)
    ensures OverallWith(kept, fields, silver, truth) == Overall(|kept|, |fields|, truth)
  {
    TruthFillsIn(truth, kept, fields, silver);
    SameOverall(|kept|, |fields|, FilledIn(kept, fields, silver, truth), truth);
    forall i, j | 0 <= i < |kept| && 0 <= j < |fields| ensures 0.0 <= truth(i, j) <= 1.0 {
      assert CellCouldBe(truth(i, j), kept[i], fields[j], silver);
    }
  }

  /** Some true scores have the overall score v. */
  ghost predicate Possible(v: real, kept: seq<Record>, fields: seq<string>, silver: Silver)
    requires kept != [] && fields != []
  {
    exists truth :: CouldBe(truth, kept, fields, silver) && Overall(|kept|, |fields|, truth) == v
  }

  lemma PossibleBetween(kept: seq<Record>, fields: seq<string>, silver: Silver, v: real)
    requires kept != [] && fields != [] && Scored(kept, fields, silver)
    ensures Possible(v, kept, fields, silver)
       <==> OverallWith(kept, fields, silver, Constant(0.0)) <= v <= OverallWith(kept, fields, silver, Constant(1.0))
  {
    var n, m := |kept|, |fields|;
    var L, K := KnownTable(kept, fields, silver), UnknownTable(kept, fields, silver);
    TablesArePartial(kept, fields, silver);
    if truth :| CouldBe(truth, kept, fields, silver) && Overall(n, m, truth) == v {
      OverallOfTruth(truth, kept, fields, silver);
      BoundsHold(n, m, L, K, truth);
    }
    if Overall(n, m, Worst(L, K)) <= v <= Overall(n, m, Best(L, K)) {
      var c := BoundsSharp(n, m, L, K, v);
      FillCouldBe(kept, fields, silver, Constant(c));
      assert Overall(n, m, FilledIn(kept, fields, silver, Constant(c))) == v;
    }
  }

  /** The published interval holds exactly the overall scores that are possible given the first panel, the narrowed one
      exactly those that are possible given both. */
  lemma IntervalsArePossibleScores(b: Block, a: Adjudicated, kept: seq<Record>, fields: seq<string>, silver: Silver,
                                   v: real)
    requires kept != [] && fields != [] && Scored(kept, fields, silver)
    requires IsBlockOf(b, kept, fields) && IsAdjudicationOf(a, kept, fields, silver)
    ensures b.lower <= v <= b.upper <==> Possible(v, kept, fields, map[])
    ensures a.lower <= v <= a.upper <==> Possible(v, kept, fields, silver)
  {
    PossibleBetween(kept, fields, map[], v);
    PossibleBetween(kept, fields, silver, v);
  }

  // ---------- one field ----------

  lemma ColumnOfTruth(truth: Mat, kept: seq<Record>, fields: seq<string>, j: nat)
    requires kept != [] && j < |fields| && CouldBe(truth, kept, fields, map[])
    ensures var L, K := KnownTable(kept, fields, map[]), UnknownTable(kept, fields, map[]); var n := |kept|;
      Mean(n, Row(Flip(Worst(L, K)), j)) <= Mean(n, Row(Flip(truth), j)) <= Mean(n, Row(Flip(Best(L, K)), j))
  {
    var n := |kept|;
    var L, K := KnownTable(kept, fields, map[]), UnknownTable(kept, fields, map[]);
    forall i | 0 <= i < n
      ensures Row(Flip(Worst(L, K)), j)(i) <= Row(Flip(truth), j)(i) <= Row(Flip(Best(L, K)), j)(i)
    {
      assert CellCouldBe(truth(i, j), kept[i], fields[j], map[]);
    }
    MeanAtMost(n, Row(Flip(Worst(L, K)), j), Row(Flip(truth), j));
    MeanAtMost(n, Row(Flip(truth), j), Row(Flip(Best(L, K)), j));
  }

  /** The bounds of every field hold its mean over the reviews for all true scores, and each end is reached. */
  lemma FieldBoundsArePossible(b: Block, kept: seq<Record>, fields: seq<string>, j: nat)
    requires kept != [] && j < |fields| && Scored(kept, fields, map[]) && IsBlockOf(b, kept, fields)
    ensures forall truth :: CouldBe(truth, kept, fields, map[]) ==>
              b.perField[j].lower <= Mean(|kept|, Row(Flip(truth), j)) <= b.perField[j].upper
    ensures exists truth :: CouldBe(truth, kept, fields, map[])
              && b.perField[j].lower == Mean(|kept|, Row(Flip(truth), j))
    ensures exists truth :: CouldBe(truth, kept, fields, map[])
              && b.perField[j].upper == Mean(|kept|, Row(Flip(truth), j))
  {
    assert IsCellOf(b.perField[j], kept, fields, j);
    forall truth | CouldBe(truth, kept, fields, map[])
      ensures b.perField[j].lower <= Mean(|kept|, Row(Flip(truth), j)) <= b.perField[j].upper
    {
      ColumnOfTruth(truth, kept, fields, j);
    }
    FillCouldBe(kept, fields, map[], Constant(0.0));
    FillCouldBe(kept, fields, map[], Constant(1.0));
    assert CouldBe(FilledIn(kept, fields, map[], Constant(0.0)), kept, fields, map[]);
    assert CouldBe(FilledIn(kept, fields, map[], Constant(1.0)), kept, fields, map[]);
  }

  // ---------- the means over known pairs ----------

  /** The review's mean is `own` when every unknown pair of it counts as `own`. */
  ghost predicate OwnMean(own: real, kept: seq<Record>, fields: seq<string>, silver: Silver, i: nat)
    requires fields != []
  {
    Mean(|fields|, Row(FilledIn(kept, fields, silver, Constant(own)), i)) == own
  }

  lemma KnownMeanIsOwn(kept: seq<Record>, fields: seq<string>, silver: Silver, i: nat, own: real)
    requires i < |kept| && fields != [] && Scored(kept, fields, silver)
    requires !AllUnknown(kept[i], fields, silver) && OwnMean(own, kept, fields, silver, i)
    ensures var L, K := KnownTable(kept, fields, silver), UnknownTable(kept, fields, silver);
      KnownCount(|fields|, K, i) != 0.0 && KnownMean(|fields|, L, K, i) == own
  {
    var m, L, K := |fields|, KnownTable(kept, fields, silver), UnknownTable(kept, fields, silver);
    TablesArePartial(kept, fields, silver);
    NothingKnownIff(kept, fields, silver, i);
    CountUnknown(kept, fields, silver, i, m);
    forall j | 0 <= j < m
      ensures Row(Filled(L, K, Constant(own)), i)(j) == Mix(1.0, Row(L, i)(j), own, Row(K, i)(j))
    {
    }
    SumMix(m, Row(Filled(L, K, Constant(own)), i), 1.0, Row(L, i), own, Row(K, i));
    MeanTimes(m, Row(Filled(L, K, Constant(own)), i));
    SolveForOwn(m as real, Sum(m, Row(L, i)), Sum(m, Row(K, i)), own);
  }

  lemma SolveForOwn(m: real, known: real, unknown: real, own: real)
    requires m - unknown > 0.0 && Times(m, own) == Mix(1.0, known, own, unknown)
    ensures known / (m - unknown) == own
  {
    assert Times(m - unknown, own) == known;
    QuotientIs(known, m - unknown, own);
  }

  lemma {:induction false} KnownMeansAre(kept: seq<Record>, fields: seq<string>, silver: Silver, own: Vec, n: nat)
    requires n <= |kept| && fields != [] && Scored(kept, fields, silver)
    requires forall i :: 0 <= i < n ==> !AllUnknown(kept[i], fields, silver)
                                        && OwnMean(own(i), kept, fields, silver, i) == true
    ensures KnownMeans(n, |fields|, KnownTable(kept, fields, silver), UnknownTable(kept, fields, silver))
         == Prefix(n, own)
  {
    if n > 0 {
      KnownMeansAre(kept, fields, silver, own, n - 1);
      KnownMeanIsOwn(kept, fields, silver, n - 1, own(n - 1));
      PrefixStep(n - 1, own);
    }
  }

  /** When every review has a known pair, the scored-only figure and the silver estimate are what the overall score
      would be if the unknown pairs of a review averaged what its known ones do. */
  lemma KnownOnlyImputes(kept: seq<Record>, fields: seq<string>, silver: Silver, own: Vec)
    requires kept != [] && fields != [] && Scored(kept, fields, silver)
    requires forall i :: 0 <= i < |kept| ==> !AllUnknown(kept[i], fields, silver)
                                             && OwnMean(own(i), kept, fields, silver, i) == true
    ensures KnownOnly(kept, fields, silver) == Mean(|kept|, own)
  {
    KnownMeansAre(kept, fields, silver, own, |kept|);
    MeanOfPrefix(|kept|, own);
  }

  // ---------- the judges ----------

  /** True scores that are, on every unscored pair, those against one of the judges' votes. */
  ghost predicate FromVotes(truth: Mat, kept: seq<Record>, fields: seq<string>, votes: Votes, judges: seq<string>) {
    forall i, j :: 0 <= i < |kept| && 0 <= j < |fields| ==>
      CellFromVotes(truth(i, j), kept[i], fields[j], votes, judges) == true
  }

  ghost predicate CellFromVotes(x: real, r: Record, f: string, votes: Votes, judges: seq<string>) {
    if f in r.unresolved then exists judge :: judge in judges && judge in VotesOf(votes, r, f)
                                              && x == VotesOf(votes, r, f)[judge]
    else f in r.scores && x == r.scores[f]
  }

  ghost predicate AllScorable(kept: seq<Record>, fields: seq<string>, votes: Votes, judges: seq<string>) {
    forall i :: 0 <= i < |kept| ==> Scorable(votes, kept[i], fields, judges)
  }

  lemma SignedScore(x: real)
    ensures Times(1.0, x) == x && Times(-1.0, x) == -x
  {
  }

  lemma LowAndHigh(kept: seq<Record>, fields: seq<string>, votes: Votes, judges: seq<string>, i: nat, j: nat)
    requires i < |kept| && j < |fields| && AllScorable(kept, fields, votes, judges)
    requires fields[j] in kept[i].unresolved && judges != []
    ensures var tables := JudgeTables(kept, fields, votes, judges); var v := VotesOf(votes, kept[i], fields[j]);
      && (forall judge :: judge in judges && judge in v ==>
            LowTable(tables)(i, j) <= v[judge] <= HighTable(tables)(i, j))
      && CellFromVotes(LowTable(tables)(i, j), kept[i], fields[j], votes, judges)
      && CellFromVotes(HighTable(tables)(i, j), kept[i], fields[j], votes, judges)
  {
    var tables, v := JudgeTables(kept, fields, votes, judges), VotesOf(votes, kept[i], fields[j]);
    var up, down := VotesOn(tables, i, j, 1.0), VotesOn(tables, i, j, -1.0);
    assert AllVoted(votes, kept[i], fields[j], judges);
    MinOverIs(|tables|, up);
    MinOverIs(|tables|, down);
    forall k | 0 <= k < |judges| ensures judges[k] in v && up(k) == v[judges[k]] && down(k) == -v[judges[k]] {
      assert judges[k] in judges;
      assert tables[k](i, j) == v[judges[k]];
      SignedScore(tables[k](i, j));
    }
    var a :| 0 <= a < |tables| && MinOver(|tables|, up) == up(a);
    var c :| 0 <= c < |tables| && MinOver(|tables|, down) == down(c);
    assert judges[a] in judges && judges[c] in judges;
    forall judge | judge in judges && judge in v
      ensures LowTable(tables)(i, j) <= v[judge] <= HighTable(tables)(i, j)
    {
      var k :| 0 <= k < |judges| && judges[k] == judge;
      assert MinOver(|tables|, up) <= up(k) && MinOver(|tables|, down) <= down(k);
    }
  }

  /** The lower end of the envelope as true scores, and its upper end. */
  lemma EndsFromVotes(kept: seq<Record>, fields: seq<string>, votes: Votes, judges: seq<string>)
    requires Scored(kept, fields, map[]) && AllScorable(kept, fields, votes, judges) && judges != []
    ensures var tables := JudgeTables(kept, fields, votes, judges);
      && FromVotes(FilledIn(kept, fields, map[], LowTable(tables)), kept, fields, votes, judges)
      && FromVotes(FilledIn(kept, fields, map[], HighTable(tables)), kept, fields, votes, judges)
  {
    var tables := JudgeTables(kept, fields, votes, judges);
    forall i, j | 0 <= i < |kept| && 0 <= j < |fields|
      ensures CellFromVotes(FilledIn(kept, fields, map[], LowTable(tables))(i, j), kept[i], fields[j], votes, judges)
      ensures CellFromVotes(FilledIn(kept, fields, map[], HighTable(tables))(i, j), kept[i], fields[j], votes, judges)
    {
      if fields[j] in kept[i].unresolved {
        LowAndHigh(kept, fields, votes, judges, i, j);
      } else {
        assert IsScore(kept[i].scores[fields[j]]);
      }
    }
  }

  lemma BetweenEnds(truth: Mat, kept: seq<Record>, fields: seq<string>, votes: Votes, judges: seq<string>)
    requires kept != [] && fields != [] && Scored(kept, fields, map[]) && judges != []
    requires AllScorable(kept, fields, votes, judges) && FromVotes(truth, kept, fields, votes, judges)
    ensures var tables := JudgeTables(kept, fields, votes, judges);
      OverallWith(kept, fields, map[], LowTable(tables)) <= Overall(|kept|, |fields|, truth)
        <= OverallWith(kept, fields, map[], HighTable(tables))
  {
    var tables := JudgeTables(kept, fields, votes, judges);
    var low, high := FilledIn(kept, fields, map[], LowTable(tables)), FilledIn(kept, fields, map[], HighTable(tables));
    forall i, j | 0 <= i < |kept| && 0 <= j < |fields| ensures low(i, j) <= truth(i, j) <= high(i, j) {
      assert CellFromVotes(truth(i, j), kept[i], fields[j], votes, judges);
      if fields[j] in kept[i].unresolved {
        LowAndHigh(kept, fields, votes, judges, i, j);
      }
    }
    OverallAtMost(|kept|, |fields|, low, truth);
    OverallAtMost(|kept|, |fields|, truth, high);
  }

  /** The ends of the envelope are the least and the greatest overall score when every unscored pair has the score
      against some judge's vote; each end is reached. */
  lemma EnvelopeIsRange(x: Sensitivity, kept: seq<Record>, fields: seq<string>, votes: Votes, judges: seq<string>)
    requires kept != [] && fields != [] && Scored(kept, fields, map[])
    requires judges != [] && AllScorable(kept, fields, votes, judges)
    requires IsSensitivityOf(x, kept, fields, votes, judges)
    ensures forall truth :: FromVotes(truth, kept, fields, votes, judges) ==>
              x.low <= Overall(|kept|, |fields|, truth) <= x.high
    ensures exists truth :: FromVotes(truth, kept, fields, votes, judges) && Overall(|kept|, |fields|, truth) == x.low
    ensures exists truth :: FromVotes(truth, kept, fields, votes, judges) && Overall(|kept|, |fields|, truth) == x.high
  {
    var tables := JudgeTables(kept, fields, votes, judges);
    forall truth | FromVotes(truth, kept, fields, votes, judges)
      ensures x.low <= Overall(|kept|, |fields|, truth) <= x.high
    {
      BetweenEnds(truth, kept, fields, votes, judges);
    }
    EndsFromVotes(kept, fields, votes, judges);
    assert x.low == Overall(|kept|, |fields|, FilledIn(kept, fields, map[], LowTable(tables)));
    assert x.high == Overall(|kept|, |fields|, FilledIn(kept, fields, map[], HighTable(tables)));
  }

  /** The score against one judge is the overall score of the table with that judge's votes on the unscored pairs. */
  lemma AgainstOneJudge(x: Sensitivity, kept: seq<Record>, fields: seq<string>, votes: Votes, judges: seq<string>,
                        k: nat, truth: Mat)
    requires kept != [] && fields != [] && Scored(kept, fields, map[])
    requires k < |judges| && AllScorable(kept, fields, votes, judges)
    requires IsSensitivityOf(x, kept, fields, votes, judges) && FromVotes(truth, kept, fields, votes, [judges[k]])
    ensures x.against[k] == Overall(|kept|, |fields|, truth)
  {
    var table := JudgeTable(kept, fields, votes, judges[k]);
    forall i, j | 0 <= i < |kept| && 0 <= j < |fields|
      ensures FilledIn(kept, fields, map[], table)(i, j) == truth(i, j)
    {
      assert CellFromVotes(truth(i, j), kept[i], fields[j], votes, [judges[k]]);
    }
    SameOverall(|kept|, |fields|, FilledIn(kept, fields, map[], table), truth);
  }
}
