/** Scoring the unscored pairs against each judge's own vote (eval/heldout_unscored.py, `judge_sensitivity`). */
module JudgeSensitivity {
  import opened Common
  import opened LinearAlgebra
  import opened PartialScores
  import opened Manski

  /** From review and field to the judges that voted on the pair, each with the prediction's score against that
      vote. */
  type Votes = map<string, map<string, map<string, real>>>

  function VotesOf(votes: Votes, r: Record, f: string): map<string, real> {
    if r.id in votes && f in votes[r.id] then votes[r.id][f] else map[]
  }

  /** The sorted list of all judges that voted on any pair. */
  ghost predicate AreJudges(judges: seq<string>, kept: seq<Record>, fields: seq<string>, votes: Votes) {
    && Distinct(judges)
    && forall judge :: judge in judges <==> exists r, f :: r in kept && f in fields && judge in VotesOf(votes, r, f)
  }

  /** Some judge voted on the pair, and every judge did. */
  predicate AllVoted(votes: Votes, r: Record, f: string, judges: seq<string>) {
    VotesOf(votes, r, f) != map[] && forall judge :: judge in judges ==> judge in VotesOf(votes, r, f)
  }

  /** The first k fields of the review are scored or have a vote of every judge. */
  predicate PairsVoted(votes: Votes, r: Record, fields: seq<string>, k: nat, judges: seq<string>)
    requires k <= |fields|
  {
    forall j :: 0 <= j < k && fields[j] in r.unresolved ==> AllVoted(votes, r, fields[j], judges)
  }

  /** The review can be scored against every judge: it is in the votes, there is a field to average, and every judge
      voted on each of its unscored pairs. */
  predicate Scorable(votes: Votes, r: Record, fields: seq<string>, judges: seq<string>) {
    r.id in votes && fields != [] && PairsVoted(votes, r, fields, |fields|, judges)
  }

  /** The scores against one judge's votes. */
  function JudgeTable(kept: seq<Record>, fields: seq<string>, votes: Votes, judge: string): Mat {
    (i, j) => if 0 <= i < |kept| && 0 <= j < |fields| && judge in VotesOf(votes, kept[i], fields[j])
              then VotesOf(votes, kept[i], fields[j])[judge] else 0.0
  }

  function JudgeTables(kept: seq<Record>, fields: seq<string>, votes: Votes, judges: seq<string>): (t: seq<Mat>)
    ensures |t| == |judges|
  {
    seq(|judges|, k requires 0 <= k < |judges| => JudgeTable(kept, fields, votes, judges[k]))
  }

  /** The per-pair minimum and maximum over the judges; without judges there is no pair they are needed for. */
  function LowTable(tables: seq<Mat>): Mat { if tables == [] then Constant(0.0) else LowestVotes(tables) }

  function HighTable(tables: seq<Mat>): Mat { if tables == [] then Constant(0.0) else HighestVotes(tables) }

  /** The per-review means when the unscored pairs have the scores of the table. */
  function MeansWith(kept: seq<Record>, fields: seq<string>, table: Mat): Vec
    requires fields != []
  {
    RowMeans(Filled(KnownTable(kept, fields, map[]), UnknownTable(kept, fields, map[]), table), |fields|)
  }

  datatype Sensitivity = Sensitivity(pairs: nat, against: seq<real>, low: real, high: real)

  /** The figures are the ones the tables determine. */
  ghost predicate IsSensitivityOf(x: Sensitivity, kept: seq<Record>, fields: seq<string>, votes: Votes,
        judges: seq<string>)
    requires fields != []
  {
    var tables := JudgeTables(kept, fields, votes, judges);
    && x.pairs as real == Sum(|kept|, RowSums(UnknownTable(kept, fields, map[]), |fields|))
    && |x.against| == |judges|
    && (forall k :: 0 <= k < |judges| ==> x.against[k] == OverallWith(kept, fields, map[], tables[k]))
    && x.low == OverallWith(kept, fields, map[], LowTable(tables))
    && x.high == OverallWith(kept, fields, map[], HighTable(tables))
  }

  // ---------- the loops ----------

  /** The votes of one review's unscored pairs: whether they are complete, and how many pairs there are. */
  method PairScores(votes: Votes, kept: seq<Record>, i: nat, fields: seq<string>, judges: seq<string>)
    returns (ok: bool, pairs: nat)
    requires i < |kept|
    ensures ok == PairsVoted(votes, kept[i], fields, |fields|, judges)
    ensures ok ==> pairs as real == Sum(|fields|, Row(UnknownTable(kept, fields, map[]), i))
  {
    ok, pairs := true, 0;
    for j := 0 to |fields|
      invariant PairsVoted(votes, kept[i], fields, j, judges)
      invariant pairs as real == Sum(j, Row(UnknownTable(kept, fields, map[]), i))
    {
      if fields[j] in kept[i].unresolved {
        if !AllVoted(votes, kept[i], fields[j], judges) {
          return false, pairs;
        }
        pairs := pairs + 1;
      }
    }
  }

  /** The list of every judge after the first i reviews. */
  ghost predicate ListsAfter(lists: seq<seq<real>>, i: nat, kept: seq<Record>, fields: seq<string>, tables: seq<Mat>)
    requires fields != []
  {
    |lists| == |tables| && forall k :: 0 <= k < |tables| ==> lists[k] == Prefix(i, MeansWith(kept, fields, tables[k]))
  }

  /** One review's mean against every judge. */
  method AppendMeans(lists: seq<seq<real>>, kept: seq<Record>, i: nat, fields: seq<string>, tables: seq<Mat>)
    returns (r: seq<seq<real>>)
    requires fields != [] && ListsAfter(lists, i, kept, fields, tables)
    ensures ListsAfter(r, i + 1, kept, fields, tables) == true
  {
    r := lists;
    for k := 0 to |tables|
      invariant |r| == |tables|
      invariant forall l :: 0 <= l < |tables| ==>
                  r[l] == Prefix(if l < k then i + 1 else i, MeansWith(kept, fields, tables[l]))
    {
      PrefixStep(i, MeansWith(kept, fields, tables[k]));
      r := r[k := r[k] + [MeansWith(kept, fields, tables[k])(i)]];
    }
  }

  lemma MeanWith(kept: seq<Record>, fields: seq<string>, table: Mat)
    requires fields != []
    ensures MeanOrZero(Prefix(|kept|, MeansWith(kept, fields, table))) == OverallWith(kept, fields, map[], table)
  {
    if kept != [] {
      MeanOfPrefix(|kept|, MeansWith(kept, fields, table));
    }
  }

  /** The means of every judge's list. */
  method MeansOf(lists: seq<seq<real>>, kept: seq<Record>, fields: seq<string>, tables: seq<Mat>) returns (r: seq<real>)
    requires fields != [] && ListsAfter(lists, |kept|, kept, fields, tables)
    ensures |r| == |tables| && forall k :: 0 <= k < |tables| ==> r[k] == OverallWith(kept, fields, map[], tables[k])
  {
    r := [];
    for k := 0 to |tables|
      invariant |r| == k && forall l :: 0 <= l < k ==> r[l] == OverallWith(kept, fields, map[], tables[l])
    {
      MeanWith(kept, fields, tables[k]);
      r := r + [MeanOrZero(lists[k])];
    }
  }

  /** The three kinds of lists over the reviews; None as soon as a review cannot be scored. */
  method CollectLists(votes: Votes, kept: seq<Record>, fields: seq<string>, judges: seq<string>, tables: seq<Mat>)
    returns (r: Option<(nat, seq<seq<real>>)>)
    requires fields != []
    ensures r.None? <==> exists i :: 0 <= i < |kept| && !Scorable(votes, kept[i], fields, judges)
    ensures r.Some? ==>
              && ListsAfter(r.value.1, |kept|, kept, fields, tables) == true
              && r.value.0 as real == Sum(|kept|, RowSums(UnknownTable(kept, fields, map[]), |fields|))
  {
    var lists := seq(|tables|, _ => []);
    var pairs := 0;
    for i := 0 to |kept|
      invariant forall k :: 0 <= k < i ==> Scorable(votes, kept[k], fields, judges)
      invariant ListsAfter(lists, i, kept, fields, tables) == true
      invariant pairs as real == Sum(i, RowSums(UnknownTable(kept, fields, map[]), |fields|))
    {
      if kept[i].id !in votes {
        return None;
      }
      var ok, n := PairScores(votes, kept, i, fields, judges);
      if !ok {
        return None;
      }
      pairs := pairs + n;
      lists := AppendMeans(lists, kept, i, fields, tables);
    }
    r := Some((pairs, lists));
  }

  /** `judge_sensitivity`; it raises (None) exactly when some kept review cannot be scored against every judge. */
  method JudgeSensitivity(records: seq<Record>, votes: Votes, fields: seq<string>, judges: seq<string>,
        excludeExposed: bool)
    returns (r: Option<Sensitivity>)
    requires AreJudges(judges, Published(records, excludeExposed), fields, votes)
    ensures r.None? <==> exists review :: review in Published(records, excludeExposed)
                                          && !Scorable(votes, review, fields, judges)
    ensures r.Some? && fields != [] ==>
          IsSensitivityOf(r.value, Published(records, excludeExposed), fields, votes, judges)
  {
    var kept := Published(records, excludeExposed);
    if fields == [] {
      assert kept != [] ==> kept[0] in kept && !Scorable(votes, kept[0], fields, judges);
      return if kept == [] then Some(Sensitivity(0, [], 0.0, 0.0)) else None;
    }
    var tables := JudgeTables(kept, fields, votes, judges);
    var all := tables + [LowTable(tables), HighTable(tables)];
    var collected := CollectLists(votes, kept, fields, judges, all);
    if collected.None? {
      return None;
    }
    var means := MeansOf(collected.value.1, kept, fields, all);
    var n := |judges|;
    assert all[n] == LowTable(tables) && all[n + 1] == HighTable(tables);
    assert forall k :: 0 <= k < n ==> all[k] == tables[k];
    r := Some(Sensitivity(collected.value.0, means[..n], means[n], means[n + 1]));
  }

  // ---------- what the envelope means ----------

  ghost predicate VotesAreScores(votes: Votes, kept: seq<Record>, fields: seq<string>) {
    forall r, f, judge :: r in kept && f in fields && judge in VotesOf(votes, r, f) ==>
      IsScore(VotesOf(votes, r, f)[judge])
  }

  lemma TablesAreScores(votes: Votes, kept: seq<Record>, fields: seq<string>, judge: string)
    requires VotesAreScores(votes, kept, fields)
    ensures AreScores(|kept|, |fields|, JudgeTable(kept, fields, votes, judge))
  {
    forall i, j | 0 <= i < |kept| && 0 <= j < |fields|
      ensures 0.0 <= JudgeTable(kept, fields, votes, judge)(i, j) <= 1.0
    {
      if judge in VotesOf(votes, kept[i], fields[j]) {
        assert IsScore(VotesOf(votes, kept[i], fields[j])[judge]);
      }
    }
  }

  /** The envelope lies within the published bounds and holds the score against every single judge. */
  lemma SensitivityInside(x: Sensitivity, b: Block, kept: seq<Record>, fields: seq<string>, votes: Votes,
                          judges: seq<string>, k: nat)
    requires fields != [] && Scored(kept, fields, map[]) && VotesAreScores(votes, kept, fields)
    requires IsBlockOf(b, kept, fields) && IsSensitivityOf(x, kept, fields, votes, judges) && k < |judges|
    ensures b.lower <= x.low <= x.against[k] <= x.high <= b.upper
  {
    var tables := JudgeTables(kept, fields, votes, judges);
    forall l | 0 <= l < |tables| ensures AreScores(|kept|, |fields|, tables[l]) {
      TablesAreScores(votes, kept, fields, judges[l]);
    }
    EnvelopeInside(b, kept, fields, tables, (i, j) => k);
    OfOneJudge(kept, fields, tables, k);
  }

  lemma OfOneJudge(kept: seq<Record>, fields: seq<string>, tables: seq<Mat>, k: nat)
    requires fields != [] && k < |tables|
    ensures var pick: (int, int) -> int := (i, j) => k;
      OverallWith(kept, fields, map[], Picked(tables, pick)) == OverallWith(kept, fields, map[], tables[k])
  {
    var pick: (int, int) -> int := (i, j) => k;
    if kept != [] {
      var n, m := |kept|, |fields|;
      var L, K := KnownTable(kept, fields, map[]), UnknownTable(kept, fields, map[]);
      var F, G := Filled(L, K, Picked(tables, pick)), Filled(L, K, tables[k]);
      OverallAtMost(n, m, F, G);
      OverallAtMost(n, m, G, F);
    }
  }
}
