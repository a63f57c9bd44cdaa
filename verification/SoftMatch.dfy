/** Greedy one-to-one matching of items by token overlap (scripts/analyze_pros_gold.py). */
module SoftMatch {
  import opened F1
  import opened Reals

  type Tokens = set<string>

  /** A candidate pair: item i of the prediction, item j of the gold. */
  datatype Cand = Cand(score: real, i: nat, j: nat)

  function Jaccard(a: Tokens, b: Tokens): real
    requires a + b != {}
  {
    |a * b| as real / |a + b| as real
  }

  /** The overlap by inclusion and exclusion: all items less the common ones, times the score, are the common ones. */
  lemma JaccardIs(a: Tokens, b: Tokens)
    requires a + b != {}
    ensures Times((|a| + |b| - |a * b|) as real, Jaccard(a, b)) == |a * b| as real
  {
    assert a + b == a + (b - a) && b == a * b + (b - a);
    assert |a + b| == |a| + |b - a| && |b| == |a * b| + |b - a|;
    QuotientTimes(|a * b| as real, |a + b| as real);
  }

  /** The candidates of item i and gold item j: one or none. */
  function PairOf(p: seq<Tokens>, g: seq<Tokens>, i: nat, j: nat): seq<Cand>
    requires i < |p| && j < |g|
  {
    if p[i] + g[j] != {} then [Cand(Jaccard(p[i], g[j]), i, j)] else []
  }

  /** The candidates of item i with the gold items below m. */
  function RowPairs(p: seq<Tokens>, g: seq<Tokens>, i: nat, m: nat): seq<Cand>
    requires i < |p| && m <= |g|
  {
    if m == 0 then [] else
      RowPairs(p, g, i, m - 1) + PairOf(p, g, i, m - 1)
  }

  function Pairs(p: seq<Tokens>, g: seq<Tokens>, n: nat): seq<Cand>
    requires n <= |p|
  {
    if n == 0 then [] else Pairs(p, g, n - 1) + RowPairs(p, g, n - 1, |g|)
  }

  /** Descending tuple order. */
  predicate NotAfter(a: Cand, b: Cand) {
    a.score > b.score || (a.score == b.score && (a.i > b.i || (a.i == b.i && a.j >= b.j)))
  }

  function Insert(c: Cand, s: seq<Cand>): seq<Cand> {
    if s == [] || NotAfter(c, s[0]) then [c] + s else [s[0]] + Insert(c, s[1..])
  }

  function Sort(s: seq<Cand>): seq<Cand> {
    if s == [] then [] else Insert(s[0], Sort(s[1..]))
  }

  function Candidates(p: seq<Tokens>, g: seq<Tokens>): seq<Cand> { Sort(Pairs(p, g, |p|)) }

  predicate Takes(c: Cand, t: real, usedP: set<nat>, usedG: set<nat>) {
    c.score >= t && c.i !in usedP && c.j !in usedG
  }

  /** The pairs the greedy loop takes, in order. */
  function Greedy(cand: seq<Cand>, t: real, usedP: set<nat>, usedG: set<nat>): seq<Cand> {
    if cand == [] then []
    else if Takes(cand[0], t, usedP, usedG) then
      [cand[0]] + Greedy(cand[1..], t, usedP + {cand[0].i}, usedG + {cand[0].j})
    else Greedy(cand[1..], t, usedP, usedG)
  }

  function Matched(p: seq<Tokens>, g: seq<Tokens>, t: real): seq<Cand> { Greedy(Candidates(p, g), t, {}, {}) }

  function SoftScore(p: seq<Tokens>, g: seq<Tokens>, t: real): real {
    if p == [] && g == [] then 1.0
    else if p == [] || g == [] then 0.0
    else Harmonic(|Matched(p, g, t)|, |p|, |g|)
  }

  /** `soft_f1`, on the token sets of the (canonicalised) items. */
  method SoftF1(p: seq<Tokens>, g: seq<Tokens>, threshold: real) returns (r: real)
    ensures r == SoftScore(p, g, threshold)
  {
    if p == [] && g == [] {
      return 1.0;
    }
    if p == [] || g == [] {
      return 0.0;
    }
    var cand := Candidates(p, g);
    var usedP, usedG: set<nat>, tp := {}, {}, 0;
    for k := 0 to |cand|
      invariant tp + |Greedy(cand[k..], threshold, usedP, usedG)| == |Matched(p, g, threshold)|
    {
      assert cand[k..][1..] == cand[k + 1..];
      if Takes(cand[k], threshold, usedP, usedG) {
        usedP, usedG, tp := usedP + {cand[k].i}, usedG + {cand[k].j}, tp + 1;
      }
    }
    if tp == 0 {
      HarmonicIs(0, |p|, |g|);
      return 0.0;
    }
    r := Harmonic(tp, |p|, |g|);
  }

  // ---------- the candidate list ----------

  /** c pairs two items with a nonempty union and has their overlap. */
  ghost predicate IsPair(p: seq<Tokens>, g: seq<Tokens>, c: Cand) {
    c.i < |p| && c.j < |g| && p[c.i] + g[c.j] != {} && c.score == Jaccard(p[c.i], g[c.j])
  }

  lemma InParts<T>(whole: seq<T>, rest: seq<T>, last: seq<T>, c: T, first: bool, second: bool)
    requires whole == rest + last && (c in rest <==> first) && (c in last <==> second)
    ensures c in whole <==> first || second
  {
  }

  lemma OnePair(p: seq<Tokens>, g: seq<Tokens>, i: nat, j: nat, c: Cand)
    requires i < |p| && j < |g|
    ensures c in PairOf(p, g, i, j) <==> c.i == i && c.j == j && IsPair(p, g, c)
  {
  }

  lemma {:induction false} RowPairsAre(p: seq<Tokens>, g: seq<Tokens>, i: nat, m: nat, c: Cand)
    requires i < |p| && m <= |g|
    ensures c in RowPairs(p, g, i, m) <==> c.i == i && c.j < m && IsPair(p, g, c) == true
  {
    if m > 0 {
      RowPairsAre(p, g, i, m - 1, c);
      OnePair(p, g, i, m - 1, c);
      var pair := c.i == i && IsPair(p, g, c);
      InParts(RowPairs(p, g, i, m), RowPairs(p, g, i, m - 1), PairOf(p, g, i, m - 1), c, pair && c.j < m - 1,
              pair && c.j == m - 1);
    }
  }

  lemma WholeRow(p: seq<Tokens>, g: seq<Tokens>, i: nat, c: Cand)
    requires i < |p|
    ensures c in RowPairs(p, g, i, |g|) <==> c.i == i && IsPair(p, g, c) == true
  {
    RowPairsAre(p, g, i, |g|, c);
  }

  lemma {:induction false} PairsAre(p: seq<Tokens>, g: seq<Tokens>, n: nat, c: Cand)
    requires n <= |p|
    ensures c in Pairs(p, g, n) <==> c.i < n && IsPair(p, g, c) == true
  {
    if n > 0 {
      var rest, row := Pairs(p, g, n - 1), RowPairs(p, g, n - 1, |g|);
      assert c in rest <==> c.i < n - 1 && IsPair(p, g, c) == true by {
        PairsAre(p, g, n - 1, c);
      }
      assert c in row <==> c.i == n - 1 && IsPair(p, g, c) == true by {
        WholeRow(p, g, n - 1, c);
      }
      assert Pairs(p, g, n) == rest + row;
    }
  }

  ghost predicate Sorted(s: seq<Cand>) {
    forall x, y :: 0 <= x < y < |s| ==> NotAfter(s[x], s[y])
  }

  lemma {:induction false} InsertKeeps(c: Cand, s: seq<Cand>)
    ensures multiset(Insert(c, s)) == multiset(s) + multiset{c}
  {
    if s != [] && !NotAfter(c, s[0]) {
      InsertKeeps(c, s[1..]);
      assert s == [s[0]] + s[1..];
    }
  }

  lemma {:induction false} InsertSorts(c: Cand, s: seq<Cand>)
    requires Sorted(s)
    ensures Sorted(Insert(c, s))
  {
    if s != [] && !NotAfter(c, s[0]) {
      InsertSorts(c, s[1..]);
      var rest := Insert(c, s[1..]);
      forall y | 0 <= y < |rest|
        ensures NotAfter(s[0], rest[y])
      {
        InsertKeeps(c, s[1..]);
        assert rest[y] in multiset(rest);
      }
    }
  }

  lemma {:induction false} SortSorts(s: seq<Cand>)
    ensures Sorted(Sort(s)) && multiset(Sort(s)) == multiset(s)
  {
    if s != [] {
      SortSorts(s[1..]);
      InsertSorts(s[0], Sort(s[1..]));
      InsertKeeps(s[0], Sort(s[1..]));
      assert s == [s[0]] + s[1..];
    }
  }

  /** The candidates are exactly the pairs with a nonempty union, by descending score. */
  lemma CandidatesAre(p: seq<Tokens>, g: seq<Tokens>, c: Cand)
    ensures Sorted(Candidates(p, g))
    ensures var s := Candidates(p, g); forall x, y :: 0 <= x < y < |s| ==>
              s[x].score > s[y].score
              || (s[x].score == s[y].score && (s[x].i > s[y].i || (s[x].i == s[y].i && s[x].j >= s[y].j)))
    ensures c in Candidates(p, g)
            <==> c.i < |p| && c.j < |g| && p[c.i] + g[c.j] != {} && c.score == Jaccard(p[c.i], g[c.j])
  {
    var s := Pairs(p, g, |p|);
    SortSorts(s);
    PairsAre(p, g, |p|, c);
    assert c in s <==> c in multiset(s);
    assert c in Sort(s) <==> c in multiset(Sort(s));
  }

  // ---------- the greedy loop makes a maximal matching ----------

  function LeftOf(m: seq<Cand>): set<nat> { set c | c in m :: c.i }

  function RightOf(m: seq<Cand>): set<nat> { set c | c in m :: c.j }

  /** No item is used twice. */
  ghost predicate OneToOne(m: seq<Cand>) {
    forall x, y :: 0 <= x < y < |m| ==> m[x].i != m[y].i && m[x].j != m[y].j
  }

  lemma {:induction false} GreedyFrom(cand: seq<Cand>, t: real, usedP: set<nat>, usedG: set<nat>, c: Cand)
    requires c in Greedy(cand, t, usedP, usedG)
    ensures c in cand && Takes(c, t, usedP, usedG)
  {
    if Takes(cand[0], t, usedP, usedG) {
      if c != cand[0] {
        GreedyFrom(cand[1..], t, usedP + {cand[0].i}, usedG + {cand[0].j}, c);
      }
    } else {
      GreedyFrom(cand[1..], t, usedP, usedG, c);
    }
  }

  lemma {:induction false} GreedyOneToOne(cand: seq<Cand>, t: real, usedP: set<nat>, usedG: set<nat>)
    ensures OneToOne(Greedy(cand, t, usedP, usedG))
  {
    if cand != [] {
      if Takes(cand[0], t, usedP, usedG) {
        var usedP', usedG' := usedP + {cand[0].i}, usedG + {cand[0].j};
        var rest := Greedy(cand[1..], t, usedP', usedG');
        GreedyOneToOne(cand[1..], t, usedP', usedG');
        forall y | 0 <= y < |rest|
          ensures rest[y].i != cand[0].i && rest[y].j != cand[0].j
        {
          GreedyFrom(cand[1..], t, usedP', usedG', rest[y]);
        }
      } else {
        GreedyOneToOne(cand[1..], t, usedP, usedG);
      }
    }
  }

  /** Every eligible candidate shares an item with what was taken or used before. */
  lemma {:induction false} GreedyMaximal(cand: seq<Cand>, t: real, usedP: set<nat>, usedG: set<nat>, c: Cand)
    requires c in cand && c.score >= t
    ensures var m := Greedy(cand, t, usedP, usedG);
      c.i in usedP + LeftOf(m) || c.j in usedG + RightOf(m)
  {
    var m := Greedy(cand, t, usedP, usedG);
    if Takes(cand[0], t, usedP, usedG) {
      assert cand[0] in m;
      if c != cand[0] {
        var usedP', usedG' := usedP + {cand[0].i}, usedG + {cand[0].j};
        var rest := Greedy(cand[1..], t, usedP', usedG');
        GreedyMaximal(cand[1..], t, usedP', usedG', c);
        assert LeftOf(m) == {cand[0].i} + LeftOf(rest) && RightOf(m) == {cand[0].j} + RightOf(rest);
      }
    } else if c != cand[0] {
      GreedyMaximal(cand[1..], t, usedP, usedG, c);
    }
  }

  ghost predicate Eligible(p: seq<Tokens>, g: seq<Tokens>, t: real, c: Cand) {
    c.i < |p| && c.j < |g| && p[c.i] + g[c.j] != {} && c.score == Jaccard(p[c.i], g[c.j]) >= t
  }

  ghost predicate IsMatching(p: seq<Tokens>, g: seq<Tokens>, t: real, m: seq<Cand>) {
    OneToOne(m) && forall c :: c in m ==> Eligible(p, g, t, c)
  }

  /** What the loop takes is a matching of eligible pairs to which no eligible pair can be added. */
  lemma MatchedIsMaximalMatching(p: seq<Tokens>, g: seq<Tokens>, t: real)
    ensures IsMatching(p, g, t, Matched(p, g, t))
    ensures forall c :: Eligible(p, g, t, c) ==> c.i in LeftOf(Matched(p, g, t)) || c.j in RightOf(Matched(p, g, t))
  {
    var cand, m := Candidates(p, g), Matched(p, g, t);
    GreedyOneToOne(cand, t, {}, {});
    forall c | c in m
      ensures Eligible(p, g, t, c)
    {
      GreedyFrom(cand, t, {}, {}, c);
      CandidatesAre(p, g, c);
    }
    forall c | Eligible(p, g, t, c)
      ensures c.i in LeftOf(m) || c.j in RightOf(m)
    {
      CandidatesAre(p, g, c);
      GreedyMaximal(cand, t, {}, {}, c);
    }
  }

  // ---------- how many ----------

  /** A one-to-one list has as many items on each side as pairs. */
  lemma {:induction false} SidesCount(m: seq<Cand>)
    requires OneToOne(m)
    ensures |LeftOf(m)| == |m| == |RightOf(m)|
  {
    if m != [] {
      SidesCount(m[1..]);
      SplitSides(m);
    }
  }

  lemma SplitSides(m: seq<Cand>)
    requires OneToOne(m) && m != []
    ensures LeftOf(m) == {m[0].i} + LeftOf(m[1..]) && m[0].i !in LeftOf(m[1..])
    ensures RightOf(m) == {m[0].j} + RightOf(m[1..]) && m[0].j !in RightOf(m[1..])
  {
    assert m == [m[0]] + m[1..];
  }

  /** Pairs that each touch I on the left or J on the right are at most as many as the items touched. */
  lemma {:induction false} TouchedCount(m: seq<Cand>, I: set<nat>, J: set<nat>)
    requires OneToOne(m) && forall c :: c in m ==> c.i in I || c.j in J
    ensures |m| <= |LeftOf(m) * I| + |RightOf(m) * J|
  {
    if m != [] {
      TouchedCount(m[1..], I, J);
      SplitSides(m);
      AddedCount(m[0].i, LeftOf(m[1..]), I);
      AddedCount(m[0].j, RightOf(m[1..]), J);
    }
  }

  lemma AddedCount(x: nat, s: set<nat>, I: set<nat>)
    requires x !in s
    ensures |({x} + s) * I| == |s * I| + if x in I then 1 else 0
  {
    assert ({x} + s) * I == s * I + if x in I then {x} else {};
  }

  lemma SubsetCount<T>(a: set<T>, b: set<T>)
    requires a <= b
    ensures |a| <= |b|
  {
    assert b == a + (b - a);
  }

  /** No matching of eligible pairs is more than twice as large as the greedy one. */
  lemma AtMostTwice(p: seq<Tokens>, g: seq<Tokens>, t: real, m: seq<Cand>)
    requires IsMatching(p, g, t, m)
    ensures |m| <= 2 * |Matched(p, g, t)|
  {
    var taken := Matched(p, g, t);
    MatchedIsMaximalMatching(p, g, t);
    TouchedCount(m, LeftOf(taken), RightOf(taken));
    SidesCount(taken);
    SubsetCount(LeftOf(m) * LeftOf(taken), LeftOf(taken));
    SubsetCount(RightOf(m) * RightOf(taken), RightOf(taken));
  }

  lemma {:induction false} BelowCount(n: nat, s: set<nat>)
    requires forall i :: i in s ==> i < n
    ensures |s| <= n
  {
    if n == 0 {
      assert s == {};
    } else {
      BelowCount(n - 1, s - {n - 1});
      SubsetCount(s, (s - {n - 1}) + {n - 1});
    }
  }

  lemma MatchedCount(p: seq<Tokens>, g: seq<Tokens>, t: real)
    ensures |Matched(p, g, t)| <= |p| && |Matched(p, g, t)| <= |g|
  {
    var m := Matched(p, g, t);
    MatchedIsMaximalMatching(p, g, t);
    SidesCount(m);
    BelowCount(|p|, LeftOf(m));
    BelowCount(|g|, RightOf(m));
  }

  /** The score is twice the matches over all items, in [0, 1]. */
  lemma SoftScoreIs(p: seq<Tokens>, g: seq<Tokens>, t: real)
    ensures 0.0 <= SoftScore(p, g, t) <= 1.0
    ensures |p| + |g| > 0 ==> SoftScore(p, g, t) == (2 * |Matched(p, g, t)|) as real / (|p| + |g|) as real
  {
    MatchedCount(p, g, t);
    if p != [] && g != [] {
      HarmonicBounds(|Matched(p, g, t)|, |p|, |g|);
      HarmonicIs(|Matched(p, g, t)|, |p|, |g|);
    } else if |p| + |g| > 0 {
      NoShare(|p| + |g|);
    }
  }

  lemma NoShare(d: nat)
    requires d > 0
    ensures 0 as real / d as real == 0.0
  {
  }

  // ---------- the threshold ----------

  lemma {:induction false} NothingEligible(cand: seq<Cand>, t: real, usedP: set<nat>, usedG: set<nat>)
    requires forall c :: c in cand ==> c.score < t
    ensures Greedy(cand, t, usedP, usedG) == []
  {
    if cand != [] {
      NothingEligible(cand[1..], t, usedP, usedG);
    }
  }

  /** A higher threshold cuts the loop's choices short: they are a prefix of those at the lower one. */
  lemma {:induction false} GreedyPrefix(cand: seq<Cand>, t: real, t': real, usedP: set<nat>, usedG: set<nat>)
    requires Sorted(cand) && t <= t'
    ensures Greedy(cand, t', usedP, usedG) <= Greedy(cand, t, usedP, usedG)
  {
    if cand != [] {
      if cand[0].score < t' {
        forall c | c in cand
          ensures c.score < t'
        {
          var k :| 0 <= k < |cand| && cand[k] == c;
          assert k > 0 ==> NotAfter(cand[0], cand[k]);
        }
        NothingEligible(cand, t', usedP, usedG);
      } else if Takes(cand[0], t, usedP, usedG) {
        GreedyPrefix(cand[1..], t, t', usedP + {cand[0].i}, usedG + {cand[0].j});
      } else {
        GreedyPrefix(cand[1..], t, t', usedP, usedG);
      }
    }
  }

  /** Raising the threshold never raises the score. */
  lemma ScoreFallsWithThreshold(p: seq<Tokens>, g: seq<Tokens>, t: real, t': real)
    requires t <= t'
    ensures Matched(p, g, t') <= Matched(p, g, t)
    ensures SoftScore(p, g, t') <= SoftScore(p, g, t)
  {
    SortSorts(Pairs(p, g, |p|));
    GreedyPrefix(Candidates(p, g), t, t', {}, {});
    if p != [] && g != [] {
      HarmonicMonotone(|Matched(p, g, t')|, |Matched(p, g, t)|, |p|, |g|);
    }
  }

  // ---------- permuted gold ----------

  function IndicesOf(s: seq<Tokens>, x: Tokens): set<nat> { set i | 0 <= i < |s| && s[i] == x }

  lemma {:induction false} IndicesCount(s: seq<Tokens>, x: Tokens)
    ensures |IndicesOf(s, x)| == multiset(s)[x]
  {
    if s != [] {
      var n := |s| - 1;
      IndicesCount(s[..n], x);
      assert s == s[..n] + [s[n]];
      assert IndicesOf(s, x) == IndicesOf(s[..n], x) + if s[n] == x then {n} else {};
    }
  }

  lemma FullOverlap(a: Tokens, b: Tokens)
    requires a + b != {}
    ensures Jaccard(a, b) <= 1.0
    ensures Jaccard(a, b) == 1.0 <==> a == b
  {
    assert a + b == a * b + ((a + b) - a * b);
    assert |a + b| == |a * b| + |(a + b) - a * b|;
    if a == b {
      assert a * b == a + b;
    } else {
      assert (a + b) - a * b != {};
    }
    ShareBelowOne(|a * b|, |a + b|);
  }

  lemma ShareBelowOne(k: nat, n: nat)
    requires k <= n && n > 0
    ensures k as real / n as real <= 1.0
    ensures k as real / n as real == 1.0 <==> k == n
  {
  }

  /** The pairs of m whose prediction has the token set x. */
  function With(p: seq<Tokens>, m: seq<Cand>, x: Tokens): seq<Cand>
    requires forall c :: c in m ==> c.i < |p|
  {
    if m == [] then [] else (if p[m[0].i] == x then [m[0]] else []) + With(p, m[1..], x)
  }

  lemma {:induction false} WithIs(p: seq<Tokens>, m: seq<Cand>, x: Tokens)
    requires OneToOne(m) && forall c :: c in m ==> c.i < |p|
    ensures OneToOne(With(p, m, x))
    ensures forall c :: c in With(p, m, x) <==> c in m && p[c.i] == x
  {
    if m != [] {
      WithIs(p, m[1..], x);
      SplitSides(m);
      assert m == [m[0]] + m[1..];
      var rest := With(p, m[1..], x);
      forall y | 0 <= y < |rest|
        ensures rest[y].i != m[0].i && rest[y].j != m[0].j
      {
        assert rest[y] in m[1..];
        assert rest[y].i in LeftOf(m[1..]) && rest[y].j in RightOf(m[1..]);
      }
    }
  }

  /** An item left unmatched at threshold 1 has all its equals on the other side matched, with equals. */
  lemma EqualsAreTaken(p: seq<Tokens>, g: seq<Tokens>, i: nat, j: nat)
    requires {} !in p && i < |p| && j < |g| && p[i] == g[j] && i !in LeftOf(Matched(p, g, 1.0))
    ensures exists d :: d in Matched(p, g, 1.0) && d.j == j && d.i < |p| && p[d.i] == p[i]
  {
    var m := Matched(p, g, 1.0);
    MatchedIsMaximalMatching(p, g, 1.0);
    assert p[i] in p && p[i] + g[j] == p[i];
    FullOverlap(p[i], g[j]);
    assert Eligible(p, g, 1.0, Cand(Jaccard(p[i], g[j]), i, j));
    var d :| d in m && d.j == j;
    assert Eligible(p, g, 1.0, d);
    FullOverlap(p[d.i], g[d.j]);
  }

  lemma TakenEqualsCount(p: seq<Tokens>, g: seq<Tokens>, i: nat, m: seq<Cand>)
    requires OneToOne(m) && (forall c :: c in m ==> c.i < |p|) && i < |p| && i !in LeftOf(m)
    requires forall j :: j in IndicesOf(g, p[i]) ==> exists d :: d in m && d.j == j && p[d.i] == p[i]
    ensures |IndicesOf(g, p[i])| < |IndicesOf(p, p[i])|
  {
    var x := p[i];
    var mx := With(p, m, x);
    WithIs(p, m, x);
    SidesCount(mx);
    forall j | j in IndicesOf(g, x)
      ensures j in RightOf(mx)
    {
      var d :| d in m && d.j == j && p[d.i] == x;
      assert d in mx;
    }
    SubsetCount(IndicesOf(g, x), RightOf(mx));
    forall k | k in LeftOf(mx)
      ensures k in IndicesOf(p, x) - {i}
    {
      var d :| d in mx && d.i == k;
      assert k in LeftOf(m);
    }
    SubsetCount(LeftOf(mx), IndicesOf(p, x) - {i});
    assert i in IndicesOf(p, x);
  }

  /** At threshold 1 only equal token sets are paired, so a permuted gold leaves no item unmatched. */
  lemma AllMatchedAtOne(p: seq<Tokens>, g: seq<Tokens>, i: nat)
    requires multiset(p) == multiset(g) && {} !in p && i < |p|
    ensures i in LeftOf(Matched(p, g, 1.0))
  {
    var m := Matched(p, g, 1.0);
    if i !in LeftOf(m) {
      MatchedIsMaximalMatching(p, g, 1.0);
      forall j | j in IndicesOf(g, p[i])
        ensures exists d :: d in m && d.j == j && p[d.i] == p[i]
      {
        EqualsAreTaken(p, g, i, j);
      }
      IndicesCount(p, p[i]);
      IndicesCount(g, p[i]);
      TakenEqualsCount(p, g, i, m);
      assert false;
    }
  }

  /** A permutation of a prediction with nonempty token sets scores 1 at every threshold up to 1. */
  lemma PermutedGoldScoresOne(p: seq<Tokens>, g: seq<Tokens>, t: real)
    requires multiset(p) == multiset(g) && {} !in p && t <= 1.0
    ensures SoftScore(p, g, t) == 1.0
  {
    assert |p| == |multiset(p)| == |g|;
    if p != [] {
      var m := Matched(p, g, 1.0);
      forall i: nat | i < |p|
        ensures i in LeftOf(m)
      {
        AllMatchedAtOne(p, g, i);
      }
      MatchedIsMaximalMatching(p, g, 1.0);
      SidesCount(m);
      CoverCount(|p|, LeftOf(m));
      ScoreFallsWithThreshold(p, g, t, 1.0);
      MatchedCount(p, g, t);
      HarmonicBounds(|Matched(p, g, t)|, |p|, |g|);
    }
  }

  lemma {:induction false} CoverCount(n: nat, s: set<nat>)
    requires forall i: nat :: i < n ==> i in s
    ensures |s| >= n
  {
    if n > 0 {
      CoverCount(n - 1, s - {n - 1});
    }
  }
}
