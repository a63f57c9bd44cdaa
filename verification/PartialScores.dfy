/** Averages of a table of scores in [0, 1] of which some cells are unknown: the best and worst cases. */
module PartialScores {
  import opened Common
  import opened Reals
  import opened LinearAlgebra

  /** `statistics.mean`. */
  function Mean(n: nat, f: Vec): real
    requires n > 0
  {
    Sum(n, f) / n as real
  }

  /** The mean over rows of the mean over columns. */
  function Overall(n: nat, m: nat, M: Mat): real
    requires n > 0 && m > 0
  {
    Mean(n, RowMeans(M, m))
  }

  function RowMeans(M: Mat, m: nat): Vec
    requires m > 0
  {
    i => Mean(m, Row(M, i))
  }

  // ---------- means ----------

  lemma MeanTimes(n: nat, f: Vec)
    requires n > 0
    ensures Times(n as real, Mean(n, f)) == Sum(n, f)
  {
    QuotientTimes(Sum(n, f), n as real);
  }

  lemma MeanMix(n: nat, h: Vec, a: real, f: Vec, b: real, g: Vec)
    requires n > 0 && Mixes(n, h, a, f, b, g)
    ensures Mean(n, h) == Mix(a, Mean(n, f), b, Mean(n, g))
  {
    SumMix(n, h, a, f, b, g);
    MeanTimes(n, f);
    MeanTimes(n, g);
    TimesMix(n as real, a, Mean(n, f), b, Mean(n, g));
    QuotientIs(Sum(n, h), n as real, Mix(a, Mean(n, f), b, Mean(n, g)));
  }

  lemma TimesMix(n: real, a: real, x: real, b: real, y: real)
    ensures Times(n, Mix(a, x, b, y)) == Mix(a, Times(n, x), b, Times(n, y))
  {
  }

  lemma {:induction false} SumAtMost(n: nat, f: Vec, g: Vec)
    requires forall i :: 0 <= i < n ==> f(i) <= g(i)
    ensures Sum(n, f) <= Sum(n, g)
  {
    if n > 0 {
      SumAtMost(n - 1, f, g);
    }
  }

  lemma MeanAtMost(n: nat, f: Vec, g: Vec)
    requires n > 0 && forall i :: 0 <= i < n ==> f(i) <= g(i)
    ensures Mean(n, f) <= Mean(n, g)
  {
    SumAtMost(n, f, g);
    MeanTimes(n, f);
    MeanTimes(n, g);
    TimesOrder(Mean(n, f), Mean(n, g), n as real);
  }

  ghost predicate CellsAtMost(n: nat, m: nat, M: Mat, M': Mat) {
    forall i, j :: 0 <= i < n && 0 <= j < m ==> M(i, j) <= M'(i, j)
  }

  lemma OverallAtMost(n: nat, m: nat, M: Mat, M': Mat)
    requires n > 0 && m > 0 && CellsAtMost(n, m, M, M')
    ensures Overall(n, m, M) <= Overall(n, m, M')
  {
    forall i | 0 <= i < n
      ensures RowMeans(M, m)(i) <= RowMeans(M', m)(i)
    {
      MeanAtMost(m, Row(M, i), Row(M', i));
    }
    MeanAtMost(n, RowMeans(M, m), RowMeans(M', m));
  }

  ghost predicate CellsMix(n: nat, m: nat, H: Mat, a: real, F: Mat, b: real, G: Mat) {
    forall i, j :: 0 <= i < n && 0 <= j < m ==> H(i, j) == Mix(a, F(i, j), b, G(i, j))
  }

  lemma OverallMix(n: nat, m: nat, H: Mat, a: real, F: Mat, b: real, G: Mat)
    requires n > 0 && m > 0 && CellsMix(n, m, H, a, F, b, G)
    ensures Overall(n, m, H) == Mix(a, Overall(n, m, F), b, Overall(n, m, G))
  {
    forall i | 0 <= i < n
      ensures RowMeans(H, m)(i) == Mix(a, RowMeans(F, m)(i), b, RowMeans(G, m)(i))
    {
      MeanMix(m, Row(H, i), a, Row(F, i), b, Row(G, i));
    }
    MeanMix(n, RowMeans(H, m), a, RowMeans(F, m), b, RowMeans(G, m));
  }

  /** n m times the overall mean is the sum of all cells. */
  lemma OverallTimes(n: nat, m: nat, M: Mat)
    requires n > 0 && m > 0
    ensures Times(n as real, Times(m as real, Overall(n, m, M))) == Sum(n, RowSums(M, m))
  {
    var k := m as real;
    forall i | 0 <= i < n
      ensures RowSums(M, m)(i) == Mix(k, RowMeans(M, m)(i), 0.0, RowMeans(M, m)(i))
    {
      MeanTimes(m, Row(M, i));
    }
    SumMix(n, RowSums(M, m), k, RowMeans(M, m), 0.0, RowMeans(M, m));
    MeanTimes(n, RowMeans(M, m));
    TimesExchanges(n as real, k, Overall(n, m, M));
  }

  /** Averaging columns first gives the same. */
  lemma OverallByColumns(n: nat, m: nat, M: Mat)
    requires n > 0 && m > 0
    ensures Overall(m, n, Flip(M)) == Overall(n, m, M)
  {
    OverallTimes(n, m, M);
    OverallTimes(m, n, Flip(M));
    SumSwap(n, m, M);
    TimesExchanges(n as real, m as real, Overall(n, m, M));
    TimesCancels(m as real, Times(n as real, Overall(m, n, Flip(M))), Times(n as real, Overall(n, m, M)));
    TimesCancels(n as real, Overall(m, n, Flip(M)), Overall(n, m, M));
  }

  // ---------- tables with unknown cells ----------

  /** K marks the unknown cells with 1; L holds the known scores, in [0, 1], and 0 where K is 1. */
  ghost predicate IsPartial(n: nat, m: nat, L: Mat, K: Mat) {
    forall i, j :: 0 <= i < n && 0 <= j < m ==>
      (K(i, j) == 0.0 && 0.0 <= L(i, j) <= 1.0) || (K(i, j) == 1.0 && L(i, j) == 0.0)
  }

  /** The table with every unknown cell given the value fill has there. */
  function Filled(L: Mat, K: Mat, fill: Mat): Mat { (i, j) => if K(i, j) == 1.0 then fill(i, j) else L(i, j) }

  function Constant(c: real): Mat { (i, j) => c }

  function Worst(L: Mat, K: Mat): Mat { Filled(L, K, Constant(0.0)) }

  function Best(L: Mat, K: Mat): Mat { Filled(L, K, Constant(1.0)) }

  ghost predicate AreScores(n: nat, m: nat, fill: Mat) {
    forall i, j :: 0 <= i < n && 0 <= j < m ==> 0.0 <= fill(i, j) <= 1.0
  }

  /** Whatever the unknown scores are, the overall score lies between the worst and the best case. */
  lemma BoundsHold(n: nat, m: nat, L: Mat, K: Mat, fill: Mat)
    requires n > 0 && m > 0 && AreScores(n, m, fill)
    ensures Overall(n, m, Worst(L, K)) <= Overall(n, m, Filled(L, K, fill)) <= Overall(n, m, Best(L, K))
  {
    OverallAtMost(n, m, Worst(L, K), Filled(L, K, fill));
    OverallAtMost(n, m, Filled(L, K, fill), Best(L, K));
  }

  /** Filling every unknown cell with c moves the overall score c of the way up. */
  lemma ConstantFill(n: nat, m: nat, L: Mat, K: Mat, c: real)
    requires n > 0 && m > 0 && IsPartial(n, m, L, K)
    ensures Overall(n, m, Filled(L, K, Constant(c)))
            == Overall(n, m, Worst(L, K)) + Times(c, Overall(n, m, K))
  {
    var M := Filled(L, K, Constant(c));
    forall i, j | 0 <= i < n && 0 <= j < m
      ensures M(i, j) == Mix(1.0, Worst(L, K)(i, j), c, K(i, j))
    {
    }
    OverallMix(n, m, M, 1.0, Worst(L, K), c, K);
  }

  /** The width is the overall share of unknown cells. */
  lemma WidthIsUnknownShare(n: nat, m: nat, L: Mat, K: Mat)
    requires n > 0 && m > 0 && IsPartial(n, m, L, K)
    ensures Overall(n, m, Best(L, K)) - Overall(n, m, Worst(L, K)) == Overall(n, m, K)
  {
    ConstantFill(n, m, L, K, 1.0);
  }

  /** The bounds are sharp: every value between them is the overall score for some unknown scores in [0, 1]. */
  lemma BoundsSharp(n: nat, m: nat, L: Mat, K: Mat, v: real) returns (c: real)
    requires n > 0 && m > 0 && IsPartial(n, m, L, K)
    requires Overall(n, m, Worst(L, K)) <= v <= Overall(n, m, Best(L, K))
    ensures 0.0 <= c <= 1.0 && Overall(n, m, Filled(L, K, Constant(c))) == v
  {
    var lo, w := Overall(n, m, Worst(L, K)), Overall(n, m, K);
    WidthIsUnknownShare(n, m, L, K);
    if w == 0.0 {
      c := 0.0;
    } else {
      c := (v - lo) / w;
      QuotientTimes(v - lo, w);
      TimesCommutes(w, c);
      TimesOrder(0.0, c, w);
      TimesOrder(c, 1.0, w);
      assert Times(w, 0.0) == 0.0 && Times(w, 1.0) == w;
    }
    ConstantFill(n, m, L, K, c);
    assert Times(0.0, w) == 0.0;
  }

  /** Knowing more cells narrows the bounds. */
  lemma KnowingMoreNarrows(n: nat, m: nat, L: Mat, K: Mat, L': Mat, K': Mat)
    requires n > 0 && m > 0 && IsPartial(n, m, L, K) && IsPartial(n, m, L', K')
    requires forall i, j :: 0 <= i < n && 0 <= j < m && K(i, j) == 0.0 ==> K'(i, j) == 0.0 && L'(i, j) == L(i, j)
    ensures Overall(n, m, Worst(L, K)) <= Overall(n, m, Worst(L', K'))
    ensures Overall(n, m, Best(L', K')) <= Overall(n, m, Best(L, K))
  {
    OverallAtMost(n, m, Worst(L, K), Worst(L', K'));
    OverallAtMost(n, m, Best(L', K'), Best(L, K));
  }

  // ---------- the mean over known cells ----------

  function KnownCount(m: nat, K: Mat, i: int): real { m as real - Sum(m, Row(K, i)) }

  /** The mean over row i's known cells; 0 when it has none. */
  function KnownMean(m: nat, L: Mat, K: Mat, i: int): real {
    if KnownCount(m, K, i) == 0.0 then 0.0 else Sum(m, Row(L, i)) / KnownCount(m, K, i)
  }

  /** The known means of the first n rows that have any known cell. */
  function KnownMeans(n: nat, m: nat, L: Mat, K: Mat): seq<real> {
    if n == 0 then [] else
      KnownMeans(n - 1, m, L, K) + if KnownCount(m, K, n - 1) == 0.0 then [] else [KnownMean(m, L, K, n - 1)]
  }

  function At(s: seq<real>): Vec { i => if 0 <= i < |s| then s[i] else 0.0 }

  function Total(s: seq<real>): real { Sum(|s|, At(s)) }

  /** The mean of a list, 0 when it is empty. */
  function MeanOrZero(s: seq<real>): real { if s == [] then 0.0 else Total(s) / |s| as real }

  lemma {:induction false} RowTotals(m: nat, L: Mat, K: Mat, i: int, n: nat, m': nat)
    requires IsPartial(n, m, L, K) && 0 <= i < n && m' <= m
    ensures 0.0 <= Sum(m', Row(L, i)) <= m' as real - Sum(m', Row(K, i)) <= m' as real
    ensures Sum(m', Row(Worst(L, K), i)) == Sum(m', Row(L, i))
    ensures Sum(m', Row(Best(L, K), i)) == Sum(m', Row(L, i)) + Sum(m', Row(K, i))
  {
    if m' > 0 {
      RowTotals(m, L, K, i, n, m' - 1);
    }
  }

  lemma SmallerShare(s: real, u: real, m: real)
    requires 0.0 <= s <= u <= m && u > 0.0
    ensures 0.0 <= s / m <= s / u <= 1.0
  {
    QuotientTimes(s, m);
    QuotientTimes(s, u);
    TimesOrder(0.0, s / m, m);
    TimesOrder(s / u, 1.0, u);
    TimesOrder(0.0, s / u, u);
    assert Times(m, 0.0) == 0.0 == Times(u, 0.0) && Times(u, 1.0) == u;
    TimesMonotone(u, m, s / u);
    TimesOrder(s / m, s / u, m);
  }

  /** A row's known mean lies between its worst and best mean. */
  lemma KnownMeanBetween(n: nat, m: nat, L: Mat, K: Mat, i: int)
    requires m > 0 && IsPartial(n, m, L, K) && 0 <= i < n && KnownCount(m, K, i) != 0.0
    ensures 0.0 <= RowMeans(Worst(L, K), m)(i) <= KnownMean(m, L, K, i) <= RowMeans(Best(L, K), m)(i) <= 1.0
  {
    RowTotals(m, L, K, i, n, m);
    var s, u, d := Sum(m, Row(L, i)), KnownCount(m, K, i), m as real;
    SmallerShare(s, u, d);
    SmallerShare(u - s, u, d);
    Complement(s, u);
    Complement(s + (d - u), d);
    assert Row(Best(L, K), i) == Row(Best(L, K), i);
    assert RowMeans(Best(L, K), m)(i) == (s + (d - u)) / d;
  }

  lemma Complement(s: real, u: real)
    requires u > 0.0
    ensures (u - s) / u == 1.0 - s / u
  {
    QuotientTimes(s, u);
    TimesLinear(u, 1.0, -(s / u));
    TimesNegate(u, s / u);
    QuotientIs(u - s, u, 1.0 - s / u);
  }

  /** A row without known cells runs from 0 to 1. */
  lemma UnknownRow(n: nat, m: nat, L: Mat, K: Mat, i: int)
    requires m > 0 && IsPartial(n, m, L, K) && 0 <= i < n && KnownCount(m, K, i) == 0.0
    ensures RowMeans(Worst(L, K), m)(i) == 0.0 && RowMeans(Best(L, K), m)(i) == 1.0
  {
    RowTotals(m, L, K, i, n, m);
    QuotientIs(0.0, m as real, 0.0);
    QuotientIs(m as real, m as real, 1.0);
  }

  lemma {:induction false} AppendSum(s: seq<real>, x: real, k: nat)
    requires k <= |s|
    ensures Sum(k, At(s + [x])) == Sum(k, At(s))
  {
    if k > 0 {
      AppendSum(s, x, k - 1);
    }
  }

  lemma TotalAppend(s: seq<real>, x: real)
    ensures Total(s + [x]) == Total(s) + x
  {
    AppendSum(s, x, |s|);
    assert At(s + [x])(|s|) == x;
  }

  /** The first n values of f. */
  function Prefix(n: nat, f: Vec): (s: seq<real>)
    ensures |s| == n
  {
    seq(n, i => f(i))
  }

  lemma PrefixStep(n: nat, f: Vec)
    ensures Prefix(n + 1, f) == Prefix(n, f) + [f(n)]
  {
  }

  lemma {:induction false} TotalPrefix(n: nat, f: Vec)
    ensures Total(Prefix(n, f)) == Sum(n, f)
  {
    SumSame(n, At(Prefix(n, f)), f);
  }

  lemma MeanOfPrefix(n: nat, f: Vec)
    requires n > 0
    ensures MeanOrZero(Prefix(n, f)) == Mean(n, f)
  {
    TotalPrefix(n, f);
  }

  /** The totals over the first k rows: of the worst means, of the known means, of the best means. */
  ghost predicate TotalsBetween(k: nat, lo: real, s: seq<real>, up: real) {
    && |s| <= k && 0.0 <= Total(s) <= |s| as real
    && lo <= Total(s) && k as real - up <= |s| as real - Total(s)
  }

  lemma KnownRow(k: nat, lo: real, s: seq<real>, up: real, x: real, worst: real, best: real)
    requires TotalsBetween(k, lo, s, up) && 0.0 <= worst <= x <= best <= 1.0
    ensures TotalsBetween(k + 1, lo + worst, s + [x], up + best)
  {
    TotalAppend(s, x);
  }

  /** Row by row, the sum of the known means lies between the sums of the worst and best means, counting a row that
      has none as unknown. */
  lemma {:induction false} KnownTotals(n: nat, m: nat, L: Mat, K: Mat, k: nat)
    requires m > 0 && IsPartial(n, m, L, K) && k <= n
    ensures TotalsBetween(k, Sum(k, RowMeans(Worst(L, K), m)), KnownMeans(k, m, L, K), Sum(k, RowMeans(Best(L, K), m)))
  {
    if k > 0 {
      KnownTotals(n, m, L, K, k - 1);
      if KnownCount(m, K, k - 1) == 0.0 {
        UnknownRow(n, m, L, K, k - 1);
        assert KnownMeans(k, m, L, K) == KnownMeans(k - 1, m, L, K);
      } else {
        KnownMeanBetween(n, m, L, K, k - 1);
        KnownRow(k - 1, Sum(k - 1, RowMeans(Worst(L, K), m)), KnownMeans(k - 1, m, L, K),
                 Sum(k - 1, RowMeans(Best(L, K), m)), KnownMean(m, L, K, k - 1),
                 RowMeans(Worst(L, K), m)(k - 1), RowMeans(Best(L, K), m)(k - 1));
      }
    }
  }

  /** The score over known cells only lies inside the bounds, even when some rows are entirely unknown. */
  lemma KnownOnlyInside(n: nat, m: nat, L: Mat, K: Mat)
    requires n > 0 && m > 0 && IsPartial(n, m, L, K)
    ensures Overall(n, m, Worst(L, K)) <= MeanOrZero(KnownMeans(n, m, L, K)) <= Overall(n, m, Best(L, K))
  {
    var s := KnownMeans(n, m, L, K);
    KnownTotals(n, m, L, K, n);
    var lo, up, t, c, d :=
      Sum(n, RowMeans(Worst(L, K), m)), Sum(n, RowMeans(Best(L, K), m)), Total(s), |s| as real, n as real;
    if s == [] {
      SumAtLeastZero(n, m, L, K);
      QuotientIs(lo, d, 0.0);
      QuotientNonNegative(up, d);
    } else {
      SmallerShare(t, c, d);
      ShareOrder(lo, t, d);
      SmallerShare(c - t, c, d);
      ShareOrder(d - up, c - t, d);
      Complement(t, c);
      Complement(up, d);
    }
  }

  lemma ShareOrder(x: real, y: real, d: real)
    requires x <= y && d > 0.0
    ensures x / d <= y / d
  {
    QuotientTimes(x, d);
    QuotientTimes(y, d);
    TimesOrder(x / d, y / d, d);
  }

  lemma SumAtLeastZero(n: nat, m: nat, L: Mat, K: Mat)
    requires m > 0 && IsPartial(n, m, L, K)
    ensures 0.0 <= Sum(n, RowMeans(Worst(L, K), m)) && 0.0 <= Sum(n, RowMeans(Best(L, K), m))
  {
    forall i | 0 <= i < n
      ensures RowMeans(Worst(L, K), m)(i) >= 0.0 && RowMeans(Best(L, K), m)(i) >= 0.0
    {
      if KnownCount(m, K, i) == 0.0 {
        UnknownRow(n, m, L, K, i);
      } else {
        KnownMeanBetween(n, m, L, K, i);
      }
    }
    SumNonNegative(n, RowMeans(Worst(L, K), m));
    SumNonNegative(n, RowMeans(Best(L, K), m));
  }
}
