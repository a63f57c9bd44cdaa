/** Fleiss' kappa on a table of counts (eval/agreement.py): `table[i][j]` raters put item i in category j. */
module Fleiss {
  import opened Common
  import opened Reals
  import opened Sums
  import opened Agreement

  type Table = seq<seq<nat>>

  function RowSum(row: seq<nat>): nat {
    if row == [] then 0 else RowSum(row[..|row| - 1]) + row[|row| - 1]
  }

  function SquareSum(row: seq<nat>): nat {
    if row == [] then 0 else SquareSum(row[..|row| - 1]) + row[|row| - 1] * row[|row| - 1]
  }

  function ColumnSum(table: Table, j: nat): nat
    requires forall i :: 0 <= i < |table| ==> j < |table[i]|
  {
    if table == [] then 0 else ColumnSum(table[..|table| - 1], j) + table[|table| - 1][j]
  }

  /** The sum of the squared shares of the first `k` categories, out of `total` ratings. */
  function SharesSquared(table: Table, k: nat, total: nat): real
    requires total > 0 && forall i :: 0 <= i < |table| ==> k <= |table[i]|
  {
    if k == 0 then 0.0 else
      SharesSquared(table, k - 1, total) + Square(ColumnSum(table, k - 1) as real / total as real)
  }

  /** The share of agreeing rater pairs within one item. */
  function ItemAgreement(row: seq<nat>, raters: nat): real
    requires raters >= 2
  {
    (SquareSum(row) - raters) as real / (raters * (raters - 1)) as real
  }

  function AgreementSum(table: Table, raters: nat): real
    requires raters >= 2
  {
    if table == [] then 0.0 else
      AgreementSum(table[..|table| - 1], raters) + ItemAgreement(table[|table| - 1], raters)
  }

  predicate Even(table: Table) {
    forall i :: 0 <= i < |table| ==> RowSum(table[i]) == RowSum(table[0])
  }

  predicate Short(table: Table, width: nat) {
    exists i :: 0 <= i < |table| && |table[i]| < width
  }

  function KappaOf(pBar: real, pE: real): Option<real> {
    if pE == 1.0 then if pBar == 1.0 then Some(1.0) else None
    else Some((pBar - pE) / (1.0 - pE))
  }

  /** The errors come in the order in which the comprehensions raise them. */
  function FleissKappa(table: Table): Result<Option<real>, Error> {
    if table == [] then Ok(None) else
      var items, raters, width := |table|, RowSum(table[0]), |table[0]|;
      if !Even(table) then Err(ValueError)
      else if Short(table, MinNat(width, 1)) then Err(IndexError)
      else if raters == 0 then Err(ZeroDivisionError)
      else if Short(table, width) then Err(IndexError)
      else if raters == 1 then Err(ZeroDivisionError)
      else Ok(KappaOf(AgreementSum(table, raters) / items as real, SharesSquared(table, width, items * raters)))
  }

  /** A table that `fleiss_kappa` accepts: no row is short, and all rows have the same sum of two or more. */
  predicate Accepted(table: Table) {
    table != [] && Even(table) && RowSum(table[0]) >= 2 && !Short(table, |table[0]|)
  }

  // ---------- bounds on the counts ----------

  lemma {:induction false} SquareSumBound(row: seq<nat>)
    ensures SquareSum(row) <= RowSum(row) * RowSum(row)
  {
    if row != [] {
      var r, x := RowSum(row[..|row| - 1]), row[|row| - 1];
      SquareSumBound(row[..|row| - 1]);
      assert (r + x) * (r + x) == r * r + 2 * (r * x) + x * x && r * x >= 0;
    }
  }

  lemma {:induction false} EntryBound(row: seq<nat>, j: nat)
    requires j < |row|
    ensures row[j] <= RowSum(row) && row[j] * row[j] <= SquareSum(row)
  {
    var init, x := row[..|row| - 1], row[|row| - 1];
    assert x * x >= 0;
    if j < |row| - 1 {
      EntryBound(init, j);
    }
  }

  lemma ProductStep(n: nat, k: nat)
    ensures (n + 1) * k == n * k + k
  {
  }

  lemma {:induction false} ColumnBound(table: Table, j: nat, raters: nat)
    requires forall i :: 0 <= i < |table| ==> j < |table[i]| && RowSum(table[i]) == raters
    ensures ColumnSum(table, j) <= |table| * raters
    ensures ColumnSum(table, j) == |table| * raters ==> forall i :: 0 <= i < |table| ==> table[i][j] == raters
  {
    if table != [] {
      var init := table[..|table| - 1];
      ColumnBound(init, j, raters);
      EntryBound(table[|table| - 1], j);
      ProductStep(|init|, raters);
    }
  }

  function ColumnTotals(table: Table, k: nat): nat
    requires forall i :: 0 <= i < |table| ==> k <= |table[i]|
  {
    if k == 0 then 0 else ColumnTotals(table, k - 1) + ColumnSum(table, k - 1)
  }

  function ColumnSquares(table: Table, k: nat): nat
    requires forall i :: 0 <= i < |table| ==> k <= |table[i]|
  {
    if k == 0 then 0 else ColumnSquares(table, k - 1) + ColumnSum(table, k - 1) * ColumnSum(table, k - 1)
  }

  lemma {:induction false} PrefixSum(row: seq<nat>, k: nat)
    requires k <= |row|
    ensures RowSum(row[..k]) <= RowSum(row)
    decreases |row| - k
  {
    if k < |row| {
      assert row[..k + 1][..k] == row[..k];
      PrefixSum(row, k + 1);
    } else {
      assert row[..k] == row;
    }
  }

  lemma {:induction false} TotalsOfRows(table: Table, k: nat)
    requires table != [] && forall i :: 0 <= i < |table| ==> k <= |table[i]|
    ensures ColumnTotals(table, k) == ColumnTotals(table[..|table| - 1], k) + RowSum(table[|table| - 1][..k])
  {
    if k != 0 {
      TotalsOfRows(table, k - 1);
      var row := table[|table| - 1];
      assert row[..k][..k - 1] == row[..k - 1];
    }
  }

  lemma {:induction false} TotalsBound(table: Table, k: nat, raters: nat)
    requires forall i :: 0 <= i < |table| ==> k <= |table[i]| && RowSum(table[i]) == raters
    ensures ColumnTotals(table, k) <= |table| * raters
    decreases |table|
  {
    if table == [] {
      EmptyTotals(k);
    } else {
      TotalsBound(table[..|table| - 1], k, raters);
      TotalsOfRows(table, k);
      PrefixSum(table[|table| - 1], k);
      ProductStep(|table| - 1, raters);
    }
  }

  lemma {:induction false} EmptyTotals(k: nat)
    ensures ColumnTotals([], k) == 0
  {
    if k != 0 {
      EmptyTotals(k - 1);
    }
  }

  lemma ShareBound(c: nat, total: nat)
    requires c <= total
    ensures c * c <= total * c && (c * c == total * c ==> c == 0 || c == total)
  {
    assert total * c - c * c == (total - c) * c;
  }

  lemma Distribute(t: nat, a: nat, b: nat)
    ensures t * (a + b) == t * a + t * b
  {
  }

  /** The column squares stay below total times the column totals; equality means every column is empty or full. */
  lemma {:induction false} SquaresBound(table: Table, k: nat, total: nat)
    requires forall i :: 0 <= i < |table| ==> k <= |table[i]|
    requires forall j: nat {:trigger ColumnSum(table, j)} :: j < k ==> ColumnSum(table, j) <= total
    ensures ColumnSquares(table, k) <= total * ColumnTotals(table, k)
    ensures ColumnSquares(table, k) == total * ColumnTotals(table, k) && ColumnSquares(table, k) > 0
            ==> exists j: nat :: j < k && ColumnSum(table, j) == total
  {
    if k != 0 {
      SquaresBound(table, k - 1, total);
      var c := ColumnSum(table, k - 1);
      ShareBound(c, total);
      Distribute(total, ColumnTotals(table, k - 1), c);
    }
  }

  // ---------- the two averages as quotients of counts ----------

  function TableSquares(table: Table): nat {
    if table == [] then 0 else TableSquares(table[..|table| - 1]) + SquareSum(table[|table| - 1])
  }

  lemma SquareOfQuotient(c: nat, total: nat)
    requires total > 0
    ensures Square(c as real / total as real) == (c * c) as real / (total * total) as real
  {
    var x, t := c as real / total as real, total as real;
    assert x * t == c as real;
    assert (x * t) * (x * t) == (x * x) * (t * t);
    assert (c * c) as real == (c as real) * (c as real) && (total * total) as real == t * t;
  }

  lemma AddQuotients(a: int, b: int, m: int)
    requires m > 0
    ensures a as real / m as real + b as real / m as real == (a + b) as real / m as real
  {
  }

  lemma {:induction false} SharesAsQuotient(table: Table, k: nat, total: nat)
    requires total > 0 && forall i :: 0 <= i < |table| ==> k <= |table[i]|
    ensures total * total > 0
    ensures SharesSquared(table, k, total) == ColumnSquares(table, k) as real / (total * total) as real
  {
    assert total * total > 0;
    if k != 0 {
      SharesAsQuotient(table, k - 1, total);
      var c := ColumnSum(table, k - 1);
      SquareOfQuotient(c, total);
      AddQuotients(ColumnSquares(table, k - 1), c * c, total * total);
    }
  }

  lemma {:induction false} AgreementAsQuotient(table: Table, raters: nat)
    requires raters >= 2
    ensures raters * (raters - 1) > 0
    ensures AgreementSum(table, raters)
          == (TableSquares(table) - |table| * raters) as real / (raters * (raters - 1)) as real
  {
    assert raters * (raters - 1) > 0;
    if table != [] {
      var init := table[..|table| - 1];
      AgreementAsQuotient(init, raters);
      ProductStep(|init|, raters);
      AddQuotients(TableSquares(init) - |init| * raters, SquareSum(table[|table| - 1]) - raters, raters * (raters - 1));
    }
  }

  // ---------- kappa is defined and at most 1 ----------

  lemma {:induction false} TableSquaresBound(table: Table, raters: nat)
    requires forall i :: 0 <= i < |table| ==> RowSum(table[i]) == raters
    ensures TableSquares(table) <= |table| * (raters * raters)
    ensures TableSquares(table) == |table| * (raters * raters)
            <==> forall i :: 0 <= i < |table| ==> SquareSum(table[i]) == raters * raters
  {
    if table != [] {
      var init := table[..|table| - 1];
      TableSquaresBound(init, raters);
      SquareSumBound(table[|table| - 1]);
      ProductStep(|init|, raters * raters);
      assert forall i :: 0 <= i < |init| ==> init[i] == table[i];
    }
  }

  lemma QuotientAtMostOne(a: int, b: int)
    requires b > 0
    ensures a as real / b as real <= 1.0 <==> a <= b
    ensures a as real / b as real == 1.0 <==> a == b
  {
  }

  lemma AverageAgreement(table: Table, raters: nat)
    requires table != [] && raters >= 2 && forall i :: 0 <= i < |table| ==> RowSum(table[i]) == raters
    ensures AgreementSum(table, raters) / |table| as real <= 1.0
    ensures AgreementSum(table, raters) / |table| as real == 1.0
            <==> forall i :: 0 <= i < |table| ==> SquareSum(table[i]) == raters * raters
  {
    var n, d := |table|, raters * (raters - 1);
    var q := TableSquares(table) - n * raters;
    AgreementAsQuotient(table, raters);
    TableSquaresBound(table, raters);
    SplitSquare(n, raters);
    CompareQuotient(AgreementSum(table, raters), q, d, n);
  }

  lemma SplitSquare(n: nat, k: nat)
    ensures n * (k * k) == n * k + n * (k * (k - 1))
  {
    assert k * k == k + k * (k - 1);
  }

  lemma CompareQuotient(s: real, q: int, d: int, n: int)
    requires d > 0 && n > 0 && s == q as real / d as real
    ensures s / n as real <= 1.0 <==> q <= n * d
    ensures s / n as real == 1.0 <==> q == n * d
  {
    var x := s / n as real;
    assert x * n as real == s && s * d as real == q as real;
    assert (n * d) as real == n as real * d as real;
    assert x * (n * d) as real == q as real by {
      assert x * (n as real * d as real) == (x * n as real) * d as real;
    }
    var m := n * d;
    assert m > 0;
    assert x == q as real / m as real;
    QuotientAtMostOne(q, m);
  }

  lemma FullRow(row: seq<nat>, j: nat, raters: nat)
    requires j < |row| && row[j] == raters && RowSum(row) == raters
    ensures SquareSum(row) == raters * raters
  {
    EntryBound(row, j);
    SquareSumBound(row);
  }

  /** Expected agreement is at most 1, and reaches 1 only when one category holds every rating. */
  lemma ExpectedAgreement(table: Table, k: nat, raters: nat)
    requires table != [] && raters > 0
    requires forall i :: 0 <= i < |table| ==> k <= |table[i]| && RowSum(table[i]) == raters
    ensures |table| * raters > 0
    ensures SharesSquared(table, k, |table| * raters) <= 1.0
    ensures SharesSquared(table, k, |table| * raters) == 1.0
            ==> exists j: nat :: j < k && ColumnSum(table, j) == |table| * raters
  {
    var total := |table| * raters;
    assert total > 0;
    SharesAsQuotient(table, k, total);
    TotalsBound(table, k, raters);
    forall j: nat | j < k ensures ColumnSum(table, j) <= total {
      ColumnBound(table, j, raters);
    }
    SquaresBound(table, k, total);
    SquareChain(ColumnSquares(table, k), ColumnTotals(table, k), total);
    QuotientAtMostOne(ColumnSquares(table, k), total * total);
  }

  lemma SquareChain(s: nat, c: nat, total: nat)
    requires s <= total * c && c <= total && total > 0
    ensures s <= total * total && (s == total * total ==> s == total * c && s > 0)
  {
    assert total * total - total * c == total * (total - c) >= 0;
  }

  lemma KappaAtMostOne(pBar: real, pE: real)
    requires pBar <= 1.0 && pE < 1.0
    ensures KappaOf(pBar, pE).Some? && KappaOf(pBar, pE).value <= 1.0
    ensures KappaOf(pBar, pE).value == 1.0 <==> pBar == 1.0
  {
    var x, d := pBar - pE, 1.0 - pE;
    assert (x / d) * d == x;
    if x / d > 1.0 {
      assert (x / d) * d > d;
    }
  }

  /** One category holds all ratings of the item. */
  ghost predicate InOneCategory(row: seq<nat>) {
    exists j :: 0 <= j < |row| && row[j] == RowSum(row)
  }

  lemma NoCrossTerm(r: nat, x: nat, s: nat)
    requires s <= r * r && s + x * x == (r + x) * (r + x)
    ensures s == r * r && (r == 0 || x == 0)
  {
    assert (r + x) * (r + x) == r * r + 2 * (r * x) + x * x && r * x >= 0;
    NoProduct(r, x);
  }

  lemma NoProduct(r: nat, x: nat)
    ensures r * x == 0 ==> r == 0 || x == 0
  {
  }

  lemma {:induction false} SquaredIsOneCategory(row: seq<nat>)
    requires SquareSum(row) == RowSum(row) * RowSum(row) && RowSum(row) > 0
    ensures InOneCategory(row)
  {
    var init, x := row[..|row| - 1], row[|row| - 1];
    SquareSumBound(init);
    NoCrossTerm(RowSum(init), x, SquareSum(init));
    if x == 0 {
      SquaredIsOneCategory(init);
      var j :| 0 <= j < |init| && init[j] == RowSum(init);
      assert row[j] == RowSum(row);
    } else {
      assert row[|row| - 1] == RowSum(row);
    }
  }

  /** The squares reach the square of the sum exactly when one category holds the whole row. */
  lemma OneCategoryIff(row: seq<nat>)
    requires RowSum(row) > 0
    ensures SquareSum(row) == RowSum(row) * RowSum(row) <==> InOneCategory(row)
  {
    if SquareSum(row) == RowSum(row) * RowSum(row) {
      SquaredIsOneCategory(row);
    }
    if InOneCategory(row) {
      var j :| 0 <= j < |row| && row[j] == RowSum(row);
      FullRow(row, j, RowSum(row));
    }
  }

  /** On every table the function accepts kappa is a number, at most 1, and 1 exactly when every item is unanimous;
      the `None` of a full expected agreement is never returned. */
  lemma KappaOutcome(table: Table)
    ensures FleissKappa(table).Ok? <==> table == [] || Accepted(table)
    ensures FleissKappa(table) == Ok(None) <==> table == []
    ensures Accepted(table) ==>
              var kappa := FleissKappa(table).value.value;
              && kappa <= 1.0
              && (kappa == 1.0 <==> forall i :: 0 <= i < |table| ==> InOneCategory(table[i]))
  {
    if Accepted(table) {
      var raters, width := RowSum(table[0]), |table[0]|;
      forall i | 0 <= i < |table| ensures width <= |table[i]| && RowSum(table[i]) == raters {
      }
      AverageAgreement(table, raters);
      ExpectedAgreement(table, width, raters);
      var pBar, pE := AgreementSum(table, raters) / |table| as real, SharesSquared(table, width, |table| * raters);
      if pE == 1.0 {
        var j: nat :| j < width && ColumnSum(table, j) == |table| * raters;
        ColumnBound(table, j, raters);
        forall i | 0 <= i < |table| ensures SquareSum(table[i]) == raters * raters {
          FullRow(table[i], j, raters);
        }
      } else {
        KappaAtMostOne(pBar, pE);
      }
      forall i | 0 <= i < |table| ensures SquareSum(table[i]) == raters * raters <==> InOneCategory(table[i]) {
        OneCategoryIff(table[i]);
      }
    }
  }
}
