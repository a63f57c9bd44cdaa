/** The round-robin sampler over labels (engine/data.py). */
module Subsample {
  import opened Common

  datatype Example = Example(text: string, lab: string, locale: string)

  /** The rows of one label, in order. */
  function Of(rows: seq<Example>, lab: string): seq<Example> {
    if rows == [] then [] else
      var last := |rows| - 1;
      Of(rows[..last], lab) + if rows[last].lab == lab then [rows[last]] else []
  }

  lemma OfStep(rows: seq<Example>, e: Example, lab: string)
    ensures Of(rows + [e], lab) == Of(rows, lab) + if e.lab == lab then [e] else []
  {
    assert (rows + [e])[..|rows|] == rows;
  }

  /** The dictionary of lists that the first loop builds. */
  method Group(rows: seq<Example>) returns (byLabel: map<string, seq<Example>>)
    ensures forall e :: e in rows ==> e.lab in byLabel
    ensures forall lab :: lab in byLabel ==> byLabel[lab] == Of(rows, lab) != []
  {
    byLabel := map[];
    for k := 0 to |rows|
      invariant forall e :: e in rows[..k] ==> e.lab in byLabel
      invariant forall lab :: lab in byLabel ==> byLabel[lab] == Of(rows[..k], lab) != []
      invariant forall lab :: lab !in byLabel ==> Of(rows[..k], lab) == []
    {
      var e := rows[k];
      assert rows[..k + 1] == rows[..k] + [e];
      forall lab
        ensures Of(rows[..k + 1], lab) == Of(rows[..k], lab) + if e.lab == lab then [e] else []
      {
        OfStep(rows[..k], e, lab);
      }
      byLabel := byLabel[e.lab := (if e.lab in byLabel then byLabel[e.lab] else []) + [e]];
    }
    assert rows[..|rows|] == rows;
  }

  /** The shuffled lists: of each label that occurs, its rows in some order; labels is the sorted key list. */
  ghost predicate IsShuffle(rows: seq<Example>, labels: seq<string>, lists: map<string, seq<Example>>) {
    && Distinct(labels)
    && (forall lab :: lab in labels <==> lab in lists)
    && (forall e :: e in rows ==> e.lab in labels)
    && forall lab :: lab in labels ==> multiset(lists[lab]) == multiset(Of(rows, lab))
  }

  function Capped(list: seq<Example>, r: nat): seq<Example> { list[..MinNat(r, |list|)] }

  /** Of this label the sample holds what r turns give. */
  ghost predicate HasTaken(out: seq<Example>, lists: map<string, seq<Example>>, lab: string, r: nat) {
    lab in lists && Of(out, lab) == Capped(lists[lab], r)
  }

  /** The labels before q have had r + 1 turns, the others r. */
  ghost predicate AfterTurns(out: seq<Example>, labels: seq<string>, lists: map<string, seq<Example>>, r: nat, q: nat)
  {
    && (forall e :: e in out ==> e.lab in labels)
    && forall k :: 0 <= k < |labels| ==>
         HasTaken(out, lists, labels[k], if k < q then r + 1 else r)
  }

  lemma {:induction false} OfLabel(rows: seq<Example>, lab: string, e: Example)
    ensures e in Of(rows, lab) <==> e in rows && e.lab == lab
  {
    if rows != [] {
      OfLabel(rows[..|rows| - 1], lab, e);
      assert rows == rows[..|rows| - 1] + [rows[|rows| - 1]];
    }
  }

  /** What a label's shuffled list holds carries that label. */
  lemma ListLabel(rows: seq<Example>, labels: seq<string>, lists: map<string, seq<Example>>, lab: string, e: Example)
    requires IsShuffle(rows, labels, lists) && lab in labels && e in lists[lab]
    ensures e.lab == lab
  {
    assert e in multiset(lists[lab]);
    OfLabel(rows, lab, e);
  }

  lemma TurnAt(rows: seq<Example>, out: seq<Example>, labels: seq<string>, lists: map<string, seq<Example>>,
               r: nat, q: nat, k: nat)
    requires IsShuffle(rows, labels, lists) && q < |labels| && k < |labels|
    requires HasTaken(out, lists, labels[k], if k < q then r + 1 else r) && r < |lists[labels[q]]|
    ensures HasTaken(out + [lists[labels[q]][r]], lists, labels[k], if k < q + 1 then r + 1 else r)
  {
    var e := lists[labels[q]][r];
    ListLabel(rows, labels, lists, labels[q], e);
    OfStep(out, e, labels[k]);
    if k == q {
      NextOfList(lists[labels[q]], r);
    } else {
      assert labels[k] != labels[q];
    }
  }

  lemma NextOfList(list: seq<Example>, r: nat)
    requires r < |list|
    ensures Capped(list, r + 1) == Capped(list, r) + [list[r]]
  {
  }

  lemma AddTurn(rows: seq<Example>, out: seq<Example>, labels: seq<string>, lists: map<string, seq<Example>>,
                r: nat, q: nat)
    requires IsShuffle(rows, labels, lists) && q < |labels| && AfterTurns(out, labels, lists, r, q)
    requires r < |lists[labels[q]]|
    ensures AfterTurns(out + [lists[labels[q]][r]], labels, lists, r, q + 1)
  {
    var e := lists[labels[q]][r];
    ListLabel(rows, labels, lists, labels[q], e);
    forall k | 0 <= k < |labels|
      ensures HasTaken(out + [e], lists, labels[k], if k < q + 1 then r + 1 else r)
    {
      TurnAt(rows, out, labels, lists, r, q, k);
    }
  }

  lemma SkipTurn(out: seq<Example>, labels: seq<string>, lists: map<string, seq<Example>>, r: nat, q: nat)
    requires q < |labels| && AfterTurns(out, labels, lists, r, q)
    requires labels[q] in lists && r >= |lists[labels[q]]|
    ensures AfterTurns(out, labels, lists, r, q + 1)
  {
    assert HasTaken(out, lists, labels[q], r);
  }

  /** Label q takes its next turn. */
  lemma TakeTurn(rows: seq<Example>, out: seq<Example>, labels: seq<string>, lists: map<string, seq<Example>>,
                 r: nat, q: nat)
    requires IsShuffle(rows, labels, lists) && q < |labels| && AfterTurns(out, labels, lists, r, q)
    ensures var list := lists[labels[q]];
      AfterTurns(if r < |list| then out + [list[r]] else out, labels, lists, r, q + 1) == true
  {
    if r < |lists[labels[q]]| {
      AddTurn(rows, out, labels, lists, r, q);
    } else {
      SkipTurn(out, labels, lists, r, q);
    }
  }

  /** The sample after some turns, all of round i unless it is full. */
  ghost predicate Progress(out: seq<Example>, n: int, labels: seq<string>, lists: map<string, seq<Example>>,
                           r: nat, q: nat, i: nat, k: nat)
  {
    && q <= |labels| && AfterTurns(out, labels, lists, r, q)
    && (n > 0 ==> |out| <= n) && (n <= 0 ==> out == [])
    && (|out| < n ==> r == i && q == k)
  }

  lemma NextTurn(rows: seq<Example>, out: seq<Example>, n: int, labels: seq<string>, lists: map<string, seq<Example>>,
                 r: nat, i: nat, k: nat)
    requires IsShuffle(rows, labels, lists) && k < |labels| && |out| < n && Progress(out, n, labels, lists, r, k, i, k)
    ensures var list := lists[labels[k]];
      Progress(if i < |list| then out + [list[i]] else out, n, labels, lists, r, k + 1, i, k + 1) == true
  {
    TakeTurn(rows, out, labels, lists, r, k);
  }

  lemma FullStays(out: seq<Example>, n: int, labels: seq<string>, lists: map<string, seq<Example>>,
                  r: nat, q: nat, i: nat, k: nat)
    requires |out| >= n && Progress(out, n, labels, lists, r, q, i, k)
    ensures Progress(out, n, labels, lists, r, q, i, k + 1) == true
  {
  }

  /** The inner loop: one round over the labels. */
  method Round(rows: seq<Example>, out: seq<Example>, n: int, labels: seq<string>, lists: map<string, seq<Example>>,
               i: nat, ghost r: nat)
    returns (out': seq<Example>, ghost q: nat)
    requires IsShuffle(rows, labels, lists) && |out| < n && Progress(out, n, labels, lists, r, 0, i, 0)
    ensures Progress(out', n, labels, lists, r, q, i, |labels|)
  {
    out', q := out, 0;
    for k := 0 to |labels|
      invariant Progress(out', n, labels, lists, r, q, i, k) == true
    {
      if |out'| < n {
        NextTurn(rows, out', n, labels, lists, r, i, k);
        q := k + 1;
        if i < |lists[labels[k]]| {
          out' := out' + [lists[labels[k]][i]];
        }
      } else {
        FullStays(out', n, labels, lists, r, q, i, k);
      }
    }
  }

  lemma Finished(rows: seq<Example>, out: seq<Example>, n: int, labels: seq<string>, lists: map<string, seq<Example>>,
                 r: nat, q: nat, i: nat)
    requires IsShuffle(rows, labels, lists) && Progress(out, n, labels, lists, r, q, i, 0)
    requires |out| >= n || forall lab :: lab in labels ==> |lists[lab]| <= i
    ensures |out| == if n <= 0 then 0 else MinNat(n, |rows|)
    ensures q <= |labels| && AfterTurns(out, labels, lists, r, q) == true
  {
    LengthAfterTurns(rows, out, labels, lists, r, q);
  }

  lemma RoundDone(out: seq<Example>, n: int, labels: seq<string>, lists: map<string, seq<Example>>,
                  r: nat, q: nat, i: nat)
    requires Progress(out, n, labels, lists, r, q, i, |labels|)
    ensures if |out| < n then Progress(out, n, labels, lists, r + 1, 0, i + 1, 0) == true
            else Progress(out, n, labels, lists, r, q, i + 1, 0) == true
  {
    if |out| < n {
      NextRound(out, labels, lists, r);
    }
  }

  /** `stratified_subsample`, given the shuffled lists. */
  method StratifiedSubsample(rows: seq<Example>, n: int, labels: seq<string>, lists: map<string, seq<Example>>)
    returns (out: seq<Example>, ghost r: nat, ghost q: nat)
    requires IsShuffle(rows, labels, lists)
    ensures |out| == if n <= 0 then 0 else MinNat(n, |rows|)
    ensures q <= |labels| && AfterTurns(out, labels, lists, r, q)
  {
    out, r, q := [], 0, 0;
    var i := 0;
    while |out| < n && exists lab :: lab in labels && i < |lists[lab]|
      invariant Progress(out, n, labels, lists, r, q, i, 0) == true
      decreases |rows| - i
    {
      ghost var some :| some in labels && i < |lists[some]|;
      LengthOfList(rows, labels, lists, some);
      out, q := Round(rows, out, n, labels, lists, i, r);
      RoundDone(out, n, labels, lists, r, q, i);
      i := i + 1;
      if |out| < n {
        r, q := r + 1, 0;
      }
    }
    Finished(rows, out, n, labels, lists, r, q, i);
  }

  lemma NextRound(out: seq<Example>, labels: seq<string>, lists: map<string, seq<Example>>, r: nat)
    requires AfterTurns(out, labels, lists, r, |labels|)
    ensures AfterTurns(out, labels, lists, r + 1, 0) == true
  {
  }

  // ---------- lengths ----------

  function Without(rows: seq<Example>, lab: string): seq<Example> {
    if rows == [] then [] else
      var last := |rows| - 1;
      Without(rows[..last], lab) + if rows[last].lab == lab then [] else [rows[last]]
  }

  lemma {:induction false} WithoutCount(rows: seq<Example>, lab: string)
    ensures |rows| == |Of(rows, lab)| + |Without(rows, lab)|
  {
    if rows != [] {
      WithoutCount(rows[..|rows| - 1], lab);
    }
  }

  lemma {:induction false} WithoutOthers(rows: seq<Example>, lab: string, other: string)
    requires other != lab
    ensures Of(Without(rows, lab), other) == Of(rows, other)
  {
    if rows != [] {
      var last := |rows| - 1;
      WithoutOthers(rows[..last], lab, other);
      if rows[last].lab == lab {
        assert Without(rows, lab) == Without(rows[..last], lab);
        assert Of(rows, other) == Of(rows[..last], other);
      } else {
        OfStep(Without(rows[..last], lab), rows[last], other);
      }
    }
  }

  lemma {:induction false} WithoutMembers(rows: seq<Example>, lab: string, e: Example)
    requires e in Without(rows, lab)
    ensures e in rows && e.lab != lab
  {
    var last := |rows| - 1;
    if e in Without(rows[..last], lab) {
      WithoutMembers(rows[..last], lab, e);
    }
  }

  function LengthSum(rows: seq<Example>, labels: seq<string>): nat {
    if labels == [] then 0 else |Of(rows, labels[0])| + LengthSum(rows, labels[1..])
  }

  lemma {:induction false} SameSum(rows: seq<Example>, rows': seq<Example>, labels: seq<string>)
    requires forall lab :: lab in labels ==> |Of(rows, lab)| == |Of(rows', lab)|
    ensures LengthSum(rows, labels) == LengthSum(rows', labels)
  {
    if labels != [] {
      SameSum(rows, rows', labels[1..]);
    }
  }

  lemma NoMembers(rows: seq<Example>)
    ensures rows == [] || exists e :: e in rows
  {
    assert rows == [] || rows[0] in rows;
  }

  /** A list is as long as its labels' parts together. */
  lemma {:induction false} LengthByLabel(rows: seq<Example>, labels: seq<string>)
    requires Distinct(labels) && forall e :: e in rows ==> e.lab in labels
    ensures |rows| == LengthSum(rows, labels)
    decreases labels
  {
    if labels == [] {
      NoMembers(rows);
    } else {
      var first, rest := labels[0], labels[1..];
      var others := Without(rows, first);
      WithoutCount(rows, first);
      forall lab | lab in rest
        ensures |Of(others, lab)| == |Of(rows, lab)|
      {
        WithoutOthers(rows, first, lab);
      }
      forall e | e in others
        ensures e.lab in rest
      {
        WithoutMembers(rows, first, e);
        assert labels == [first] + rest;
      }
      LengthByLabel(others, rest);
      SameSum(others, rows, rest);
    }
  }

  lemma {:induction false} SumAtMost(rows: seq<Example>, rows': seq<Example>, labels: seq<string>)
    requires forall lab :: lab in labels ==> |Of(rows, lab)| <= |Of(rows', lab)|
    ensures LengthSum(rows, labels) <= LengthSum(rows', labels)
  {
    if labels != [] {
      SumAtMost(rows, rows', labels[1..]);
    }
  }

  lemma LengthOfList(rows: seq<Example>, labels: seq<string>, lists: map<string, seq<Example>>, lab: string)
    requires IsShuffle(rows, labels, lists) && lab in labels
    ensures |lists[lab]| == |Of(rows, lab)| <= |rows|
  {
    assert |lists[lab]| == |multiset(lists[lab])| == |multiset(Of(rows, lab))|;
    WithoutCount(rows, lab);
  }

  /** The output is never longer than the input, and as long once every label has had its turns. */
  lemma LengthAfterTurns(rows: seq<Example>, out: seq<Example>, labels: seq<string>, lists: map<string, seq<Example>>,
                         r: nat, q: nat)
    requires IsShuffle(rows, labels, lists) && AfterTurns(out, labels, lists, r, q)
    ensures |out| <= |rows|
    ensures (forall lab :: lab in labels ==> |lists[lab]| <= r) ==> |out| == |rows|
  {
    LengthByLabel(rows, labels);
    LengthByLabel(out, labels);
    forall lab | lab in labels
      ensures |Of(out, lab)| <= |lists[lab]| == |Of(rows, lab)|
      ensures |lists[lab]| <= r ==> |Of(out, lab)| == |Of(rows, lab)|
    {
      var k :| 0 <= k < |labels| && labels[k] == lab;
      LengthOfList(rows, labels, lists, lab);
    }
    SumAtMost(out, rows, labels);
    if forall lab :: lab in labels ==> |lists[lab]| <= r {
      SameSum(out, rows, labels);
    }
  }

  // ---------- what the sample is ----------

  /** Each label's items in the sample are a prefix of its shuffled list. */
  lemma SampleHoldsPrefixes(out: seq<Example>, labels: seq<string>, lists: map<string, seq<Example>>, r: nat, q: nat,
                            lab: string)
    requires AfterTurns(out, labels, lists, r, q) && lab in labels
    ensures lab in lists && Of(out, lab) <= lists[lab]
  {
    var k :| 0 <= k < |labels| && labels[k] == lab;
  }

  /** Round-robin fairness: no label gets ahead of one that still has items by more than one. */
  lemma SampleIsFair(out: seq<Example>, labels: seq<string>, lists: map<string, seq<Example>>, r: nat, q: nat,
                     a: string, b: string)
    requires AfterTurns(out, labels, lists, r, q)
    requires a in labels && b in labels && b in lists && |Of(out, b)| < |lists[b]|
    ensures |Of(out, a)| <= |Of(out, b)| + 1
  {
    var i :| 0 <= i < |labels| && labels[i] == a;
    var j :| 0 <= j < |labels| && labels[j] == b;
  }

  lemma {:induction false} MultiplicityByLabel(rows: seq<Example>, e: Example)
    ensures multiset(Of(rows, e.lab))[e] == multiset(rows)[e]
  {
    if rows != [] {
      var last := |rows| - 1;
      MultiplicityByLabel(rows[..last], e);
      assert rows == rows[..last] + [rows[last]];
    }
  }

  lemma PrefixMultiplicity(s: seq<Example>, k: nat, e: Example)
    requires k <= |s|
    ensures multiset(s[..k])[e] <= multiset(s)[e]
  {
    assert s == s[..k] + s[k..];
  }

  /** Nothing is sampled more often than it occurs. */
  lemma SampleFromRows(rows: seq<Example>, out: seq<Example>, labels: seq<string>, lists: map<string, seq<Example>>,
                       r: nat, q: nat)
    requires IsShuffle(rows, labels, lists) && AfterTurns(out, labels, lists, r, q)
    ensures multiset(out) <= multiset(rows)
  {
    forall e | e in out
      ensures multiset(out)[e] <= multiset(rows)[e]
    {
      var lab := e.lab;
      SampleHoldsPrefixes(out, labels, lists, r, q, lab);
      MultiplicityByLabel(out, e);
      MultiplicityByLabel(rows, e);
      PrefixMultiplicity(lists[lab], |Of(out, lab)|, e);
    }
  }

  lemma {:induction false} SumBelow(out: seq<Example>, labels: seq<string>, missing: string)
    requires missing in labels && Distinct(labels) && Of(out, missing) == []
    requires forall lab :: lab in labels ==> |Of(out, lab)| <= 1
    ensures LengthSum(out, labels) < |labels|
  {
    var rest := labels[1..];
    assert labels == [labels[0]] + rest;
    if labels[0] == missing {
      SumAtMostOnes(out, rest);
    } else {
      SumBelow(out, rest, missing);
    }
  }

  lemma {:induction false} SumAtMostOnes(out: seq<Example>, labels: seq<string>)
    requires forall lab :: lab in labels ==> |Of(out, lab)| <= 1
    ensures LengthSum(out, labels) <= |labels|
  {
    if labels != [] {
      SumAtMostOnes(out, labels[1..]);
    }
  }

  /** A sample at least as large as the number of labels covers every label that occurs. */
  lemma EveryLabelCovered(rows: seq<Example>, out: seq<Example>, n: nat, labels: seq<string>,
                          lists: map<string, seq<Example>>, r: nat, q: nat, lab: string)
    requires IsShuffle(rows, labels, lists) && AfterTurns(out, labels, lists, r, q)
    requires |out| == MinNat(n, |rows|) && n >= |labels| && lab in labels && Of(rows, lab) != []
    ensures Of(out, lab) != []
  {
    if Of(out, lab) == [] {
      LengthOfList(rows, labels, lists, lab);
      forall a | a in labels
        ensures |Of(out, a)| <= 1
      {
        SampleIsFair(out, labels, lists, r, q, a, lab);
      }
      LengthByLabel(out, labels);
      SumBelow(out, labels, lab);
      assert |out| == |rows|;
      LengthByLabel(rows, labels);
      FullWhenAsLong(rows, out, labels, lists, r, q, lab);
      assert false;
    }
  }

  lemma {:induction false} StrictSum(rows: seq<Example>, rows': seq<Example>, labels: seq<string>, lab: string)
    requires lab in labels && |Of(rows, lab)| < |Of(rows', lab)|
    requires forall l :: l in labels ==> |Of(rows, l)| <= |Of(rows', l)|
    ensures LengthSum(rows, labels) < LengthSum(rows', labels)
  {
    var rest := labels[1..];
    assert labels == [labels[0]] + rest;
    if labels[0] == lab {
      SumAtMost(rows, rows', rest);
    } else {
      StrictSum(rows, rows', rest, lab);
    }
  }

  lemma FullWhenAsLong(rows: seq<Example>, out: seq<Example>, labels: seq<string>, lists: map<string, seq<Example>>,
                       r: nat, q: nat, lab: string)
    requires IsShuffle(rows, labels, lists) && AfterTurns(out, labels, lists, r, q)
    requires |out| == |rows| && lab in labels
    ensures |Of(out, lab)| == |Of(rows, lab)|
  {
    LengthByLabel(rows, labels);
    LengthByLabel(out, labels);
    forall l | l in labels
      ensures |Of(out, l)| <= |Of(rows, l)|
    {
      SampleHoldsPrefixes(out, labels, lists, r, q, l);
      LengthOfList(rows, labels, lists, l);
    }
    if |Of(out, lab)| < |Of(rows, lab)| {
      StrictSum(out, rows, labels, lab);
    }
  }
}
