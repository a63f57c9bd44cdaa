/** Finite sums of reals over sets and over sequences, independent of the order of summation. */
module Sums {

  ghost function Pick<T>(s: set<T>): (x: T)
    requires s != {}
    ensures x in s
  {
    var x :| x in s;
    x
  }

  /** A product by name, so that the solver need not open it up. */
  ghost predicate IsProduct(z: real, x: real, y: real) {
    z == x * y
  }

  lemma SameProduct(z: real, y: real, z': real, y': real, x: real)
    requires IsProduct(z, x, y) && IsProduct(z', x, y') && y == y'
    ensures z == z'
  {
  }

  lemma AddProducts(z: real, y: real, z': real, y': real, x: real)
    requires IsProduct(z, x, y) && IsProduct(z', x, y')
    ensures IsProduct(z + z', x, y + y')
  {
  }

  // ---------- sums over a set ----------

  ghost function SumSet<T>(s: set<T>, f: T -> real): real
  {
    if s == {} then 0.0 else
      var x :| x in s;
      f(x) + SumSet(s - {x}, f)
  }

  lemma {:induction false} SumSetRemove<T>(s: set<T>, f: T -> real, y: T)
    requires y in s
    ensures SumSet(s, f) == f(y) + SumSet(s - {y}, f)
    decreases s
  {
    var x :| x in s && SumSet(s, f) == f(x) + SumSet(s - {x}, f);
    if x != y {
      SumSetRemove(s - {x}, f, y);
      SumSetRemove(s - {y}, f, x);
      assert s - {x} - {y} == s - {y} - {x};
    }
  }

  lemma SumSetInsert<T>(s: set<T>, f: T -> real, y: T)
    requires y !in s
    ensures SumSet(s + {y}, f) == SumSet(s, f) + f(y)
  {
    SumSetRemove(s + {y}, f, y);
    assert s + {y} - {y} == s;
  }

  /** One step of a loop that has yet to visit `todo` and takes `y` from it. */
  lemma SumSetTake<T>(all: set<T>, todo: set<T>, f: T -> real, y: T)
    requires todo <= all && y in todo
    ensures SumSet(all - (todo - {y}), f) == SumSet(all - todo, f) + f(y)
  {
    assert all - (todo - {y}) == (all - todo) + {y};
    SumSetInsert(all - todo, f, y);
  }

  lemma {:induction false} SumSetCongruent<T>(s: set<T>, f: T -> real, g: T -> real)
    requires forall x :: x in s ==> f(x) == g(x)
    ensures SumSet(s, f) == SumSet(s, g)
  {
    if s != {} {
      var x :| x in s;
      SumSetRemove(s, f, x);
      SumSetRemove(s, g, x);
      SumSetCongruent(s - {x}, f, g);
    }
  }

  lemma {:induction false} SumSetAdd<T>(s: set<T>, f: T -> real, g: T -> real, h: T -> real)
    requires forall x :: x in s ==> h(x) == f(x) + g(x)
    ensures SumSet(s, h) == SumSet(s, f) + SumSet(s, g)
  {
    if s != {} {
      var x :| x in s;
      SumSetRemove(s, f, x);
      SumSetRemove(s, g, x);
      SumSetRemove(s, h, x);
      SumSetAdd(s - {x}, f, g, h);
    }
  }

  lemma {:induction false} SumSetScale<T>(s: set<T>, f: T -> real, k: real, h: T -> real)
    requires forall x :: x in s ==> IsProduct(h(x), k, f(x))
    ensures IsProduct(SumSet(s, h), k, SumSet(s, f))
  {
    if s != {} {
      var x :| x in s;
      SumSetRemove(s, f, x);
      SumSetRemove(s, h, x);
      SumSetScale(s - {x}, f, k, h);
      AddProducts(h(x), f(x), SumSet(s - {x}, h), SumSet(s - {x}, f), k);
    }
  }

  lemma {:induction false} SumSetNonNegative<T>(s: set<T>, f: T -> real)
    requires forall x :: x in s ==> f(x) >= 0.0
    ensures SumSet(s, f) >= 0.0
    ensures forall x :: x in s ==> SumSet(s, f) >= f(x)
  {
    if s != {} {
      forall x | x in s
        ensures SumSet(s, f) >= 0.0 && SumSet(s, f) >= f(x)
      {
        SumSetRemove(s, f, x);
        SumSetNonNegative(s - {x}, f);
      }
      var y :| y in s;
      assert SumSet(s, f) >= f(y);
    }
  }

  lemma {:induction false} SumSetZero<T>(s: set<T>, f: T -> real)
    requires forall x :: x in s ==> f(x) == 0.0
    ensures SumSet(s, f) == 0.0
  {
    if s != {} {
      var x :| x in s;
      SumSetRemove(s, f, x);
      SumSetZero(s - {x}, f);
    }
  }

  lemma {:induction false} SumSetUnion<T>(s: set<T>, t: set<T>, f: T -> real)
    requires s !! t
    ensures SumSet(s + t, f) == SumSet(s, f) + SumSet(t, f)
  {
    if t == {} {
      assert s + t == s;
    } else {
      var x :| x in t;
      SumSetUnion(s, t - {x}, f);
      SumSetRemove(t, f, x);
      SumSetRemove(s + t, f, x);
      assert s + t - {x} == s + (t - {x});
    }
  }

  // ---------- double sums ----------

  ghost function Grid<T>(rows: set<T>, columns: set<T>): set<(T, T)> {
    set v, w | v in rows && w in columns :: (v, w)
  }

  ghost function GridRows<T>(columns: set<T>, f: ((T, T)) -> real): T -> real {
    v => SumSet(columns, CellsOf(f, v))
  }

  ghost function CellsOf<T>(f: ((T, T)) -> real, v: T): T -> real {
    w => f((v, w))
  }

  lemma {:induction false} SumOfRow<T>(v: T, columns: set<T>, f: ((T, T)) -> real)
    ensures SumSet(Grid({v}, columns), f) == SumSet(columns, CellsOf(f, v))
  {
    if columns == {} {
      assert Grid({v}, columns) == {};
    } else {
      var w :| w in columns;
      SumOfRow(v, columns - {w}, f);
      assert Grid({v}, columns) == Grid({v}, columns - {w}) + {(v, w)};
      SumSetInsert(Grid({v}, columns - {w}), f, (v, w));
      SumSetRemove(columns, CellsOf(f, v), w);
    }
  }

  /** One step of a loop over rows that has yet to visit `todo` and takes `v` from it. */
  lemma SumGridTake<T>(rows: set<T>, columns: set<T>, todo: set<T>, v: T, f: ((T, T)) -> real)
    requires todo <= rows && v in todo
    ensures SumSet(Grid(rows - (todo - {v}), columns), f)
         == SumSet(Grid(rows - todo, columns), f) + SumSet(Grid({v}, columns), f)
  {
    assert Grid(rows - (todo - {v}), columns) == Grid(rows - todo, columns) + Grid({v}, columns);
    SumSetUnion(Grid(rows - todo, columns), Grid({v}, columns), f);
  }

  /** A sum over a grid is the sum of its row sums. */
  lemma {:induction false} SumByRows<T>(rows: set<T>, columns: set<T>, f: ((T, T)) -> real)
    ensures SumSet(Grid(rows, columns), f) == SumSet(rows, GridRows(columns, f))
  {
    if rows == {} {
      assert Grid(rows, columns) == {};
    } else {
      var v :| v in rows;
      SumByRows(rows - {v}, columns, f);
      SumSetRemove(rows, GridRows(columns, f), v);
      SumOfRow(v, columns, f);
      SumGridTake(rows, columns, {v}, v, f);
      assert rows - ({v} - {v}) == rows;
    }
  }

  // ---------- sums over a sequence ----------

  function SumSeq<T>(s: seq<T>, f: T -> real): real
  {
    if s == [] then 0.0 else SumSeq(s[..|s| - 1], f) + f(s[|s| - 1])
  }

  lemma {:induction false} SumSeqAppend<T>(s: seq<T>, t: seq<T>, f: T -> real)
    ensures SumSeq(s + t, f) == SumSeq(s, f) + SumSeq(t, f)
  {
    if t == [] {
      assert s + t == s;
    } else {
      assert (s + t)[..|s + t| - 1] == s + t[..|t| - 1];
      SumSeqAppend(s, t[..|t| - 1], f);
    }
  }

  /** Taking one occurrence of `x` out of a sequence. */
  lemma TakeOut<T>(s: seq<T>, x: T) returns (before: seq<T>, after: seq<T>)
    requires x in multiset(s)
    ensures s == before + [x] + after
    ensures multiset(before + after) == multiset(s) - multiset{x} && |before + after| == |s| - 1
  {
    var k :| 0 <= k < |s| && s[k] == x;
    before, after := s[..k], s[k + 1..];
    assert s == before + [x] + after;
  }

  lemma InitMultiset<T>(s: seq<T>)
    requires s != []
    ensures multiset(s[..|s| - 1]) == multiset(s) - multiset{s[|s| - 1]} && s[|s| - 1] in multiset(s)
  {
    assert s == s[..|s| - 1] + [s[|s| - 1]];
  }

  /** Two sequences with the same elements, counted, have the same sum. */
  lemma {:induction false} SumSeqPermuted<T>(s: seq<T>, t: seq<T>, f: T -> real)
    requires multiset(s) == multiset(t)
    ensures SumSeq(s, f) == SumSeq(t, f)
    decreases |s|
  {
    if s == [] {
      assert |t| == |multiset(t)| == 0;
    } else {
      InitMultiset(s);
      var x := s[|s| - 1];
      var before, after := TakeOut(t, x);
      SumSeqPermuted(s[..|s| - 1], before + after, f);
      SumSeqAppend(before + [x], after, f);
      SumSeqAppend(before, [x], f);
      SumSeqAppend(before, after, f);
    }
  }

  ghost function Elements<T>(s: seq<T>): set<T> {
    set x | x in s
  }

  /** Summing over a duplicate-free sequence is summing over the set of its elements. */
  lemma {:induction false} SumSeqAsSet<T>(s: seq<T>, f: T -> real)
    requires forall i, j :: 0 <= i < j < |s| ==> s[i] != s[j]
    ensures SumSeq(s, f) == SumSet(Elements(s), f)
  {
    if s != [] {
      var init, last := s[..|s| - 1], s[|s| - 1];
      SumSeqAsSet(init, f);
      assert Elements(s) == Elements(init) + {last} by {
        assert s == init + [last];
      }
      SumSetInsert(Elements(init), f, last);
    }
  }

  // ---------- bags ----------

  /** The bags of the elements of a sequence, poured together. */
  ghost function Bag<T, U>(s: seq<T>, f: T -> multiset<U>): multiset<U> {
    if s == [] then multiset{} else Bag(s[..|s| - 1], f) + f(s[|s| - 1])
  }

  lemma {:induction false} BagAppend<T, U>(s: seq<T>, t: seq<T>, f: T -> multiset<U>)
    ensures Bag(s + t, f) == Bag(s, f) + Bag(t, f)
  {
    if t == [] {
      assert s + t == s;
    } else {
      assert (s + t)[..|s + t| - 1] == s + t[..|t| - 1];
      BagAppend(s, t[..|t| - 1], f);
    }
  }

  lemma BagStep<T, U>(s: seq<T>, x: T, f: T -> multiset<U>)
    ensures Bag(s + [x], f) == Bag(s, f) + f(x)
  {
    assert (s + [x])[..|s|] == s;
  }

  lemma BagMiddle<T, U>(before: seq<T>, x: T, after: seq<T>, f: T -> multiset<U>)
    ensures Bag(before + [x] + after, f) == Bag(before + after, f) + f(x)
  {
    BagAppend(before + [x], after, f);
    BagStep(before, x, f);
    BagAppend(before, after, f);
  }

  lemma {:induction false} BagPermuted<T, U>(s: seq<T>, t: seq<T>, f: T -> multiset<U>)
    requires multiset(s) == multiset(t)
    ensures Bag(s, f) == Bag(t, f)
    decreases |s|
  {
    if s == [] {
      assert |t| == |multiset(t)| == 0;
    } else {
      InitMultiset(s);
      var before, after := TakeOut(t, s[|s| - 1]);
      BagPermuted(s[..|s| - 1], before + after, f);
      BagMiddle(before, s[|s| - 1], after, f);
    }
  }
}
