/** The field scorers of eval/runner.py. */
module Scoring {
  import opened Common
  import opened F1

  /** A JSON value of a fixture or an extraction. */
  datatype Value = Null | Text(s: string) | Number(n: int) | Items(list: seq<string>)

  /** The library text operations the scorers call, and the free-text normalisers. */
  datatype Ops = Ops(
    show: Value -> string, lower: string -> string, fold: string -> string, tokenize: string -> set<string>,
    canon: (string, string) -> string, product: Value -> Value, toInt: Value -> Option<int>)

  /** `str`: a string is its own rendering. */
  function Shown(v: Value, ops: Ops): string { if v.Text? then v.s else ops.show(v) }

  /** `_exact_score`. */
  function ExactScore(predicted: Value, expected: Value, ops: Ops): real {
    if predicted.Null? && expected.Null? then 1.0
    else if predicted.Null? || expected.Null? then 0.0
    else if expected.Text? then if ops.lower(Shown(predicted, ops)) == ops.lower(expected.s) then 1.0 else 0.0
    else if predicted == expected then 1.0 else 0.0
  }

  /** `product_score`: equality of the normalised products. */
  function ProductScore(predicted: Value, expected: Value, ops: Ops): real {
    if ops.product(predicted) == ops.product(expected) then 1.0 else 0.0
  }

  /** The F1 of two sets. */
  function SetScore(predicted: set<string>, expected: set<string>): real {
    if predicted == {} && expected == {} then 1.0
    else if predicted == {} || expected == {} then 0.0
    else Harmonic(|predicted * expected|, |predicted|, |expected|)
  }

  function Image(items: seq<string>, f: string -> string): set<string> { set x | x in items :: f(x) }

  /** `_set_f1`. */
  function SetF1(predicted: seq<string>, expected: seq<string>, ops: Ops): real {
    SetScore(Image(predicted, ops.fold), Image(expected, ops.fold))
  }

  function TokensOf(items: seq<string>, ops: Ops): set<string> { set x, t | x in items && t in ops.tokenize(x) :: t }

  method UnionOfTokens(items: seq<string>, ops: Ops) returns (tokens: set<string>)
    ensures tokens == TokensOf(items, ops)
  {
    tokens := {};
    for k := 0 to |items|
      invariant tokens == TokensOf(items[..k], ops)
    {
      assert items[..k + 1] == items[..k] + [items[k]];
      tokens := tokens + ops.tokenize(items[k]);
    }
    assert items[..|items|] == items;
  }

  /** `_fuzzy_list_score`. */
  method FuzzyListScore(predicted: seq<string>, expected: seq<string>, ops: Ops) returns (r: real)
    ensures r == SetScore(TokensOf(predicted, ops), TokensOf(expected, ops))
  {
    var p := UnionOfTokens(predicted, ops);
    var e := UnionOfTokens(expected, ops);
    r := SetScore(p, e);
  }

  datatype Failure = BadValue

  /** `_tolerance_score`; `int` fails on what is not a number. */
  function ToleranceScore(predicted: Value, expected: Value, tolerance: int, ops: Ops): Result<real, Failure> {
    if predicted.Null? && expected.Null? then Ok(1.0)
    else if predicted.Null? || expected.Null? then Ok(0.0)
    else
      var p, e := ops.toInt(predicted), ops.toInt(expected);
      if p.None? || e.None? then Err(BadValue)
      else if (if p.value >= e.value then p.value - e.value else e.value - p.value) <= tolerance then Ok(1.0)
            else Ok(0.0)
  }

  /** What a loop over a value visits: the items of a list, the characters of a string; nothing else can be. */
  function Visited(v: Value): Option<seq<string>> {
    match v
    case Items(list) => Some(list)
    case Text(s) => Some(seq(|s|, i requires 0 <= i < |s| => [s[i]]))
    case _ => None
  }

  function Get(m: map<string, Value>, f: string, default: Value): Value { if f in m then m[f] else default }

  datatype Rule = Exact | SetOverlap | Fuzzy | Tolerance(tol: int)

  /** The score of one field under one of the four rules, lists defaulting to empty and scalars to null. */
  function ScoreField(rule: Rule, f: string, truth: map<string, Value>, extraction: map<string, Value>, strict: bool,
        ops: Ops)
    : Result<real, Failure>
  {
    if rule.Exact? then
      var p, e := Get(extraction, f, Null), Get(truth, f, Null);
      Ok(if f == "product" && !strict then ProductScore(p, e, ops) else ExactScore(p, e, ops))
    else if rule.Tolerance? then ToleranceScore(Get(extraction, f, Null), Get(truth, f, Null), rule.tol, ops)
    else
      var p, e := Visited(Get(extraction, f, Items([]))), Visited(Get(truth, f, Items([])));
      if p.None? || e.None? then Err(BadValue)
      else if rule.Fuzzy? then Ok(SetScore(TokensOf(p.value, ops), TokensOf(e.value, ops)))
      else if strict then Ok(SetF1(p.value, e.value, ops))
      else Ok(SetF1(Canonical(f, p.value, ops), Canonical(f, e.value, ops), ops))
  }

  /** Topics and competitor mentions are canonicalised; ops.canon leaves every other field's items alone. */
  function Canonical(f: string, items: seq<string>, ops: Ops): seq<string> {
    seq(|items|, i requires 0 <= i < |items| => ops.canon(f, items[i]))
  }

  // ---------- what the scores mean ----------

  lemma CommonCount(p: set<string>, e: set<string>)
    ensures |p * e| <= |p| && |p * e| <= |e|
    ensures |p * e| == |p| == |e| <==> p == e
    ensures |p * e| == 0 <==> p * e == {}
  {
    assert p == p * e + (p - e) && e == p * e + (e - p);
    assert |p| == |p * e| + |p - e| && |e| == |p * e| + |e - p|;
    if p == e {
      assert p * e == p;
    }
  }

  /** A set score lies in [0, 1], is symmetric, is 1 exactly for equal sets and 0 exactly for disjoint ones that are
      not both empty. */
  lemma SetScoreMeaning(p: set<string>, e: set<string>)
    ensures 0.0 <= SetScore(p, e) <= 1.0 && SetScore(p, e) == SetScore(e, p)
    ensures SetScore(p, e) == 1.0 <==> p == e
    ensures SetScore(p, e) == 0.0 <==> p * e == {} && p + e != {}
  {
    CommonCount(p, e);
    assert p * e == e * p;
    if p != {} && e != {} {
      HarmonicBounds(|p * e|, |p|, |e|);
      HarmonicIs(|p * e|, |p|, |e|);
      HarmonicIs(|p * e|, |e|, |p|);
    }
  }

  /** Unless both are empty it is twice the common elements over the elements of both, the harmonic mean of precision
      and recall. */
  lemma SetScoreIs(p: set<string>, e: set<string>)
    requires p + e != {}
    ensures |p| + |e| > 0 && SetScore(p, e) == (2 * |p * e|) as real / (|p| + |e|) as real
  {
    if p != {} && e != {} {
      HarmonicIs(|p * e|, |p|, |e|);
    } else {
      assert p * e == {} && |p + e| == |p| + |e|;
    }
  }

  /** Equal up to case, the prediction read as text, where text is expected, and equal otherwise. */
  ghost predicate SameValue(predicted: Value, expected: Value, ops: Ops) {
    match expected
    case Null => predicted.Null?
    case Text(s) => !predicted.Null? && ops.lower(Shown(predicted, ops)) == ops.lower(s)
    case _ => predicted == expected
  }

  /** Both missing, or both numbers and no further apart than the tolerance. */
  ghost predicate WithinTolerance(predicted: Value, expected: Value, tolerance: int, ops: Ops) {
    if predicted.Null? || expected.Null? then predicted == expected
    else
      var p, e := ops.toInt(predicted), ops.toInt(expected);
      p.Some? && e.Some? && p.value - tolerance <= e.value <= p.value + tolerance
  }

  /** The score of a field is 0 or 1 under the two scalar rules, and 1 exactly when the values agree in the rule's
      sense; a product is compared in its normal form unless the comparison is strict. */
  lemma ScalarScoreIff(
      rule: Rule, f: string, truth: map<string, Value>, extraction: map<string, Value>, strict: bool, ops: Ops)
    requires rule.Exact? || rule.Tolerance?
    ensures var p, e := if f in extraction then extraction[f] else Null, if f in truth then truth[f] else Null;
      var r := ScoreField(rule, f, truth, extraction, strict, ops);
      && (r.Err? <==> rule.Tolerance? && !p.Null? && !e.Null? && (ops.toInt(p).None? || ops.toInt(e).None?))
      && (r.Ok? ==> r.value == 0.0 || r.value == 1.0)
      && (r.Ok? && rule.Tolerance? ==> (r.value == 1.0 <==> WithinTolerance(p, e, rule.tol, ops)))
      && (rule.Exact? && (f != "product" || strict) ==> (r.value == 1.0 <==> SameValue(p, e, ops)))
      && (rule.Exact? && f == "product" && !strict ==> (r.value == 1.0 <==> ops.product(p) == ops.product(e)))
  {
  }

  /** The F1 of two sets: twice the common elements over the elements of both, and 1 when both are empty. */
  ghost predicate IsF1(r: Result<real, Failure>, p: set<string>, e: set<string>) {
    if p + e == {} then r == Ok(1.0) else |p| + |e| > 0 && r == Ok((2 * |p * e|) as real / (|p| + |e|) as real)
  }

  lemma SetScoreIsF1(p: set<string>, e: set<string>)
    ensures IsF1(Ok(SetScore(p, e)), p, e)
  {
    if p + e != {} {
      SetScoreIs(p, e);
    }
  }

  /** The items a list field holds, where a missing field counts as an empty list. */
  ghost predicate Holds(m: map<string, Value>, f: string, items: seq<string>) {
    if f in m then m[f] == Items(items) else items == []
  }

  /** Under the fuzzy rule the score is the F1 of the tokens of all items. */
  lemma FuzzyScoreIs(f: string, truth: map<string, Value>, extraction: map<string, Value>, strict: bool, ops: Ops,
                     predicted: seq<string>, expected: seq<string>)
    requires Holds(extraction, f, predicted) && Holds(truth, f, expected)
    ensures IsF1(ScoreField(Fuzzy, f, truth, extraction, strict, ops),
                 set x, t | x in predicted && t in ops.tokenize(x) :: t,
                 set x, t | x in expected && t in ops.tokenize(x) :: t)
  {
    SetScoreIsF1(TokensOf(predicted, ops), TokensOf(expected, ops));
  }

  /** The folded items, canonicalised first unless the comparison is strict. */
  ghost function Folded(f: string, items: seq<string>, strict: bool, ops: Ops): set<string> {
    set x | x in items :: if strict then ops.fold(x) else ops.fold(ops.canon(f, x))
  }

  function Compared(f: string, items: seq<string>, strict: bool, ops: Ops): set<string> {
    Image(if strict then items else Canonical(f, items, ops), ops.fold)
  }

  lemma OverlapCompares(f: string, truth: map<string, Value>, extraction: map<string, Value>, strict: bool, ops: Ops,
                        predicted: seq<string>, expected: seq<string>)
    requires Holds(extraction, f, predicted) && Holds(truth, f, expected)
    ensures ScoreField(SetOverlap, f, truth, extraction, strict, ops)
         == Ok(SetScore(Compared(f, predicted, strict, ops), Compared(f, expected, strict, ops)))
  {
  }

  /** Under the set rule it is the F1 of the folded items. */
  lemma OverlapScoreIs(f: string, truth: map<string, Value>, extraction: map<string, Value>, strict: bool, ops: Ops,
                       predicted: seq<string>, expected: seq<string>)
    requires Holds(extraction, f, predicted) && Holds(truth, f, expected)
    ensures IsF1(ScoreField(SetOverlap, f, truth, extraction, strict, ops), Folded(f, predicted, strict, ops),
                 Folded(f, expected, strict, ops))
  {
    OverlapCompares(f, truth, extraction, strict, ops, predicted, expected);
    ImageOfItems(f, predicted, strict, ops);
    ImageOfItems(f, expected, strict, ops);
    SetScoreIsF1(Folded(f, predicted, strict, ops), Folded(f, expected, strict, ops));
  }

  lemma ImageOfItems(f: string, items: seq<string>, strict: bool, ops: Ops)
    ensures Compared(f, items, strict, ops) == Folded(f, items, strict, ops)
  {
    if !strict {
      var c := Canonical(f, items, ops);
      forall x | x in items ensures ops.fold(ops.canon(f, x)) in Image(c, ops.fold) {
        var k :| 0 <= k < |items| && items[k] == x;
        assert c[k] in c;
      }
    }
  }

  ghost predicate Agrees(f: string, truth: map<string, Value>, extraction: map<string, Value>) {
    f in truth && f in extraction && truth[f] == extraction[f]
  }

  /** Every field score that is produced lies in [0, 1], and a field that agrees with its truth scores 1. */
  lemma FieldScoreIsScore(
      rule: Rule, f: string, truth: map<string, Value>, extraction: map<string, Value>, strict: bool, ops: Ops)
    ensures var r := ScoreField(rule, f, truth, extraction, strict, ops); r.Ok? ==> 0.0 <= r.value <= 1.0
    ensures var r := ScoreField(rule, f, truth, extraction, strict, ops);
      r.Ok? && Agrees(f, truth, extraction) && (rule.Tolerance? ==> rule.tol >= 0) ==> r.value == 1.0
  {
    if !rule.Exact? && !rule.Tolerance? {
      ListFieldScore(rule, f, truth, extraction, strict, ops);
    }
  }

  lemma ListFieldScore(
      rule: Rule, f: string, truth: map<string, Value>, extraction: map<string, Value>, strict: bool, ops: Ops)
    requires !rule.Exact? && !rule.Tolerance?
    ensures var r := ScoreField(rule, f, truth, extraction, strict, ops);
      r.Ok? ==> 0.0 <= r.value <= 1.0 && (Agrees(f, truth, extraction) ==> r.value == 1.0)
  {
    var p, e := Visited(Get(extraction, f, Items([]))), Visited(Get(truth, f, Items([])));
    if p.Some? && e.Some? {
      SetScoreMeaning(TokensOf(p.value, ops), TokensOf(e.value, ops));
      SetScoreMeaning(Image(p.value, ops.fold), Image(e.value, ops.fold));
      SetScoreMeaning(Image(Canonical(f, p.value, ops), ops.fold), Image(Canonical(f, e.value, ops), ops.fold));
    }
  }

  // ---------- `score_fixture` ----------

  datatype FieldResult = FieldResult(field: string, score: real)

  datatype Notes = Notes(exact: seq<string>, overlap: seq<string>, fuzzy: seq<string>, tolerance: seq<(string, int)>)

  /** The fields in the order they are scored, each with its rule. */
  function Plan(notes: Notes): seq<(string, Rule)> {
    Ruled(notes.exact, Exact) + Ruled(notes.overlap, SetOverlap) + Ruled(notes.fuzzy, Fuzzy)
    + seq(|notes.tolerance|,
          i requires 0 <= i < |notes.tolerance| => (notes.tolerance[i].0, Tolerance(notes.tolerance[i].1)))
  }

  function Ruled(fields: seq<string>, rule: Rule): seq<(string, Rule)> {
    seq(|fields|, i requires 0 <= i < |fields| => (fields[i], rule))
  }

  /** The results are the plan's fields in order, each with its score. */
  ghost predicate AreResults(results: seq<FieldResult>, plan: seq<(string, Rule)>, truth: map<string, Value>,
                             extraction: map<string, Value>, strict: bool, ops: Ops) {
    |results| == |plan| && forall k :: 0 <= k < |plan| ==>
      results[k].field == plan[k].0
      && ScoreField(plan[k].1, plan[k].0, truth, extraction, strict, ops) == Ok(results[k].score)
  }

  /** `score_fixture`: the first field that cannot be scored stops it. */
  method ScoreFixture(notes: Notes, truth: map<string, Value>, extraction: map<string, Value>, strict: bool, ops: Ops)
    returns (r: Result<seq<FieldResult>, Failure>)
    ensures r.Ok? ==> AreResults(r.value, Plan(notes), truth, extraction, strict, ops)
    ensures r.Err? <==> exists k :: 0 <= k < |Plan(notes)|
                                    && ScoreField(Plan(notes)[k].1, Plan(notes)[k].0, truth, extraction, strict,
                                          ops).Err?
    ensures r.Ok? ==> forall k :: 0 <= k < |r.value| ==> 0.0 <= r.value[k].score <= 1.0
  {
    var plan := Plan(notes);
    var results: seq<FieldResult> := [];
    for k := 0 to |plan|
      invariant AreResults(results, plan[..k], truth, extraction, strict, ops)
      invariant forall i :: 0 <= i < k ==> 0.0 <= results[i].score <= 1.0
    {
      var (f, rule) := plan[k];
      var score := ScoreField(rule, f, truth, extraction, strict, ops);
      FieldScoreIsScore(rule, f, truth, extraction, strict, ops);
      if score.Err? {
        return Err(BadValue);
      }
      results := results + [FieldResult(f, score.value)];
    }
    assert plan[..|plan|] == plan;
    r := Ok(results);
  }
}
