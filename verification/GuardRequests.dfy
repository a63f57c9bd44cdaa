/** From the manifest to the requests, and from the cache back to the rows (eval/injection_guard_order.py). */
module GuardRequests {
  import opened Common
  import opened GuardCache
  import opened GuardRun

  const MODEL := "injection-guard-model"

  /** The hash, the redaction and the PII-variant generator are parameters. */
  datatype Env = Env(hash: string -> string, redact: string -> string, variant: (string, string) -> string)

  /** `sha` keys the current input; `redacted` the new input, only when it differs. */
  datatype Stratum = Stratum(sha: string, redacted: Option<string>)

  datatype Item = Item(id: string, asIs: Stratum, withPii: Stratum)

  datatype Manifest = Manifest(items: seq<Item>, retestKeys: seq<string>)

  type Texts = map<string, string>

  function CacheKey(sha: string, retest: bool): string {
    sha + ":" + MODEL + if retest then "#retest" else ""
  }

  function Derive(env: Env, text: string): Stratum {
    var red := env.redact(text);
    Stratum(env.hash(text), if red != text then Some(env.hash(red)) else None)
  }

  /** `verify_texts` passes: it compares the two `sha` fields of every item, and nothing else. */
  predicate Verified(env: Env, items: seq<Item>, texts: Texts) {
    forall k :: 0 <= k < |items| ==>
      var it := items[k];
      && it.id in texts && env.hash(texts[it.id]) == it.asIs.sha
      && env.hash(env.variant(it.id, texts[it.id])) == it.withPii.sha
  }

  /** Both strata of every item were derived from the item's text by the code that builds manifests. */
  predicate Derived(env: Env, items: seq<Item>, texts: Texts) {
    forall k :: 0 <= k < |items| ==>
      var it := items[k];
      && it.id in texts && it.asIs == Derive(env, texts[it.id])
      && it.withPii == Derive(env, env.variant(it.id, texts[it.id]))
  }

  // ---------- the requests ----------

  function Inputs(env: Env, text: string): set<string> {
    {text, env.redact(text)}
  }

  function WantedOf(env: Env, it: Item, texts: Texts): set<string> {
    if it.id in texts then Inputs(env, texts[it.id]) + Inputs(env, env.variant(it.id, texts[it.id])) else {}
  }

  /** Every text that some row of the first k items needs scored. */
  function Wanted(env: Env, items: seq<Item>, k: nat, texts: Texts): set<string>
    requires k <= |items|
  {
    if k == 0 then {} else Wanted(env, items, k - 1, texts) + WantedOf(env, items[k - 1], texts)
  }

  function ShasOf(env: Env, wanted: set<string>): set<string> {
    set t | t in wanted :: env.hash(t)
  }

  /** The dict from hash to text holds the wanted texts, each under its own hash. */
  ghost predicate Indexes(env: Env, byText: map<string, string>, wanted: set<string>) {
    && byText.Keys == ShasOf(env, wanted)
    && forall sha :: sha in byText ==> byText[sha] in wanted && env.hash(byText[sha]) == sha
  }

  lemma IndexOne(env: Env, byText: map<string, string>, wanted: set<string>, t: string)
    requires Indexes(env, byText, wanted)
    ensures Indexes(env, if env.hash(t) in byText then byText else byText[env.hash(t) := t], wanted + {t})
  {
    assert ShasOf(env, wanted + {t}) == ShasOf(env, wanted) + {env.hash(t)};
  }

  /** `by_text.setdefault(hash(t), t)` for the two inputs of one text. */
  method AddInputs(env: Env, byText: map<string, string>, text: string, ghost wanted: set<string>)
    returns (r: map<string, string>)
    requires Indexes(env, byText, wanted)
    ensures Indexes(env, r, wanted + Inputs(env, text))
  {
    var red := env.redact(text);
    IndexOne(env, byText, wanted, text);
    r := if env.hash(text) in byText then byText else byText[env.hash(text) := text];
    if red != text {
      IndexOne(env, r, wanted + {text}, red);
      r := if env.hash(red) in r then r else r[env.hash(red) := red];
    }
    assert wanted + Inputs(env, text) == wanted + {text} + {red};
  }

  /** The dict over all items; an item without a text is a KeyError (None). */
  method IndexTexts(env: Env, items: seq<Item>, texts: Texts) returns (r: Option<map<string, string>>)
    ensures r == None <==> exists k :: 0 <= k < |items| && items[k].id !in texts
    ensures r.Some? ==> Indexes(env, r.value, Wanted(env, items, |items|, texts))
  {
    var byText: map<string, string> := map[];
    for k := 0 to |items|
      invariant forall i :: 0 <= i < k ==> items[i].id in texts
      invariant Indexes(env, byText, Wanted(env, items, k, texts))
    {
      var it := items[k];
      if it.id !in texts {
        return None;
      }
      ghost var wanted := Wanted(env, items, k, texts);
      byText := AddInputs(env, byText, texts[it.id], wanted);
      byText := AddInputs(env, byText, env.variant(it.id, texts[it.id]), wanted + Inputs(env, texts[it.id]));
      assert wanted + Inputs(env, texts[it.id]) + Inputs(env, env.variant(it.id, texts[it.id]))
          == Wanted(env, items, k + 1, texts);
    }
    r := Some(byText);
  }

  /** Request k is for `shas[k]`, with a text of that hash. */
  ghost predicate RequestsFor(env: Env, reqs: seq<Request>, shas: seq<string>, retest: bool) {
    && |reqs| == |shas|
    && forall k :: 0 <= k < |reqs| ==> reqs[k].key == CacheKey(shas[k], retest) && env.hash(reqs[k].text) == shas[k]
  }

  method MakeRequests(env: Env, byText: map<string, string>, ghost wanted: set<string>, shas: seq<string>, retest: bool)
    returns (r: Option<seq<Request>>)
    requires Indexes(env, byText, wanted)
    ensures r == None <==> exists k :: 0 <= k < |shas| && shas[k] !in ShasOf(env, wanted)
    ensures r.Some? ==> RequestsFor(env, r.value, shas, retest)
  {
    var reqs: seq<Request> := [];
    for k := 0 to |shas|
      invariant RequestsFor(env, reqs, shas[..k], retest)
      invariant forall i :: 0 <= i < k ==> shas[i] in ShasOf(env, wanted)
    {
      if shas[k] !in byText {
        return None;
      }
      reqs := reqs + [Request(CacheKey(shas[k], retest), byText[shas[k]])];
    }
    assert shas[..|shas|] == shas;
    r := Some(reqs);
  }

  /** `order` lists the distinct hashes in any order (the program sorts and shuffles them).  A retest key that is no
      wanted hash, or an item without a text, is a KeyError (None). */
  method BuildRequests(env: Env, m: Manifest, texts: Texts, order: seq<string>) returns (r: Option<seq<Request>>)
    requires forall sha :: sha in order <==> sha in ShasOf(env, Wanted(env, m.items, |m.items|, texts))
    ensures r == None <==> (exists k :: 0 <= k < |m.items| && m.items[k].id !in texts)
                           || (exists k :: 0 <= k < |m.retestKeys| && m.retestKeys[k] !in order)
    ensures r.Some? ==>
              && |r.value| == |order| + |m.retestKeys|
              && RequestsFor(env, r.value[..|order|], order, false)
              && RequestsFor(env, r.value[|order|..], m.retestKeys, true)
  {
    ghost var wanted := Wanted(env, m.items, |m.items|, texts);
    var byText := IndexTexts(env, m.items, texts);
    if byText == None {
      return None;
    }
    var scores := MakeRequests(env, byText.value, wanted, order, false);
    assert scores.Some?;
    var retests := MakeRequests(env, byText.value, wanted, m.retestKeys, true);
    if retests == None {
      return None;
    }
    r := Some(scores.value + retests.value);
  }

  lemma KeysDiffer(sha: string, retest: bool, sha': string, retest': bool)
    requires |sha| == |sha'| && CacheKey(sha, retest) == CacheKey(sha', retest')
    ensures sha == sha' && retest == retest'
  {
    var a, b := CacheKey(sha, retest), CacheKey(sha', retest');
    assert sha == a[..|sha|] && sha' == b[..|sha|];
    assert |a| == |sha| + 1 + |MODEL| + if retest then 7 else 0;
  }

  /** Hashes being 64 characters long, the requests' keys are pairwise different, as the pass over them needs. */
  lemma RequestKeysDistinct(env: Env, m: Manifest, order: seq<string>, requests: seq<Request>)
    requires Distinct(order) && Distinct(m.retestKeys) && |requests| == |order| + |m.retestKeys|
    requires RequestsFor(env, requests[..|order|], order, false)
    requires RequestsFor(env, requests[|order|..], m.retestKeys, true)
    requires (forall k :: 0 <= k < |order| ==> |order[k]| == 64)
    requires (forall k :: 0 <= k < |m.retestKeys| ==> |m.retestKeys[k]| == 64)
    ensures DistinctKeys(requests)
  {
    forall i, j | 0 <= i < j < |requests| ensures requests[i].key != requests[j].key {
      var n := |order|;
      assert requests[i] == if i < n then requests[..n][i] else requests[n..][i - n];
      assert requests[j] == if j < n then requests[..n][j] else requests[n..][j - n];
      var si, sj := if i < n then order[i] else m.retestKeys[i - n], if j < n then order[j] else m.retestKeys[j - n];
      if requests[i].key == requests[j].key {
        KeysDiffer(si, i >= n, sj, j >= n);
      }
    }
  }

  // ---------- the rows ----------

  function NewSha(s: Stratum): string {
    if s.redacted.Some? then s.redacted.value else s.sha
  }

  predicate RowOk(s: Stratum, records: Records) {
    HasOk(records, CacheKey(s.sha, false)) && HasOk(records, CacheKey(NewSha(s), false))
  }

  function MissingRows(items: seq<Item>, k: nat, records: Records): nat
    requires k <= |items|
  {
    if k == 0 then 0 else
      MissingRows(items, k - 1, records)
      + (if RowOk(items[k - 1].asIs, records) then 0 else 1) + (if RowOk(items[k - 1].withPii, records) then 0 else 1)
  }

  datatype Row = Row(id: string, changed: bool, current: string, new_: string)

  /** The row of one stratum, or none if a score is missing. */
  function RowOf(id: string, s: Stratum, records: Records): seq<Row> {
    if RowOk(s, records) then
      [Row(id, s.redacted.Some?, records[CacheKey(s.sha, false)].payload, records[CacheKey(NewSha(s), false)].payload)]
    else []
  }

  function RowsOf(items: seq<Item>, k: nat, records: Records): seq<Row>
    requires k <= |items|
  {
    if k == 0 then [] else
      RowsOf(items, k - 1, records)
      + RowOf(items[k - 1].id, items[k - 1].asIs, records) + RowOf(items[k - 1].id, items[k - 1].withPii, records)
  }

  method Rows(items: seq<Item>, records: Records) returns (rows: seq<Row>, missing: nat)
    ensures rows == RowsOf(items, |items|, records)
    ensures missing == MissingRows(items, |items|, records) && |rows| + missing == 2 * |items|
  {
    rows, missing := [], 0;
    for k := 0 to |items|
      invariant rows == RowsOf(items, k, records)
      invariant missing == MissingRows(items, k, records) && |rows| + missing == 2 * k
    {
      var strata := [items[k].asIs, items[k].withPii];
      ghost var rows0, missing0 := rows, missing;
      for j := 0 to 2
        invariant rows == rows0 + (if j > 0 then RowOf(items[k].id, strata[0], records) else [])
                                + (if j > 1 then RowOf(items[k].id, strata[1], records) else [])
        invariant missing == missing0 + (if j > 0 && !RowOk(strata[0], records) then 1 else 0)
                                      + (if j > 1 && !RowOk(strata[1], records) then 1 else 0)
        invariant |rows| + missing == 2 * k + j
      {
        var s := strata[j];
        rows := rows + RowOf(items[k].id, s, records);
        if !RowOk(s, records) {
          missing := missing + 1;
        }
      }
    }
  }

  /** Every wanted text has an ok record under its cache key. */
  ghost predicate AllScored(env: Env, items: seq<Item>, texts: Texts, records: Records) {
    forall t :: t in Wanted(env, items, |items|, texts) ==> HasOk(records, CacheKey(env.hash(t), false))
  }

  lemma {:induction false} WantedCovers(env: Env, items: seq<Item>, k: nat, j: nat, texts: Texts)
    requires j < k <= |items|
    ensures WantedOf(env, items[j], texts) <= Wanted(env, items, k, texts)
  {
    if j < k - 1 {
      WantedCovers(env, items, k - 1, j, texts);
    }
  }

  /** The redacted input of a stratum, where it has one, was scored. */
  predicate NewScored(s: Stratum, records: Records) {
    s.redacted.Some? ==> HasOk(records, CacheKey(s.redacted.value, false))
  }

  lemma ItemRows(env: Env, items: seq<Item>, k: nat, texts: Texts, records: Records)
    requires k < |items| && Verified(env, items, texts) && AllScored(env, items, texts, records)
    ensures RowOk(items[k].asIs, records) <==> NewScored(items[k].asIs, records)
    ensures RowOk(items[k].withPii, records) <==> NewScored(items[k].withPii, records)
  {
    WantedCovers(env, items, |items|, k, texts);
    var it := items[k];
    assert texts[it.id] in WantedOf(env, it, texts);
    assert env.variant(it.id, texts[it.id]) in WantedOf(env, it, texts);
  }

  lemma {:induction false} MissingIff(items: seq<Item>, k: nat, records: Records)
    requires k <= |items|
    ensures MissingRows(items, k, records) == 0
            <==> forall j :: 0 <= j < k ==> RowOk(items[j].asIs, records) && RowOk(items[j].withPii, records)
  {
    if k > 0 {
      MissingIff(items, k - 1, records);
    }
  }

  lemma RowsWhenScored(env: Env, items: seq<Item>, texts: Texts, records: Records)
    requires Verified(env, items, texts) && AllScored(env, items, texts, records)
    ensures MissingRows(items, |items|, records) == 0
            <==> forall k :: 0 <= k < |items| ==>
                  NewScored(items[k].asIs, records) && NewScored(items[k].withPii, records)
  {
    MissingIff(items, |items|, records);
    forall k | 0 <= k < |items|
      ensures RowOk(items[k].asIs, records) <==> NewScored(items[k].asIs, records)
      ensures RowOk(items[k].withPii, records) <==> NewScored(items[k].withPii, records)
    {
      ItemRows(env, items, k, texts, records);
    }
  }

  /** Each wanted text has an ok record, which holds its score. */
  ghost predicate Holds(env: Env, wanted: set<string>, records: Records, score: string -> string) {
    forall t :: t in wanted ==>
      var key := CacheKey(env.hash(t), false); HasOk(records, key) && records[key].payload == score(t)
  }

  /** The row of one text: its own score is the current one, and that of its redaction the new one. */
  ghost predicate RowIs(env: Env, row: Row, id: string, text: string, score: string -> string) {
    && row.id == id && row.current == score(text) && row.new_ == score(env.redact(text))
    && (row.changed <==> env.redact(text) != text)
  }

  lemma RowOfText(env: Env, wanted: set<string>, id: string, text: string, records: Records, score: string -> string)
    requires Inputs(env, text) <= wanted && Holds(env, wanted, records, score)
    ensures var rows := RowOf(id, Derive(env, text), records); |rows| == 1 && RowIs(env, rows[0], id, text, score)
  {
    assert text in wanted && env.redact(text) in wanted;
  }

  /** Row 2k is of the k-th item's text and row 2k + 1 of its variant, for the first n items. */
  ghost predicate RowsAre(env: Env, rows: seq<Row>, items: seq<Item>, n: nat, texts: Texts, score: string -> string) {
    && n <= |items| && |rows| == 2 * n
    && forall k :: 0 <= k < n ==>
      var id := items[k].id;
      && id in texts && RowIs(env, rows[2 * k], id, texts[id], score) == true
      && RowIs(env, rows[2 * k + 1], id, env.variant(id, texts[id]), score) == true
  }

  lemma NextRows(env: Env, rows: seq<Row>, items: seq<Item>, n: nat, texts: Texts, score: string -> string, a: Row,
                 b: Row)
    requires n < |items| && RowsAre(env, rows, items, n, texts, score) && items[n].id in texts
    requires var id := items[n].id;
      RowIs(env, a, id, texts[id], score) && RowIs(env, b, id, env.variant(id, texts[id]), score)
    ensures RowsAre(env, rows + [a] + [b], items, n + 1, texts, score)
  {
    var more := rows + [a] + [b];
    assert more[2 * n] == a && more[2 * n + 1] == b;
  }

  lemma RowsOfItem(env: Env, items: seq<Item>, n: nat, texts: Texts, records: Records, score: string -> string)
    returns (a: Row, b: Row)
    requires n < |items| && Derived(env, items, texts)
    requires Holds(env, Wanted(env, items, |items|, texts), records, score)
    ensures var it := items[n];
      && it.id in texts && RowOf(it.id, it.asIs, records) == [a] && RowOf(it.id, it.withPii, records) == [b]
      && RowIs(env, a, it.id, texts[it.id], score) == true
      && RowIs(env, b, it.id, env.variant(it.id, texts[it.id]), score) == true
  {
    var it, wanted := items[n], Wanted(env, items, |items|, texts);
    WantedCovers(env, items, |items|, n, texts);
    RowOfText(env, wanted, it.id, texts[it.id], records, score);
    RowOfText(env, wanted, it.id, env.variant(it.id, texts[it.id]), records, score);
    a, b := RowOf(it.id, it.asIs, records)[0], RowOf(it.id, it.withPii, records)[0];
  }

  /** For a derived manifest with every request scored, the rows of all items in order, with the scores of the text and
      of its redaction under the right names. */
  lemma {:induction false} RowsHoldScores(env: Env, items: seq<Item>, n: nat, texts: Texts, records: Records,
                                          score: string -> string)
    requires n <= |items| && Derived(env, items, texts)
    requires Holds(env, Wanted(env, items, |items|, texts), records, score)
    ensures RowsAre(env, RowsOf(items, n, records), items, n, texts, score)
  {
    if n > 0 {
      RowsHoldScores(env, items, n - 1, texts, records, score);
      var a, b := RowsOfItem(env, items, n - 1, texts, records, score);
      NextRows(env, RowsOf(items, n - 1, records), items, n - 1, texts, score, a, b);
    }
  }

  // ---------- when scoring every request is enough ----------

  /** The stratum's `new` field, if it has one, is the hash of some text that is scored. */
  predicate NewWanted(env: Env, s: Stratum, wanted: set<string>) {
    s.redacted.Some? ==> s.redacted.value in ShasOf(env, wanted)
  }

  /** Every `new` field of the manifest is. */
  predicate NewFieldsWanted(env: Env, items: seq<Item>, texts: Texts) {
    forall k :: 0 <= k < |items| ==>
      var wanted := Wanted(env, items, |items|, texts);
      NewWanted(env, items[k].asIs, wanted) && NewWanted(env, items[k].withPii, wanted)
  }

  /** The cache that holds an ok record for every wanted text, and nothing else. */
  ghost function ScoredCache(env: Env, wanted: set<string>): Records {
    map key | key in WantedKeys(env, wanted) :: Rec(FIELDS, key, true, "")
  }

  function WantedKeys(env: Env, wanted: set<string>): set<string> {
    set t | t in wanted :: CacheKey(env.hash(t), false)
  }

  lemma CacheHolds(env: Env, wanted: set<string>, sha: string)
    ensures HasOk(ScoredCache(env, wanted), CacheKey(sha, false)) <==> sha in ShasOf(env, wanted)
  {
    if CacheKey(sha, false) in WantedKeys(env, wanted) {
      var t :| t in wanted && CacheKey(env.hash(t), false) == CacheKey(sha, false);
      assert |env.hash(t)| == |sha|;
      KeysDiffer(sha, false, env.hash(t), false);
    }
  }

  lemma ScoredCacheScoresAll(env: Env, items: seq<Item>, texts: Texts)
    ensures AllScored(env, items, texts, ScoredCache(env, Wanted(env, items, |items|, texts)))
  {
    var wanted := Wanted(env, items, |items|, texts);
    forall t | t in wanted ensures HasOk(ScoredCache(env, wanted), CacheKey(env.hash(t), false)) {
      CacheHolds(env, wanted, env.hash(t));
    }
  }

  /** Scoring every request leaves no row missing, whatever the cache holds besides. */
  ghost predicate ScoringIsEnough(env: Env, items: seq<Item>, texts: Texts) {
    forall records :: AllScored(env, items, texts, records) ==> MissingRows(items, |items|, records) == 0
  }

  lemma WantedNewIsScored(env: Env, items: seq<Item>, texts: Texts, s: Stratum, records: Records)
    requires AllScored(env, items, texts, records) && NewWanted(env, s, Wanted(env, items, |items|, texts))
    ensures NewScored(s, records)
  {
  }

  /** For a verified manifest, scoring every request is enough if and only if every `new` field is the hash of a text
      that is scored; verification does not look at those fields. */
  lemma ScoringIsEnoughIff(env: Env, items: seq<Item>, texts: Texts)
    requires Verified(env, items, texts)
    ensures ScoringIsEnough(env, items, texts) <==> NewFieldsWanted(env, items, texts)
  {
    var wanted := Wanted(env, items, |items|, texts);
    if NewFieldsWanted(env, items, texts) {
      forall records | AllScored(env, items, texts, records) ensures MissingRows(items, |items|, records) == 0 {
        forall k | 0 <= k < |items| ensures NewScored(items[k].asIs, records) && NewScored(items[k].withPii, records) {
          WantedNewIsScored(env, items, texts, items[k].asIs, records);
          WantedNewIsScored(env, items, texts, items[k].withPii, records);
        }
        RowsWhenScored(env, items, texts, records);
      }
    } else {
      UnwantedNewIsMissing(env, items, texts);
    }
  }

  /** Otherwise the cache of exactly the requests' scores misses a row. */
  lemma UnwantedNewIsMissing(env: Env, items: seq<Item>, texts: Texts)
    requires Verified(env, items, texts) && !NewFieldsWanted(env, items, texts)
    ensures var records := ScoredCache(env, Wanted(env, items, |items|, texts));
      AllScored(env, items, texts, records) && MissingRows(items, |items|, records) > 0
  {
    var wanted := Wanted(env, items, |items|, texts);
    var records := ScoredCache(env, wanted);
    ScoredCacheScoresAll(env, items, texts);
    RowsWhenScored(env, items, texts, records);
    var k :| 0 <= k < |items| && !(NewWanted(env, items[k].asIs, wanted) && NewWanted(env, items[k].withPii, wanted));
    var s := if NewWanted(env, items[k].asIs, wanted) then items[k].withPii else items[k].asIs;
    CacheHolds(env, wanted, s.redacted.value);
  }

  /** A manifest derived from the same texts by the same code meets the condition. */
  lemma NoRowMissingWhenDerived(env: Env, items: seq<Item>, texts: Texts, records: Records)
    requires Derived(env, items, texts) && AllScored(env, items, texts, records)
    ensures Verified(env, items, texts) && NewFieldsWanted(env, items, texts)
    ensures MissingRows(items, |items|, records) == 0
  {
    forall k | 0 <= k < |items|
      ensures var wanted := Wanted(env, items, |items|, texts);
        NewWanted(env, items[k].asIs, wanted) && NewWanted(env, items[k].withPii, wanted)
    {
      WantedCovers(env, items, |items|, k, texts);
      var it := items[k];
      var text := texts[it.id];
      assert env.redact(text) in WantedOf(env, it, texts);
      assert env.redact(env.variant(it.id, text)) in WantedOf(env, it, texts);
    }
    ScoringIsEnoughIff(env, items, texts);
  }

  /** A verified manifest whose `new` field is no hash of a scored text: every request is scored, and still a row is
      missing. */
  lemma StaleRedactionIsMissing(env: Env, id: string, text: string, stale: string)
    requires stale !in ShasOf(env, Inputs(env, text) + Inputs(env, env.variant(id, text)))
    ensures var items := [Item(id, Stratum(env.hash(text), Some(stale)), Derive(env, env.variant(id, text)))];
      var texts := map[id := text]; var records := ScoredCache(env, Wanted(env, items, 1, texts));
      Verified(env, items, texts) && AllScored(env, items, texts, records) && MissingRows(items, 1, records) > 0
  {
    var items := [Item(id, Stratum(env.hash(text), Some(stale)), Derive(env, env.variant(id, text)))];
    var texts := map[id := text];
    assert Wanted(env, items, 1, texts) == Inputs(env, text) + Inputs(env, env.variant(id, text)) by {
      assert Wanted(env, items, 0, texts) == {};
    }
    assert !NewWanted(env, items[0].asIs, Wanted(env, items, 1, texts));
    UnwantedNewIsMissing(env, items, texts);
  }
}
