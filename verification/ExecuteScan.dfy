/**
 The EXECUTE half of `scan_sql` (scripts/check_migrations_no_bypassrls_grant.py): every EXECUTE statement with a
 BYPASSRLS word inside one of its string literals is reported with its line.
 */
module ExecuteScan {
  import opened Common
  import opened SqlLexer
  import opened SqlLexerLaws

  function Upper(c: char): char {
    if 'a' <= c <= 'z' then (c as int - 'a' as int + 'A' as int) as char else c
  }

  /** A character that `re.IGNORECASE` matches with a capital letter: the long s counts as an S. */
  predicate SameLetter(c: char, letter: char) {
    Upper(c) == letter || (letter == 'S' && c == '\U{017F}')
  }

  /** A character that `[A-Za-z0-9_]` matches under `re.IGNORECASE`, four letters beyond ASCII included. */
  predicate IsWordChar(c: char) {
    IsIdent(c) || c == '\U{0130}' || c == '\U{0131}' || c == '\U{017F}' || c == '\U{212A}'
  }

  /** `word` (in capitals) stands at position k in any case, and is no part of a longer word. */
  predicate WordAt(s: string, word: string, k: nat) {
    && k + |word| <= |s|
    && (forall i :: 0 <= i < |word| ==> SameLetter(s[k + i], word[i]))
    && (k == 0 || !IsWordChar(s[k - 1]))
    && (k + |word| == |s| || !IsWordChar(s[k + |word|]))
  }

  const EXECUTE := "EXECUTE"
  const BYPASSRLS := "BYPASSRLS"

  /** The first semicolon of `code` at or after `from`, or its end. */
  function StatementEnd(code: string, from: nat): (end: nat)
    requires from <= |code|
    ensures from <= end <= |code| && ';' !in code[from..end] && (end == |code| || code[end] == ';')
    decreases |code| - from
  {
    if from == |code| || code[from] == ';' then from else StatementEnd(code, from + 1)
  }

  /** A BYPASSRLS word starts at b, before `end`, inside a single-quoted literal of the input. */
  ghost predicate QuotedGrant(sql: string, b: nat, end: nat) {
    && end <= |sql| && b + |BYPASSRLS| <= end
    && WordAt(Text(sql, |sql|), BYPASSRLS, b) && InLiteral(sql, b)
  }

  /** An EXECUTE word outside every literal and comment whose statement holds a quoted BYPASSRLS. */
  ghost predicate ExecuteHit(sql: string, p: nat)
    requires p <= |sql|
  {
    && WordAt(Code(sql, |sql|), EXECUTE, p)
    && HoldsQuotedGrant(sql, p + |EXECUTE|, StatementEnd(Code(sql, |sql|), p + |EXECUTE|))
  }

  ghost predicate HoldsQuotedGrant(sql: string, from: nat, end: nat) {
    exists b: nat :: from <= b && QuotedGrant(sql, b, end)
  }

  /** The input lines of the hits at positions below k, in order. */
  ghost function HitLines(sql: string, k: nat): seq<nat>
    requires k <= |sql|
  {
    if k == 0 then [] else
      HitLines(sql, k - 1) + if ExecuteHit(sql, k - 1) then [LineOf(sql, k - 1)] else []
  }

  /** An EXECUTE word at p of the code output, and after it, with no semicolon of the code output in between, a
      BYPASSRLS word at b of the text output that starts inside a literal. */
  ghost predicate GrantsIn(sql: string, p: nat, b: nat) {
    && p + 7 <= b && b + 9 <= |sql|
    && WordAt(Code(sql, |sql|), "EXECUTE", p) && WordAt(Text(sql, |sql|), "BYPASSRLS", b) && InLiteral(sql, b)
    && forall k :: p + 7 <= k < b + 9 ==> Code(sql, |sql|)[k] != ';'
  }

  /** A position is a hit exactly when such a word follows it. */
  lemma HitIff(sql: string, p: nat)
    requires p <= |sql|
    ensures ExecuteHit(sql, p) <==> exists b: nat :: GrantsIn(sql, p, b)
  {
    var code := Code(sql, |sql|);
    if WordAt(code, EXECUTE, p) {
      var from, end := p + 7, StatementEnd(code, p + 7);
      if ExecuteHit(sql, p) {
        var b: nat :| from <= b && QuotedGrant(sql, b, end);
        forall k | from <= k < b + 9 ensures code[k] != ';' {
          assert code[k] == code[from..end][k - from];
        }
        assert GrantsIn(sql, p, b);
      }
      if b: nat :| GrantsIn(sql, p, b) {
        assert QuotedGrant(sql, b, end);
      }
    }
  }

  /** The lines reported are those of the positions with such a word after them: one line for each position, however
      many words follow it, in the order of the positions. */
  lemma LinesOfHits(sql: string, p: nat)
    requires p < |sql|
    ensures HitLines(sql, 0) == []
    ensures HitLines(sql, p + 1)
         == HitLines(sql, p) + if exists b: nat :: GrantsIn(sql, p, b) then [LineOf(sql, p)] else []
  {
    HitIff(sql, p);
  }

  lemma LinesGrow(sql: string, k: nat)
    requires k < |sql|
    ensures HitLines(sql, k) <= HitLines(sql, k + 1)
    ensures ExecuteHit(sql, k) == true ==> LineOf(sql, k) in HitLines(sql, k + 1)
  {
  }

  lemma {:induction false} HitIsReported(sql: string, k: nat, p: nat)
    requires p < k <= |sql| && ExecuteHit(sql, p) == true
    ensures LineOf(sql, p) in HitLines(sql, k)
  {
    LinesGrow(sql, k - 1);
    if p < k - 1 {
      HitIsReported(sql, k - 1, p);
    }
  }

  lemma {:induction false} HitOfLine(sql: string, k: nat, line: nat) returns (p: nat)
    requires k <= |sql| && line in HitLines(sql, k)
    ensures p < k && ExecuteHit(sql, p) == true && LineOf(sql, p) == line
  {
    if line in HitLines(sql, k - 1) {
      p := HitOfLine(sql, k - 1, line);
    } else {
      p := k - 1;
    }
  }

  /** A line is reported exactly when such a pair of words starts on it. */
  lemma LineReportedIff(sql: string, line: nat)
    ensures line in HitLines(sql, |sql|)
       <==> exists p: nat, b: nat :: p < |sql| && GrantsIn(sql, p, b) && LineOf(sql, p) == line
  {
    if line in HitLines(sql, |sql|) {
      var p := HitOfLine(sql, |sql|, line);
      HitIff(sql, p);
      var b: nat :| GrantsIn(sql, p, b);
    }
    if p: nat, b: nat :| p < |sql| && GrantsIn(sql, p, b) && LineOf(sql, p) == line {
      HitIff(sql, p);
      HitIsReported(sql, |sql|, p);
    }
  }

  method CountLine(s: string, offset: nat) returns (line: nat)
    requires offset <= |s|
    ensures line == LineOf(s, offset)
  {
    line := 1;
    for k := 0 to offset
      invariant line == LineOf(s, k)
    {
      if s[k] == '\n' {
        line := line + 1;
      }
    }
  }

  lemma WordIsSolid(s: string, word: string, k: nat)
    requires WordAt(s, word, k) && (word == EXECUTE || word == BYPASSRLS)
    ensures forall i :: k <= i < k + |word| ==> IsSolid(s[i])
  {
    forall i | k <= i < k + |word| ensures IsSolid(s[i]) {
      assert SameLetter(s[k + (i - k)], word[i - k]);
      assert 'A' <= word[i - k] <= 'Z';
    }
  }

  /** Two words never overlap or touch, so that trying every position finds the same matches as `finditer`, which goes
      on behind each match. */
  lemma WordsAreApart(s: string, word: string, k: nat, word': string, k': nat)
    requires WordAt(s, word, k) && WordAt(s, word', k') && k < k'
    requires (word == EXECUTE || word == BYPASSRLS) && (word' == EXECUTE || word' == BYPASSRLS)
    ensures k + |word| < k'
  {
    LettersOfWord(s, word, k);
  }

  lemma LettersOfWord(s: string, word: string, k: nat)
    requires WordAt(s, word, k) && (word == EXECUTE || word == BYPASSRLS)
    ensures forall i :: k <= i < k + |word| ==> IsWordChar(s[i])
  {
    forall i | k <= i < k + |word| ensures IsWordChar(s[i]) {
      assert SameLetter(s[k + (i - k)], word[i - k]);
      assert 'A' <= word[i - k] <= 'Z';
    }
  }

  /** The test the scan makes at a match, in terms of the input: the matched characters differ between the two
      outputs exactly when the match lies inside a literal. */
  lemma MatchDiffersIffLiteral(sql: string, text: string, code: string, b: nat, j: nat)
    requires text == Text(sql, |sql|) && code == Code(sql, |sql|) && WordAt(text, BYPASSRLS, b) && j == b + |BYPASSRLS|
    ensures code[b..j] != text[b..j] <==> InLiteral(sql, b)
  {
    WordIsSolid(text, BYPASSRLS, b);
    WordDiffersIffLiteral(sql, b, j);
  }

  method QuotedGrantIn(ghost sql: string, text: string, code: string, from: nat, end: nat) returns (found: bool)
    requires text == Text(sql, |sql|) && code == Code(sql, |sql|) && from <= end <= |sql|
    ensures found <==> HoldsQuotedGrant(sql, from, end)
  {
    var b := from;
    while b + |BYPASSRLS| <= end
      invariant from <= b
      invariant forall a: nat :: from <= a < b ==> !QuotedGrant(sql, a, end)
    {
      if WordAt(text, BYPASSRLS, b) {
        var j := b + |BYPASSRLS|;
        MatchDiffersIffLiteral(sql, text, code, b, j);
        if code[b..j] != text[b..j] {
          assert QuotedGrant(sql, b, end);
          return true;
        }
      }
      assert !QuotedGrant(sql, b, end);
      b := b + 1;
    }
    found := false;
  }

  method ScanExecutes(sql: string) returns (r: Result<seq<nat>, ScanError>)
    ensures r.Err? <==> Lex(sql).Err?
    ensures r.Err? ==> r.error == Lex(sql).error
    ensures r.Ok? ==> r.value == HitLines(sql, |sql|)
    ensures r.Ok? ==> forall line ::
              line in r.value <==>
              exists p: nat, b: nat :: p < |sql| && GrantsIn(sql, p, b) && LineOf(sql, p) == line
  {
    var stripped := Strip(sql);
    if stripped.Err? {
      return Err(stripped.error);
    }
    var text, code := stripped.value.text, stripped.value.code;
    var hits: seq<nat> := [];
    for m := 0 to |code|
      invariant hits == HitLines(sql, m)
    {
      if WordAt(code, EXECUTE, m) {
        var end := StatementEnd(code, m + |EXECUTE|);
        var found := QuotedGrantIn(sql, text, code, m + |EXECUTE|, end);
        if found {
          OffsetsKeepTheirLine(sql, m);
          var line := CountLine(text, m);
          hits := hits + [line];
        }
      }
    }
    forall line ensures line in hits <==>
            exists p: nat, b: nat :: p < |sql| && GrantsIn(sql, p, b) && LineOf(sql, p) == line
    {
      LineReportedIff(sql, line);
    }
    r := Ok(hits);
  }
}
