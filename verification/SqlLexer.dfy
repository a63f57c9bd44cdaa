/**
 The length-preserving SQL lexer of scripts/check_migrations_no_bypassrls_grant.py.

 `Strip` is the index-jumping scanner; `StateAt` is the automaton it refines, which reads one character at a
 time and looks at no more than the next one.  The token rules are those of section 4.1 (Lexical Structure)
 of the PostgreSQL documentation, as far as the program implements them.
 */
module SqlLexer {
  import opened Common

  datatype ScanError = UnterminatedComment | UnterminatedString | UnterminatedIdentifier

  datatype Stripped = Stripped(text: string, code: string)

  // ---------- the automaton ----------

  /** What precedes a position outside every comment and quote: nothing of a word, a word that so far is just
      the letter E, or any other word. */
  datatype Word = Fresh | JustE | Inside

  /** `BlockSkip(d)` and `StringSkip`/`QuotedSkip` read the second character of a two-character token. */
  datatype State =
    | Normal(word: Word)
    | LineComment
    | Block(depth: nat)
    | BlockSkip(depth: nat)
    | InString(escapes: bool)
    | StringSkip(escapes: bool)
    | Quoted
    | QuotedSkip

  predicate IsIdent(c: char) {
    'A' <= c <= 'Z' || 'a' <= c <= 'z' || '0' <= c <= '9' || c == '_'
  }

  function NextWord(word: Word, c: char): Word {
    if !IsIdent(c) then Fresh
    else if word == Fresh && (c == 'e' || c == 'E') then JustE
    else Inside
  }

  function Step(state: State, c: char, next: Option<char>): State {
    match state
    case Normal(word) =>
      if c == '-' && next == Some('-') then LineComment
      else if c == '/' && next == Some('*') then BlockSkip(1)
      else if c == '\'' then InString(word == JustE)
      else if c == '"' then Quoted
      else Normal(NextWord(word, c))
    case LineComment => if c == '\n' then Normal(Fresh) else LineComment
    case Block(d) =>
      if c == '/' && next == Some('*') then BlockSkip(d + 1)
      else if c == '*' && next == Some('/') && d > 0 then BlockSkip(d - 1)
      else Block(d)
    case BlockSkip(d) => if d == 0 then Normal(Fresh) else Block(d)
    case InString(escapes) =>
      if escapes && c == '\\' then StringSkip(escapes)
      else if c != '\'' then InString(escapes)
      else if next == Some('\'') then StringSkip(escapes)
      else Normal(Fresh)
    case StringSkip(escapes) => InString(escapes)
    case Quoted =>
      if c != '"' then Quoted
      else if next == Some('"') then QuotedSkip
      else Normal(Fresh)
    case QuotedSkip => Quoted
  }

  function Peek(s: string, k: nat): Option<char> {
    if k < |s| then Some(s[k]) else None
  }

  /** The state before position k. */
  function StateAt(s: string, k: nat): State
    requires k <= |s|
  {
    if k == 0 then Normal(Fresh) else Step(StateAt(s, k - 1), s[k - 1], Peek(s, k))
  }

  function BlankChar(c: char): char {
    if c == '\n' then '\n' else ' '
  }

  predicate OpensComment(state: State, c: char, next: Option<char>) {
    state.Normal? && ((c == '-' && next == Some('-')) || (c == '/' && next == Some('*')))
  }

  /** A character read in this state belongs to a comment. */
  predicate Commented(state: State, c: char, next: Option<char>) {
    state.Block? || state.BlockSkip? || (state.LineComment? && c != '\n') || OpensComment(state, c, next)
  }

  /** A character read in this state lies strictly between the quotes of a single-quoted literal. */
  predicate Literal(state: State, c: char, next: Option<char>) {
    state.StringSkip? || (state.InString? && !Step(state, c, next).Normal?)
  }

  function TextOut(state: State, c: char, next: Option<char>): char {
    if Commented(state, c, next) then BlankChar(c) else c
  }

  function CodeOut(state: State, c: char, next: Option<char>): char {
    if Commented(state, c, next) || Literal(state, c, next) then BlankChar(c) else c
  }

  predicate InComment(s: string, k: nat)
    requires k < |s|
  {
    Commented(StateAt(s, k), s[k], Peek(s, k + 1))
  }

  predicate InLiteral(s: string, k: nat)
    requires k < |s|
  {
    Literal(StateAt(s, k), s[k], Peek(s, k + 1))
  }

  function TextChar(s: string, k: nat): char
    requires k < |s|
  {
    TextOut(StateAt(s, k), s[k], Peek(s, k + 1))
  }

  function CodeChar(s: string, k: nat): char
    requires k < |s|
  {
    CodeOut(StateAt(s, k), s[k], Peek(s, k + 1))
  }

  function Text(s: string, k: nat): (r: string)
    requires k <= |s|
    ensures |r| == k
  {
    if k == 0 then "" else Text(s, k - 1) + [TextChar(s, k - 1)]
  }

  function Code(s: string, k: nat): (r: string)
    requires k <= |s|
    ensures |r| == k
  {
    if k == 0 then "" else Code(s, k - 1) + [CodeChar(s, k - 1)]
  }

  function Unterminated(state: State): Option<ScanError> {
    match state
    case Normal(_) => None
    case LineComment => None
    case Block(_) => Some(UnterminatedComment)
    case BlockSkip(_) => Some(UnterminatedComment)
    case InString(_) => Some(UnterminatedString)
    case StringSkip(_) => Some(UnterminatedString)
    case Quoted => Some(UnterminatedIdentifier)
    case QuotedSkip => Some(UnterminatedIdentifier)
  }

  /** What the automaton makes of a whole input: the final state decides between the two texts and an error. */
  function Lex(s: string): Result<Stripped, ScanError> {
    match Unterminated(StateAt(s, |s|))
    case Some(error) => Err(error)
    case None => Ok(Stripped(Text(s, |s|), Code(s, |s|)))
  }

  // ---------- the scanner ----------

  // Contracts below state some predicates as `P == true`, which keeps P folded in the proofs that use it.

  lemma BlockCloses(s: string, k: nat)
    requires k < |s| && StateAt(s, k) == BlockSkip(0)
    ensures s[k] == '/'
  {
  }

  lemma FreshIsNoIdent(s: string, i: nat)
    requires i <= |s| && StateAt(s, i).Normal?
    ensures StateAt(s, i).word == Fresh <==> i == 0 || !IsIdent(s[i - 1])
  {
    if i > 0 && StateAt(s, i - 1) == BlockSkip(0) {
      BlockCloses(s, i - 1);
    }
  }

  /** Outside comments and quotes the automaton's word is what looking back at the raw input shows. */
  lemma WordIsLookBehind(s: string, i: nat)
    requires i <= |s| && StateAt(s, i).Normal?
    ensures StateAt(s, i).word == JustE
            <==> i > 0 && (s[i - 1] == 'e' || s[i - 1] == 'E') && (i < 2 || !IsIdent(s[i - 2]))
  {
    FreshIsNoIdent(s, i);
    if i > 0 && StateAt(s, i - 1).Normal? {
      FreshIsNoIdent(s, i - 1);
    }
  }

  function Blank(chars: string): string {
    seq(|chars|, k requires 0 <= k < |chars| => BlankChar(chars[k]))
  }

  /** The two characters `a` and `b` stand at position i. */
  predicate StartsWith(s: string, a: char, b: char, i: nat) {
    i + 1 < |s| && s[i] == a && s[i + 1] == b
  }

  /** The scanner's positions outside comments and quotes; a line comment hands over at its newline. */
  ghost predicate AtTop(s: string, i: nat)
    requires i <= |s|
  {
    StateAt(s, i).Normal? || (StateAt(s, i).LineComment? && (i < |s| ==> s[i] == '\n'))
  }

  ghost predicate AllComment(s: string, i: nat, j: nat)
    requires j <= |s|
  {
    forall k :: i <= k < j ==> InComment(s, k)
  }

  method LineEnd(sql: string, i: nat) returns (j: nat)
    requires StartsWith(sql, '-', '-', i) && StateAt(sql, i).Normal?
    ensures i < j <= |sql| && AllComment(sql, i, j)
    ensures AtTop(sql, j)
  {
    j := i;
    while j < |sql| && sql[j] != '\n'
      invariant i <= j <= |sql| && AllComment(sql, i, j)
      invariant if j == i then StateAt(sql, j).Normal? else StateAt(sql, j) == LineComment
    {
      j := j + 1;
    }
  }

  lemma BlockStep(s: string, j: nat, depth: nat)
    requires j < |s| && depth > 0 && StateAt(s, j) == Block(depth)
    ensures InComment(s, j)
    ensures StartsWith(s, '/', '*', j) ==> InComment(s, j + 1) && StateAt(s, j + 2) == Block(depth + 1)
    ensures StartsWith(s, '*', '/', j) ==>
              InComment(s, j + 1) && StateAt(s, j + 2) == if depth == 1 then Normal(Fresh) else Block(depth - 1)
    ensures !StartsWith(s, '/', '*', j) && !StartsWith(s, '*', '/', j) ==> StateAt(s, j + 1) == Block(depth)
  {
    if StartsWith(s, '/', '*', j) {
      assert StateAt(s, j + 1) == BlockSkip(depth + 1);
    } else if StartsWith(s, '*', '/', j) {
      assert StateAt(s, j + 1) == BlockSkip(depth - 1);
    }
  }

  /** Inside the comment opened at i, of which the characters before j have been passed, at this depth. */
  ghost predicate InBlock(s: string, i: nat, j: nat, depth: nat) {
    && i < j <= |s| && AllComment(s, i, j)
    && StateAt(s, j) == if depth == 0 then Normal(Fresh) else Block(depth)
  }

  lemma BlockOpens(s: string, i: nat)
    requires StartsWith(s, '/', '*', i) && StateAt(s, i).Normal?
    ensures InBlock(s, i, i + 2, 1) == true
  {
    assert StateAt(s, i + 1) == BlockSkip(1);
    assert InComment(s, i) && InComment(s, i + 1);
  }

  lemma BlockAdvances(s: string, i: nat, j: nat, depth: nat, j': nat, depth': nat)
    requires InBlock(s, i, j, depth) && depth > 0 && j < |s|
    requires if StartsWith(s, '/', '*', j) then j' == j + 2 && depth' == depth + 1
             else if StartsWith(s, '*', '/', j) then j' == j + 2 && depth' == depth - 1
             else j' == j + 1 && depth' == depth
    ensures InBlock(s, i, j', depth') == true
  {
    BlockStep(s, j, depth);
  }

  lemma BlockEnds(s: string, i: nat, j: nat, depth: nat)
    requires InBlock(s, i, j, depth) && (j == |s| || depth == 0)
    ensures i < j <= |s| && AllComment(s, i, j) == true
    ensures if depth == 0 then AtTop(s, j) == true else Lex(s) == Err(UnterminatedComment)
  {
  }

  method BlockEnd(sql: string, i: nat) returns (j: nat, depth: nat)
    requires StartsWith(sql, '/', '*', i) && StateAt(sql, i).Normal?
    ensures i < j <= |sql| && AllComment(sql, i, j) == true
    ensures if depth == 0 then AtTop(sql, j) == true else Lex(sql) == Err(UnterminatedComment)
  {
    depth, j := 1, i + 2;
    BlockOpens(sql, i);
    while j < |sql| && depth > 0
      invariant j <= |sql| && InBlock(sql, i, j, depth) == true
    {
      ghost var (j0, depth0) := (j, depth);
      if StartsWith(sql, '/', '*', j) {
        depth, j := depth + 1, j + 2;
      } else if StartsWith(sql, '*', '/', j) {
        depth, j := depth - 1, j + 2;
      } else {
        j := j + 1;
      }
      BlockAdvances(sql, i, j0, depth0, j, depth);
    }
    BlockEnds(sql, i, j, depth);
  }

  ghost predicate AllLiteral(s: string, i: nat, j: nat)
    requires j <= |s|
  {
    forall k :: i <= k < j ==> InLiteral(s, k)
  }

  ghost predicate AllPlain(s: string, i: nat, j: nat)
    requires j <= |s|
  {
    forall k :: i <= k < j ==> !InComment(s, k) && !InLiteral(s, k)
  }

  lemma StringStep(s: string, j: nat, escapes: bool)
    requires j < |s| && StateAt(s, j) == InString(escapes)
    ensures var skips := (escapes && s[j] == '\\') || StartsWith(s, '\'', '\'', j);
      && (skips ==> InLiteral(s, j) && StateAt(s, j + 1) == StringSkip(escapes))
      && (skips && j + 1 < |s| ==> InLiteral(s, j + 1) && StateAt(s, j + 2) == InString(escapes))
      && (!skips && s[j] != '\'' ==> InLiteral(s, j) && StateAt(s, j + 1) == InString(escapes))
      && (!skips && s[j] == '\'' ==> AllPlain(s, j, j + 1) && StateAt(s, j + 1) == Normal(Fresh))
  {
  }

  /** Inside the literal opened at i, of which the characters before j have been passed; a skip may lead one past
      the input's end. */
  ghost predicate WithinLiteral(s: string, i: nat, j: nat, escapes: bool) {
    && i < j <= |s| + 1 && AllLiteral(s, i + 1, if j <= |s| then j else |s|)
    && if j <= |s| then StateAt(s, j) == InString(escapes) else StateAt(s, |s|) == StringSkip(escapes)
  }

  lemma LiteralOpens(s: string, i: nat, escapes: bool)
    requires i < |s| && StateAt(s, i).Normal? && s[i] == '\'' && escapes == (StateAt(s, i).word == JustE)
    ensures WithinLiteral(s, i, i + 1, escapes) == true && AllPlain(s, i, i + 1) == true
  {
  }

  lemma LiteralAdvances(s: string, i: nat, j: nat, j': nat, escapes: bool)
    requires WithinLiteral(s, i, j, escapes) && j < |s|
    requires var skips := (escapes && s[j] == '\\') || StartsWith(s, '\'', '\'', j);
      if skips then j' == j + 2 else j' == j + 1 && s[j] != '\''
    ensures WithinLiteral(s, i, j', escapes) == true
  {
    StringStep(s, j, escapes);
  }

  lemma LiteralCloses(s: string, i: nat, j: nat, escapes: bool)
    requires WithinLiteral(s, i, j, escapes) && j < |s| && s[j] == '\'' && !StartsWith(s, '\'', '\'', j)
    ensures AllLiteral(s, i + 1, j) == true && AllPlain(s, j, j + 1) == true && AtTop(s, j + 1) == true
  {
    StringStep(s, j, escapes);
  }

  lemma LiteralRunsOut(s: string, i: nat, j: nat, escapes: bool)
    requires WithinLiteral(s, i, j, escapes) && j >= |s|
    ensures Lex(s) == Err(UnterminatedString)
  {
  }

  method StringEnd(sql: string, i: nat, escapes: bool) returns (closed: bool, j: nat)
    requires i < |sql| && StateAt(sql, i).Normal? && sql[i] == '\'' && escapes == (StateAt(sql, i).word == JustE)
    ensures closed ==> i < j < |sql| && sql[j] == '\'' && AllLiteral(sql, i + 1, j) == true
    ensures AllPlain(sql, i, i + 1) == true
    ensures closed ==> AllPlain(sql, j, j + 1) == true && AtTop(sql, j + 1) == true
    ensures !closed ==> Lex(sql) == Err(UnterminatedString)
  {
    LiteralOpens(sql, i, escapes);
    j := i + 1;
    while true
      invariant i < j <= |sql| + 1 && WithinLiteral(sql, i, j, escapes) == true
      decreases |sql| + 2 - j
    {
      ghost var j0 := j;
      if j >= |sql| {
        LiteralRunsOut(sql, i, j, escapes);
        return false, j;
      }
      if escapes && sql[j] == '\\' {
        j := j + 2;
      } else if sql[j] == '\'' {
        if StartsWith(sql, '\'', '\'', j) {
          j := j + 2;
        } else {
          LiteralCloses(sql, i, j, escapes);
          return true, j;
        }
      } else {
        j := j + 1;
      }
      LiteralAdvances(sql, i, j0, j, escapes);
    }
  }

  lemma IdentifierStep(s: string, j: nat)
    requires j < |s| && StateAt(s, j) == Quoted
    ensures AllPlain(s, j, j + 1)
    ensures StartsWith(s, '"', '"', j) ==> AllPlain(s, j + 1, j + 2) && StateAt(s, j + 2) == Quoted
    ensures !StartsWith(s, '"', '"', j) ==> StateAt(s, j + 1) == if s[j] == '"' then Normal(Fresh) else Quoted
  {
    if StartsWith(s, '"', '"', j) {
      assert StateAt(s, j + 1) == QuotedSkip;
    }
  }

  /** Inside the quoted identifier opened at i, of which the characters before j have been passed. */
  ghost predicate WithinIdentifier(s: string, i: nat, j: nat) {
    i < j <= |s| && AllPlain(s, i, j) && StateAt(s, j) == Quoted
  }

  lemma IdentifierOpens(s: string, i: nat)
    requires i < |s| && StateAt(s, i).Normal? && s[i] == '"'
    ensures WithinIdentifier(s, i, i + 1) == true
  {
  }

  lemma IdentifierAdvances(s: string, i: nat, j: nat, j': nat)
    requires WithinIdentifier(s, i, j) && j < |s|
    requires if StartsWith(s, '"', '"', j) then j' == j + 2 else j' == j + 1 && s[j] != '"'
    ensures WithinIdentifier(s, i, j') == true
  {
    IdentifierStep(s, j);
  }

  lemma IdentifierCloses(s: string, i: nat, j: nat)
    requires WithinIdentifier(s, i, j) && j < |s| && s[j] == '"' && !StartsWith(s, '"', '"', j)
    ensures AllPlain(s, i, j + 1) == true && AtTop(s, j + 1) == true
  {
    IdentifierStep(s, j);
  }

  lemma IdentifierRunsOut(s: string, i: nat, j: nat)
    requires WithinIdentifier(s, i, j) && j >= |s|
    ensures Lex(s) == Err(UnterminatedIdentifier)
  {
  }

  method IdentifierEnd(sql: string, i: nat) returns (closed: bool, j: nat)
    requires i < |sql| && StateAt(sql, i).Normal? && sql[i] == '"'
    ensures closed ==> i < j < |sql| && AllPlain(sql, i, j + 1) == true && AtTop(sql, j + 1) == true
    ensures !closed ==> Lex(sql) == Err(UnterminatedIdentifier)
  {
    IdentifierOpens(sql, i);
    j := i + 1;
    while true
      invariant i < j <= |sql| && WithinIdentifier(sql, i, j) == true
      decreases |sql| - j
    {
      ghost var j0 := j;
      if j >= |sql| {
        IdentifierRunsOut(sql, i, j);
        return false, j;
      }
      if sql[j] == '"' {
        if StartsWith(sql, '"', '"', j) {
          j := j + 2;
        } else {
          IdentifierCloses(sql, i, j);
          return true, j;
        }
      } else {
        j := j + 1;
      }
      IdentifierAdvances(sql, i, j0, j);
    }
  }

  lemma {:induction false} TextGrows(s: string, i: nat, j: nat, chunk: string)
    requires i <= j <= |s| && |chunk| == j - i
    requires forall k :: 0 <= k < |chunk| ==> chunk[k] == TextChar(s, i + k)
    ensures Text(s, j) == Text(s, i) + chunk
  {
    if i < j {
      var init := chunk[..|chunk| - 1];
      TextGrows(s, i, j - 1, init);
      assert chunk == init + [TextChar(s, j - 1)];
    }
  }

  lemma {:induction false} CodeGrows(s: string, i: nat, j: nat, chunk: string)
    requires i <= j <= |s| && |chunk| == j - i
    requires forall k :: 0 <= k < |chunk| ==> chunk[k] == CodeChar(s, i + k)
    ensures Code(s, j) == Code(s, i) + chunk
  {
    if i < j {
      var init := chunk[..|chunk| - 1];
      CodeGrows(s, i, j - 1, init);
      assert chunk == init + [CodeChar(s, j - 1)];
    }
  }

  lemma {:induction false} OutputAt(s: string, n: nat, k: nat)
    requires k < n <= |s|
    ensures Text(s, n)[k] == TextChar(s, k) && Code(s, n)[k] == CodeChar(s, k)
  {
    if k < n - 1 {
      OutputAt(s, n - 1, k);
    }
  }

  /** The two output texts hold what the automaton makes of the first i characters. */
  ghost predicate Emitted(s: string, i: nat, text: string, code: string)
    requires i <= |s|
  {
    text == Text(s, i) && code == Code(s, i)
  }

  lemma CommentBlanked(s: string, i: nat, j: nat, text: string, code: string)
    requires i <= j <= |s| && AllComment(s, i, j) && Emitted(s, i, text, code)
    ensures Emitted(s, j, text + Blank(s[i..j]), code + Blank(s[i..j]))
  {
    forall k | 0 <= k < j - i
      ensures TextChar(s, i + k) == Blank(s[i..j])[k] && CodeChar(s, i + k) == Blank(s[i..j])[k]
    {
      assert InComment(s, i + k);
    }
    TextGrows(s, i, j, Blank(s[i..j]));
    CodeGrows(s, i, j, Blank(s[i..j]));
  }

  lemma PlainKept(s: string, i: nat, j: nat, text: string, code: string)
    requires i <= j <= |s| && AllPlain(s, i, j) && Emitted(s, i, text, code)
    ensures Emitted(s, j, text + s[i..j], code + s[i..j])
  {
    forall k | 0 <= k < j - i ensures TextChar(s, i + k) == s[i..j][k] && CodeChar(s, i + k) == s[i..j][k] {
      assert !InComment(s, i + k) && !InLiteral(s, i + k);
    }
    TextGrows(s, i, j, s[i..j]);
    CodeGrows(s, i, j, s[i..j]);
  }

  lemma LiteralChar(s: string, k: nat)
    requires k < |s| && InLiteral(s, k)
    ensures TextChar(s, k) == s[k] && CodeChar(s, k) == BlankChar(s[k])
  {
  }

  lemma LiteralBlanked(s: string, i: nat, j: nat, text: string, code: string)
    requires i <= j <= |s| && AllLiteral(s, i, j) && Emitted(s, i, text, code)
    ensures Emitted(s, j, text + s[i..j], code + Blank(s[i..j]))
  {
    forall k | 0 <= k < j - i
      ensures TextChar(s, i + k) == s[i..j][k] && CodeChar(s, i + k) == Blank(s[i..j])[k]
    {
      LiteralChar(s, i + k);
    }
    TextGrows(s, i, j, s[i..j]);
    CodeGrows(s, i, j, Blank(s[i..j]));
  }

  lemma Regroup(a: string, b: string, c: string, d: string)
    ensures a + b + c + d == a + (b + c + d)
  {
  }

  lemma ThreeParts(s: string, i: nat, j: nat)
    requires i < j < |s|
    ensures s[i..j + 1] == s[i..i + 1] + s[i + 1..j] + s[j..j + 1]
    ensures s[i..i + 1] == [s[i]] && s[j..j + 1] == [s[j]]
  {
  }

  lemma StringBlanked(s: string, i: nat, j: nat, text: string, code: string)
    requires i < j < |s| && s[i] == '\'' && s[j] == '\'' && Emitted(s, i, text, code)
    requires AllPlain(s, i, i + 1) && AllLiteral(s, i + 1, j) && AllPlain(s, j, j + 1)
    ensures Emitted(s, j + 1, text + s[i..j + 1], code + ("'" + Blank(s[i + 1..j]) + "'"))
  {
    var quote, inner := "'", s[i + 1..j];
    ThreeParts(s, i, j);
    PlainKept(s, i, i + 1, text, code);
    LiteralBlanked(s, i + 1, j, text + quote, code + quote);
    PlainKept(s, j, j + 1, text + quote + inner, code + quote + Blank(inner));
    Regroup(text, quote, inner, quote);
    Regroup(code, quote, Blank(inner), quote);
  }

  lemma PlainStep(s: string, i: nat)
    requires i < |s| && AtTop(s, i) && s[i] != '\'' && s[i] != '"'
    requires !StartsWith(s, '-', '-', i) && !StartsWith(s, '/', '*', i)
    ensures AllPlain(s, i, i + 1) && AtTop(s, i + 1)
  {
  }

  method Strip(sql: string) returns (r: Result<Stripped, ScanError>)
    ensures r == Lex(sql)
  {
    var text, code := "", "";
    var i, n := 0, |sql|;
    while i < n
      invariant 0 <= i <= n && AtTop(sql, i) && Emitted(sql, i, text, code)
    {
      var ch := sql[i];
      if StartsWith(sql, '-', '-', i) {
        var j := LineEnd(sql, i);
        CommentBlanked(sql, i, j, text, code);
        text, code, i := text + Blank(sql[i..j]), code + Blank(sql[i..j]), j;
      } else if StartsWith(sql, '/', '*', i) {
        var j, depth := BlockEnd(sql, i);
        if depth > 0 {
          return Err(UnterminatedComment);
        }
        CommentBlanked(sql, i, j, text, code);
        text, code, i := text + Blank(sql[i..j]), code + Blank(sql[i..j]), j;
      } else if ch == '\'' {
        var escapes := i > 0 && (sql[i - 1] == 'e' || sql[i - 1] == 'E') && (i < 2 || !IsIdent(sql[i - 2]));
        WordIsLookBehind(sql, i);
        var closed, j := StringEnd(sql, i, escapes);
        if !closed {
          return Err(UnterminatedString);
        }
        StringBlanked(sql, i, j, text, code);
        text, code, i := text + sql[i..j + 1], code + ("'" + Blank(sql[i + 1..j]) + "'"), j + 1;
      } else if ch == '"' {
        var closed, j := IdentifierEnd(sql, i);
        if !closed {
          return Err(UnterminatedIdentifier);
        }
        PlainKept(sql, i, j + 1, text, code);
        text, code, i := text + sql[i..j + 1], code + sql[i..j + 1], j + 1;
      } else {
        PlainStep(sql, i);
        PlainKept(sql, i, i + 1, text, code);
        text, code, i := text + sql[i..i + 1], code + sql[i..i + 1], i + 1;
      }
    }
    r := Ok(Stripped(text, code));
  }
}
