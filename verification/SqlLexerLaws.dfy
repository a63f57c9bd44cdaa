/** What the lexer's two outputs promise to the scan that reads them. */
module SqlLexerLaws {
  import opened Common
  import opened SqlLexer

  // ---------- length and lines ----------

  function Newlines(s: string, offset: nat): nat
    requires offset <= |s|
  {
    if offset == 0 then 0 else Newlines(s, offset - 1) + if s[offset - 1] == '\n' then 1 else 0
  }

  function LineOf(s: string, offset: nat): nat
    requires offset <= |s|
  {
    Newlines(s, offset) + 1
  }

  /** Lines are numbered from 1: an offset's line is one more than the number of newlines before it. */
  lemma {:induction false} LineIs(s: string, offset: nat)
    requires offset <= |s|
    ensures LineOf(s, offset) == 1 + multiset(s[..offset])['\n']
  {
    if offset != 0 {
      LineIs(s, offset - 1);
      assert s[..offset] == s[..offset - 1] + [s[offset - 1]];
    }
  }

  lemma {:induction false} SameNewlines(s: string, t: string, offset: nat)
    requires |s| == |t| && offset <= |s|
    requires forall k :: 0 <= k < offset ==> (s[k] == '\n' <==> t[k] == '\n')
    ensures LineOf(s, offset) == LineOf(t, offset)
  {
    if offset != 0 {
      SameNewlines(s, t, offset - 1);
    }
  }

  /** Both outputs have the input's length, and every offset in them is on the input's line. */
  lemma OffsetsKeepTheirLine(s: string, offset: nat)
    requires Lex(s).Ok? && offset <= |s|
    ensures |Lex(s).value.text| == |s| == |Lex(s).value.code|
    ensures LineOf(Lex(s).value.text, offset) == LineOf(s, offset) == LineOf(Lex(s).value.code, offset)
  {
    forall k | 0 <= k < offset
      ensures s[k] == '\n' <==> Text(s, |s|)[k] == '\n'
      ensures s[k] == '\n' <==> Code(s, |s|)[k] == '\n'
    {
      OutputAt(s, |s|, k);
    }
    SameNewlines(s, Text(s, |s|), offset);
    SameNewlines(s, Code(s, |s|), offset);
  }

  // ---------- lexing the outputs again ----------

  predicate Commenting(state: State) {
    state.LineComment? || state.Block? || state.BlockSkip?
  }

  /** The state in which the automaton reads the same position of the text output. */
  function TextShadow(state: State): State {
    if Commenting(state) then Normal(Fresh) else state
  }

  /** The automaton on the text output, one character: `d` and `beyond` are the two characters after `c`. */
  lemma TextStep(state: State, c: char, d: Option<char>, beyond: Option<char>)
    ensures var c', d' := TextOut(state, c, d), TextPeek(Step(state, c, d), d, beyond);
      && Step(TextShadow(state), c', d') == TextShadow(Step(state, c, d))
      && TextOut(TextShadow(state), c', d') == c'
      && CodeOut(TextShadow(state), c', d') == CodeOut(state, c, d)
  {
  }

  function TextPeek(state: State, d: Option<char>, beyond: Option<char>): Option<char> {
    match d
    case None => None
    case Some(c) => Some(TextOut(state, c, beyond))
  }

  lemma TextPeeked(s: string, k: nat)
    requires k < |s|
    ensures Peek(Text(s, |s|), k + 1) == TextPeek(StateAt(s, k + 1), Peek(s, k + 1), Peek(s, k + 2))
  {
    if k + 1 < |s| {
      OutputAt(s, |s|, k + 1);
    }
  }

  ghost predicate TextShadowed(s: string, t: string, k: nat)
    requires k <= |s| == |t|
  {
    StateAt(t, k) == TextShadow(StateAt(s, k))
  }

  lemma TextNextState(s: string, k: nat, t: string)
    requires k < |s| && t == Text(s, |s|) && TextShadowed(s, t, k)
    ensures TextShadowed(s, t, k + 1) == true
  {
    OutputAt(s, |s|, k);
    TextPeeked(s, k);
    TextStep(StateAt(s, k), s[k], Peek(s, k + 1), Peek(s, k + 2));
  }

  lemma {:induction false} TextStates(s: string, k: nat, t: string)
    requires k <= |s| && t == Text(s, |s|)
    ensures TextShadowed(s, t, k) == true
  {
    if k > 0 {
      TextStates(s, k - 1, t);
      TextNextState(s, k - 1, t);
    }
  }

  /** What the automaton emits at position k of the text output. */
  lemma TextRelexed(s: string, k: nat, t: string)
    requires k < |s| && t == Text(s, |s|)
    ensures Text(t, |t|)[k] == t[k] && Code(t, |t|)[k] == Code(s, |s|)[k]
  {
    TextStates(s, k, t);
    OutputAt(s, |s|, k);
    OutputAt(t, |t|, k);
    TextPeeked(s, k);
    TextStep(StateAt(s, k), s[k], Peek(s, k + 1), Peek(s, k + 2));
  }

  /** Lexing the text output changes nothing: it gives the same pair again. */
  lemma RelexText(s: string)
    requires Lex(s).Ok?
    ensures Lex(Lex(s).value.text) == Lex(s)
  {
    var t, n := Text(s, |s|), |s|;
    TextStates(s, n, t);
    forall k | 0 <= k < n ensures Text(t, n)[k] == t[k] && Code(t, n)[k] == Code(s, n)[k] {
      TextRelexed(s, k, t);
    }
    assert Text(t, n) == t && Code(t, n) == Code(s, n);
  }

  /** The state in which the automaton reads the same position of the code output. */
  function CodeShadow(state: State): State {
    match state
    case StringSkip(escapes) => InString(escapes)
    case _ => TextShadow(state)
  }

  lemma CodeStep(state: State, c: char, d: Option<char>, beyond: Option<char>)
    ensures var c', d' := CodeOut(state, c, d), CodePeek(Step(state, c, d), d, beyond);
      && Step(CodeShadow(state), c', d') == CodeShadow(Step(state, c, d))
      && TextOut(CodeShadow(state), c', d') == c'
      && CodeOut(CodeShadow(state), c', d') == c'
  {
  }

  function CodePeek(state: State, d: Option<char>, beyond: Option<char>): Option<char> {
    match d
    case None => None
    case Some(c) => Some(CodeOut(state, c, beyond))
  }

  lemma CodePeeked(s: string, k: nat)
    requires k < |s|
    ensures Peek(Code(s, |s|), k + 1) == CodePeek(StateAt(s, k + 1), Peek(s, k + 1), Peek(s, k + 2))
  {
    if k + 1 < |s| {
      OutputAt(s, |s|, k + 1);
    }
  }

  ghost predicate CodeShadowed(s: string, t: string, k: nat)
    requires k <= |s| == |t|
  {
    StateAt(t, k) == CodeShadow(StateAt(s, k))
  }

  lemma CodeNextState(s: string, k: nat, t: string)
    requires k < |s| && t == Code(s, |s|) && CodeShadowed(s, t, k)
    ensures CodeShadowed(s, t, k + 1) == true
  {
    OutputAt(s, |s|, k);
    CodePeeked(s, k);
    CodeStep(StateAt(s, k), s[k], Peek(s, k + 1), Peek(s, k + 2));
  }

  lemma {:induction false} CodeStates(s: string, k: nat, t: string)
    requires k <= |s| && t == Code(s, |s|)
    ensures CodeShadowed(s, t, k) == true
  {
    if k > 0 {
      CodeStates(s, k - 1, t);
      CodeNextState(s, k - 1, t);
    }
  }

  /** What the automaton emits at position k of the code output. */
  lemma CodeRelexed(s: string, k: nat, t: string)
    requires k < |s| && t == Code(s, |s|)
    ensures Text(t, |t|)[k] == t[k] && Code(t, |t|)[k] == t[k]
  {
    CodeStates(s, k, t);
    OutputAt(s, |s|, k);
    OutputAt(t, |t|, k);
    CodePeeked(s, k);
    CodeStep(StateAt(s, k), s[k], Peek(s, k + 1), Peek(s, k + 2));
  }

  /** The code output is a fixed point: lexed again it is both outputs. */
  lemma RelexCode(s: string)
    requires Lex(s).Ok?
    ensures var code := Lex(s).value.code; Lex(code) == Ok(Stripped(code, code))
  {
    var t, n := Code(s, |s|), |s|;
    CodeStates(s, n, t);
    forall k | 0 <= k < n ensures Text(t, n)[k] == t[k] && Code(t, n)[k] == t[k] {
      CodeRelexed(s, k, t);
    }
    assert Text(t, n) == t && Code(t, n) == t;
  }

  // ---------- words and literals ----------

  /** Neither blank nor a quote; words are made of such characters. */
  predicate IsSolid(c: char) {
    c != ' ' && c != '\n' && c != '\'' && c != '"'
  }

  /** Entering or leaving a literal takes a character that is no part of a word. */
  lemma WordKeepsLiteral(state: State, c: char, d: char, beyond: Option<char>)
    requires IsSolid(TextOut(state, c, Some(d))) && IsSolid(TextOut(Step(state, c, Some(d)), d, beyond))
    ensures Literal(state, c, Some(d)) <==> Literal(Step(state, c, Some(d)), d, beyond)
  {
  }

  lemma {:induction false} SolidsShareLiteral(s: string, i: nat, j: nat)
    requires i <= j < |s| && forall k :: i <= k <= j ==> IsSolid(TextChar(s, k))
    ensures InLiteral(s, i) <==> InLiteral(s, j)
  {
    if i < j {
      SolidsShareLiteral(s, i, j - 1);
      assert IsSolid(TextChar(s, j - 1)) && IsSolid(TextChar(s, j));
      WordKeepsLiteral(StateAt(s, j - 1), s[j - 1], s[j], Peek(s, j + 1));
    }
  }

  lemma OutDiffersInLiteral(state: State, c: char, next: Option<char>)
    requires IsSolid(TextOut(state, c, next))
    ensures CodeOut(state, c, next) == TextOut(state, c, next) <==> !Literal(state, c, next)
  {
  }

  /** A word of the text output lies inside one literal with all its characters, or outside with all. */
  lemma WordInOneLiteral(s: string, i: nat, j: nat)
    requires i < j <= |s| && forall k :: i <= k < j ==> IsSolid(Text(s, |s|)[k])
    ensures forall k :: i <= k < j ==> (InLiteral(s, k) <==> InLiteral(s, i))
  {
    forall k | i <= k < j ensures IsSolid(TextChar(s, k)) {
      OutputAt(s, |s|, k);
    }
    forall k | i <= k < j ensures InLiteral(s, k) <==> InLiteral(s, i) {
      SolidsShareLiteral(s, i, k);
    }
  }

  lemma CharDiffersIffLiteral(s: string, k: nat)
    requires k < |s| && IsSolid(Text(s, |s|)[k])
    ensures Code(s, |s|)[k] == Text(s, |s|)[k] <==> !InLiteral(s, k)
  {
    OutputAt(s, |s|, k);
    OutDiffersInLiteral(StateAt(s, k), s[k], Peek(s, k + 1));
  }

  /** A word of the text output differs from the code output at the same offsets exactly inside a literal. */
  lemma WordDiffersIffLiteral(s: string, i: nat, j: nat)
    requires i < j <= |s| && forall k :: i <= k < j ==> IsSolid(Text(s, |s|)[k])
    ensures Code(s, |s|)[i..j] != Text(s, |s|)[i..j] <==> InLiteral(s, i)
  {
    var text, code := Text(s, |s|), Code(s, |s|);
    WordInOneLiteral(s, i, j);
    forall k | i <= k < j ensures code[k] == text[k] <==> !InLiteral(s, i) {
      CharDiffersIffLiteral(s, k);
    }
    SlicesAgree(code, text, i, j, !InLiteral(s, i));
  }

  lemma SlicesAgree(s: string, t: string, i: nat, j: nat, agree: bool)
    requires i < j <= |s| == |t| && forall k :: i <= k < j ==> (s[k] == t[k] <==> agree)
    ensures s[i..j] == t[i..j] <==> agree
  {
    assert s[i..j][0] == s[i] && t[i..j][0] == t[i];
  }
}
