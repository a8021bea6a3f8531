/** The CHECK as `e5c1a9d3b7f2_view_policy_cell_check.py` writes it, in SQL
    text, and the tree a reader of SQL makes of that text. */
module SqlText {
  import opened ODataLiteral
  import opened SqlCheck
  import opened Wrappers

  // ---------------------------------------------------------------------
  // Writing
  // ---------------------------------------------------------------------

  function WindowName(window: Window): string {
    if window.WhileOngoing? then "while_ongoing" else "after_release"
  }

  function ColumnName(column: Column): string {
    match column
    case Audience => "audience"
    case Granularity(window) => WindowName(window) + "_granularity"
    case Identification(window) => WindowName(window) + "_identification"
  }

  /** A text between quotes, as it stands. */
  function Quoted(text: string): string {
    [QUOTE] + text + [QUOTE]
  }

  function TermText(window: Window, mode: Option<Pair>): string {
    var granularity, identification := ColumnName(Granularity(window)), ColumnName(Identification(window));
    match mode
    case None => "(" + (granularity + " IS NULL AND ") + (identification + " IS NULL)")
    case Some(pair) =>
      "(COALESCE(" + (granularity + ", '') = ") + (Quoted(pair.granularity) + " AND COALESCE(")
      + (identification + ", '') = ") + (Quoted(pair.identification) + ")")
  }

  /** `" OR ".join(texts)`. */
  function Joined(texts: seq<string>): string {
    if texts == [] then "" else if |texts| == 1 then texts[0] else texts[0] + (" OR " + Joined(texts[1..]))
  }

  function WindowText(window: Window, modes: seq<Option<Pair>>): string {
    "(" + Joined(seq(|modes|, i requires 0 <= i < |modes| => TermText(window, modes[i]))) + ")"
  }

  /** `_window_sql`: the terms appended one by one, then joined. */
  method BuildWindowSql(window: Window, modes: seq<Option<Pair>>) returns (sql: string)
    ensures sql == WindowText(window, modes)
  {
    var granularity, identification := ColumnName(Granularity(window)), ColumnName(Identification(window));
    var terms: seq<string> := [];
    for i := 0 to |modes|
      invariant |terms| == i
      invariant forall j :: 0 <= j < i ==> terms[j] == TermText(window, modes[j])
    {
      if modes[i].None? {
        terms := terms + ["(" + (granularity + " IS NULL AND ") + (identification + " IS NULL)")];
      } else {
        var pair := modes[i].value;
        terms := terms + ["(COALESCE(" + (granularity + ", '') = ") + (Quoted(pair.granularity) + " AND COALESCE(")
                          + (identification + ", '') = ") + (Quoted(pair.identification) + ")")];
      }
    }
    assert terms == seq(|modes|, i requires 0 <= i < |modes| => TermText(window, modes[i]));
    sql := "(" + Joined(terms) + ")";
  }

  function ClauseText(rule: Rule): string {
    "(" + ("audience" + " = ") + (Quoted(rule.audience) + " AND ") + WindowText(WhileOngoing, rule.ongoing) + " AND "
    + WindowText(AfterRelease, rule.released) + ")"
  }

  function CheckText(rules: seq<Rule>): string {
    Joined(seq(|rules|, i requires 0 <= i < |rules| => ClauseText(rules[i])))
  }

  // ---------------------------------------------------------------------
  // Reading: words and marks
  // ---------------------------------------------------------------------

  datatype Token =
    | Open | Close | Comma | Equal
    | AndWord | OrWord | IsWord | NullWord | CoalesceWord
    | Name(column: Column)
    | Literal(text: string)

  predicate IsSpelled(token: Token) {
    token.AndWord? || token.OrWord? || token.IsWord? || token.NullWord? || token.CoalesceWord? || token.Name?
  }

  function Spelling(token: Token): string
    requires IsSpelled(token)
  {
    match token
    case AndWord => "AND"
    case OrWord => "OR"
    case IsWord => "IS"
    case NullWord => "NULL"
    case CoalesceWord => "COALESCE"
    case Name(column) => ColumnName(column)
  }

  const WORDS: seq<Token> := [
    AndWord, OrWord, IsWord, NullWord, CoalesceWord, Name(Audience),
    Name(Granularity(WhileOngoing)), Name(Identification(WhileOngoing)),
    Name(Granularity(AfterRelease)), Name(Identification(AfterRelease))]

  /** The word spelled so, among the first `n`. */
  function WordAmong(text: string, n: nat): Option<Token>
    requires n <= |WORDS|
  {
    if n == 0 then None
    else if IsSpelled(WORDS[n - 1]) && Spelling(WORDS[n - 1]) == text then Some(WORDS[n - 1])
    else WordAmong(text, n - 1)
  }

  predicate IsWordChar(c: char) {
    'a' <= c <= 'z' || 'A' <= c <= 'Z' || c == '_'
  }

  function WordLength(s: string): (n: nat)
    ensures n <= |s|
  {
    if s == "" || !IsWordChar(s[0]) then 0 else 1 + WordLength(s[1..])
  }

  function Before(tokens: seq<Token>, read: Option<seq<Token>>): Option<seq<Token>> {
    if read.None? then None else Some(tokens + read.value)
  }

  function Mark(c: char): Option<Token> {
    if c == '(' then Some(Open) else if c == ')' then Some(Close)
    else if c == ',' then Some(Comma) else if c == '=' then Some(Equal) else None
  }

  /** The tokens of a text; in a quoted one a doubled quote is a quote. */
  function Lex(s: string): Option<seq<Token>>
    decreases |s|
  {
    if s == "" then Some([])
    else if s[0] == ' ' then Lex(s[1..])
    else if Mark(s[0]).Some? then Before([Mark(s[0]).value], Lex(s[1..]))
    else if s[0] == QUOTE then
      match ReadBody(s[1..])
      case None => None
      case Some((text, rest)) => Before([Literal(text)], Lex(rest))
    else
      var n := WordLength(s);
      if n == 0 || WordAmong(s[..n], |WORDS|).None? then None
      else Before([WordAmong(s[..n], |WORDS|).value], Lex(s[n..]))
  }

  // ---------------------------------------------------------------------
  // Reading: expressions
  // ---------------------------------------------------------------------

  /** Alternatives between ORs. */
  function ParseTerms(ts: seq<Token>): (r: Option<(seq<Expr>, seq<Token>)>)
    ensures r.Some? ==> |r.value.1| < |ts|
    decreases |ts|, 2
  {
    match ParseAnd(ts)
    case None => None
    case Some((e, rest)) =>
      if rest == [] || rest[0] != OrWord then Some(([e], rest))
      else
        match ParseTerms(rest[1..])
        case None => None
        case Some((es, after)) => Some(([e] + es, after))
  }

  /** Conditions between ANDs, which bind closer. */
  function ParseAnd(ts: seq<Token>): (r: Option<(Expr, seq<Token>)>)
    ensures r.Some? ==> |r.value.1| < |ts|
    decreases |ts|, 1
  {
    match ParsePrimary(ts)
    case None => None
    case Some((e, rest)) =>
      if rest == [] || rest[0] != AndWord then Some((e, rest))
      else
        match ParseAnd(rest[1..])
        case None => None
        case Some((f, after)) => Some((And(e, f), after))
  }

  /** A group in parentheses, or one comparison. */
  function ParsePrimary(ts: seq<Token>): (r: Option<(Expr, seq<Token>)>)
    ensures r.Some? ==> |r.value.1| < |ts|
    decreases |ts|, 0
  {
    if ts == [] then None
    else
      match ts[0]
      case Open => (
        match ParseTerms(ts[1..])
        case None => None
        case Some((es, rest)) => if rest != [] && rest[0] == Close then Some((Or(es), rest[1..])) else None
      )
      case CoalesceWord =>
        if |ts| >= 8 && ts[1] == Open && ts[2].Name? && ts[3] == Comma && ts[4] == Literal("") && ts[5] == Close
           && ts[6] == Equal && ts[7].Literal?
        then Some((Equals(OrBlank(ts[2].column), ts[7].text), ts[8..]))
        else None
      case Name(column) =>
        if |ts| >= 3 && ts[1] == IsWord && ts[2] == NullWord then Some((IsNull(column), ts[3..]))
        else if |ts| >= 3 && ts[1] == Equal && ts[2].Literal? then Some((Equals(Plain(column), ts[2].text), ts[3..]))
        else None
      case _ => None
  }

  /** The condition a text says, if it is well formed. */
  function ReadSql(text: string): Option<Expr> {
    match Lex(text)
    case None => None
    case Some(tokens) =>
      match ParseTerms(tokens)
      case None => None
      case Some((es, rest)) => if rest == [] then Some(Or(es)) else None
  }

  // ---------------------------------------------------------------------
  // Texts and their tokens
  // ---------------------------------------------------------------------

  /** Whatever follows, the text is read as these tokens. */
  ghost predicate Writes(text: string, tokens: seq<Token>) {
    forall rest :: Lex(text + rest) == Before(tokens, Lex(rest))
  }

  lemma WritesBoth(a: string, ta: seq<Token>, b: string, tb: seq<Token>)
    requires Writes(a, ta) && Writes(b, tb)
    ensures Writes(a + b, ta + tb)
  {
    hide Lex;
    forall rest ensures Lex(a + b + rest) == Before(ta + tb, Lex(rest)) {
      assert a + b + rest == a + (b + rest);
      assert Lex(b + rest) == Before(tb, Lex(rest));
      BeforeBoth(ta, tb, Lex(rest));
    }
  }

  lemma BeforeNothing(read: Option<seq<Token>>)
    ensures Before([], read) == read
  {
    if read.Some? {
      assert [] + read.value == read.value;
    }
  }

  lemma BeforeBoth(a: seq<Token>, b: seq<Token>, read: Option<seq<Token>>)
    ensures Before(a + b, read) == Before(a, Before(b, read))
  {
    if read.Some? {
      assert a + b + read.value == a + (b + read.value);
    }
  }

  lemma WritesNothing()
    ensures Writes("", [])
  {
    hide Lex;
    forall rest: string ensures Lex("" + rest) == Before([], Lex(rest)) {
      assert "" + rest == rest;
      BeforeNothing(Lex(rest));
    }
  }

  lemma LexSpace(rest: string)
    ensures Lex(" " + rest) == Lex(rest)
  {
    assert (" " + rest)[1..] == rest;
  }

  lemma WritesSpace()
    ensures Writes(" ", [])
  {
    hide Lex;
    forall rest: string ensures Lex(" " + rest) == Before([], Lex(rest)) {
      LexSpace(rest);
      BeforeNothing(Lex(rest));
    }
  }

  lemma LexMark(c: char, rest: string)
    requires Mark(c).Some?
    ensures Lex([c] + rest) == Before([Mark(c).value], Lex(rest))
  {
    assert ([c] + rest)[1..] == rest;
  }

  lemma WritesMark(c: char)
    requires Mark(c).Some?
    ensures Writes([c], [Mark(c).value])
  {
    hide Lex, Mark;
    forall rest: string ensures Lex([c] + rest) == Before([Mark(c).value], Lex(rest)) {
      LexMark(c, rest);
    }
  }

  predicate AreWordChars(s: string) {
    s != "" && forall i :: 0 <= i < |s| ==> IsWordChar(s[i])
  }

  lemma {:induction false} WordThenOther(word: string, rest: string)
    requires (forall i :: 0 <= i < |word| ==> IsWordChar(word[i])) && (rest != "" ==> !IsWordChar(rest[0]))
    ensures WordLength(word + rest) == |word|
  {
    if word != "" {
      assert (word + rest)[1..] == word[1..] + rest;
      WordThenOther(word[1..], rest);
    } else {
      assert word + rest == rest;
    }
  }

  lemma NamesAreWords(window: Window)
    ensures AreWordChars(WindowName(window))
    ensures AreWordChars("_granularity") && AreWordChars("_identification") && AreWordChars("audience")
  {
  }

  lemma SpellingsAreWords(token: Token)
    requires IsSpelled(token)
    ensures AreWordChars(Spelling(token))
  {
    match token
    case Name(Granularity(window)) => NamesAreWords(window);
    case Name(Identification(window)) => NamesAreWords(window);
    case Name(Audience) => NamesAreWords(WhileOngoing);
    case _ =>
  }

  /** A word's length and first letter. */
  function Shape(token: Token): (nat, char)
    requires IsSpelled(token)
  {
    match token
    case AndWord => (3, 'A')
    case OrWord => (2, 'O')
    case IsWord => (2, 'I')
    case NullWord => (4, 'N')
    case CoalesceWord => (8, 'C')
    case Name(Audience) => (8, 'a')
    case Name(Granularity(window)) => (25, if window.WhileOngoing? then 'w' else 'a')
    case Name(Identification(window)) => (28, if window.WhileOngoing? then 'w' else 'a')
  }

  lemma ShapeOf(token: Token)
    requires IsSpelled(token)
    ensures |Spelling(token)| == Shape(token).0 && Spelling(token)[0] == Shape(token).1
  {
    assert |"while_ongoing"| == |"after_release"| == 13 && |"_granularity"| == 12 && |"_identification"| == 15;
  }

  lemma SpellingsDiffer(a: Token, b: Token)
    requires IsSpelled(a) && IsSpelled(b) && Spelling(a) == Spelling(b)
    ensures a == b
  {
    hide Spelling;
    ShapeOf(a);
    ShapeOf(b);
  }

  lemma WordsHold(token: Token)
    requires IsSpelled(token)
    ensures token in WORDS
  {
    match token
    case AndWord => assert WORDS[0] == token;
    case OrWord => assert WORDS[1] == token;
    case IsWord => assert WORDS[2] == token;
    case NullWord => assert WORDS[3] == token;
    case CoalesceWord => assert WORDS[4] == token;
    case Name(Audience) => assert WORDS[5] == token;
    case Name(Granularity(window)) => assert WORDS[if window.WhileOngoing? then 6 else 8] == token;
    case Name(Identification(window)) => assert WORDS[if window.WhileOngoing? then 7 else 9] == token;
  }

  lemma {:induction false} WordFound(token: Token, n: nat)
    requires IsSpelled(token) && n <= |WORDS| && token in WORDS[..n]
    ensures WordAmong(Spelling(token), n) == Some(token)
  {
    hide Spelling, WORDS, IsSpelled;
    if n > 0 {
      var last := WORDS[n - 1];
      assert WORDS[..n] == WORDS[..n - 1] + [last];
      if IsSpelled(last) && Spelling(last) == Spelling(token) {
        SpellingsDiffer(last, token);
      } else {
        WordFound(token, n - 1);
      }
    }
  }

  lemma LexWord(token: Token, rest: string)
    requires IsSpelled(token) && (rest != "" ==> !IsWordChar(rest[0]))
    ensures Lex(Spelling(token) + rest) == Before([token], Lex(rest))
  {
    hide Spelling, WORDS, IsSpelled;
    var word := Spelling(token);
    var s := word + rest;
    SpellingsAreWords(token);
    WordsHold(token);
    assert WORDS[..|WORDS|] == WORDS;
    WordFound(token, |WORDS|);
    WordThenOther(word, rest);
    assert s[..|word|] == word && s[|word|..] == rest && s[0] == word[0];
  }

  /** A word followed by what is no part of a word. */
  lemma WritesWord(token: Token, tail: string, tokens: seq<Token>)
    requires IsSpelled(token) && tail != "" && !IsWordChar(tail[0]) && Writes(tail, tokens)
    ensures Writes(Spelling(token) + tail, [token] + tokens)
  {
    hide Spelling, IsSpelled, Lex;
    forall rest ensures Lex(Spelling(token) + tail + rest) == Before([token] + tokens, Lex(rest)) {
      assert Spelling(token) + tail + rest == Spelling(token) + (tail + rest);
      LexWord(token, tail + rest);
      BeforeBoth([token], tokens, Lex(rest));
    }
  }

  lemma {:induction false} FreeIsDoubled(text: string)
    requires QUOTE !in text
    ensures Doubled(text) == text
  {
    if text != "" {
      FreeIsDoubled(text[1..]);
    }
  }

  lemma LexQuoted(text: string, rest: string)
    requires QUOTE !in text && Separates(rest)
    ensures Lex(Quoted(text) + rest) == Before([Literal(text)], Lex(rest))
  {
    var s := Quoted(text) + rest;
    FreeIsDoubled(text);
    BodyReadsBack(text, rest);
    assert s[1..] == Doubled(text) + [QUOTE] + rest;
    assert s[0] == QUOTE;
  }

  /** A quoted text without a quote in it, followed by what is no quote. */
  lemma WritesQuoted(text: string, tail: string, tokens: seq<Token>)
    requires QUOTE !in text && tail != "" && tail[0] != QUOTE && Writes(tail, tokens)
    ensures Writes(Quoted(text) + tail, [Literal(text)] + tokens)
  {
    hide Quoted, Lex;
    forall rest ensures Lex(Quoted(text) + tail + rest) == Before([Literal(text)] + tokens, Lex(rest)) {
      assert Quoted(text) + tail + rest == Quoted(text) + (tail + rest);
      LexQuoted(text, tail + rest);
      BeforeBoth([Literal(text)], tokens, Lex(rest));
    }
  }
}
