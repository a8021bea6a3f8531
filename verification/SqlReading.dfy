/** Reading the CHECK's text gives back the condition it was written for. */
module SqlReading {
  import opened ODataLiteral
  import opened SqlCheck
  import opened SqlText
  import opened Wrappers

  // ---------------------------------------------------------------------
  // The tokens of each text
  // ---------------------------------------------------------------------

  /** A rule's texts stand between quotes as they are. */
  predicate IsFree(mode: Option<Pair>) {
    mode.Some? ==> QUOTE !in mode.value.granularity && QUOTE !in mode.value.identification
  }

  predicate AreFree(modes: seq<Option<Pair>>) {
    forall i :: 0 <= i < |modes| ==> IsFree(modes[i])
  }

  predicate IsQuoteFree(rule: Rule) {
    QUOTE !in rule.audience && AreFree(rule.ongoing) && AreFree(rule.released)
  }

  function NullTokens(column: Column): seq<Token> {
    [Name(column)] + [IsWord, NullWord]
  }

  function BlankedTokens(column: Column, text: string): seq<Token> {
    [CoalesceWord, Open] + [Name(column)] + [Comma, Literal(""), Close, Equal] + [Literal(text)]
  }

  function TermTokens(window: Window, mode: Option<Pair>): seq<Token> {
    var (a, b) :=
      match mode
      case None => (NullTokens(Granularity(window)), NullTokens(Identification(window)))
      case Some(pair) => (BlankedTokens(Granularity(window), pair.granularity),
                          BlankedTokens(Identification(window), pair.identification));
    [Open] + (a + [AndWord] + b) + [Close]
  }

  function JoinedTokens(tss: seq<seq<Token>>): seq<Token> {
    if tss == [] then [] else if |tss| == 1 then tss[0] else tss[0] + [OrWord] + JoinedTokens(tss[1..])
  }

  function TermsTokens(window: Window, modes: seq<Option<Pair>>): seq<seq<Token>> {
    seq(|modes|, i requires 0 <= i < |modes| => TermTokens(window, modes[i]))
  }

  function WindowTokens(window: Window, modes: seq<Option<Pair>>): seq<Token> {
    [Open] + JoinedTokens(TermsTokens(window, modes)) + [Close]
  }

  function AudienceTokens(rule: Rule): seq<Token> {
    [Name(Audience), Equal] + [Literal(rule.audience)]
  }

  function ClauseTokens(rule: Rule): seq<Token> {
    [Open]
    + (AudienceTokens(rule) + [AndWord]
       + (WindowTokens(WhileOngoing, rule.ongoing) + [AndWord] + WindowTokens(AfterRelease, rule.released)))
    + [Close]
  }

  function ClausesTokens(rules: seq<Rule>): seq<seq<Token>> {
    seq(|rules|, i requires 0 <= i < |rules| => ClauseTokens(rules[i]))
  }

  // ---------------------------------------------------------------------
  // The texts are read as those tokens
  // ---------------------------------------------------------------------

  lemma SpacedWord(token: Token, tail: string, tokens: seq<Token>)
    requires IsSpelled(token) && tail != "" && !IsWordChar(tail[0]) && Writes(tail, tokens)
    ensures Writes(" " + (Spelling(token) + tail), [token] + tokens)
  {
    hide Writes, Spelling, IsSpelled;
    WritesWord(token, tail, tokens);
    WritesSpace();
    WritesBoth(" ", [], Spelling(token) + tail, [token] + tokens);
    assert [] + ([token] + tokens) == [token] + tokens;
  }

  lemma MarkThen(c: char, tail: string, tokens: seq<Token>)
    requires Mark(c).Some? && Writes(tail, tokens)
    ensures Writes([c] + tail, [Mark(c).value] + tokens)
  {
    hide Writes, Mark;
    WritesMark(c);
    WritesBoth([c], [Mark(c).value], tail, tokens);
  }

  lemma SpaceThen(tail: string, tokens: seq<Token>)
    requires Writes(tail, tokens)
    ensures Writes(" " + tail, tokens)
  {
    hide Writes;
    WritesSpace();
    WritesBoth(" ", [], tail, tokens);
    assert [] + tokens == tokens;
  }

  lemma WritesIsNullAnd()
    ensures Writes(" IS NULL AND ", [IsWord, NullWord, AndWord])
  {
    hide Writes;
    WritesSpace();
    SpacedWord(AndWord, " ", []);
    SpacedWord(NullWord, " " + ("AND" + " "), [AndWord] + []);
    SpacedWord(IsWord, " " + ("NULL" + (" " + ("AND" + " "))), [NullWord] + ([AndWord] + []));
    assert " " + ("IS" + (" " + ("NULL" + (" " + ("AND" + " "))))) == " IS NULL AND ";
    assert [IsWord] + ([NullWord] + ([AndWord] + [])) == [IsWord, NullWord, AndWord];
  }

  lemma WritesIsNull()
    ensures Writes(" IS NULL)", [IsWord, NullWord, Close])
  {
    hide Writes;
    WritesMark(')');
    SpacedWord(NullWord, ")", [Close]);
    SpacedWord(IsWord, " " + ("NULL" + ")"), [NullWord] + [Close]);
    assert " " + ("IS" + (" " + ("NULL" + ")"))) == " IS NULL)";
    assert [IsWord] + ([NullWord] + [Close]) == [IsWord, NullWord, Close];
  }

  lemma WritesCoalesce()
    ensures Writes("(COALESCE(", [Open, CoalesceWord, Open])
  {
    hide Writes;
    WritesMark('(');
    WritesWord(CoalesceWord, "(", [Open]);
    MarkThen('(', "COALESCE" + "(", [CoalesceWord] + [Open]);
    assert "(" + ("COALESCE" + "(") == "(COALESCE(";
    assert [Open] + ([CoalesceWord] + [Open]) == [Open, CoalesceWord, Open];
  }

  lemma WritesAndCoalesce()
    ensures Writes(" AND COALESCE(", [AndWord, CoalesceWord, Open])
  {
    hide Writes;
    WritesMark('(');
    SpacedWord(CoalesceWord, "(", [Open]);
    SpacedWord(AndWord, " " + ("COALESCE" + "("), [CoalesceWord] + [Open]);
    assert " " + ("AND" + (" " + ("COALESCE" + "("))) == " AND COALESCE(";
    assert [AndWord] + ([CoalesceWord] + [Open]) == [AndWord, CoalesceWord, Open];
  }

  lemma WritesEquals()
    ensures Writes(" = ", [Equal])
  {
    hide Writes;
    WritesSpace();
    MarkThen('=', " ", []);
    SpaceThen("=" + " ", [Equal] + []);
    assert " " + ("=" + " ") == " = " && [Equal] + [] == [Equal];
  }

  lemma WritesBlanked()
    ensures Writes(", '') = ", [Comma, Literal(""), Close, Equal])
  {
    hide Writes, Quoted;
    WritesEquals();
    MarkThen(')', " = ", [Equal]);
    WritesQuoted("", ")" + " = ", [Close] + [Equal]);
    SpaceThen(Quoted("") + (")" + " = "), [Literal("")] + ([Close] + [Equal]));
    MarkThen(',', " " + (Quoted("") + (")" + " = ")), [Literal("")] + ([Close] + [Equal]));
    BlankedText();
    assert [Comma] + ([Literal("")] + ([Close] + [Equal])) == [Comma, Literal(""), Close, Equal];
  }

  lemma BlankedText()
    ensures "," + (" " + (Quoted("") + (")" + " = "))) == ", '') = "
  {
  }

  lemma WritesConnective(token: Token, text: string)
    requires (token == AndWord && text == " AND ") || (token == OrWord && text == " OR ")
    ensures Writes(text, [token])
  {
    hide Writes;
    WritesSpace();
    SpacedWord(token, " ", []);
    assert " " + ("AND" + " ") == " AND " && " " + ("OR" + " ") == " OR ";
    assert [token] + [] == [token];
  }

  lemma WritesNullTerm(window: Window)
    ensures Writes(TermText(window, None), TermTokens(window, None))
  {
    hide Writes, ColumnName;
    var g, i := Granularity(window), Identification(window);
    WritesMark('(');
    WritesIsNullAnd();
    WritesIsNull();
    WritesWord(Name(g), " IS NULL AND ", [IsWord, NullWord, AndWord]);
    WritesWord(Name(i), " IS NULL)", [IsWord, NullWord, Close]);
    WritesBoth("(", [Open], ColumnName(g) + " IS NULL AND ", [Name(g)] + [IsWord, NullWord, AndWord]);
    WritesBoth("(" + (ColumnName(g) + " IS NULL AND "), [Open] + ([Name(g)] + [IsWord, NullWord, AndWord]),
               ColumnName(i) + " IS NULL)", [Name(i)] + [IsWord, NullWord, Close]);
    assert [Open] + ([Name(g)] + [IsWord, NullWord, AndWord]) + ([Name(i)] + [IsWord, NullWord, Close]) ==
           TermTokens(window, None);
  }

  lemma WritesPairTerm(window: Window, pair: Pair)
    requires IsFree(Some(pair))
    ensures Writes(TermText(window, Some(pair)), TermTokens(window, Some(pair)))
  {
    hide Writes, ColumnName, Quoted;
    var g, i := Granularity(window), Identification(window);
    var blanked, next := [Comma, Literal(""), Close, Equal], [AndWord, CoalesceWord, Open];
    WritesCoalesce();
    WritesBlanked();
    WritesAndCoalesce();
    WritesMark(')');
    WritesWord(Name(g), ", '') = ", blanked);
    WritesWord(Name(i), ", '') = ", blanked);
    WritesQuoted(pair.granularity, " AND COALESCE(", next);
    WritesQuoted(pair.identification, ")", [Close]);
    var s1, t1 := "(COALESCE(", [Open, CoalesceWord, Open];
    WritesBoth(s1, t1, ColumnName(g) + ", '') = ", [Name(g)] + blanked);
    var s2, t2 := s1 + (ColumnName(g) + ", '') = "), t1 + ([Name(g)] + blanked);
    WritesBoth(s2, t2, Quoted(pair.granularity) + " AND COALESCE(", [Literal(pair.granularity)] + next);
    var s3, t3 := s2 + (Quoted(pair.granularity) + " AND COALESCE("), t2 + ([Literal(pair.granularity)] + next);
    WritesBoth(s3, t3, ColumnName(i) + ", '') = ", [Name(i)] + blanked);
    var s4, t4 := s3 + (ColumnName(i) + ", '') = "), t3 + ([Name(i)] + blanked);
    WritesBoth(s4, t4, Quoted(pair.identification) + ")", [Literal(pair.identification)] + [Close]);
    assert t4 + ([Literal(pair.identification)] + [Close]) == TermTokens(window, Some(pair));
  }

  lemma WritesTerm(window: Window, mode: Option<Pair>)
    requires IsFree(mode)
    ensures Writes(TermText(window, mode), TermTokens(window, mode))
  {
    match mode
    case None => WritesNullTerm(window);
    case Some(pair) => WritesPairTerm(window, pair);
  }

  lemma {:induction false} WritesJoined(texts: seq<string>, tss: seq<seq<Token>>)
    requires |texts| == |tss| && forall i :: 0 <= i < |texts| ==> Writes(texts[i], tss[i])
    ensures Writes(Joined(texts), JoinedTokens(tss))
  {
    hide Writes;
    if texts == [] {
      WritesNothing();
    } else if |texts| > 1 {
      WritesJoined(texts[1..], tss[1..]);
      WritesConnective(OrWord, " OR ");
      WritesBoth(" OR ", [OrWord], Joined(texts[1..]), JoinedTokens(tss[1..]));
      WritesBoth(texts[0], tss[0], " OR " + Joined(texts[1..]), [OrWord] + JoinedTokens(tss[1..]));
      assert tss[0] + ([OrWord] + JoinedTokens(tss[1..])) == JoinedTokens(tss);
    }
  }

  lemma WritesWindow(window: Window, modes: seq<Option<Pair>>)
    requires AreFree(modes)
    ensures Writes(WindowText(window, modes), WindowTokens(window, modes))
  {
    hide Writes, TermText, TermTokens, Joined, JoinedTokens;
    var texts := seq(|modes|, i requires 0 <= i < |modes| => TermText(window, modes[i]));
    var tss := TermsTokens(window, modes);
    forall i | 0 <= i < |modes| ensures Writes(texts[i], tss[i]) {
      WritesTerm(window, modes[i]);
    }
    WritesJoined(texts, tss);
    WritesMark('(');
    WritesMark(')');
    WritesBoth("(", [Open], Joined(texts), JoinedTokens(tss));
    WritesBoth("(" + Joined(texts), [Open] + JoinedTokens(tss), ")", [Close]);
  }

  lemma WritesClause(rule: Rule)
    requires IsQuoteFree(rule)
    ensures Writes(ClauseText(rule), ClauseTokens(rule))
  {
    hide Writes, WindowText, WindowTokens, Quoted;
    WritesMark('(');
    WritesMark(')');
    WritesEquals();
    WritesConnective(AndWord, " AND ");
    WritesWord(Name(Audience), " = ", [Equal]);
    WritesQuoted(rule.audience, " AND ", [AndWord]);
    WritesWindow(WhileOngoing, rule.ongoing);
    WritesWindow(AfterRelease, rule.released);
    var first, second := WindowText(WhileOngoing, rule.ongoing), WindowText(AfterRelease, rule.released);
    var u, v := WindowTokens(WhileOngoing, rule.ongoing), WindowTokens(AfterRelease, rule.released);
    WritesBoth("(", [Open], "audience" + " = ", [Name(Audience)] + [Equal]);
    var s1, t1 := "(" + ("audience" + " = "), [Open] + ([Name(Audience)] + [Equal]);
    WritesBoth(s1, t1, Quoted(rule.audience) + " AND ", [Literal(rule.audience)] + [AndWord]);
    var s2, t2 := s1 + (Quoted(rule.audience) + " AND "), t1 + ([Literal(rule.audience)] + [AndWord]);
    WritesBoth(s2, t2, first, u);
    WritesBoth(s2 + first, t2 + u, " AND ", [AndWord]);
    WritesBoth(s2 + first + " AND ", t2 + u + [AndWord], second, v);
    WritesBoth(s2 + first + " AND " + second, t2 + u + [AndWord] + v, ")", [Close]);
    assert t2 + u + [AndWord] + v + [Close] == ClauseTokens(rule);
  }

  lemma CheckLexes(rules: seq<Rule>)
    requires forall rule :: rule in rules ==> IsQuoteFree(rule)
    ensures Lex(CheckText(rules)) == Some(JoinedTokens(ClausesTokens(rules)))
  {
    hide ClauseText, ClauseTokens, Joined, JoinedTokens, IsQuoteFree;
    var texts := seq(|rules|, i requires 0 <= i < |rules| => ClauseText(rules[i]));
    var tss := ClausesTokens(rules);
    forall i | 0 <= i < |rules| ensures Writes(texts[i], tss[i]) {
      assert rules[i] in rules;
      WritesClause(rules[i]);
    }
    WritesJoined(texts, tss);
    var text, tokens := Joined(texts), JoinedTokens(tss);
    assert text == CheckText(rules);
    assert Lex(text + "") == Before(tokens, Lex(""));
    assert text + "" == text && tokens + [] == tokens;
  }
}
