/** What the CHECK's text means to SQL, and exactly when it means what the
    constraint is for. */
module SqlMeaning {
  import opened SqlCheck
  import opened SqlReading
  import opened SqlText
  import opened Wrappers

  // ---------------------------------------------------------------------
  // Tokens and what the parser makes of them
  // ---------------------------------------------------------------------

  ghost predicate IsPrimary(ts: seq<Token>, e: Expr) {
    forall rest :: ParsePrimary(ts + rest) == Some((e, rest))
  }

  /** Up to what does not go on with an AND. */
  ghost predicate IsAnd(ts: seq<Token>, e: Expr) {
    forall rest :: (rest != [] ==> rest[0] != AndWord) ==> ParseAnd(ts + rest) == Some((e, rest))
  }

  predicate Ends(rest: seq<Token>) {
    rest == [] || rest[0] == Close
  }

  ghost predicate IsTerms(ts: seq<Token>, es: seq<Expr>) {
    forall rest :: Ends(rest) ==> ParseTerms(ts + rest) == Some((es, rest))
  }

  lemma NullIsPrimary(column: Column)
    ensures IsPrimary(NullTokens(column), IsNull(column))
  {
    forall rest ensures ParsePrimary(NullTokens(column) + rest) == Some((IsNull(column), rest)) {
      var ts := NullTokens(column) + rest;
      assert ts[0] == Name(column) && ts[1] == IsWord && ts[2] == NullWord && ts[3..] == rest;
    }
  }

  lemma BlankedIsPrimary(column: Column, text: string)
    ensures IsPrimary(BlankedTokens(column, text), Equals(OrBlank(column), text))
  {
    forall rest
      ensures ParsePrimary(BlankedTokens(column, text) + rest) == Some((Equals(OrBlank(column), text), rest))
    {
      var ts := BlankedTokens(column, text) + rest;
      assert ts[..8] == [CoalesceWord, Open, Name(column), Comma, Literal(""), Close, Equal, Literal(text)];
      assert ts[0] == CoalesceWord && ts[1] == Open && ts[2] == Name(column) && ts[3] == Comma;
      assert ts[4] == Literal("") && ts[5] == Close && ts[6] == Equal && ts[7] == Literal(text) && ts[8..] == rest;
    }
  }

  lemma AudienceIsPrimary(rule: Rule)
    ensures IsPrimary(AudienceTokens(rule), Equals(Plain(Audience), rule.audience))
  {
    forall rest
      ensures ParsePrimary(AudienceTokens(rule) + rest) == Some((Equals(Plain(Audience), rule.audience), rest))
    {
      var ts := AudienceTokens(rule) + rest;
      assert ts[0] == Name(Audience) && ts[1] == Equal && ts[2] == Literal(rule.audience) && ts[3..] == rest;
    }
  }

  lemma PrimaryIsAnd(ts: seq<Token>, e: Expr)
    requires IsPrimary(ts, e)
    ensures IsAnd(ts, e)
  {
    hide ParsePrimary;
    forall rest | rest != [] ==> rest[0] != AndWord
      ensures ParseAnd(ts + rest) == Some((e, rest))
    {
      assert ParsePrimary(ts + rest) == Some((e, rest));
    }
  }

  lemma AndJoins(ta: seq<Token>, a: Expr, tb: seq<Token>, b: Expr)
    requires IsPrimary(ta, a) && IsAnd(tb, b)
    ensures IsAnd(ta + [AndWord] + tb, And(a, b))
  {
    hide ParsePrimary;
    forall rest | rest != [] ==> rest[0] != AndWord
      ensures ParseAnd(ta + [AndWord] + tb + rest) == Some((And(a, b), rest))
    {
      var next := [AndWord] + (tb + rest);
      assert ta + [AndWord] + tb + rest == ta + next;
      assert ParsePrimary(ta + next) == Some((a, next));
      assert next[1..] == tb + rest;
      assert ParseAnd(tb + rest) == Some((b, rest));
    }
  }

  lemma AndIsTerms(ts: seq<Token>, e: Expr)
    requires IsAnd(ts, e)
    ensures IsTerms(ts, [e])
  {
    hide ParseAnd;
    forall rest | Ends(rest) ensures ParseTerms(ts + rest) == Some(([e], rest)) {
      assert ParseAnd(ts + rest) == Some((e, rest));
    }
  }

  lemma OrJoins(ta: seq<Token>, a: Expr, tb: seq<Token>, bs: seq<Expr>)
    requires IsAnd(ta, a) && IsTerms(tb, bs)
    ensures IsTerms(ta + [OrWord] + tb, [a] + bs)
  {
    hide ParseAnd;
    forall rest | Ends(rest) ensures ParseTerms(ta + [OrWord] + tb + rest) == Some(([a] + bs, rest)) {
      var next := [OrWord] + (tb + rest);
      assert ta + [OrWord] + tb + rest == ta + next;
      assert ParseAnd(ta + next) == Some((a, next));
      assert next[1..] == tb + rest;
      assert ParseTerms(tb + rest) == Some((bs, rest));
    }
  }

  lemma GroupIsPrimary(ts: seq<Token>, es: seq<Expr>)
    requires IsTerms(ts, es)
    ensures IsPrimary([Open] + ts + [Close], Or(es))
  {
    hide ParseTerms;
    forall rest ensures ParsePrimary([Open] + ts + [Close] + rest) == Some((Or(es), rest)) {
      var all := [Open] + ts + [Close] + rest;
      var inner := [Close] + rest;
      assert all[0] == Open && all[1..] == ts + inner;
      assert Ends(inner);
      assert ParseTerms(ts + inner) == Some((es, inner));
      assert inner[1..] == rest;
    }
  }

  lemma {:induction false} JoinedIsTerms(tss: seq<seq<Token>>, es: seq<Expr>)
    requires tss != [] && |tss| == |es| && forall i :: 0 <= i < |tss| ==> IsPrimary(tss[i], es[i])
    ensures IsTerms(JoinedTokens(tss), es)
  {
    hide IsPrimary, IsTerms, IsAnd;
    PrimaryIsAnd(tss[0], es[0]);
    if |tss| == 1 {
      AndIsTerms(tss[0], es[0]);
      assert es == [es[0]];
    } else {
      JoinedIsTerms(tss[1..], es[1..]);
      OrJoins(tss[0], es[0], JoinedTokens(tss[1..]), es[1..]);
      assert es == [es[0]] + es[1..];
    }
  }

  // ---------------------------------------------------------------------
  // The tree the reader makes, and its meaning
  // ---------------------------------------------------------------------

  /** As written, each group in its parentheses. */
  function ReadTerm(window: Window, mode: Option<Pair>): Expr {
    Or([Term(window, mode)])
  }

  function ReadTerms(window: Window, modes: seq<Option<Pair>>): seq<Expr> {
    seq(|modes|, i requires 0 <= i < |modes| => ReadTerm(window, modes[i]))
  }

  function ReadClause(rule: Rule): Expr {
    Or([And(Equals(Plain(Audience), rule.audience),
            And(Or(ReadTerms(WhileOngoing, rule.ongoing)), Or(ReadTerms(AfterRelease, rule.released))))])
  }

  function ReadClauses(rules: seq<Rule>): seq<Expr> {
    seq(|rules|, i requires 0 <= i < |rules| => ReadClause(rules[i]))
  }

  lemma OneAlternative(e: Expr, row: Row)
    ensures Eval(Or([e]), row) == Eval(e, row)
  {
    assert [e][1..] == [];
    assert EvalAny([e], row) == OrTruth(Eval(e, row), False);
  }

  lemma {:induction false} SameAlternatives(es: seq<Expr>, bs: seq<Expr>, row: Row)
    requires |es| == |bs| && forall i :: 0 <= i < |es| ==> Eval(es[i], row) == Eval(bs[i], row)
    ensures EvalAny(es, row) == EvalAny(bs, row)
  {
    hide Eval;
    if es != [] {
      SameAlternatives(es[1..], bs[1..], row);
    }
  }

  lemma WindowKeepsMeaning(window: Window, modes: seq<Option<Pair>>, row: Row)
    ensures Eval(Or(ReadTerms(window, modes)), row) == Eval(WindowSql(window, modes), row)
  {
    hide Term;
    var tree := WindowSql(window, modes);
    forall i | 0 <= i < |modes| ensures Eval(ReadTerms(window, modes)[i], row) == Eval(tree.terms[i], row) {
      OneAlternative(Term(window, modes[i]), row);
    }
    SameAlternatives(ReadTerms(window, modes), tree.terms, row);
  }

  lemma ClauseKeepsMeaning(rule: Rule, row: Row)
    ensures Eval(ReadClause(rule), row) == Eval(Clause(rule), row)
  {
    hide ReadTerms, WindowSql;
    WindowKeepsMeaning(WhileOngoing, rule.ongoing, row);
    WindowKeepsMeaning(AfterRelease, rule.released, row);
    OneAlternative(ReadClause(rule).terms[0], row);
  }

  lemma CheckKeepsMeaning(rules: seq<Rule>, row: Row)
    ensures Eval(Or(ReadClauses(rules)), row) == Eval(Check(rules), row)
  {
    hide Clause, ReadClause;
    var tree := Check(rules);
    forall i | 0 <= i < |rules| ensures Eval(ReadClauses(rules)[i], row) == Eval(tree.terms[i], row) {
      ClauseKeepsMeaning(rules[i], row);
    }
    SameAlternatives(ReadClauses(rules), tree.terms, row);
  }

  // ---------------------------------------------------------------------
  // Well-formed texts
  // ---------------------------------------------------------------------

  lemma TermIsPrimary(window: Window, mode: Option<Pair>)
    ensures IsPrimary(TermTokens(window, mode), ReadTerm(window, mode))
  {
    hide IsPrimary, IsAnd, IsTerms, NullTokens, BlankedTokens;
    var g, i := Granularity(window), Identification(window);
    match mode {
      case None =>
        NullIsPrimary(g);
        NullIsPrimary(i);
        PrimaryIsAnd(NullTokens(i), IsNull(i));
        AndJoins(NullTokens(g), IsNull(g), NullTokens(i), IsNull(i));
        AndIsTerms(NullTokens(g) + [AndWord] + NullTokens(i), And(IsNull(g), IsNull(i)));
        GroupIsPrimary(NullTokens(g) + [AndWord] + NullTokens(i), [And(IsNull(g), IsNull(i))]);
      case Some(pair) =>
        var a, b := Equals(OrBlank(g), pair.granularity), Equals(OrBlank(i), pair.identification);
        var ta, tb := BlankedTokens(g, pair.granularity), BlankedTokens(i, pair.identification);
        BlankedIsPrimary(g, pair.granularity);
        BlankedIsPrimary(i, pair.identification);
        PrimaryIsAnd(tb, b);
        AndJoins(ta, a, tb, b);
        AndIsTerms(ta + [AndWord] + tb, And(a, b));
        GroupIsPrimary(ta + [AndWord] + tb, [And(a, b)]);
    }
  }

  lemma WindowIsPrimary(window: Window, modes: seq<Option<Pair>>)
    requires modes != []
    ensures IsPrimary(WindowTokens(window, modes), Or(ReadTerms(window, modes)))
  {
    hide IsPrimary, IsTerms, TermTokens, JoinedTokens;
    forall i | 0 <= i < |modes| ensures IsPrimary(TermsTokens(window, modes)[i], ReadTerms(window, modes)[i]) {
      TermIsPrimary(window, modes[i]);
    }
    JoinedIsTerms(TermsTokens(window, modes), ReadTerms(window, modes));
    GroupIsPrimary(JoinedTokens(TermsTokens(window, modes)), ReadTerms(window, modes));
  }

  lemma ClauseIsPrimary(rule: Rule)
    requires rule.ongoing != [] && rule.released != []
    ensures IsPrimary(ClauseTokens(rule), ReadClause(rule))
  {
    hide IsPrimary, IsAnd, IsTerms, WindowTokens, AudienceTokens, ReadTerms;
    var a, ta := Equals(Plain(Audience), rule.audience), AudienceTokens(rule);
    var b, tb := Or(ReadTerms(WhileOngoing, rule.ongoing)), WindowTokens(WhileOngoing, rule.ongoing);
    var c, tc := Or(ReadTerms(AfterRelease, rule.released)), WindowTokens(AfterRelease, rule.released);
    AudienceIsPrimary(rule);
    WindowIsPrimary(WhileOngoing, rule.ongoing);
    WindowIsPrimary(AfterRelease, rule.released);
    PrimaryIsAnd(tc, c);
    AndJoins(tb, b, tc, c);
    AndJoins(ta, a, tb + [AndWord] + tc, And(b, c));
    AndIsTerms(ta + [AndWord] + (tb + [AndWord] + tc), And(a, And(b, c)));
    GroupIsPrimary(ta + [AndWord] + (tb + [AndWord] + tc), [And(a, And(b, c))]);
  }

  /** Every rule has some mode in each window. */
  predicate IsFilled(rule: Rule) {
    rule.ongoing != [] && rule.released != []
  }

  // ---------------------------------------------------------------------
  // Texts that are refused
  // ---------------------------------------------------------------------

  ghost predicate Fails(ts: seq<Token>) {
    forall rest :: ParsePrimary(ts + rest) == None
  }

  /** Nothing between parentheses is no condition. */
  lemma EmptyGroupFails()
    ensures Fails([Open, Close])
  {
    forall rest ensures ParsePrimary([Open, Close] + rest) == None {
      var ts := [Open, Close] + rest;
      assert ts[0] == Open && ts[1..] == [Close] + rest && ts[1..][0] == Close;
      assert ParsePrimary(ts[1..]) == None;
      assert ParseAnd(ts[1..]) == None;
      assert ParseTerms(ts[1..]) == None;
    }
  }

  lemma WindowFails(window: Window)
    ensures Fails(WindowTokens(window, []))
  {
    EmptyGroupFails();
    assert JoinedTokens([]) == [];
    assert [Open] + [] + [Close] == [Open, Close];
  }

  /** A clause with an empty window in it. */
  lemma ClauseFails(rule: Rule)
    requires !IsFilled(rule)
    ensures Fails(ClauseTokens(rule))
  {
    hide WindowTokens, AudienceTokens, ParsePrimary, ReadTerms;
    var ta, tb := AudienceTokens(rule), WindowTokens(WhileOngoing, rule.ongoing);
    var tc := WindowTokens(AfterRelease, rule.released);
    AudienceIsPrimary(rule);
    forall rest ensures ParsePrimary(ClauseTokens(rule) + rest) == None {
      var after := [Close] + rest;
      var third := tc + after;
      var second := tb + ([AndWord] + third);
      var first := ta + ([AndWord] + second);
      assert ClauseTokens(rule) + rest == [Open] + first;
      if rule.ongoing == [] {
        WindowFails(WhileOngoing);
        assert ParsePrimary(second) == None;
      } else {
        WindowFails(AfterRelease);
        WindowIsPrimary(WhileOngoing, rule.ongoing);
        assert ParsePrimary(third) == None;
        assert ParseAnd(third) == None;
        assert ParsePrimary(second).Some? && ParsePrimary(second).value.1 == [AndWord] + third;
        assert ([AndWord] + third)[1..] == third;
      }
      assert ParseAnd(second) == None;
      assert ParsePrimary(first).Some? && ParsePrimary(first).value.1 == [AndWord] + second;
      assert ([AndWord] + second)[1..] == second;
      assert ParseAnd(first) == None;
      assert ParseTerms(first) == None;
      OpenFails(first);
    }
  }

  lemma OpenFails(inner: seq<Token>)
    requires ParseTerms(inner) == None
    ensures ParsePrimary([Open] + inner) == None
  {
    assert ([Open] + inner)[1..] == inner;
  }

  lemma FirstFails(ts: seq<Token>, rest: seq<Token>)
    requires Fails(ts)
    ensures ParseTerms(ts + rest) == None
  {
    hide ParsePrimary;
    assert ParsePrimary(ts + rest) == None;
    assert ParseAnd(ts + rest) == None;
  }

  lemma NextFails(ts: seq<Token>, e: Expr, tail: seq<Token>)
    requires IsAnd(ts, e) && ParseTerms(tail) == None
    ensures ParseTerms(ts + [OrWord] + tail) == None
  {
    hide ParseAnd;
    var next := [OrWord] + tail;
    assert ts + [OrWord] + tail == ts + next;
    assert ParseAnd(ts + next) == Some((e, next));
    assert next[1..] == tail;
  }

  /** One clause that fails makes the whole text fail. */
  lemma {:induction false} JoinedFails(rules: seq<Rule>)
    requires exists rule :: rule in rules && !IsFilled(rule)
    ensures ParseTerms(JoinedTokens(ClausesTokens(rules))) == None
  {
    hide ClauseTokens, ParseTerms, Fails, IsPrimary, IsAnd, ReadClause;
    var first, tss := rules[0], ClausesTokens(rules);
    if !IsFilled(first) {
      ClauseFails(first);
      var rest := if |rules| == 1 then [] else [OrWord] + JoinedTokens(tss[1..]);
      FirstFails(tss[0], rest);
      assert JoinedTokens(tss) == tss[0] + rest;
    } else {
      assert |rules| > 1 && tss[1..] == ClausesTokens(rules[1..]);
      JoinedFails(rules[1..]);
      ClauseIsPrimary(first);
      PrimaryIsAnd(tss[0], ReadClause(first));
      NextFails(tss[0], ReadClause(first), JoinedTokens(tss[1..]));
    }
  }

  // ---------------------------------------------------------------------
  // The text's meaning
  // ---------------------------------------------------------------------

  /** For texts without a quote in them, SQL can read the CHECK exactly when
      there is a rule and every rule's windows allow something; and then it
      reads it, on every row, as the condition the generator is about. */
  lemma TextMeansCheck(rules: seq<Rule>)
    requires forall rule :: rule in rules ==> IsQuoteFree(rule)
    ensures ReadSql(CheckText(rules)).Some? <==> rules != [] && forall rule :: rule in rules ==> IsFilled(rule)
    ensures ReadSql(CheckText(rules)).Some? ==>
              forall row :: Eval(ReadSql(CheckText(rules)).value, row) == Eval(Check(rules), row)
  {
    hide Eval, Check, CheckText, Lex, ParseTerms, ClausesTokens, JoinedTokens, IsQuoteFree, IsTerms;
    CheckLexes(rules);
    var tokens := JoinedTokens(ClausesTokens(rules));
    if rules == [] {
      NoRulesFail();
    } else if rule :| rule in rules && !IsFilled(rule) {
      JoinedFails(rules);
    } else {
      ClausesParse(rules);
      forall row ensures Eval(Or(ReadClauses(rules)), row) == Eval(Check(rules), row) {
        CheckKeepsMeaning(rules, row);
      }
    }
  }

  lemma NoRulesFail()
    ensures ParseTerms(JoinedTokens(ClausesTokens([]))) == None
  {
  }

  lemma ClausesParse(rules: seq<Rule>)
    requires rules != [] && forall rule :: rule in rules ==> IsFilled(rule)
    ensures ParseTerms(JoinedTokens(ClausesTokens(rules))) == Some((ReadClauses(rules), []))
  {
    hide IsPrimary, ParseTerms, ClauseTokens, ReadClause, JoinedTokens;
    var tss := ClausesTokens(rules);
    forall i | 0 <= i < |rules| ensures IsPrimary(tss[i], ReadClauses(rules)[i]) {
      assert rules[i] in rules;
      ClauseIsPrimary(rules[i]);
    }
    JoinedIsTerms(tss, ReadClauses(rules));
    assert Ends([]);
    assert JoinedTokens(tss) + [] == JoinedTokens(tss);
  }

  /** SQL reads the text and finds it true of exactly the legal rows among
      those with an audience, and unknown of none. */
  ghost predicate MeansLegality(rules: seq<Rule>) {
    && ReadSql(CheckText(rules)).Some?
    && forall row: Row :: row.audience.Some? ==>
         Eval(ReadSql(CheckText(rules)).value, row) ==
         if exists rule :: rule in rules && rule.audience == row.audience.value && Legal(row, rule) then True else False
  }

  /** The text means what the constraint is for if and only if there is a
      rule, every window allows something, and no mode is blank. */
  lemma TextTruthfulExactly(rules: seq<Rule>)
    requires forall rule :: rule in rules ==> IsQuoteFree(rule)
    ensures MeansLegality(rules) <==>
            && rules != []
            && forall rule :: rule in rules ==> IsFilled(rule) && NoBlank(rule.ongoing) && NoBlank(rule.released)
  {
    hide Eval, Check, CheckText, ReadSql, IsQuoteFree, NoBlank, Legal;
    TextMeansCheck(rules);
    TruthfulExactly(rules);
    if ReadSql(CheckText(rules)).Some? {
      assert forall rule :: rule in rules ==> (!Leaks(rule) <==> NoBlank(rule.ongoing) && NoBlank(rule.released));
      assert (forall row: Row :: row.audience.Some? ==> IsTruthful(rules, row)) <==> MeansLegality(rules);
    }
  }
}
