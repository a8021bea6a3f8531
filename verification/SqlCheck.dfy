/** The CHECK constraint that `e5c1a9d3b7f2_view_policy_cell_check.py`
    generates, under SQL's three-valued logic. */
module SqlCheck {
  import opened Wrappers

  datatype Window = WhileOngoing | AfterRelease

  datatype Column = Audience | Granularity(window: Window) | Identification(window: Window)

  /** One window's stored pair; `None` is SQL NULL. */
  datatype Cell = Cell(granularity: Option<string>, identification: Option<string>)

  datatype Row = Row(audience: Option<string>, ongoing: Cell, released: Cell)

  datatype Truth = True | False | Unknown

  datatype Scalar = Plain(column: Column) | OrBlank(column: Column)

  datatype Expr =
    | IsNull(column: Column)
    | Equals(scalar: Scalar, literal: string)
    | And(left: Expr, right: Expr)
    | Or(terms: seq<Expr>)

  function CellOf(row: Row, window: Window): Cell {
    if window.WhileOngoing? then row.ongoing else row.released
  }

  function ValueOf(row: Row, column: Column): Option<string> {
    match column
    case Audience => row.audience
    case Granularity(window) => CellOf(row, window).granularity
    case Identification(window) => CellOf(row, window).identification
  }

  function Read(row: Row, scalar: Scalar): Option<string> {
    match scalar
    case Plain(column) => ValueOf(row, column)
    case OrBlank(column) => if ValueOf(row, column).Some? then ValueOf(row, column) else Some("")
  }

  function AndTruth(a: Truth, b: Truth): Truth {
    if a.False? || b.False? then False else if a.True? && b.True? then True else Unknown
  }

  function OrTruth(a: Truth, b: Truth): Truth {
    if a.True? || b.True? then True else if a.False? && b.False? then False else Unknown
  }

  function Eval(e: Expr, row: Row): Truth
    decreases e, 1
  {
    match e
    case IsNull(column) => if ValueOf(row, column).None? then True else False
    case Equals(scalar, literal) =>
      var value := Read(row, scalar);
      if value.None? then Unknown else if value.value == literal then True else False
    case And(left, right) => AndTruth(Eval(left, row), Eval(right, row))
    case Or(terms) => EvalAny(terms, row)
  }

  function EvalAny(terms: seq<Expr>, row: Row): Truth
    decreases terms, 0
  {
    if terms == [] then False
    else OrTruth(Eval(terms[0], row), EvalAny(terms[1..], row))
  }

  /** A disjunction is true when some term is, and false when all are. */
  lemma {:induction false} EvalAnyMeaning(terms: seq<Expr>, row: Row)
    ensures EvalAny(terms, row) == True <==> exists t :: t in terms && Eval(t, row) == True
    ensures EvalAny(terms, row) == False <==> forall t :: t in terms ==> Eval(t, row) == False
  {
    if terms != [] {
      EvalAnyMeaning(terms[1..], row);
      assert terms[0] in terms;
      assert forall t :: t in terms[1..] ==> t in terms;
      assert forall t :: t in terms ==> t == terms[0] || t in terms[1..];
    }
  }

  // ---------------------------------------------------------------------
  // The generator, for any table of legal modes
  // ---------------------------------------------------------------------

  /** A mode's stored pair. */
  datatype Pair = Pair(granularity: string, identification: string)

  /** Legal modes per audience and window; `None` is off. */
  datatype Rule = Rule(audience: string, ongoing: seq<Option<Pair>>, released: seq<Option<Pair>>)

  function Term(window: Window, mode: Option<Pair>): Expr {
    match mode
    case None => And(IsNull(Granularity(window)), IsNull(Identification(window)))
    case Some(pair) =>
      And(Equals(OrBlank(Granularity(window)), pair.granularity),
          Equals(OrBlank(Identification(window)), pair.identification))
  }

  function WindowSql(window: Window, modes: seq<Option<Pair>>): Expr {
    Or(seq(|modes|, i requires 0 <= i < |modes| => Term(window, modes[i])))
  }

  function Clause(rule: Rule): Expr {
    And(Equals(Plain(Audience), rule.audience),
        And(WindowSql(WhileOngoing, rule.ongoing), WindowSql(AfterRelease, rule.released)))
  }

  function Check(rules: seq<Rule>): Expr {
    Or(seq(|rules|, i requires 0 <= i < |rules| => Clause(rules[i])))
  }

  // ---------------------------------------------------------------------
  // What the constraint is for
  // ---------------------------------------------------------------------

  ghost predicate Stores(cell: Cell, mode: Option<Pair>) {
    match mode
    case None => cell == Cell(None, None)
    case Some(pair) => cell == Cell(Some(pair.granularity), Some(pair.identification))
  }

  ghost predicate LegalCell(cell: Cell, modes: seq<Option<Pair>>) {
    exists mode :: mode in modes && Stores(cell, mode)
  }

  ghost predicate Legal(row: Row, rule: Rule) {
    LegalCell(row.ongoing, rule.ongoing) && LegalCell(row.released, rule.released)
  }

  /** A column as COALESCE reads it. */
  function Blanked(column: Option<string>): string {
    if column.Some? then column.value else ""
  }

  /** The cell is the mode's, with NULL read as blank. */
  ghost predicate Matches(cell: Cell, mode: Option<Pair>) {
    match mode
    case None => cell == Cell(None, None)
    case Some(pair) =>
      Blanked(cell.granularity) == pair.granularity && Blanked(cell.identification) == pair.identification
  }

  ghost predicate Admitted(cell: Cell, modes: seq<Option<Pair>>) {
    exists mode :: mode in modes && Matches(cell, mode)
  }

  ghost predicate Admits(row: Row, rule: Rule) {
    Admitted(row.ongoing, rule.ongoing) && Admitted(row.released, rule.released)
  }

  lemma TermExact(row: Row, window: Window, mode: Option<Pair>)
    ensures Eval(Term(window, mode), row) == if Matches(CellOf(row, window), mode) then True else False
  {
  }

  /** One window's disjunction, for any modes: never unknown, and true exactly
      on the cells it admits. */
  lemma WindowExact(row: Row, window: Window, modes: seq<Option<Pair>>)
    ensures Eval(WindowSql(window, modes), row) == if Admitted(CellOf(row, window), modes) then True else False
  {
    var e := WindowSql(window, modes);
    EvalAnyMeaning(e.terms, row);
    forall i | 0 <= i < |modes|
      ensures Eval(e.terms[i], row) == if Matches(CellOf(row, window), modes[i]) then True else False
    {
      TermExact(row, window, modes[i]);
    }
    if Admitted(CellOf(row, window), modes) {
      var mode :| mode in modes && Matches(CellOf(row, window), mode);
      var i :| 0 <= i < |modes| && modes[i] == mode;
      assert e.terms[i] in e.terms;
    } else {
      forall t | t in e.terms ensures Eval(t, row) == False {
        var i :| 0 <= i < |modes| && e.terms[i] == t;
        assert modes[i] in modes;
      }
    }
  }

  lemma ClauseExact(row: Row, rule: Rule)
    ensures Eval(Clause(rule), row) ==
            if !Admits(row, rule) then False
            else if row.audience.None? then Unknown
            else if row.audience.value == rule.audience then True
            else False
  {
    WindowExact(row, WhileOngoing, rule.ongoing);
    WindowExact(row, AfterRelease, rule.released);
  }

  /** The generated CHECK, for any table of modes whatever: on a row with an
      audience it is never unknown, and true exactly when that audience's
      rule admits both cells. On a row without one it is never true, and
      unknown, which SQL lets pass, exactly when some rule admits both. */
  lemma CheckExact(rules: seq<Rule>, row: Row)
    ensures row.audience.Some? ==>
              && Eval(Check(rules), row) != Unknown
              && (Eval(Check(rules), row) == True <==>
                  exists rule :: rule in rules && rule.audience == row.audience.value && Admits(row, rule))
    ensures row.audience.None? ==>
              && Eval(Check(rules), row) != True
              && (Eval(Check(rules), row) == Unknown <==> exists rule :: rule in rules && Admits(row, rule))
  {
    hide Admits;
    var e := Check(rules);
    EvalAnyMeaning(e.terms, row);
    forall i | 0 <= i < |rules|
      ensures e.terms[i] == Clause(rules[i])
      ensures Eval(e.terms[i], row) == Unknown ==> row.audience.None?
    {
      ClauseExact(row, rules[i]);
    }
    forall rule | rule in rules ensures Clause(rule) in e.terms {
      var i :| 0 <= i < |rules| && rules[i] == rule;
      assert e.terms[i] == Clause(rule);
    }
    forall rule | rule in rules
      ensures Eval(Clause(rule), row) ==
              if !Admits(row, rule) then False
              else if row.audience.None? then Unknown
              else if row.audience.value == rule.audience then True
              else False
    {
      ClauseExact(row, rule);
    }
    forall t | t in e.terms ensures exists rule :: rule in rules && t == Clause(rule) {
      var i :| 0 <= i < |rules| && e.terms[i] == t;
      assert rules[i] in rules;
    }
  }

  // ---------------------------------------------------------------------
  // Blank modes
  // ---------------------------------------------------------------------

  predicate IsBlank(mode: Option<Pair>) {
    mode.Some? && (mode.value.granularity == "" || mode.value.identification == "")
  }

  /** No mode is stored with a blank text, which COALESCE makes of NULL. */
  ghost predicate NoBlank(modes: seq<Option<Pair>>) {
    forall mode :: mode in modes ==> !IsBlank(mode)
  }

  /** Without blank modes a window admits exactly its legal cells. */
  lemma AdmittedIsLegal(cell: Cell, modes: seq<Option<Pair>>)
    ensures LegalCell(cell, modes) ==> Admitted(cell, modes)
    ensures NoBlank(modes) ==> (Admitted(cell, modes) <==> LegalCell(cell, modes))
  {
    forall mode | mode in modes
      ensures Stores(cell, mode) ==> Matches(cell, mode)
      ensures !IsBlank(mode) ==> (Matches(cell, mode) <==> Stores(cell, mode))
    {
    }
  }

  /** A cell that holds NULL where the mode holds a blank. */
  function NulledCell(pair: Pair): Cell {
    Cell(if pair.granularity == "" then None else Some(pair.granularity),
         if pair.granularity == "" || pair.identification != "" then Some(pair.identification) else None)
  }

  /** A blank mode is matched by a half-set cell, which no mode stores. */
  lemma BlankModeLeaks(mode: Option<Pair>, modes: seq<Option<Pair>>)
    requires IsBlank(mode) && mode in modes
    ensures Admitted(NulledCell(mode.value), modes) && !LegalCell(NulledCell(mode.value), modes)
  {
    assert Matches(NulledCell(mode.value), mode);
  }

  /** A rule with a blank mode in one window, and some mode in the other. */
  ghost predicate Leaks(rule: Rule) {
    (!NoBlank(rule.ongoing) && rule.released != []) || (!NoBlank(rule.released) && rule.ongoing != [])
  }

  /** On a row with an audience the CHECK says what the constraint is for. */
  ghost predicate IsTruthful(rules: seq<Rule>, row: Row)
    requires row.audience.Some?
  {
    Eval(Check(rules), row) ==
    if exists rule :: rule in rules && rule.audience == row.audience.value && Legal(row, rule) then True else False
  }

  lemma FirstModeIsMatched(modes: seq<Option<Pair>>) returns (cell: Cell)
    requires modes != []
    ensures Admitted(cell, modes)
  {
    cell := if modes[0].None? then Cell(None, None)
            else Cell(Some(modes[0].value.granularity), Some(modes[0].value.identification));
    assert modes[0] in modes && Matches(cell, modes[0]);
  }

  /** A row that a leaking rule lets through. */
  lemma LeakingRow(rules: seq<Rule>, rule: Rule) returns (row: Row)
    requires rule in rules && Leaks(rule)
    ensures row.audience.Some? && !IsTruthful(rules, row)
  {
    var modes := if !NoBlank(rule.ongoing) && rule.released != [] then rule.ongoing else rule.released;
    var mode :| mode in modes && IsBlank(mode);
    if modes == rule.ongoing && rule.released != [] {
      var other := FirstModeIsMatched(rule.released);
      row := Row(Some(rule.audience), NulledCell(mode.value), other);
    } else {
      var other := FirstModeIsMatched(rule.ongoing);
      row := Row(Some(rule.audience), other, NulledCell(mode.value));
    }
    BlankModeLeaks(mode, modes);
    assert Admits(row, rule);
    CheckExact(rules, row);
    forall r | r in rules ensures !Legal(row, r) {
      HalfSetIsNeverLegal(mode.value, r.ongoing);
      HalfSetIsNeverLegal(mode.value, r.released);
    }
  }

  lemma HalfSetIsNeverLegal(pair: Pair, modes: seq<Option<Pair>>)
    requires IsBlank(Some(pair))
    ensures !LegalCell(NulledCell(pair), modes)
  {
  }

  lemma SoundRule(row: Row, rule: Rule)
    requires !Leaks(rule)
    ensures Admits(row, rule) <==> Legal(row, rule)
  {
    AdmittedIsLegal(row.ongoing, rule.ongoing);
    AdmittedIsLegal(row.released, rule.released);
  }

  /** The CHECK is true of exactly the legal rows if and only if no rule has
      a blank mode beside a window that allows anything. */
  lemma TruthfulExactly(rules: seq<Rule>)
    ensures (forall row: Row :: row.audience.Some? ==> IsTruthful(rules, row)) <==>
            forall rule :: rule in rules ==> !Leaks(rule)
  {
    if forall rule :: rule in rules ==> !Leaks(rule) {
      forall row: Row | row.audience.Some? ensures IsTruthful(rules, row) {
        CheckExact(rules, row);
        forall rule | rule in rules ensures Admits(row, rule) <==> Legal(row, rule) {
          SoundRule(row, rule);
        }
      }
    } else {
      var rule :| rule in rules && Leaks(rule);
      var row := LeakingRow(rules, rule);
    }
  }

  /** Why each column goes through COALESCE: a plain comparison leaves a
      half-set pair unknown, and SQL lets an unknown CHECK pass. */
  lemma PlainComparisonLeaks(window: Window, pair: Pair)
    ensures var row := Row(None, Cell(Some(pair.granularity), None), Cell(Some(pair.granularity), None));
            && !Stores(CellOf(row, window), Some(pair))
            && Eval(And(Equals(Plain(Granularity(window)), pair.granularity),
                        Equals(Plain(Identification(window)), pair.identification)), row) == Unknown
  {
    var row := Row(None, Cell(Some(pair.granularity), None), Cell(Some(pair.granularity), None));
    assert ValueOf(row, Identification(window)) == None;
  }
}
