/** The data migrations of `instrument_view_policies`: the expand step, the
    reviewer-summary step, the two normalizations, and the contract step's
    downgrade. */
module ViewPolicy {
  import opened Wrappers
  import opened Ordering
  import opened SqlCheck
  import opened SqlMeaning
  import opened SqlReading
  import opened SqlText

  datatype Mode = Raw | Anonymized | Summarized

  /** What a stored pair is: off, a mode, or neither. */
  datatype Stored = Off | On(mode: Mode) | Invalid

  function PairOf(mode: Mode): Pair {
    match mode
    case Raw => Pair("row", "identified")
    case Anonymized => Pair("row", "deidentified")
    case Summarized => Pair("aggregated", "deidentified")
  }

  function CellFor(target: Option<Mode>): Cell {
    if target.None? then Cell(None, None)
    else Cell(Some(PairOf(target.value).granularity), Some(PairOf(target.value).identification))
  }

  function ModeOf(cell: Cell): Stored {
    if cell == Cell(None, None) then Off
    else if cell == CellFor(Some(Raw)) then On(Raw)
    else if cell == CellFor(Some(Anonymized)) then On(Anonymized)
    else if cell == CellFor(Some(Summarized)) then On(Summarized)
    else Invalid
  }

  const PEER_REVIEWER := "peer_reviewer"
  const REVIEWEE := "reviewee"
  const OBSERVER := "observer"

  predicate IsAudience(audience: string) {
    audience == PEER_REVIEWER || audience == REVIEWEE || audience == OBSERVER
  }

  /** The modes an (audience, window) cell allows; `None` is off. */
  function Valid(audience: string, window: Window): seq<Option<Mode>>
    requires IsAudience(audience)
  {
    if window.AfterRelease? then
      if audience == PEER_REVIEWER then [None, Some(Raw)]
      else [None, Some(Raw), Some(Anonymized), Some(Summarized)]
    else if audience == PEER_REVIEWER then [Some(Raw)]
    else if audience == REVIEWEE then [None]
    else [None, Some(Summarized)]
  }

  function TargetOf(stored: Stored): Option<Mode>
    requires !stored.Invalid?
  {
    if stored.Off? then None else Some(stored.mode)
  }

  function Normalized(audience: string, window: Window, stored: Stored): Option<Mode>
    requires IsAudience(audience)
  {
    var valid := Valid(audience, window);
    if !stored.Invalid? && TargetOf(stored) in valid then TargetOf(stored)
    else if |valid| == 1 then valid[0]
    else if audience == OBSERVER && window.WhileOngoing? && (stored == On(Raw) || stored == On(Anonymized)) then
      Some(Summarized)
    else None
  }

  // ---------------------------------------------------------------------
  // Rows
  // ---------------------------------------------------------------------

  /** One row with the legacy quadruple and the two window pairs. `id` is
      the primary key. */
  datatype PolicyRow = PolicyRow(
    id: int,
    audience: string,
    enabled: bool,
    granularity: Option<string>,
    identification: Option<string>,
    visibleWhen: Option<string>,
    ongoing: Cell,
    released: Cell)

  function AsSql(row: PolicyRow): Row {
    Row(Some(row.audience), row.ongoing, row.released)
  }

  function WindowOf(row: PolicyRow, window: Window): Cell {
    CellOf(AsSql(row), window)
  }

  function LegacyCell(row: PolicyRow): Cell {
    Cell(row.granularity, row.identification)
  }

  function ExpandRow(row: PolicyRow): PolicyRow {
    if !row.enabled then row
    else
      var given := if row.visibleWhen.None? || row.visibleWhen.value == "" then "throughout" else row.visibleWhen.value;
      var when := if given == "always" then "throughout" else given;
      row.(ongoing := if when == "while_ongoing" || when == "throughout" then LegacyCell(row) else Cell(None, None),
      released := if when == "after_release" || when == "throughout" then LegacyCell(row) else Cell(None, None))
  }

  function SummaryOffRow(row: PolicyRow): PolicyRow {
    if row.audience == PEER_REVIEWER && row.released.granularity == Some("aggregated") then
      row.(released := Cell(None, None))
    else row
  }

  function NormalizeRow(row: PolicyRow): PolicyRow
    requires IsAudience(row.audience)
  {
    row.(ongoing := CellFor(Normalized(row.audience, WhileOngoing, ModeOf(row.ongoing))),
    released := CellFor(Normalized(row.audience, AfterRelease, ModeOf(row.released))))
  }

  function NormalizeKnown(row: PolicyRow): PolicyRow {
    if IsAudience(row.audience) then NormalizeRow(row) else row
  }

  // ---------------------------------------------------------------------
  // The migrations, row by row over the table
  // ---------------------------------------------------------------------

  method Expand(table: array<PolicyRow>)
    modifies table
    ensures forall k :: 0 <= k < table.Length ==> table[k] == ExpandRow(old(table[k]))
  {
    for k := 0 to table.Length
      invariant forall j :: 0 <= j < k ==> table[j] == ExpandRow(old(table[j]))
      invariant forall j :: k <= j < table.Length ==> table[j] == old(table[j])
    {
      var row := table[k];
      if row.enabled {
        var when := "throughout";
        if row.visibleWhen.Some? && row.visibleWhen.value != "" {
          when := row.visibleWhen.value;
        }
        if when == "always" {
          when := "throughout";
        }
        var setsWhile := when == "while_ongoing" || when == "throughout";
        var setsAfter := when == "after_release" || when == "throughout";
        table[k] := row.(
        ongoing := Cell(if setsWhile then row.granularity else None, if setsWhile then row.identification else None),
        released := Cell(if setsAfter then row.granularity else None, if setsAfter then row.identification else None));
      }
    }
  }

  /** One UPDATE: a reviewer row whose released granularity is aggregated ends
      with both released columns null, and nothing else changes. */
  method SummaryOff(table: array<PolicyRow>)
    modifies table
    ensures forall k :: 0 <= k < table.Length ==>
              var was := old(table[k]);
              if was.audience == PEER_REVIEWER && was.released.granularity == Some("aggregated") then
                && table[k].released.granularity.None? && table[k].released.identification.None?
                && table[k].(released := was.released) == was
              else table[k] == was
  {
    forall k | 0 <= k < table.Length {
      table[k] := SummaryOffRow(table[k]);
    }
  }

  /** The ids of the rows `f` changes, in table order. */
  function ChangedIds(f: PolicyRow -> PolicyRow, rows: seq<PolicyRow>): seq<int> {
    if rows == [] then []
    else
      var last := rows[|rows| - 1];
      ChangedIds(f, rows[..|rows| - 1]) + if f(last) != last then [last.id] else []
  }

  /** The loop both normalizations share: write the rows that change, and
      list their ids. */
  method Rewrite(f: PolicyRow -> PolicyRow, table: array<PolicyRow>) returns (rewritten: seq<int>)
    modifies table
    ensures forall k :: 0 <= k < table.Length ==> table[k] == f(old(table[k]))
    ensures rewritten == ChangedIds(f, old(table[..]))
  {
    ghost var was := table[..];
    rewritten := [];
    for k := 0 to table.Length
      invariant rewritten == ChangedIds(f, was[..k])
      invariant forall j :: 0 <= j < k ==> table[j] == f(was[j])
      invariant forall j :: k <= j < table.Length ==> table[j] == was[j]
    {
      var row := table[k];
      assert was[..k + 1][..k] == was[..k];
      var target := f(row);
      if target != row {
        rewritten := rewritten + [row.id];
        table[k] := target;
      }
    }
    assert was[..table.Length] == was;
  }

  /** The first normalization skips a row of no known audience. */
  method NormalizeFirst(table: array<PolicyRow>)
    modifies table
    ensures forall k :: 0 <= k < table.Length ==> table[k] == NormalizeKnown(old(table[k]))
  {
    var _ := Rewrite(NormalizeKnown, table);
  }

  function UnknownIds(rows: seq<PolicyRow>): seq<int> {
    if rows == [] then []
    else
      var last := rows[|rows| - 1];
      UnknownIds(rows[..|rows| - 1]) + if IsAudience(last.audience) then [] else [last.id]
  }

  lemma {:induction false} UnknownIdsMeaning(rows: seq<PolicyRow>)
    ensures UnknownIds(rows) == [] <==> AllKnown(rows)
    ensures forall id :: id in UnknownIds(rows) <==>
              exists row :: row in rows && row.id == id && !IsAudience(row.audience)
  {
    if rows != [] {
      var front, last := rows[..|rows| - 1], rows[|rows| - 1];
      UnknownIdsMeaning(front);
      assert last in rows;
      assert forall row :: row in rows <==> row in front || row == last;
    }
  }

  ghost predicate AllKnown(rows: seq<PolicyRow>) {
    forall row :: row in rows ==> IsAudience(row.audience)
  }

  /** The second normalization refuses a table that holds an unknown
      audience, naming the rows, and otherwise reports what it rewrote. */
  method Normalize(table: array<PolicyRow>) returns (r: Result<seq<int>, seq<int>>)
    modifies table
    ensures r.Ok? <==> AllKnown(old(table[..]))
    ensures r.Ok? ==> forall k :: 0 <= k < table.Length ==> table[k] == NormalizeKnown(old(table[k]))
    ensures r.Ok? ==> r.value == ChangedIds(NormalizeKnown, old(table[..]))
    ensures r.Err? ==> table[..] == old(table[..]) && r.error == Sorted(UnknownIds(old(table[..])))
  {
    UnknownIdsMeaning(table[..]);
    var unknown := Sorted(UnknownIds(table[..]));
    SortedMeaning(UnknownIds(table[..]));
    assert |multiset(unknown)| == |multiset(UnknownIds(table[..]))|;
    if unknown != [] {
      return Err(unknown);
    }
    var rewritten := Rewrite(NormalizeKnown, table);
    return Ok(rewritten);
  }

  // ---------------------------------------------------------------------
  // The constraint those rows must meet
  // ---------------------------------------------------------------------

  function PairsOf(modes: seq<Option<Mode>>): (pairs: seq<Option<Pair>>)
    ensures |pairs| == |modes|
  {
    seq(|modes|, i requires 0 <= i < |modes| => if modes[i].None? then None else Some(PairOf(modes[i].value)))
  }

  function RuleFor(audience: string): Rule
    requires IsAudience(audience)
  {
    Rule(audience, PairsOf(Valid(audience, WhileOngoing)), PairsOf(Valid(audience, AfterRelease)))
  }

  const CELL_RULES: seq<Rule> := [RuleFor(PEER_REVIEWER), RuleFor(REVIEWEE), RuleFor(OBSERVER)]

  const CELL_CHECK: Expr := Check(CELL_RULES)

  ghost predicate Allowed(audience: string, window: Window, cell: Cell)
    requires IsAudience(audience)
  {
    exists target :: target in Valid(audience, window) && cell == CellFor(target)
  }

  lemma LegalIsAllowed(audience: string, window: Window, cell: Cell)
    requires IsAudience(audience)
    ensures NoBlank(PairsOf(Valid(audience, window)))
    ensures LegalCell(cell, PairsOf(Valid(audience, window))) <==> Allowed(audience, window, cell)
  {
    var modes := Valid(audience, window);
    var pairs := PairsOf(modes);
    forall i | 0 <= i < |modes| ensures Stores(cell, pairs[i]) <==> cell == CellFor(modes[i]) {
    }
    if LegalCell(cell, pairs) {
      var pair :| pair in pairs && Stores(cell, pair);
      var i :| 0 <= i < |pairs| && pairs[i] == pair;
      assert modes[i] in modes;
    }
    if Allowed(audience, window, cell) {
      var target :| target in modes && cell == CellFor(target);
      var i :| 0 <= i < |modes| && modes[i] == target;
      assert pairs[i] in pairs;
    }
  }

  /** The migration's own constraint, on a row with an audience: never
      unknown, and true exactly for a known audience with both cells
      allowed. */
  lemma CellCheckExact(row: PolicyRow)
    ensures Eval(CELL_CHECK, AsSql(row)) != Unknown
    ensures Eval(CELL_CHECK, AsSql(row)) == True <==>
            && IsAudience(row.audience)
            && Allowed(row.audience, WhileOngoing, row.ongoing)
            && Allowed(row.audience, AfterRelease, row.released)
  {
    var rules := [RuleFor(PEER_REVIEWER), RuleFor(REVIEWEE), RuleFor(OBSERVER)];
    forall a | a == PEER_REVIEWER || a == REVIEWEE || a == OBSERVER
      ensures NoBlank(RuleFor(a).ongoing) && NoBlank(RuleFor(a).released)
      ensures Legal(AsSql(row), RuleFor(a)) <==>
              Allowed(a, WhileOngoing, row.ongoing) && Allowed(a, AfterRelease, row.released)
    {
      LegalIsAllowed(a, WhileOngoing, row.ongoing);
      LegalIsAllowed(a, AfterRelease, row.released);
    }
    forall rule | rule in rules ensures IsAudience(rule.audience) && rule == RuleFor(rule.audience) {
    }
    assert forall rule :: rule in rules ==> !Leaks(rule);
    TruthfulExactly(rules);
    assert IsTruthful(rules, AsSql(row));
    if IsAudience(row.audience) {
      assert RuleFor(row.audience) in rules;
    }
  }

  lemma ModesAreFree(mode: Mode)
    ensures IsFree(Some(PairOf(mode)))
  {
    assert '\'' !in "row" && '\'' !in "aggregated" && '\'' !in "identified" && '\'' !in "deidentified";
  }

  lemma RuleIsFree(audience: string)
    requires IsAudience(audience)
    ensures IsQuoteFree(RuleFor(audience)) && IsFilled(RuleFor(audience))
  {
    hide PairOf, IsFree;
    assert '\'' !in PEER_REVIEWER && '\'' !in REVIEWEE && '\'' !in OBSERVER;
    OffIsFree();
    forall mode ensures IsFree(Some(PairOf(mode))) {
      ModesAreFree(mode);
    }
  }

  lemma OffIsFree()
    ensures IsFree(None)
  {
  }

  /** SQL reads the text the migration writes as that constraint. */
  lemma CellCheckText(row: Row)
    ensures ReadSql(CheckText(CELL_RULES)).Some?
    ensures Eval(ReadSql(CheckText(CELL_RULES)).value, row) == Eval(CELL_CHECK, row)
  {
    hide RuleFor, ReadSql, CheckText, Eval, Check, IsQuoteFree, IsFilled;
    RuleIsFree(PEER_REVIEWER);
    RuleIsFree(REVIEWEE);
    RuleIsFree(OBSERVER);
    TextMeansCheck(CELL_RULES);
  }
}
