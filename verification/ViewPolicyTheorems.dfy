/** The visibility migrations end inside the constraint and widen no grant. */
module ViewPolicyTheorems {
  import opened Wrappers
  import opened SqlCheck
  import opened SqlText
  import opened ViewPolicy

  // ---------------------------------------------------------------------
  // How much a cell grants
  // ---------------------------------------------------------------------

  /** Wider modes show more: off, summaries, anonymous rows, named rows. */
  function Rank(target: Option<Mode>): nat {
    match target
    case None => 0
    case Some(Summarized) => 1
    case Some(Anonymized) => 2
    case Some(Raw) => 3
  }

  /** A pair that is no mode grants nothing. */
  function Grant(cell: Cell): nat {
    if ModeOf(cell).Invalid? then 0 else Rank(TargetOf(ModeOf(cell)))
  }

  /** The reviewer's ongoing cell has one legal value, which no access check
      reads; it is excepted from "never wider". */
  predicate IsExcepted(audience: string, window: Window) {
    audience == PEER_REVIEWER && window.WhileOngoing?
  }

  /** `target` is the widest mode the cell may hold within `grant`. */
  ghost predicate IsNearest(audience: string, window: Window, target: Option<Mode>, grant: nat)
    requires IsAudience(audience)
  {
    && target in Valid(audience, window)
    && if IsExcepted(audience, window) then target == Some(Raw)
       else
         && Rank(target) <= grant
         && forall other :: other in Valid(audience, window) && Rank(other) <= grant ==> Rank(other) <= Rank(target)
  }

  lemma CellsDiffer()
    ensures forall a, b: Option<Mode> :: CellFor(a) == CellFor(b) ==> a == b
    ensures forall a: Option<Mode> :: !ModeOf(CellFor(a)).Invalid? && TargetOf(ModeOf(CellFor(a))) == a
  {
    forall a: Option<Mode> ensures !ModeOf(CellFor(a)).Invalid? && TargetOf(ModeOf(CellFor(a))) == a {
      var row, agg := "row", "aggregated";
      var named, anon := "identified", "deidentified";
      assert |row| != |agg| && |named| != |anon|;
    }
    forall a, b: Option<Mode> | CellFor(a) == CellFor(b) ensures a == b {
      assert TargetOf(ModeOf(CellFor(a))) == a && TargetOf(ModeOf(CellFor(b))) == b;
    }
  }

  /** Normalizing one cell gives the nearest legal mode, and a legal cell its
      own. */
  lemma NormalizedIsNearest(audience: string, window: Window, cell: Cell)
    requires IsAudience(audience)
    ensures IsNearest(audience, window, Normalized(audience, window, ModeOf(cell)), Grant(cell))
    ensures Allowed(audience, window, cell) ==> cell == CellFor(Normalized(audience, window, ModeOf(cell)))
  {
    CellsDiffer();
  }

  lemma NormalizedIsAllowed(audience: string, window: Window, cell: Cell)
    requires IsAudience(audience)
    ensures Allowed(audience, window, CellFor(Normalized(audience, window, ModeOf(cell))))
  {
    NormalizedIsNearest(audience, window, cell);
  }

  /** The rows a normalization leaves alone are exactly the rows the
      constraint accepts (and those of no known audience). */
  lemma FixedExactlyWhenLegal(row: PolicyRow)
    ensures NormalizeKnown(row) == row <==> !IsAudience(row.audience) || Eval(CELL_CHECK, AsSql(row)) == True
  {
    CellCheckExact(row);
    if IsAudience(row.audience) {
      NormalizedIsNearest(row.audience, WhileOngoing, row.ongoing);
      NormalizedIsNearest(row.audience, AfterRelease, row.released);
      NormalizedIsAllowed(row.audience, WhileOngoing, row.ongoing);
      NormalizedIsAllowed(row.audience, AfterRelease, row.released);
    }
  }

  lemma NormalizedIsLegal(row: PolicyRow)
    requires IsAudience(row.audience)
    ensures Eval(CELL_CHECK, AsSql(NormalizeKnown(row))) == True
  {
    CellCheckExact(NormalizeKnown(row));
    NormalizedIsAllowed(row.audience, WhileOngoing, row.ongoing);
    NormalizedIsAllowed(row.audience, AfterRelease, row.released);
  }

  /** Running a normalization again rewrites nothing. */
  lemma SecondNormalizationIsIdle(row: PolicyRow)
    ensures NormalizeKnown(NormalizeKnown(row)) == NormalizeKnown(row)
  {
    FixedExactlyWhenLegal(NormalizeKnown(row));
    if IsAudience(row.audience) {
      NormalizedIsLegal(row);
    }
  }

  lemma {:induction false} NothingChanged(f: PolicyRow -> PolicyRow, rows: seq<PolicyRow>)
    requires forall row :: row in rows ==> f(row) == row
    ensures ChangedIds(f, rows) == []
  {
    if rows != [] {
      var front, last := rows[..|rows| - 1], rows[|rows| - 1];
      assert last in rows;
      NothingChanged(f, front);
    }
  }

  /** Turning the reviewer's released summary off first changes nothing in
      the end: normalizing alone reaches the same row. */
  lemma SummaryOffIsAbsorbed(row: PolicyRow)
    ensures NormalizeKnown(SummaryOffRow(row)) == NormalizeKnown(row)
  {
    if row.audience == PEER_REVIEWER && row.released.granularity == Some("aggregated") {
      var off := SummaryOffRow(row);
      NormalizedIsNearest(PEER_REVIEWER, AfterRelease, row.released);
      NormalizedIsNearest(PEER_REVIEWER, AfterRelease, off.released);
      assert "aggregated"[0] != "row"[0];
      assert ModeOf(row.released) != On(Raw);
    }
  }

  // ---------------------------------------------------------------------
  // The chain, from the legacy quadruple to the constraint
  // ---------------------------------------------------------------------

  /** A legacy row's window value that names none of the windows: missing,
      empty, or the reserved `always`. */
  predicate LacksWindow(visibleWhen: Option<string>) {
    visibleWhen.None? || visibleWhen.value == "" || visibleWhen.value == "always"
  }

  /** Whether the migration takes a window value to reach a window; one that
      names none counts as throughout. */
  predicate Covers(visibleWhen: Option<string>, window: Window) {
    || LacksWindow(visibleWhen)
    || visibleWhen.value == "throughout"
    || visibleWhen.value == (if window.WhileOngoing? then "while_ongoing" else "after_release")
  }

  /** What the legacy quadruple grants in a window as the migration reads it. */
  function LegacyGrant(row: PolicyRow, window: Window): nat {
    if row.enabled && Covers(row.visibleWhen, window) then Grant(LegacyCell(row)) else 0
  }

  /** What the row's reader granted by it: a row that names no window was
      skipped. */
  function ReaderGrant(row: PolicyRow, window: Window): nat {
    if LacksWindow(row.visibleWhen) then 0 else LegacyGrant(row, window)
  }

  /** The row as the expand step finds it: the pair columns just added. */
  predicate IsFresh(row: PolicyRow) {
    row.ongoing == Cell(None, None) && row.released == Cell(None, None)
  }

  function Migrate(row: PolicyRow): PolicyRow {
    NormalizeKnown(NormalizeKnown(SummaryOffRow(ExpandRow(row))))
  }

  lemma ExpandGrants(row: PolicyRow, window: Window)
    requires IsFresh(row)
    ensures WindowOf(ExpandRow(row), window) ==
            if row.enabled && Covers(row.visibleWhen, window) then LegacyCell(row) else Cell(None, None)
    ensures Grant(WindowOf(ExpandRow(row), window)) == LegacyGrant(row, window)
  {
    var during, after, always, all := "while_ongoing", "after_release", "always", "throughout";
    assert during[0] == 'w' && after[1] == 'f' && always[1] == 'l' && all[0] == 't';
  }

  /** Every legacy row of a known audience lands inside the constraint, each
      window at the widest legal mode within its legacy grant. */
  lemma ChainLands(row: PolicyRow, window: Window)
    requires IsAudience(row.audience) && IsFresh(row)
    ensures Eval(CELL_CHECK, AsSql(Migrate(row))) == True
    ensures exists target ::
              && WindowOf(Migrate(row), window) == CellFor(target)
              && IsNearest(row.audience, window, target, LegacyGrant(row, window))
  {
    var expanded := ExpandRow(row);
    SummaryOffIsAbsorbed(expanded);
    SecondNormalizationIsIdle(SummaryOffRow(expanded));
    assert Migrate(row) == NormalizeKnown(expanded);
    NormalizedIsLegal(expanded);
    ExpandGrants(row, window);
    var cell := WindowOf(expanded, window);
    NormalizedIsNearest(row.audience, window, cell);
    var target := Normalized(row.audience, window, ModeOf(cell));
    assert WindowOf(Migrate(row), window) == CellFor(target);
  }

  // ---------------------------------------------------------------------
  // The six cells, column by column
  // ---------------------------------------------------------------------

  /** Both columns null. */
  predicate IsOff(cell: Cell) {
    cell.granularity.None? && cell.identification.None?
  }

  /** The two columns hold these texts. */
  predicate Reads(cell: Cell, granularity: string, identification: string) {
    cell.granularity == Some(granularity) && cell.identification == Some(identification)
  }

  /** Off, or one of the three pairs. */
  predicate IsOffOrAny(cell: Cell) {
    || IsOff(cell) || Reads(cell, "row", "identified") || Reads(cell, "row", "deidentified")
    || Reads(cell, "aggregated", "deidentified")
  }

  /** The rows the constraint is for: a reviewer reads named rows while the
      review runs, and named rows or nothing once it is released; a reviewee
      reads nothing while it runs; an observer nothing or summaries; and once
      it is released the last two read anything or nothing. */
  predicate MeetsTheRule(row: PolicyRow) {
    || (&& row.audience == "peer_reviewer"
        && Reads(row.ongoing, "row", "identified")
        && (IsOff(row.released) || Reads(row.released, "row", "identified")))
    || (row.audience == "reviewee" && IsOff(row.ongoing) && IsOffOrAny(row.released))
    || (&& row.audience == "observer"
        && (IsOff(row.ongoing) || Reads(row.ongoing, "aggregated", "deidentified"))
        && IsOffOrAny(row.released))
  }

  lemma ModeTexts(cell: Cell)
    ensures cell == CellFor(None) <==> IsOff(cell)
    ensures cell == CellFor(Some(Raw)) <==> Reads(cell, "row", "identified")
    ensures cell == CellFor(Some(Anonymized)) <==> Reads(cell, "row", "deidentified")
    ensures cell == CellFor(Some(Summarized)) <==> Reads(cell, "aggregated", "deidentified")
  {
  }

  lemma AudiencesDiffer()
    ensures PEER_REVIEWER != REVIEWEE && PEER_REVIEWER != OBSERVER && REVIEWEE != OBSERVER
    ensures PEER_REVIEWER == "peer_reviewer" && REVIEWEE == "reviewee" && OBSERVER == "observer"
  {
    assert PEER_REVIEWER[0] == 'p' && REVIEWEE[0] == 'r' && OBSERVER[0] == 'o';
  }

  lemma AllowedCells(audience: string, window: Window, cell: Cell)
    requires IsAudience(audience)
    ensures Allowed(audience, window, cell) <==>
            if window.AfterRelease? then
              if audience == PEER_REVIEWER then cell == CellFor(None) || cell == CellFor(Some(Raw))
              else || cell == CellFor(None) || cell == CellFor(Some(Raw))
                   || cell == CellFor(Some(Anonymized)) || cell == CellFor(Some(Summarized))
            else if audience == PEER_REVIEWER then cell == CellFor(Some(Raw))
            else if audience == REVIEWEE then cell == CellFor(None)
            else cell == CellFor(None) || cell == CellFor(Some(Summarized))
  {
    hide CellFor;
    AudiencesDiffer();
    var valid := Valid(audience, window);
    assert forall target :: target in valid ==> exists i :: 0 <= i < |valid| && valid[i] == target;
    assert forall i :: 0 <= i < |valid| ==> valid[i] in valid;
    assert valid[0] in valid;
  }

  /** The constraint, in the texts of the columns: SQL reads the migration's
      own text as true of exactly the rows that meet the rule. */
  lemma CellCheckColumns(row: PolicyRow)
    ensures Eval(CELL_CHECK, AsSql(row)) == True <==> MeetsTheRule(row)
    ensures ReadSql(CheckText(CELL_RULES)).Some?
    ensures Eval(ReadSql(CheckText(CELL_RULES)).value, AsSql(row)) == if MeetsTheRule(row) then True else False
  {
    hide Allowed, CellFor, Reads, IsOff, Eval, ReadSql, CheckText, CELL_CHECK, CELL_RULES;
    CellCheckExact(row);
    CellCheckText(AsSql(row));
    AudiencesDiffer();
    ModeTexts(row.ongoing);
    ModeTexts(row.released);
    if IsAudience(row.audience) {
      AllowedCells(row.audience, WhileOngoing, row.ongoing);
      AllowedCells(row.audience, AfterRelease, row.released);
    }
  }

  /** The legacy row grants the pair it holds in a window: it is enabled, and
      names the window, both, or none. */
  predicate GrantsIn(row: PolicyRow, window: Window) {
    && row.enabled
    && (|| row.visibleWhen in {None, Some(""), Some("always"), Some("throughout")}
        || row.visibleWhen == Some(if window.WhileOngoing? then "while_ongoing" else "after_release"))
  }

  /** Where the chain leaves each cell, in the texts of the columns. */
  predicate LandsAt(row: PolicyRow, ongoing: Cell, released: Cell) {
    var pair := Cell(row.granularity, row.identification);
    var given := if GrantsIn(row, AfterRelease) then pair else Cell(None, None);
    if row.audience == "peer_reviewer" then
      && Reads(ongoing, "row", "identified")
      && if Reads(given, "row", "identified") then released == given else IsOff(released)
    else
      && (if row.audience == "observer" && GrantsIn(row, WhileOngoing) && IsOffOrAny(pair) && !IsOff(pair)
          then Reads(ongoing, "aggregated", "deidentified") else IsOff(ongoing))
      && if IsOffOrAny(given) then released == given else IsOff(released)
  }

  lemma NormalizedCells(audience: string, cell: Cell)
    requires IsAudience(audience)
    ensures var target := CellFor(Normalized(audience, WhileOngoing, ModeOf(cell)));
            if audience == PEER_REVIEWER then Reads(target, "row", "identified")
            else if audience == OBSERVER && IsOffOrAny(cell) && !IsOff(cell) then
              Reads(target, "aggregated", "deidentified")
            else IsOff(target)
    ensures var target := CellFor(Normalized(audience, AfterRelease, ModeOf(cell)));
            if audience == PEER_REVIEWER then
              (if Reads(cell, "row", "identified") then target == cell else IsOff(target))
            else if IsOffOrAny(cell) then target == cell
            else IsOff(target)
  {
    AudiencesDiffer();
    ModeTexts(cell);
    CellsDiffer();
    ModeTexts(CellFor(Normalized(audience, WhileOngoing, ModeOf(cell))));
    ModeTexts(CellFor(Normalized(audience, AfterRelease, ModeOf(cell))));
    hide PairOf, CellFor, Reads;
    assert None in [None, Some(Raw)] && Some(Raw) in [None, Some(Raw)];
    assert Raw != Anonymized && Raw != Summarized;
  }

  /** The chain, in columns: every row of a known audience lands there, so a
      reviewee row always ends with both ongoing columns null. */
  lemma MigratedColumns(row: PolicyRow)
    requires IsAudience(row.audience) && IsFresh(row)
    ensures LandsAt(row, Migrate(row).ongoing, Migrate(row).released)
    ensures row.audience == "reviewee" ==> IsOff(Migrate(row).ongoing)
    ensures MeetsTheRule(Migrate(row))
    ensures Migrate(row).(ongoing := row.ongoing, released := row.released) == row
  {
    hide Normalized, ModeOf, CellFor, Reads, IsOff, IsOffOrAny, CELL_CHECK, Eval;
    var expanded := ExpandRow(row);
    SummaryOffIsAbsorbed(expanded);
    SecondNormalizationIsIdle(SummaryOffRow(expanded));
    assert Migrate(row) == NormalizeKnown(expanded);
    AudiencesDiffer();
    ExpandedColumns(row);
    NormalizedCells(row.audience, expanded.ongoing);
    NormalizedCells(row.audience, expanded.released);
    NormalizedIsLegal(expanded);
    CellCheckColumns(NormalizeKnown(expanded));
    OffIsOff();
  }

  lemma OffIsOff()
    ensures IsOff(Cell(None, None)) && IsOffOrAny(Cell(None, None))
  {
  }

  lemma ExpandedColumns(row: PolicyRow)
    requires IsFresh(row)
    ensures var expanded := ExpandRow(row);
            && expanded.(ongoing := row.ongoing, released := row.released) == row
            && expanded.ongoing ==
               (if GrantsIn(row, WhileOngoing) then Cell(row.granularity, row.identification) else Cell(None, None))
            && expanded.released ==
               (if GrantsIn(row, AfterRelease) then Cell(row.granularity, row.identification) else Cell(None, None))
  {
    ExpandGrants(row, WhileOngoing);
    ExpandGrants(row, AfterRelease);
  }

  /** The cell may hold some mode other than off within the legacy pair. */
  ghost predicate HasRoom(row: PolicyRow, window: Window)
    requires IsAudience(row.audience)
  {
    exists target :: target in Valid(row.audience, window) && 0 < Rank(target) <= Grant(LegacyCell(row))
  }

  /** Against what its reader granted, the chain widens a cell (the reviewer's
      ongoing one aside) if and only if the row is enabled, names no window,
      and the cell may hold some mode within its pair. */
  lemma WidenedExactly(row: PolicyRow, window: Window)
    requires IsAudience(row.audience) && IsFresh(row) && !IsExcepted(row.audience, window)
    ensures Grant(WindowOf(Migrate(row), window)) > ReaderGrant(row, window) <==>
            row.enabled && LacksWindow(row.visibleWhen) && HasRoom(row, window)
  {
    hide Migrate, WindowOf, ModeOf, CellFor, Valid, Covers;
    ChainLands(row, window);
    CellsDiffer();
    var target :|
      && WindowOf(Migrate(row), window) == CellFor(target)
      && IsNearest(row.audience, window, target, LegacyGrant(row, window));
    assert Grant(WindowOf(Migrate(row), window)) == Rank(target) <= LegacyGrant(row, window);
    UnnamedCoversAll(row.visibleWhen, window);
  }

  lemma UnnamedCoversAll(visibleWhen: Option<string>, window: Window)
    ensures LacksWindow(visibleWhen) ==> Covers(visibleWhen, window)
  {
  }

  /** An enabled reviewee row of named rows with no window showed that reader
      nothing, and shows named rows after release once it is migrated. */
  lemma UnnamedWindowIsWidened()
    ensures var off := Cell(None, None);
            var row := PolicyRow(1, REVIEWEE, true, Some("row"), Some("identified"), None, off, off);
            && ReaderGrant(row, AfterRelease) == 0
            && WindowOf(Migrate(row), AfterRelease) == CellFor(Some(Raw))
  {
    var off := Cell(None, None);
    var row := PolicyRow(1, REVIEWEE, true, Some("row"), Some("identified"), None, off, off);
    assert IsAudience(REVIEWEE);
    hide Migrate, WindowOf;
    CellsDiffer();
    ChainLands(row, AfterRelease);
    var target :|
      && WindowOf(Migrate(row), AfterRelease) == CellFor(target)
      && IsNearest(REVIEWEE, AfterRelease, target, LegacyGrant(row, AfterRelease));
    assert LegacyCell(row) == CellFor(Some(Raw));
    NotTheReviewer();
    assert Some(Raw) in Valid(REVIEWEE, AfterRelease);
  }

  lemma NotTheReviewer()
    ensures REVIEWEE != PEER_REVIEWER
  {
    assert REVIEWEE[0] == 'r' && PEER_REVIEWER[0] == 'p';
  }

  /** The chain over a whole table: it is refused exactly for an unknown
      audience, and otherwise the second normalization reports no row and
      every row satisfies the constraint. */
  method Upgrade(table: array<PolicyRow>) returns (r: Result<seq<int>, seq<int>>)
    modifies table
    ensures r.Ok? <==> AllKnown(old(table[..]))
    ensures r.Ok? ==> r.value == []
    ensures r.Ok? ==> forall k :: 0 <= k < table.Length ==>
              table[k] == Migrate(old(table[k])) && Eval(CELL_CHECK, AsSql(table[k])) == True
  {
    ghost var was := table[..];
    Expand(table);
    SummaryOff(table);
    NormalizeFirst(table);
    ghost var mid := table[..];
    assert forall k :: 0 <= k < |was| ==> mid[k] == NormalizeKnown(SummaryOffRow(ExpandRow(was[k])));
    AudiencesKept(was, mid);
    forall row | row in mid ensures NormalizeKnown(row) == row {
      var k :| 0 <= k < |mid| && mid[k] == row;
      SecondNormalizationIsIdle(SummaryOffRow(ExpandRow(was[k])));
    }
    NothingChanged(NormalizeKnown, mid);
    r := Normalize(table);
    if r.Ok? {
      forall k | 0 <= k < table.Length ensures Eval(CELL_CHECK, AsSql(table[k])) == True {
        assert mid[k] in mid;
        NormalizedIsLegal(mid[k]);
      }
    }
  }

  lemma AudiencesKept(was: seq<PolicyRow>, now: seq<PolicyRow>)
    requires |was| == |now|
    requires forall k :: 0 <= k < |was| ==> now[k] == NormalizeKnown(SummaryOffRow(ExpandRow(was[k])))
    ensures AllKnown(now) <==> AllKnown(was)
  {
    assert forall k :: 0 <= k < |was| ==> now[k].audience == was[k].audience;
    assert forall k :: 0 <= k < |was| ==> now[k] in now && was[k] in was;
  }

  // ---------------------------------------------------------------------
  // The contract step's downgrade, a partial inverse
  // ---------------------------------------------------------------------

  /** The re-added legacy columns hold `row`, `identified` and not enabled
      until the backfill; they do not accept NULL. */
  function DowngradeRow(row: PolicyRow): Option<PolicyRow> {
    var whileOn := row.ongoing.granularity.Some?;
    var afterOn := row.released.granularity.Some?;
    if !whileOn && !afterOn then
      Some(row.(enabled := false, granularity := Some("row"), identification := Some("identified"),
      visibleWhen := None))
    else
      var source := if whileOn then row.ongoing else row.released;
      var when := if whileOn && afterOn then "throughout" else if whileOn then "while_ongoing" else "after_release";
      if source.identification.None? then None
      else
        Some(row.(enabled := true, granularity := source.granularity, identification := source.identification,
        visibleWhen := Some(when)))
  }

  /** The legacy columns just re-added. */
  predicate HasDefaults(row: PolicyRow) {
    !row.enabled && row.granularity == Some("row") && row.identification == Some("identified") && row.visibleWhen.None?
  }

  /** The pair the backfill takes, the ongoing one if it has a granularity and
      else the released one, has a granularity and no identification. */
  predicate LacksIdentification(row: PolicyRow) {
    || (row.ongoing.granularity.Some? && row.ongoing.identification.None?)
    || (row.ongoing.granularity.None? && row.released.granularity.Some? && row.released.identification.None?)
  }

  lemma DowngradeRefused(row: PolicyRow)
    ensures DowngradeRow(row).None? <==> LacksIdentification(row)
  {
  }

  /** The backfill over the table. The identification column takes no null,
      so it stops on a row that lacks one, and the database undoes the step. */
  method Downgrade(table: array<PolicyRow>) returns (raised: bool)
    requires forall k :: 0 <= k < table.Length ==> HasDefaults(table[k])
    modifies table
    ensures raised <==> exists k :: 0 <= k < table.Length && LacksIdentification(old(table[k]))
    ensures !raised ==> forall k :: 0 <= k < table.Length ==> Some(table[k]) == DowngradeRow(old(table[k]))
  {
    for k := 0 to table.Length
      invariant forall j :: 0 <= j < k ==> !LacksIdentification(old(table[j]))
      invariant forall j :: 0 <= j < k ==> Some(table[j]) == DowngradeRow(old(table[j]))
      invariant forall j :: k <= j < table.Length ==> table[j] == old(table[j])
    {
      var row := table[k];
      var whileOn := row.ongoing.granularity.Some?;
      var afterOn := row.released.granularity.Some?;
      if !whileOn && !afterOn {
        continue;
      }
      var granularity, identification := row.released.granularity, row.released.identification;
      if whileOn {
        granularity, identification := row.ongoing.granularity, row.ongoing.identification;
      }
      var visibleWhen := "after_release";
      if whileOn && afterOn {
        visibleWhen := "throughout";
      } else if whileOn {
        visibleWhen := "while_ongoing";
      }
      if identification.None? {
        return true;
      }
      table[k] := row.(enabled := true, granularity := granularity, identification := identification,
      visibleWhen := Some(visibleWhen));
    }
    return false;
  }

  /** The row after the downgrade and a fresh expand. */
  function Rebuilt(row: PolicyRow): Option<PolicyRow> {
    match DowngradeRow(row)
    case None => None
    case Some(legacy) => Some(ExpandRow(legacy.(ongoing := Cell(None, None), released := Cell(None, None))))
  }

  predicate IsWhole(cell: Cell) {
    cell.granularity.Some? <==> cell.identification.Some?
  }

  /** Downgrading and upgrading again gives back both windows exactly when
      neither pair is half-set and two windows that are both on agree. */
  lemma DowngradeInverts(row: PolicyRow)
    ensures (&& Rebuilt(row).Some?
             && Rebuilt(row).value.ongoing == row.ongoing && Rebuilt(row).value.released == row.released)
            <==>
            && IsWhole(row.ongoing) && IsWhole(row.released)
            && (row.ongoing != Cell(None, None) && row.released != Cell(None, None) ==> row.ongoing == row.released)
  {
    var during, after, always, all := "while_ongoing", "after_release", "always", "throughout";
    assert during[0] == 'w' && after[1] == 'f' && always[1] == 'l' && all[0] == 't';
  }

  /** A half-set released pair stops the downgrade when the ongoing window is
      off, and is passed over when the ongoing pair is whole. */
  lemma HalfSetPair(row: PolicyRow)
    requires row.released == Cell(Some("row"), None)
    ensures row.ongoing == Cell(None, None) ==> DowngradeRow(row).None?
    ensures row.ongoing == CellFor(Some(Raw)) ==> DowngradeRow(row).Some?
  {
    DowngradeRefused(row);
  }

  /** A legal observer row whose windows differ comes back with its
      ongoing pair in both. */
  lemma WindowsThatDiffer(row: PolicyRow)
    requires row.audience == OBSERVER
    requires row.ongoing == CellFor(Some(Summarized)) && row.released == CellFor(Some(Raw))
    ensures Eval(CELL_CHECK, AsSql(row)) == True
    ensures Rebuilt(row).Some? && Rebuilt(row).value.released == CellFor(Some(Summarized)) != row.released
  {
    CellCheckExact(row);
    CellsDiffer();
    assert Summarized != Raw;
    assert Some(Summarized) in Valid(OBSERVER, WhileOngoing) && Some(Raw) in Valid(OBSERVER, AfterRelease);
    var during, all := "while_ongoing", "throughout";
    assert during[0] == 'w' && all[0] == 't';
  }
}
