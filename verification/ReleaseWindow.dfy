/** The release-window migration `f4a92b3c6d18`: a stored offset becomes a
    closing instant, and back. Instants are microseconds from
    0001-01-01T00:00. */
module ReleaseWindow {
  import opened Wrappers
  import opened DateTimeBox
  import opened IsoDuration
  import opened Text

  const SECOND := 1_000_000

  /** A session's release columns; `offset` exists before the upgrade and
      `until` after it. */
  datatype SessionRow = SessionRow(id: int, at: Option<int>, offset: Option<string>, until: Option<int>)

  /** A row whose instants a `datetime` can hold. */
  predicate IsStored(row: SessionRow) {
    && (row.at.Some? ==> InRange(row.at.value))
    && (row.until.Some? ==> InRange(row.until.value))
  }

  // ---------------------------------------------------------------------
  // Upgrade
  // ---------------------------------------------------------------------

  /** What the upgrade does to one row: an unreadable offset is skipped, and
      an overflow, which is no `ValueError`, is not caught. */
  function UpgradeRow(row: SessionRow): Option<SessionRow> {
    if row.at.None? || row.offset.None? then Some(row.(offset := None, until := None))
    else
      match Parse(row.offset.value)
      case Ok(seconds) =>
        var until := row.at.value + seconds * SECOND;
        if InRange(until) then Some(row.(offset := None, until := Some(until))) else None
      case Err(Overflow) => None
      case Err(_) => Some(row.(offset := None, until := None))
  }

  /** The offset says a closing instant no `datetime` can hold. */
  ghost predicate LeavesCalendar(row: SessionRow) {
    row.at.Some? && row.offset.Some? &&
    exists seconds :: Says(row.offset.value, seconds) && !InRange(row.at.value + seconds * 1_000_000)
  }

  /** A duration no `timedelta` holds is longer than the calendar. */
  lemma PastTimedeltaPastCalendar(at: int, seconds: int)
    requires InRange(at) && !(-MAX_DAYS * DAY_SECONDS <= seconds < (MAX_DAYS + 1) * DAY_SECONDS)
    ensures !InRange(at + seconds * SECOND)
  {
  }

  /** A row overflows exactly when its offset leads out of the calendar. */
  lemma UpgradeOverflows(row: SessionRow)
    requires IsStored(row)
    ensures UpgradeRow(row).None? <==> LeavesCalendar(row)
  {
    hide Parse, Says, InRange;
    if row.at.Some? && row.offset.Some? {
      var text, at := row.offset.value, row.at.value;
      if Parse(text).Ok? {
        ParseExact(text, Parse(text).value);
      }
      forall n | Says(text, n) && !InRange(at + n * SECOND)
        ensures UpgradeRow(row).None?
      {
        ParseExact(text, n);
      }
      if Parse(text) == Err(Overflow) {
        ParseExact(text, 0);
        var n :| Says(text, n) && !(-MAX_DAYS * DAY_SECONDS <= n < (MAX_DAYS + 1) * DAY_SECONDS);
        PastTimedeltaPastCalendar(at, n);
      }
    }
  }

  /** The closing instant a row gets is the one its offset says, whatever its
      sign; it gets none when it has no start or its offset says nothing. */
  lemma UpgradeExactly(row: SessionRow, seconds: int)
    requires IsStored(row) && !LeavesCalendar(row)
    ensures UpgradeRow(row).Some?
    ensures var after := UpgradeRow(row).value; after == SessionRow(row.id, row.at, None, after.until)
    ensures row.at.Some? && row.offset.Some? && Says(row.offset.value, seconds) ==>
              UpgradeRow(row).value.until == Some(row.at.value + 1_000_000 * seconds)
    ensures row.at.None? || row.offset.None? || (forall n :: !Says(row.offset.value, n)) ==>
              UpgradeRow(row).value.until == None
  {
    hide Parse, Says, LeavesCalendar, InRange;
    UpgradeOverflows(row);
    if row.at.Some? && row.offset.Some? {
      ReadsAsSaid(row, seconds);
      if Parse(row.offset.value).Ok? {
        ReadsAsSaid(row, Parse(row.offset.value).value);
      }
    }
  }

  lemma ReadsAsSaid(row: SessionRow, seconds: int)
    requires IsStored(row) && row.at.Some? && row.offset.Some? && !LeavesCalendar(row)
    ensures Says(row.offset.value, seconds) <==> Parse(row.offset.value) == Ok(seconds)
  {
    hide Parse, Says;
    ParseExact(row.offset.value, seconds);
  }

  /** The upgrade's loop over the table, with the old column dropped at the
      end; an overflow stops it. */
  method Upgrade(table: array<SessionRow>) returns (raised: bool)
    requires forall k :: 0 <= k < table.Length ==> IsStored(table[k])
    modifies table
    ensures raised <==> exists k :: 0 <= k < table.Length && LeavesCalendar(old(table[k]))
    ensures !raised ==> forall k :: 0 <= k < table.Length ==> Some(table[k]) == UpgradeRow(old(table[k]))
  {
    hide Parse, LeavesCalendar;
    for k := 0 to table.Length
      invariant forall j :: 0 <= j < k ==> !LeavesCalendar(old(table[j]))
      invariant forall j :: 0 <= j < k ==> Some(table[j]) == UpgradeRow(old(table[j]))
      invariant forall j :: k <= j < table.Length ==> table[j] == old(table[j])
    {
      var row := table[k];
      UpgradeOverflows(row);
      var until: Option<int> := None;
      if row.at.Some? && row.offset.Some? {
        var delta := Parse(row.offset.value);
        if delta.Ok? {
          if !InRange(row.at.value + delta.value * SECOND) {
            return true;
          }
          until := Some(row.at.value + delta.value * SECOND);
        } else if delta.error.Overflow? {
          return true;
        }
      }
      table[k] := row.(offset := None, until := until);
    }
    return false;
  }

  // ---------------------------------------------------------------------
  // Downgrade
  // ---------------------------------------------------------------------

  /** `int(delta.total_seconds())`: toward zero. */
  function WholeSeconds(micros: int): int {
    if micros >= 0 then micros / SECOND else -((-micros) / SECOND)
  }

  /** The window lasts a whole second or more. */
  predicate IsOpen(row: SessionRow) {
    row.at.Some? && row.until.Some? && row.until.value - row.at.value >= 1_000_000
  }

  /** How long, in whole seconds. */
  function Length(row: SessionRow): (seconds: nat)
    requires IsOpen(row)
    ensures seconds > 0
  {
    (row.until.value - row.at.value) / SECOND
  }

  /** The window's duration takes more than the column holds. */
  predicate Outgrows(row: SessionRow) {
    IsOpen(row) && !Fits(Length(row))
  }

  /** What the downgrade does to one row: the database refuses an offset
      longer than its column. */
  function DowngradeRow(row: SessionRow): Option<SessionRow> {
    if !IsOpen(row) then Some(row.(offset := None, until := None))
    else if |Encode(Length(row))| > COLUMN_WIDTH then None
    else Some(row.(offset := Some(Encode(Length(row))), until := None))
  }

  lemma Truncates(micros: int)
    ensures WholeSeconds(micros) > 0 <==> micros >= SECOND
    ensures micros >= 0 ==> WholeSeconds(micros) == micros / SECOND
    ensures micros >= 0 ==> WholeSeconds(micros) * SECOND == micros - micros % SECOND
    ensures micros >= 0 ==> 0 <= micros % SECOND <= micros
  {
  }

  lemma DowngradeRefused(row: SessionRow)
    ensures DowngradeRow(row).None? <==> Outgrows(row)
  {
    hide Encode, Fits;
    if IsOpen(row) {
      EncodeFitsExactly(Length(row));
    }
  }

  /** The downgrade's loop: it is refused exactly when some window's duration
      outgrows the column, and the database then undoes the step. */
  method Downgrade(table: array<SessionRow>) returns (raised: bool)
    modifies table
    ensures raised <==> exists k :: 0 <= k < table.Length && Outgrows(old(table[k]))
    ensures !raised ==> forall k :: 0 <= k < table.Length ==> Some(table[k]) == DowngradeRow(old(table[k]))
  {
    hide Encode, Outgrows, WholeSeconds, Length;
    for k := 0 to table.Length
      invariant forall j :: 0 <= j < k ==> !Outgrows(old(table[j]))
      invariant forall j :: 0 <= j < k ==> Some(table[j]) == DowngradeRow(old(table[j]))
      invariant forall j :: k <= j < table.Length ==> table[j] == old(table[j])
    {
      var row := table[k];
      DowngradeRefused(row);
      var offset: Option<string> := None;
      if row.at.Some? && row.until.Some? {
        LengthInSeconds(row);
        var total := WholeSeconds(row.until.value - row.at.value);
        if total > 0 {
          var text := EncodeSeconds(total);
          if |text| > COLUMN_WIDTH {
            return true;
          }
          offset := Some(text);
        }
      }
      table[k] := row.(offset := offset, until := None);
    }
    return false;
  }

  lemma LengthInSeconds(row: SessionRow)
    requires row.at.Some? && row.until.Some?
    ensures var total := WholeSeconds(row.until.value - row.at.value);
            (total > 0 <==> IsOpen(row)) && (IsOpen(row) ==> total == Length(row))
  {
    Truncates(row.until.value - row.at.value);
  }

  // ---------------------------------------------------------------------
  // There and back
  // ---------------------------------------------------------------------

  /** An offset of a positive number of whole seconds is read back to the
      closing instant it was made from. */
  lemma OffsetReadsBack(row: SessionRow, total: int)
    requires IsStored(row) && row.at.Some? && total > 0 && InRange(row.at.value + total * SECOND)
    requires row.offset == Some(Encode(total))
    ensures UpgradeRow(row) == Some(row.(offset := None, until := Some(row.at.value + total * SECOND)))
  {
    hide Parse, Encode;
    EncodeParsesBack(total);
    WithinTimedelta(row.at.value, total);
  }

  lemma WithinTimedelta(at: int, total: int)
    requires InRange(at) && total > 0 && InRange(at + total * SECOND)
    ensures total < (MAX_DAYS + 1) * DAY_SECONDS
  {
    assert total * SECOND < RANGE;
  }

  /** Downgrading is refused exactly when the window outgrows the column.
      When it is not, upgrading again never raises; and the two together give
      a session its closing instant back exactly when it had none, or the
      window is open for a positive whole number of seconds whose text fits. */
  lemma WindowSurvives(row: SessionRow)
    requires IsStored(row)
    ensures DowngradeRow(row).None? <==> Outgrows(row)
    ensures DowngradeRow(row).Some? ==> UpgradeRow(DowngradeRow(row).value).Some?
    ensures DowngradeRow(row).Some? && UpgradeRow(DowngradeRow(row).value).value.until == row.until <==>
            || row.until.None?
            || (IsOpen(row) && (row.until.value - row.at.value) % 1_000_000 == 0 && Fits(Length(row)))
  {
    hide Parse, Encode, Fits;
    DowngradeRefused(row);
    if IsOpen(row) && Fits(Length(row)) {
      var micros := row.until.value - row.at.value;
      assert micros == Length(row) * SECOND + micros % SECOND;
      OffsetReadsBack(DowngradeRow(row).value, Length(row));
    }
  }

  /** Upgrade, downgrade, upgrade: of the stored positive offsets, exactly
      those keep their instant whose duration, written anew, fits the column;
      the others stop the downgrade. */
  lemma UpgradedWindowSurvives(row: SessionRow, seconds: int)
    requires IsStored(row) && row.at.Some? && row.offset.Some?
    requires Says(row.offset.value, seconds) && seconds > 0 && InRange(row.at.value + seconds * SECOND)
    ensures UpgradeRow(row).Some?
    ensures var up := UpgradeRow(row).value;
            && up.until == Some(row.at.value + seconds * 1_000_000)
            && (DowngradeRow(up).Some? <==> Fits(seconds))
            && (Fits(seconds) ==> UpgradeRow(DowngradeRow(up).value) == Some(up))
  {
    hide Parse, Encode, Fits, Says;
    ParseExact(row.offset.value, seconds);
    WithinTimedelta(row.at.value, seconds);
    var up := UpgradeRow(row).value;
    assert up.until == Some(row.at.value + seconds * SECOND);
    WholeWindow(up, seconds);
    WindowSurvives(up);
    if DowngradeRow(up).Some? {
      assert UpgradeRow(DowngradeRow(up).value).value.id == up.id;
    }
  }

  lemma WholeWindow(row: SessionRow, seconds: int)
    requires row.at.Some? && seconds > 0 && row.until == Some(row.at.value + seconds * SECOND)
    ensures IsOpen(row) && Length(row) == seconds && (row.until.value - row.at.value) % SECOND == 0
  {
  }

  /** A window of half a second is not given back. */
  lemma HalfSecondIsLost()
    ensures var row := SessionRow(1, Some(0), None, Some(500_000));
            && IsStored(row)
            && DowngradeRow(row).Some? && UpgradeRow(DowngradeRow(row).value).value.until == None
  {
  }

  /** A stored offset that fits its column can name a duration that, written
      in days and hours, does not: the downgrade stops on it. */
  lemma StoredOffsetOutgrows()
    ensures var row := SessionRow(1, Some(0), Some("PT" + Decimal(99_999_999_999) + "S"), None);
            && |row.offset.value| == 14
            && UpgradeRow(row) == Some(SessionRow(1, Some(0), None, Some(99_999_999_999_000_000)))
            && DowngradeRow(UpgradeRow(row).value) == None
  {
    hide Parse, Encode, Says;
    var n := 99_999_999_999;
    var text := "PT" + Decimal(n) + "S";
    DigitsOfNines();
    DecimalWidth(n);
    SaysSeconds(n);
    ParseExact(text, n);
    var row := SessionRow(1, Some(0), Some(text), None);
    UpgradedWindowSurvives(row, n);
    NinesOutgrow();
  }

  lemma SaysSeconds(n: nat)
    ensures Says("PT" + Decimal(n) + "S", n)
  {
    hide Decimal;
    var text := "PT" + Decimal(n) + "S";
    var p := Parts(false, None, None, None, Some(Clock(None, None, Some(Decimal(n)))));
    ValueOfDecimal(n);
    StripsToItself(text);
    assert IsoDuration.ClockText(p.time.value) == Decimal(n) + "S";
    assert PartsText(p) == text;
    assert ComesTo(p, n);
  }

  lemma DigitsOfNines()
    ensures Digits(99_999_999_999) == 11
  {
    assert Digits(99) == 2 && Digits(9_999) == 4 && Digits(999_999) == 6;
    assert Digits(99_999_999) == 8;
    assert Digits(9_999_999_999) == 10;
  }

  lemma NinesOutgrow()
    ensures !Fits(99_999_999_999)
  {
    assert 99_999_999_999 / DAY_SECONDS == 1_157_407 && 99_999_999_999 % DAY_SECONDS == 35_199;
    assert 35_199 / 3600 == 9 && 35_199 % 3600 / 60 == 46 && 35_199 % 60 == 39;
    assert Digits(1) == 1 && Digits(115) == 3 && Digits(11_574) == 5 && Digits(1_157_407) == 7;
    assert Digits(9) == 1 && Digits(46) == 2 && Digits(39) == 2;
  }
}
