/** Field keys in `c3a7e9d8b154`: the slug of a label, the search for a free
    key, and the loop that gives each unmatched entry a row. */
module FieldKeys {
  import opened Wrappers
  import opened JsonValues
  import opened Sets
  import opened Text

  // ---------------------------------------------------------------------
  // Slugs
  // ---------------------------------------------------------------------

  const KEY_LENGTH := 64

  predicate IsLetter(c: char) {
    'a' <= c <= 'z'
  }

  predicate IsKeyChar(c: char) {
    IsLetter(c) || IsDigit(c) || c == '_'
  }

  predicate AllKeyChars(s: string) {
    forall i :: 0 <= i < |s| ==> IsKeyChar(s[i])
  }

  /** `[^a-z0-9_]+` replaced by one underscore. */
  function Replaced(s: string, inRun: bool): (r: string)
    ensures AllKeyChars(r)
  {
    if s == "" then ""
    else if IsKeyChar(s[0]) then [s[0]] + Replaced(s[1..], false)
    else (if inRun then "" else "_") + Replaced(s[1..], true)
  }

  function StripUnderscoresLeft(s: string): (r: string)
    requires AllKeyChars(s)
    ensures AllKeyChars(r) && (r != "" ==> r[0] != '_')
  {
    if s != "" && s[0] == '_' then StripUnderscoresLeft(s[1..]) else s
  }

  function StripUnderscoresRight(s: string): (r: string)
    requires AllKeyChars(s)
    ensures AllKeyChars(r) && r <= s && (r != "" ==> r[|r| - 1] != '_')
  {
    if s != "" && s[|s| - 1] == '_' then StripUnderscoresRight(s[..|s| - 1]) else s
  }

  /** `_slugify_field_key`, for any lower-casing of the label. */
  function Slug(lower: string -> string, caption: string): string {
    var stripped := StripUnderscoresRight(StripUnderscoresLeft(Replaced(lower(caption), false)));
    var base := if stripped == "" then "field" else stripped;
    var lettered := if IsLetter(base[0]) then base else "f_" + base;
    if |lettered| > KEY_LENGTH then lettered[..KEY_LENGTH] else lettered
  }

  /** Every slug is `[a-z][a-z0-9_]*`, of at most 64 characters. */
  lemma SlugShape(lower: string -> string, caption: string)
    ensures var slug := Slug(lower, caption);
            1 <= |slug| <= 64 && IsLetter(slug[0]) && AllKeyChars(slug)
  {
    var stripped := StripUnderscoresRight(StripUnderscoresLeft(Replaced(lower(caption), false)));
    var base := if stripped == "" then "field" else stripped;
    assert AllKeyChars("field") && AllKeyChars("f_");
    assert AllKeyChars("f_" + base);
  }

  /** Key characters stay, and each run of others becomes one underscore. */
  lemma {:induction false} RunBecomesUnderscore(kept: string, run: string, rest: string)
    requires AllKeyChars(kept) && run != "" && forall i :: 0 <= i < |run| ==> !IsKeyChar(run[i])
    requires rest != "" ==> IsKeyChar(rest[0])
    ensures Replaced(kept + run + rest, false) == kept + "_" + Replaced(rest, false)
  {
    if kept == "" {
      var s := kept + run + rest;
      assert s[0] == run[0] && s[1..] == run[1..] + rest;
      RunIsSkipped(run[1..], rest);
    } else {
      assert (kept + run + rest)[1..] == kept[1..] + run + rest;
      RunBecomesUnderscore(kept[1..], run, rest);
    }
  }

  lemma {:induction false} RunIsSkipped(run: string, rest: string)
    requires forall i :: 0 <= i < |run| ==> !IsKeyChar(run[i])
    requires rest != "" ==> IsKeyChar(rest[0])
    ensures Replaced(run + rest, true) == Replaced(rest, false)
  {
    if run == "" {
      assert run + rest == rest;
    } else {
      assert (run + rest)[1..] == run[1..] + rest;
      RunIsSkipped(run[1..], rest);
    }
  }

  predicate IsUnderscores(s: string) {
    forall i :: 0 <= i < |s| ==> s[i] == '_'
  }

  /** The slug is what stands between the underscores at either end, or
      `field` where nothing does; `f_` goes before anything but a letter, and
      64 characters are kept. */
  lemma SlugIsCore(lower: string -> string, caption: string, before: string, core: string, after: string)
    requires Replaced(lower(caption), false) == before + core + after
    requires IsUnderscores(before) && IsUnderscores(after)
    requires core != "" ==> core[0] != '_' && core[|core| - 1] != '_'
    ensures core == "" ==> Slug(lower, caption) == "field"
    ensures core != "" ==>
              var whole := if 'a' <= core[0] <= 'z' then core else "f_" + core;
              Slug(lower, caption) == if |whole| <= 64 then whole else whole[..64]
  {
    hide Replaced, IsKeyChar;
    assert before + core + after == before + (core + after);
    KeyCharParts(before, core + after);
    KeyCharParts(core, after);
    var left := StripUnderscoresLeft(before + core + after);
    StripsLeft(before, core + after);
    if core == "" {
      assert core + after == after + "";
      StripsLeft(after, "");
      assert left == "";
    } else {
      assert left == core + after;
      StripsRight(core, after);
    }
  }

  lemma KeyCharParts(a: string, b: string)
    requires AllKeyChars(a + b)
    ensures AllKeyChars(a) && AllKeyChars(b)
  {
    assert forall i :: 0 <= i < |b| ==> (a + b)[|a| + i] == b[i];
    assert forall i :: 0 <= i < |a| ==> (a + b)[i] == a[i];
  }

  lemma {:induction false} StripsLeft(before: string, rest: string)
    requires IsUnderscores(before) && AllKeyChars(before + rest) && AllKeyChars(rest)
    ensures StripUnderscoresLeft(before + rest) == StripUnderscoresLeft(rest)
  {
    if before == "" {
      assert before + rest == rest;
    } else {
      assert (before + rest)[1..] == before[1..] + rest;
      StripsLeft(before[1..], rest);
    }
  }

  lemma {:induction false} StripsRight(core: string, after: string)
    requires IsUnderscores(after) && AllKeyChars(core + after) && AllKeyChars(core)
    requires core != "" && core[|core| - 1] != '_'
    ensures StripUnderscoresRight(core + after) == core
  {
    if after == "" {
      assert core + after == core;
    } else {
      var s := core + after;
      assert s[..|s| - 1] == core + after[..|after| - 1];
      StripsRight(core, after[..|after| - 1]);
    }
  }

  // ---------------------------------------------------------------------
  // A free key
  // ---------------------------------------------------------------------

  /** The candidates in the order they are tried: the base, then the base
      with 2, 3 and so on after it. */
  function Candidate(base: string, n: nat): string
    requires n >= 1
  {
    if n == 1 then base else base + Decimal(n)
  }

  lemma CandidatesDiffer(base: string, m: nat, n: nat)
    requires 1 <= m < n
    ensures Candidate(base, m) != Candidate(base, n)
  {
    assert |Candidate(base, n)| > |base|;
    if m > 1 && Candidate(base, m) == Candidate(base, n) {
      assert Decimal(m) == Candidate(base, m)[|base|..];
      assert Decimal(n) == Candidate(base, n)[|base|..];
      DecimalInjective(m, n);
    }
  }

  ghost function FirstCandidates(base: string, n: nat): set<string> {
    if n == 0 then {} else FirstCandidates(base, n - 1) + {Candidate(base, n)}
  }

  lemma {:induction false} NotAmongFirst(base: string, k: nat, n: nat)
    requires k < n
    ensures Candidate(base, n) !in FirstCandidates(base, k)
  {
    hide Candidate;
    if k > 0 {
      NotAmongFirst(base, k - 1, n);
      CandidatesDiffer(base, k, n);
    }
  }

  lemma {:induction false} FirstCandidatesSize(base: string, n: nat)
    ensures |FirstCandidates(base, n)| == n
  {
    hide Candidate;
    if n > 0 {
      FirstCandidatesSize(base, n - 1);
      NotAmongFirst(base, n - 1, n);
    }
  }

  lemma {:induction false} FirstCandidatesUsed(base: string, used: set<string>, n: nat)
    requires forall m :: 1 <= m <= n ==> Candidate(base, m) in used
    ensures FirstCandidates(base, n) <= used
  {
    hide Candidate;
    if n > 0 {
      FirstCandidatesUsed(base, used, n - 1);
    }
  }

  /** A finite set cannot hold more candidates than it has members. */
  lemma UsedBound(base: string, used: set<string>, n: nat)
    requires forall m :: 1 <= m <= n ==> Candidate(base, m) in used
    ensures n <= |used|
  {
    FirstCandidatesSize(base, n);
    FirstCandidatesUsed(base, used, n);
    SubsetSize(FirstCandidates(base, n), used);
  }

  /** `key` is the first candidate not in use. */
  ghost predicate IsFirstFree(base: string, used: set<string>, key: string) {
    exists n: nat ::
      && 1 <= n <= |used| + 1 && key == Candidate(base, n) && key !in used
      && forall m :: 1 <= m < n ==> Candidate(base, m) in used
  }

  /** The first free candidate is the base itself, or when that is in use the
      base with the least number from 2 on that is not. */
  lemma FirstFreeExactly(base: string, used: set<string>, key: string)
    ensures IsFirstFree(base, used, key) <==>
            && key !in used
            && (key == base
                || (base in used && exists n: nat :: n >= 2 && key == base + Decimal(n) && AllUsed(base, used, n)))
  {
    hide Decimal;
    if key !in used {
      if key == base {
        assert Candidate(base, 1) == key;
      } else if n: nat :| n >= 2 && key == base + Decimal(n) && base in used && AllUsed(base, used, n) {
        assert key == Candidate(base, n);
        forall m | 1 <= m < n ensures Candidate(base, m) in used {
          assert m >= 2 ==> base + Decimal(m) in used;
        }
        UsedBound(base, used, n - 1);
      }
    }
    if IsFirstFree(base, used, key) && key != base {
      var n: nat :|
        && 1 <= n <= |used| + 1 && key == Candidate(base, n)
        && forall m :: 1 <= m < n ==> Candidate(base, m) in used;
      assert Candidate(base, 1) in used;
      assert forall m :: 2 <= m < n ==> Candidate(base, m) == base + Decimal(m);
      assert AllUsed(base, used, n);
    }
  }

  predicate AllUsed(base: string, used: set<string>, n: nat) {
    forall m :: 2 <= m < n ==> base + Decimal(m) in used
  }

  /** `_unique_field_key`: it ends for every finite set, with the first
      candidate not in it. */
  method UniqueFieldKey(lower: string -> string, caption: string, used: set<string>)
    returns (key: string, nowUsed: set<string>)
    ensures IsFirstFree(Slug(lower, caption), used, key)
    ensures nowUsed == used + {key}
  {
    var base := Slug(lower, caption);
    key := base;
    var suffix: nat := 2;
    while key in used
      invariant suffix >= 2 && key == Candidate(base, suffix - 1)
      invariant forall m :: 1 <= m < suffix - 1 ==> Candidate(base, m) in used
      decreases |used| + 2 - suffix
    {
      UsedBound(base, used, suffix - 1);
      key := base + Decimal(suffix);
      suffix := suffix + 1;
    }
    UsedBound(base, used, suffix - 2);
    nowUsed := used + {key};
  }

  // ---------------------------------------------------------------------
  // One instrument's entries
  // ---------------------------------------------------------------------

  const MIN_WIDTH := 40
  const MAX_WIDTH := 1200
  const LABEL_LENGTH := 255

  const HELP_LENGTH := 1000

  /** What `int()` does with a value: a number, an error the loop catches, or
      one it does not, as on an infinite float. */
  datatype Whole = Number(n: int) | Caught | Uncaught

  /** The library calls whose working is not modelled: lower-casing, the text
      of a value that is no text, reading a float or a whole number, and
      `isdigit` and `int()` on a text with a digit outside 0 to 9. */
  datatype Python = Python(lower: string -> string, repr: Json -> string, float: string -> FloatText,
                           whole: Json -> Whole, isDigit: string -> bool, digits: string -> Option<int>)

  /** `str(v)`. */
  function Str(python: Python, v: Json): string {
    match v
    case Text(text) => text
    case _ => python.repr(v)
  }

  /** `str(v or "")`. */
  function StrOrBlank(python: Python, v: Json): string {
    if IsTruthy(v) then Str(python, v) else ""
  }

  /** The columns copied from an entry into its row. */
  datatype Columns = Columns(required: bool, visible: bool, helpText: Option<string>, helpTextVisible: bool,
                             dataType: string, responseType: string, min: Option<FloatText>, max: Option<FloatText>,
                             step: Option<FloatText>, listCsv: Option<Json>)

  /** `_parse_float`. */
  function ParseFloat(python: Python, v: Json): Option<FloatText> {
    if v.Null? then None
    else
      var text := Strip(Str(python, v));
      if text == "" || python.float(text).NotAFloat? then None else Some(python.float(text))
  }

  /** The inline data type; an unknown one is `String`. */
  function InlineType(name: string): string {
    if name == "integer" then "Integer"
    else if name == "decimal" then "Decimal"
    else if name == "list" then "List"
    else "String"
  }

  function ColumnsOf(python: Python, rf: map<string, Json>): Columns {
    var help := StrOrBlank(python, Get(rf, "help_text", Null));
    var shown := if |help| > HELP_LENGTH then help[..HELP_LENGTH] else help;
    var named := Get(rf, "data_type", Null);
    var dataType := InlineType(python.lower(Strip(if IsTruthy(named) then Str(python, named) else "string")));
    var options := Get(rf, "list_options", Null);
    Columns(IsTruthy(Get(rf, "required", Null)),
            IsTruthy(Get(rf, "selected", Bool(true))),
            if shown == "" then None else Some(shown),
            IsTruthy(Get(rf, "help_text_visible", Bool(true))),
            dataType, dataType,
            ParseFloat(python, Get(rf, "min", Null)),
            ParseFloat(python, Get(rf, "max", Null)),
            ParseFloat(python, Get(rf, "step", Null)),
            if IsTruthy(options) then Some(options) else None)
  }

  predicate IsAsciiDigits(t: string) {
    t != "" && AllDigits(t)
  }

  /** An entry's id, if it is a whole number or a text of digits. */
  function IdOf(python: Python, v: Json): Option<int> {
    match v
    case Int(n) => Some(n)
    case Bool(flag) => Some(if flag then 1 else 0)
    case Text(text) =>
      var t := Strip(text);
      if IsAsciiDigits(t) then Some(Value(t)) else if python.isDigit(t) then python.digits(t) else None
    case _ => None
  }

  /** A text of digits that are no decimals, such as a superscript two: it
      passes `isdigit`, and `int()` raises. */
  predicate IdRaises(python: Python, v: Json) {
    v.Text? && !IsAsciiDigits(Strip(v.text)) && python.isDigit(Strip(v.text)) && python.digits(Strip(v.text)).None?
  }

  predicate HasWidth(v: Json) {
    !v.Null? && v != Text("")
  }

  /** An entry's width, if it is there and reads as a whole number. */
  function WidthOf(python: Python, v: Json): Option<int> {
    if HasWidth(v) && python.whole(v).Number? then Some(python.whole(v).n) else None
  }

  predicate WidthRaises(python: Python, v: Json) {
    HasWidth(v) && python.whole(v).Uncaught?
  }

  /** What the loop reads off one JSON entry. */
  datatype Entry = NotAnObject | Entry(name: string, id: Option<int>, width: Option<int>, columns: Columns)

  function ReadEntry(python: Python, rf: Json): Entry {
    match rf
    case Dict(fields) =>
      Entry(Strip(StrOrBlank(python, Get(fields, "name", Null))), IdOf(python, Get(fields, "id", Null)),
            WidthOf(python, Get(fields, "width_px", Null)), ColumnsOf(python, fields))
    case _ => NotAnObject
  }

  /** The loop stops on this entry: it is named, and its id or its width makes
      `int()` raise what is not caught. */
  predicate Stops(python: Python, rf: Json) {
    && rf.Dict? && IsNamed(ReadEntry(python, rf))
    && (IdRaises(python, Get(rf.fields, "id", Null)) || WidthRaises(python, Get(rf.fields, "width_px", Null)))
  }

  /** In the entry's own keys: its name is more than space, and its id is a
      text that passes `isdigit` and that `int` refuses, or its width is
      neither null nor empty and makes `int` raise what is not caught. */
  lemma StopsExactly(python: Python, rf: map<string, Json>)
    ensures Stops(python, Dict(rf)) <==>
            && "name" in rf && IsTruthy(rf["name"]) && Strip(Str(python, rf["name"])) != ""
            && (|| ("id" in rf && rf["id"].Text? && IsNoInteger(python, Strip(rf["id"].text)))
                || (&& "width_px" in rf && rf["width_px"] != Null && rf["width_px"] != Text("")
                    && python.whole(rf["width_px"]) == Uncaught))
  {
    StripsToItself("");
    hide Strip, Str, IsTruthy, ColumnsOf;
    TruthOfDefaults();
  }

  predicate IsNoInteger(python: Python, t: string) {
    (t == "" || !AllDigits(t)) && python.isDigit(t) && python.digits(t).None?
  }

  datatype Field = Field(id: int, key: string, caption: string, order: nat, columns: Columns)

  predicate HasId(fields: seq<Field>, id: int) {
    exists f :: f in fields && f.id == id
  }

  predicate DistinctKeys(fields: seq<Field>) {
    forall i, j :: 0 <= i < j < |fields| ==> fields[i].key != fields[j].key
  }

  predicate DistinctIds(fields: seq<Field>) {
    forall i, j :: 0 <= i < j < |fields| ==> fields[i].id != fields[j].id
  }

  function KeySet(fields: seq<Field>): set<string> {
    set f | f in fields :: f.key
  }

  /** The entry is one the loop looks at. */
  predicate IsNamed(entry: Entry) {
    entry.Entry? && entry.name != ""
  }

  function Truncated(name: string): string {
    if |name| > LABEL_LENGTH then name[..LABEL_LENGTH] else name
  }

  /** An entry's width, when it has a usable one, kept under its field. */
  function Widened(widths: map<int, int>, id: int, width: Option<int>): map<int, int> {
    if width.Some? && width.value >= MIN_WIDTH then
      widths[id := if width.value > MAX_WIDTH then MAX_WIDTH else width.value]
    else widths
  }

  /** What entry `k` does: nothing if it has no name; else it keeps the field
      its id names, or adds a row of a new id under the first free key of its
      label's slug; and its width goes to that field. */
  ghost predicate Migrates(lower: string -> string, entry: Entry, k: nat, before: seq<Field>, widths: map<int, int>,
                           after: seq<Field>, newWidths: map<int, int>)
  {
    if !IsNamed(entry) then after == before && newWidths == widths
    else if entry.id.Some? && HasId(before, entry.id.value) then
      after == before && newWidths == Widened(widths, entry.id.value, entry.width)
    else
      && after != [] && after[..|after| - 1] == before
      && var row := after[|after| - 1];
         && row == Field(row.id, row.key, Truncated(entry.name), k, entry.columns)
         && !HasId(before, row.id)
         && IsFirstFree(Slug(lower, entry.name), KeySet(before), row.key)
         && newWidths == Widened(widths, row.id, entry.width)
  }

  /** What the entries do, one after another. */
  ghost predicate AllMigrate(python: Python, entries: seq<Json>, before: seq<Field>, widths: map<int, int>,
                             after: seq<Field>, newWidths: map<int, int>)
    decreases |entries|
  {
    if entries == [] then after == before && newWidths == widths
    else
      var n := |entries| - 1;
      exists fields, w ::
        AllMigrate(python, entries[..n], before, widths, fields, w) &&
        Migrates(python.lower, ReadEntry(python, entries[n]), n, fields, w, after, newWidths)
  }

  /** The upgrade's loop over one instrument: `nextId` is past every id in
      the fields table. It stops exactly on an entry whose id or width
      raises, and the database then undoes the step. */
  method MigrateFields(python: Python, entries: seq<Json>, existing: seq<Field>, nextId: int,
                       widths: map<int, int>)
    returns (raised: bool, fields: seq<Field>, newWidths: map<int, int>)
    requires DistinctIds(existing) && DistinctKeys(existing)
    requires forall f :: f in existing ==> f.id < nextId
    ensures raised <==> exists k :: 0 <= k < |entries| && Stops(python, entries[k])
    ensures existing <= fields
    ensures DistinctIds(fields) && DistinctKeys(fields)
    ensures !raised ==> AllMigrate(python, entries, existing, widths, fields, newWidths)
  {
    hide Slug, IsFirstFree, ReadEntry, Truncated, KeySet, DistinctIds, DistinctKeys;
    hide AllMigrate, Migrates, HasId, Widened, Stops, IdRaises, WidthRaises;
    raised, fields, newWidths := false, existing, widths;
    var used := KeySet(existing);
    var free := nextId;
    NothingMigrates(python, existing, widths);
    assert entries[..0] == [];
    for k := 0 to |entries|
      invariant !raised && forall j :: 0 <= j < k ==> !Stops(python, entries[j])
      invariant existing <= fields
      invariant DistinctIds(fields) && DistinctKeys(fields)
      invariant forall f :: f in fields ==> f.id < free
      invariant used == KeySet(fields)
      invariant AllMigrate(python, entries[..k], existing, widths, fields, newWidths)
    {
      var entry := ReadEntry(python, entries[k]);
      StopsWhen(python, entries[k]);
      ghost var before, w := fields, newWidths;
      if IsNamed(entry) {
        if IdRaises(python, Get(entries[k].fields, "id", Null)) {
          raised := true;
          return;
        }
        var name := entry.name;
        var fieldId;
        if entry.id.Some? && HasId(fields, entry.id.value) {
          fieldId := entry.id.value;
        } else {
          var key;
          key, used := UniqueFieldKey(python.lower, name, used);
          fieldId := free;
          var row := Field(fieldId, key, Truncated(name), k, entry.columns);
          FirstFreeIsFree(Slug(python.lower, name), KeySet(fields), key);
          KeepsDistinct(fields, row);
          KeysGrow(fields, row);
          NewId(fields, fieldId);
          fields := fields + [row];
          free := free + 1;
        }
        if WidthRaises(python, Get(entries[k].fields, "width_px", Null)) {
          raised := true;
          return;
        }
        if entry.width.Some? && entry.width.value >= MIN_WIDTH {
          newWidths := newWidths[fieldId := if entry.width.value > MAX_WIDTH then MAX_WIDTH else entry.width.value];
        }
        EntryMigrates(python.lower, entry, k, before, w, fields, fieldId, newWidths);
      } else {
        SkippedMigrates(python.lower, entry, k, fields, newWidths);
      }
      OneMoreMigrates(python, entries, k, existing, widths, before, w, fields, newWidths);
    }
    assert entries[..|entries|] == entries;
  }

  lemma StopsWhen(python: Python, rf: Json)
    ensures IsNamed(ReadEntry(python, rf)) ==> rf.Dict?
    ensures IsNamed(ReadEntry(python, rf)) ==>
              (Stops(python, rf) <==>
               IdRaises(python, Get(rf.fields, "id", Null)) || WidthRaises(python, Get(rf.fields, "width_px", Null)))
    ensures !IsNamed(ReadEntry(python, rf)) ==> !Stops(python, rf)
  {
  }

  lemma NothingMigrates(python: Python, existing: seq<Field>, widths: map<int, int>)
    ensures AllMigrate(python, [], existing, widths, existing, widths)
  {
  }

  lemma NewId(fields: seq<Field>, free: int)
    requires forall f :: f in fields ==> f.id < free
    ensures !HasId(fields, free)
  {
  }

  lemma SkippedMigrates(lower: string -> string, entry: Entry, k: nat, fields: seq<Field>, widths: map<int, int>)
    requires !IsNamed(entry)
    ensures Migrates(lower, entry, k, fields, widths, fields, widths)
  {
  }

  lemma EntryMigrates(lower: string -> string, entry: Entry, k: nat, before: seq<Field>, widths: map<int, int>,
                      after: seq<Field>, id: int, newWidths: map<int, int>)
    requires IsNamed(entry)
    requires newWidths == if entry.width.Some? && entry.width.value >= MIN_WIDTH then
                            widths[id := if entry.width.value > MAX_WIDTH then MAX_WIDTH else entry.width.value]
                          else widths
    requires if entry.id.Some? && HasId(before, entry.id.value) then after == before && id == entry.id.value
             else
               && !HasId(before, id)
               && exists key :: IsFirstFree(Slug(lower, entry.name), KeySet(before), key) &&
                                after == before + [Field(id, key, Truncated(entry.name), k, entry.columns)]
    ensures Migrates(lower, entry, k, before, widths, after, newWidths)
  {
    hide Slug, IsFirstFree, Truncated, KeySet, HasId;
  }

  lemma OneMoreMigrates(python: Python, entries: seq<Json>, k: nat, existing: seq<Field>, widths: map<int, int>,
                        before: seq<Field>, w: map<int, int>, after: seq<Field>, newWidths: map<int, int>)
    requires k < |entries| && AllMigrate(python, entries[..k], existing, widths, before, w)
    requires Migrates(python.lower, ReadEntry(python, entries[k]), k, before, w, after, newWidths)
    ensures AllMigrate(python, entries[..k + 1], existing, widths, after, newWidths)
  {
    hide Migrates, ReadEntry;
    assert entries[..k + 1][..k] == entries[..k];
  }

  /** What `float` reads under a key, if the key is there with a value whose
      stripped text is a number's. */
  predicate IsFloatAt(python: Python, rf: map<string, Json>, key: string, value: FloatText) {
    && key in rf && rf[key] != Null
    && Strip(Str(python, rf[key])) != "" && python.float(Strip(Str(python, rf[key]))) == value
    && value != NotAFloat
  }

  /** Each column comes from its own key. */
  lemma ColumnsByKey(python: Python, rf: map<string, Json>)
    ensures var c := ColumnsOf(python, rf);
            && (c.required <==> "required" in rf && IsTruthy(rf["required"]))
            && (c.visible <==> ("selected" in rf ==> IsTruthy(rf["selected"])))
            && (c.helpTextVisible <==> ("help_text_visible" in rf ==> IsTruthy(rf["help_text_visible"])))
            && (forall v :: c.min == Some(v) <==> IsFloatAt(python, rf, "min", v))
            && (forall v :: c.max == Some(v) <==> IsFloatAt(python, rf, "max", v))
            && (forall v :: c.step == Some(v) <==> IsFloatAt(python, rf, "step", v))
            && (forall v :: c.listCsv == Some(v) <==>
                            "list_options" in rf && rf["list_options"] == v && IsTruthy(v))
  {
    hide Strip, Str, IsTruthy, InlineType;
    FloatByKey(python, rf, "min");
    FloatByKey(python, rf, "max");
    FloatByKey(python, rf, "step");
    hide ParseFloat, IsFloatAt;
    assert IsTruthy(Bool(true)) && !IsTruthy(Null) by {
      TruthOfDefaults();
    }
  }

  lemma TruthOfDefaults()
    ensures IsTruthy(Bool(true)) && !IsTruthy(Null)
  {
  }

  lemma FloatByKey(python: Python, rf: map<string, Json>, key: string)
    ensures forall v :: ParseFloat(python, Get(rf, key, Null)) == Some(v) <==> IsFloatAt(python, rf, key, v)
  {
    hide Strip, Str;
  }

  /** The four types by their names, the help text, and the type named. */
  lemma TypeAndHelpByKey(python: Python, rf: map<string, Json>)
    ensures var c := ColumnsOf(python, rf);
            var given := if "data_type" in rf && IsTruthy(rf["data_type"]) then Str(python, rf["data_type"])
                         else "string";
            var name := python.lower(Strip(given));
            && c.responseType == c.dataType
            && c.dataType == (if name == "integer" then "Integer" else if name == "decimal" then "Decimal"
                              else if name == "list" then "List" else "String")
    ensures var c := ColumnsOf(python, rf);
            if "help_text" in rf && IsTruthy(rf["help_text"]) && Str(python, rf["help_text"]) != "" then
              c.helpText.Some? && 0 < |c.helpText.value| <= 1000 && c.helpText.value <= Str(python, rf["help_text"])
              && (|c.helpText.value| < 1000 ==> c.helpText.value == Str(python, rf["help_text"]))
            else c.helpText.None?
  {
    hide Strip, Str, IsTruthy, ParseFloat;
    TruthOfDefaults();
  }

  /** An entry's name, id and width come from their own keys: an id is an
      integer, a flag, or a text of digits, and a width what `int` makes of
      anything but null and the empty text. */
  lemma EntryByKey(python: Python, rf: map<string, Json>)
    ensures var e := ReadEntry(python, Dict(rf));
            && e.Entry? && e.columns == ColumnsOf(python, rf)
            && e.name == Strip(if "name" in rf && IsTruthy(rf["name"]) then Str(python, rf["name"]) else "")
            && (forall n :: e.width == Some(n) <==>
                  && "width_px" in rf && rf["width_px"] != Null && rf["width_px"] != Text("")
                  && python.whole(rf["width_px"]) == Number(n))
            && (forall n :: e.id == Some(n) <==> "id" in rf && IsIdText(python, rf["id"], n))
  {
    hide Strip, Str, IsTruthy, ColumnsOf, Value;
    TruthOfDefaults();
  }

  predicate IsIdText(python: Python, v: Json, id: int) {
    || v == Int(id) || (v == Bool(true) && id == 1) || (v == Bool(false) && id == 0)
    || (v.Text? && Strip(v.text) != "" && AllDigits(Strip(v.text)) && Value(Strip(v.text)) == id)
    || (v.Text? && (Strip(v.text) == "" || !AllDigits(Strip(v.text))) && python.isDigit(Strip(v.text))
        && python.digits(Strip(v.text)) == Some(id))
  }

  /** What an entry copies into a row fits the columns' types. */
  lemma ColumnsFit(python: Python, rf: map<string, Json>)
    ensures var c := ColumnsOf(python, rf);
            && c.dataType in {"String", "Integer", "Decimal", "List"} && c.responseType == c.dataType
            && (c.helpText.Some? ==> 0 < |c.helpText.value| <= 1000)
            && (c.min.Some? ==> !c.min.value.NotAFloat?)
            && (c.max.Some? ==> !c.max.value.NotAFloat?)
            && (c.step.Some? ==> !c.step.value.NotAFloat?)
            && (c.listCsv.Some? ==> IsTruthy(c.listCsv.value))
  {
    hide Strip, Str;
  }

  /** The migration's own account of when an entry gets a row: no row has its
      id, nor, when it has no id, its label's slug. */
  predicate SaidToNeedRow(lower: string -> string, entry: Entry, before: seq<Field>) {
    && IsNamed(entry)
    && !(entry.id.Some? && HasId(before, entry.id.value))
    && !(entry.id.None? && Slug(lower, entry.name) in KeySet(before))
  }

  /** That account holds except for an entry without an id whose slug is
      taken: it is given a second row, under the slug and a number. */
  lemma SlugIsNoMatch(lower: string -> string, entry: Entry, k: nat, before: seq<Field>, widths: map<int, int>,
                      after: seq<Field>, newWidths: map<int, int>)
    requires Migrates(lower, entry, k, before, widths, after, newWidths)
    ensures var slugTaken := IsNamed(entry) && entry.id.None? && Slug(lower, entry.name) in KeySet(before);
            && ((|after| > |before| <==> SaidToNeedRow(lower, entry, before)) <==> !slugTaken)
            && (slugTaken ==> exists n: nat ::
                  n >= 2 && after[|after| - 1].key == Slug(lower, entry.name) + Decimal(n))
  {
    hide Slug, KeySet, Decimal;
    if IsNamed(entry) && entry.id.None? {
      var base := Slug(lower, entry.name);
      var row := after[|after| - 1];
      var n: nat :| 1 <= n <= |KeySet(before)| + 1 && row.key == Candidate(base, n) && row.key !in KeySet(before);
      if base in KeySet(before) {
        assert n >= 2 && row.key == base + Decimal(n);
      }
    }
  }

  /** What a named entry leaves: no new row when its id names a field, else
      one with its label's first 255 characters in its place; and a width of
      40 or more, cut to 1,200, under that field. */
  lemma EntryLeaves(lower: string -> string, entry: Entry, k: nat, before: seq<Field>, widths: map<int, int>,
                    after: seq<Field>, newWidths: map<int, int>)
    requires IsNamed(entry) && Migrates(lower, entry, k, before, widths, after, newWidths)
    ensures |after| == |before| <==> entry.id.Some? && exists f :: f in before && f.id == entry.id.value
    ensures |after| > |before| ==>
              var row := after[|before|];
              && row.order == k && row.columns == entry.columns
              && row.caption == (if |entry.name| <= 255 then entry.name else entry.name[..255])
              && (entry.width.Some? && entry.width.value >= 40 ==>
                    newWidths == widths[row.id := if entry.width.value <= 1200 then entry.width.value else 1200])
    ensures |after| == |before| && entry.width.Some? && entry.width.value >= 40 ==>
              newWidths == widths[entry.id.value := if entry.width.value <= 1200 then entry.width.value else 1200]
    ensures entry.width.None? || entry.width.value < 40 ==> newWidths == widths
  {
    hide Slug, KeySet, IsFirstFree;
  }

  /** A label that lower-cases to a key is its own slug. */
  lemma SlugOfKey(lower: string -> string, caption: string)
    requires var key := lower(caption);
             AllKeyChars(key) && 0 < |key| <= KEY_LENGTH && IsLetter(key[0]) && key[|key| - 1] != '_'
    ensures Slug(lower, caption) == lower(caption)
  {
    ReplacedKey(lower(caption));
  }

  lemma {:induction false} ReplacedKey(s: string)
    requires AllKeyChars(s)
    ensures Replaced(s, false) == s
  {
    if s != "" {
      ReplacedKey(s[1..]);
    }
  }

  const SCORE: Json := Dict(map["name" := Text("Score")])

  /** The entry `{"name": "Score"}` beside a field `score`: the account says
      it needs no row, and it gets one under `score2`. */
  lemma SecondScore(python: Python, first: Field, after: seq<Field>, newWidths: map<int, int>)
    requires python.lower == Lower && first.key == "score"
    requires Migrates(Lower, ReadEntry(python, SCORE), 0, [first], map[], after, newWidths)
    ensures !SaidToNeedRow(Lower, ReadEntry(python, SCORE), [first])
    ensures |after| == 2 && after[1].key == "score2"
  {
    hide Slug, Decimal, Strip, Replaced, StripUnderscoresLeft, StripUnderscoresRight, ColumnsOf;
    var entry := ReadEntry(python, SCORE);
    StripsToItself("Score");
    assert Get(SCORE.fields, "id", Null) == Null && Get(SCORE.fields, "name", Null) == Text("Score") by {
      assert "id" != "name" by { assert |"id"| != |"name"|; }
    }
    assert entry.name == "Score" && entry.id.None?;
    assert Lower("Score") == "score";
    SlugOfKey(Lower, "Score");
    assert KeySet([first]) == {"score"} by { assert first in [first]; }
    SlugIsNoMatch(Lower, entry, 0, [first], map[], after, newWidths);
    var row := after[|after| - 1];
    var n: nat :|
      && 1 <= n <= |KeySet([first])| + 1 && row.key == Candidate("score", n) && row.key !in KeySet([first]);
    assert n == 2;
    TwoIsTwo();
  }

  lemma TwoIsTwo()
    ensures "score" + Decimal(2) == "score2"
  {
  }

  /** Fields are only added, and each width is an old one or lies within the
      bounds and belongs to a field. */
  lemma {:induction false} WidthsWithinBounds(python: Python, entries: seq<Json>, before: seq<Field>,
                                              widths: map<int, int>, after: seq<Field>, newWidths: map<int, int>)
    requires AllMigrate(python, entries, before, widths, after, newWidths)
    ensures before <= after && widths.Keys <= newWidths.Keys
    ensures forall id :: id in newWidths ==>
              || (id in widths && newWidths[id] == widths[id])
              || (HasId(after, id) && 40 <= newWidths[id] <= 1200)
    decreases |entries|
  {
    hide Slug, IsFirstFree, ReadEntry, Truncated, KeySet, IsNamed;
    if entries != [] {
      var n := |entries| - 1;
      var fields: seq<Field>, w: map<int, int> :|
        AllMigrate(python, entries[..n], before, widths, fields, w) &&
        Migrates(python.lower, ReadEntry(python, entries[n]), n, fields, w, after, newWidths);
      WidthsWithinBounds(python, entries[..n], before, widths, fields, w);
      forall id | HasId(fields, id) ensures HasId(after, id) {
        var f :| f in fields && f.id == id;
        assert f in after;
      }
    }
  }

  lemma FirstFreeIsFree(base: string, used: set<string>, key: string)
    requires IsFirstFree(base, used, key)
    ensures key !in used
  {
  }

  lemma KeysGrow(fields: seq<Field>, row: Field)
    ensures KeySet(fields + [row]) == KeySet(fields) + {row.key}
  {
    var more := fields + [row];
    forall key | key in KeySet(fields) + {row.key} ensures key in KeySet(more) {
      if key == row.key {
        assert row in more;
      } else {
        var f :| f in fields && f.key == key;
        assert f in more;
      }
    }
  }

  lemma KeepsDistinct(fields: seq<Field>, row: Field)
    requires DistinctIds(fields) && DistinctKeys(fields)
    requires row.key !in KeySet(fields) && forall f :: f in fields ==> f.id < row.id
    ensures DistinctIds(fields + [row]) && DistinctKeys(fields + [row])
  {
    assert forall f :: f in fields ==> f.key in KeySet(fields);
    hide KeySet;
    assert forall i :: 0 <= i < |fields| ==> (fields + [row])[i] == fields[i] && fields[i] in fields;
  }
}
