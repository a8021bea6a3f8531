/** The audit table and the filters that select from it
    (`app/services/audit.py`). */
module AuditQuery {
  import opened Wrappers
  import opened AuditSchema
  import opened JsonValues
  import Calendar
  import AuditDates
  import DateTimeBox
  import Words = Text

  /** A date `datetime` can hold. */
  type Day = d: Calendar.Date | AuditDates.IsCalendarDate(d) witness Calendar.FIRST

  datatype Event = Event(id: int, eventType: string, summary: string, severity: string, actor: Option<int>,
                         sessionId: Option<int>, detail: Option<Detail>, correlation: Option<string>, createdAt: int)

  datatype Zone = Zone(name: string, offset: int)

  datatype Filters = Filters(eventTypes: seq<string>, severities: seq<string>, actorEmail: Option<string>,
                             createdFrom: Option<Day>, createdTo: Option<Day>, zone: Zone)

  predicate HasActor(f: Filters) {
    f.actorEmail.Some? && f.actorEmail.value != ""
  }

  predicate HasDates(f: Filters) {
    f.createdFrom.Some? || f.createdTo.Some?
  }

  predicate IsActive(f: Filters) {
    f.eventTypes != [] || f.severities != [] || HasActor(f) || HasDates(f)
  }

  /** The `WHERE` of a session's listing: its id, and each clause the filters
      add. `emails` is the users table; no match there is a null email. */
  predicate Keeps(session: int, f: Filters, emails: map<int, string>, e: Event) {
    && e.sessionId == Some(session)
    && (f.eventTypes != [] ==> e.eventType in f.eventTypes)
    && (f.severities != [] ==> e.severity in f.severities)
    && (HasActor(f) ==>
          && e.actor.Some? && e.actor.value in emails
          && Words.Lower(emails[e.actor.value]) == Words.Lower(f.actorEmail.value))
    && AuditDates.Keeps(f.createdFrom, f.createdTo, f.zone.offset, e.createdAt)
  }

  /** With no filter active every row of the session is kept: returning early
      makes no difference. */
  lemma InactiveKeepsAll(session: int, f: Filters, emails: map<int, string>, e: Event)
    requires !IsActive(f)
    ensures Keeps(session, f, emails, e) <==> e.sessionId == Some(session)
  {
  }

  /** No clause reads the summary or the detail. */
  lemma KeepsReadsNoText(session: int, f: Filters, emails: map<int, string>, e: Event, summary: string,
                         detail: Option<Detail>)
    ensures Keeps(session, f, emails, e.(summary := summary, detail := detail)) == Keeps(session, f, emails, e)
  {
  }

  // ---------------------------------------------------------------------
  // The filter's description of itself
  // ---------------------------------------------------------------------

  datatype FilterKey = EventTypes | Severities | ActorEmail | CreatedFrom | CreatedTo | DateZone

  function KeyText(key: FilterKey): string {
    match key
    case EventTypes => "event_types"
    case Severities => "severities"
    case ActorEmail => "actor_email"
    case CreatedFrom => "created_from"
    case CreatedTo => "created_to"
    case DateZone => "date_zone"
  }

  /** What the description says of each dimension; inactive ones say nothing. */
  function Described(f: Filters, key: FilterKey): Option<string> {
    match key
    case EventTypes => if f.eventTypes != [] then Some(Words.Join(f.eventTypes, ',')) else None
    case Severities => if f.severities != [] then Some(Words.Join(f.severities, ',')) else None
    case ActorEmail => if HasActor(f) then f.actorEmail else None
    case CreatedFrom => if f.createdFrom.Some? then Some(DateTimeBox.DateText(f.createdFrom.value)) else None
    case CreatedTo => if f.createdTo.Some? then Some(DateTimeBox.DateText(f.createdTo.value)) else None
    case DateZone => if HasDates(f) && f.zone.name != "UTC" then Some(f.zone.name) else None
  }

  const FILTER_KEYS: set<FilterKey> := {EventTypes, Severities, ActorEmail, CreatedFrom, CreatedTo, DateZone}

  lemma KeysDiffer()
    ensures forall a, b :: KeyText(a) == KeyText(b) ==> a == b
  {
    var types, severities, actor := "event_types", "severities", "actor_email";
    var first, last, zone := "created_from", "created_to", "date_zone";
    assert |types| == 11 && |actor| == 11 && types[0] == 'e' && actor[0] == 'a';
    assert |severities| == 10 && |last| == 10 && severities[0] == 's' && last[0] == 'c';
    assert |first| == 12 && |zone| == 9;
  }

  /** The whole description, dimension by dimension. */
  function AsAuditContext(f: Filters): map<string, Json> {
    KeysDiffer();
    map key | key in FILTER_KEYS && Described(f, key).Some? :: KeyText(key) := Text(Described(f, key).value)
  }

  /** What a description holds so far. */
  ghost predicate Says(out: map<string, Json>, f: Filters, keys: set<FilterKey>) {
    && (forall key :: key in keys ==>
          if Described(f, key).Some? then KeyText(key) in out && out[KeyText(key)] == Text(Described(f, key).value)
          else KeyText(key) !in out)
    && (forall text :: text in out ==> exists key :: key in keys && KeyText(key) == text)
  }

  lemma DescriptionSays(f: Filters)
    ensures Says(AsAuditContext(f), f, FILTER_KEYS)
  {
    hide KeyText, Described, FILTER_KEYS;
    KeysDiffer();
  }

  /** Two maps that say the same are the same. */
  lemma SaysAll(a: map<string, Json>, b: map<string, Json>, f: Filters, keys: set<FilterKey>)
    requires Says(a, f, keys) && Says(b, f, keys)
    ensures a == b
  {
    hide KeyText, Described;
    forall text | text in a ensures text in b && b[text] == a[text] {
      var key :| key in keys && KeyText(key) == text;
    }
    forall text | text in b ensures text in a {
      var key :| key in keys && KeyText(key) == text;
    }
    assert a.Keys == b.Keys;
  }

  lemma SaysOneMore(out: map<string, Json>, f: Filters, keys: set<FilterKey>, key: FilterKey)
    requires Says(out, f, keys) && key !in keys
    ensures Says(if Described(f, key).Some? then out[KeyText(key) := Text(Described(f, key).value)] else out,
                 f, keys + {key})
  {
    hide KeyText, Described;
    KeysDiffer();
  }

  /** `as_audit_context`, dimension after dimension. */
  method DescribeFilters(f: Filters) returns (out: map<string, Json>)
    ensures out == AsAuditContext(f)
  {
    hide Says, AsAuditContext;
    out := map[];
    SaysNothing(f);
    SaysOneMore(out, f, {}, EventTypes);
    assert {} + {EventTypes} == {EventTypes};
    if f.eventTypes != [] {
      out := out["event_types" := Text(Words.Join(f.eventTypes, ','))];
    }
    SaysOneMore(out, f, {EventTypes}, Severities);
    if f.severities != [] {
      out := out["severities" := Text(Words.Join(f.severities, ','))];
    }
    SaysOneMore(out, f, {EventTypes} + {Severities}, ActorEmail);
    if HasActor(f) {
      out := out["actor_email" := Text(f.actorEmail.value)];
    }
    SaysOneMore(out, f, {EventTypes} + {Severities} + {ActorEmail}, CreatedFrom);
    if f.createdFrom.Some? {
      out := out["created_from" := Text(DateTimeBox.DateText(f.createdFrom.value))];
    }
    SaysOneMore(out, f, {EventTypes} + {Severities} + {ActorEmail} + {CreatedFrom}, CreatedTo);
    if f.createdTo.Some? {
      out := out["created_to" := Text(DateTimeBox.DateText(f.createdTo.value))];
    }
    SaysOneMore(out, f, {EventTypes} + {Severities} + {ActorEmail} + {CreatedFrom} + {CreatedTo}, DateZone);
    if HasDates(f) && f.zone.name != "UTC" {
      out := out["date_zone" := Text(f.zone.name)];
    }
    assert {EventTypes} + {Severities} + {ActorEmail} + {CreatedFrom} + {CreatedTo} + {DateZone} == FILTER_KEYS;
    DescriptionSays(f);
    SaysAll(out, AsAuditContext(f), f, FILTER_KEYS);
  }

  lemma SaysNothing(f: Filters)
    ensures Says(map[], f, {})
  {
  }

  /** No type or severity holds the comma that joins them. */
  predicate IsReadable(f: Filters) {
    && (forall t :: t in f.eventTypes ==> ',' !in t)
    && (forall t :: t in f.severities ==> ',' !in t)
  }

  /** A description names its filter: two readable filters described alike
      keep the same events, in a world where a zone's name fixes its offset. */
  lemma DescriptionNamesFilter(f: Filters, g: Filters, session: int, emails: map<int, string>, e: Event)
    requires IsReadable(f) && IsReadable(g) && (f.zone.name == g.zone.name ==> f.zone == g.zone)
    requires AsAuditContext(f) == AsAuditContext(g)
    ensures Keeps(session, f, emails, e) == Keeps(session, g, emails, e)
  {
    SameDescribed(f, g);
    SameTypes(f.eventTypes, g.eventTypes);
    SameTypes(f.severities, g.severities);
    assert Described(f, EventTypes) == Described(g, EventTypes);
    assert Described(f, Severities) == Described(g, Severities);
    assert Described(f, ActorEmail) == Described(g, ActorEmail);
    assert Described(f, CreatedFrom) == Described(g, CreatedFrom);
    assert Described(f, CreatedTo) == Described(g, CreatedTo);
    assert Described(f, DateZone) == Described(g, DateZone);
    SameDay(f.createdFrom, g.createdFrom);
    SameDay(f.createdTo, g.createdTo);
  }

  lemma SameDescribed(f: Filters, g: Filters)
    requires AsAuditContext(f) == AsAuditContext(g)
    ensures forall key :: Described(f, key) == Described(g, key)
  {
    hide KeyText, Described, AsAuditContext;
    DescriptionSays(f);
    DescriptionSays(g);
    forall key ensures Described(f, key) == Described(g, key) {
      AnyKey(key);
    }
  }

  lemma AnyKey(key: FilterKey)
    ensures key in FILTER_KEYS
  {
  }

  lemma SameTypes(a: seq<string>, b: seq<string>)
    requires forall t :: t in a || t in b ==> ',' !in t
    ensures a != [] && b != [] && Words.Join(a, ',') == Words.Join(b, ',') ==> a == b
  {
    if a != [] && b != [] {
      Words.SplitOfJoin(a, ',');
      Words.SplitOfJoin(b, ',');
    }
  }

  lemma SameDay(a: Option<Day>, b: Option<Day>)
    ensures a.Some? && b.Some? && DateTimeBox.DateText(a.value) == DateTimeBox.DateText(b.value) ==> a == b
  {
    if a.Some? && b.Some? && DateTimeBox.DateText(a.value) == DateTimeBox.DateText(b.value) {
      DateTimeBox.DateTextInjective(a.value, b.value);
    }
  }

  /** The rows a listing selects, in the table's order. */
  function Selected(session: int, f: Filters, emails: map<int, string>, rows: seq<Event>): seq<Event> {
    if rows == [] then []
    else
      var front, last := rows[..|rows| - 1], rows[|rows| - 1];
      Selected(session, f, emails, front) + if Keeps(session, f, emails, last) then [last] else []
  }

  lemma {:induction false} SelectedMembers(session: int, f: Filters, emails: map<int, string>, rows: seq<Event>)
    ensures forall e :: e in Selected(session, f, emails, rows) <==> e in rows && Keeps(session, f, emails, e)
  {
    hide Keeps;
    if rows != [] {
      SelectedMembers(session, f, emails, rows[..|rows| - 1]);
    }
  }

  /** `count_events_for_session`. */
  function Count(session: int, f: Filters, emails: map<int, string>, rows: seq<Event>): nat {
    |Selected(session, f, emails, rows)|
  }

  lemma CountOneMore(session: int, f: Filters, emails: map<int, string>, rows: seq<Event>, e: Event)
    ensures Count(session, f, emails, rows + [e]) ==
            Count(session, f, emails, rows) + if Keeps(session, f, emails, e) then 1 else 0
  {
    assert (rows + [e])[..|rows|] == rows;
  }

  lemma {:induction false} SelectedAppend(session: int, f: Filters, emails: map<int, string>, a: seq<Event>,
                                          b: seq<Event>)
    ensures Selected(session, f, emails, a + b) ==
            Selected(session, f, emails, a) + Selected(session, f, emails, b)
  {
    hide Keeps;
    if b == [] {
      assert a + b == a;
    } else {
      var n := |b| - 1;
      SelectedAppend(session, f, emails, a, b[..n]);
      assert (a + b)[..|a + b| - 1] == a + b[..n];
    }
  }

  // ---------------------------------------------------------------------
  // The statement's clauses
  // ---------------------------------------------------------------------

  /** One `where` of the statement. */
  datatype Clause =
    | SessionIs(session: int)
    | TypeIn(types: seq<string>)
    | SeverityIn(levels: seq<string>)
    | EmailIs(folded: string)
    | NotBefore(start: int)
    | Before(end: int)

  /** A clause on one row joined with its actor's address; a null column
      meets no comparison. */
  predicate Meets(clause: Clause, emails: map<int, string>, e: Event) {
    match clause
    case SessionIs(session) => e.sessionId.Some? && e.sessionId.value == session
    case TypeIn(types) => e.eventType in types
    case SeverityIn(levels) => e.severity in levels
    case EmailIs(folded) => e.actor.Some? && e.actor.value in emails && Words.Lower(emails[e.actor.value]) == folded
    case NotBefore(start) => e.createdAt >= start
    case Before(end) => e.createdAt < end
  }

  ghost predicate MeetsAll(clauses: seq<Clause>, emails: map<int, string>, e: Event) {
    forall c :: c in clauses ==> Meets(c, emails, e)
  }

  lemma MeetsOneMore(clauses: seq<Clause>, c: Clause)
    ensures forall emails, e ::
              MeetsAll(clauses + [c], emails, e) <==> MeetsAll(clauses, emails, e) && Meets(c, emails, e)
  {
    hide Meets;
    forall emails, e
      ensures MeetsAll(clauses + [c], emails, e) <==> MeetsAll(clauses, emails, e) && Meets(c, emails, e)
    {
      assert forall d :: d in clauses + [c] <==> d in clauses || d == c;
    }
  }

  /** `_apply_filters` on the session's statement, clause after clause: its
      rows are the ones the filter keeps. */
  method ApplyFilters(session: int, f: Filters) returns (clauses: seq<Clause>)
    ensures forall emails, e :: MeetsAll(clauses, emails, e) <==> Keeps(session, f, emails, e)
  {
    hide MeetsAll, AuditDates.Midnight, Calendar.Ordinal, Calendar.MAX_ORDINAL, Words.Lower;
    clauses := [SessionIs(session)];
    OnlyClause(clauses[0]);
    if !IsActive(f) {
      return;
    }
    if f.eventTypes != [] {
      MeetsOneMore(clauses, TypeIn(f.eventTypes));
      clauses := clauses + [TypeIn(f.eventTypes)];
    }
    if f.severities != [] {
      MeetsOneMore(clauses, SeverityIn(f.severities));
      clauses := clauses + [SeverityIn(f.severities)];
    }
    if HasActor(f) {
      MeetsOneMore(clauses, EmailIs(Words.Lower(f.actorEmail.value)));
      clauses := clauses + [EmailIs(Words.Lower(f.actorEmail.value))];
    }
    if f.createdFrom.Some? {
      var start := AuditDates.Midnight(Calendar.Ordinal(f.createdFrom.value), f.zone.offset);
      if start.Some? {
        MeetsOneMore(clauses, NotBefore(start.value));
        clauses := clauses + [NotBefore(start.value)];
      }
    }
    if f.createdTo.Some? && Calendar.Ordinal(f.createdTo.value) < Calendar.MAX_ORDINAL {
      var end := AuditDates.Midnight(Calendar.Ordinal(f.createdTo.value) + 1, f.zone.offset);
      if end.Some? {
        MeetsOneMore(clauses, Before(end.value));
        clauses := clauses + [Before(end.value)];
      }
    }
  }

  lemma OnlyClause(c: Clause)
    ensures forall emails, e :: MeetsAll([c], emails, e) <==> Meets(c, emails, e)
  {
    hide Meets;
    forall emails, e ensures MeetsAll([c], emails, e) <==> Meets(c, emails, e) {
      assert c in [c];
    }
  }

  /** What a viewer asks for, read off the event and the day printed for it. */
  ghost predicate IsAskedFor(session: int, f: Filters, emails: map<int, string>, e: Event)
    requires DateTimeBox.InRange(e.createdAt)
  {
    && e.sessionId == Some(session)
    && (f.eventTypes == [] || e.eventType in f.eventTypes)
    && (f.severities == [] || e.severity in f.severities)
    && (f.actorEmail.None? || f.actorEmail.value == ""
        || (&& e.actor.Some? && e.actor.value in emails
            && Words.Lower(emails[e.actor.value]) == Words.Lower(f.actorEmail.value)))
    && AuditDates.PrintsWithin(AuditDates.FormatDate(e.createdAt, f.zone.offset), f.createdFrom, f.createdTo)
  }

  /** A listing selects exactly the table's rows that were asked for, save
      those lost before the calendar's first local day, which no listing
      selects. */
  lemma SelectedExactly(session: int, f: Filters, emails: map<int, string>, rows: seq<Event>, e: Event)
    requires DateTimeBox.IsOffset(f.zone.offset) && DateTimeBox.InRange(e.createdAt)
    ensures e in Selected(session, f, emails, rows) <==>
            && e in rows && IsAskedFor(session, f, emails, e)
            && !AuditDates.IsLostAtFirstDay(f.createdFrom, f.zone.offset, e.createdAt)
  {
    SelectedMembers(session, f, emails, rows);
    hide AuditDates.Keeps, AuditDates.PrintsWithin, AuditDates.IsLostAtFirstDay, AuditDates.FormatDate, Words.Lower;
    AuditDates.LostExactly(f.createdFrom, f.createdTo, f.zone.offset, e.createdAt);
  }

  /** Ids rise through the table. */
  predicate Rising(rows: seq<Event>) {
    forall i, j :: 0 <= i < j < |rows| ==> rows[i].id < rows[j].id
  }
}
