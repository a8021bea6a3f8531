/** Writing to the audit log (`app/services/audit.py`): one event, an extract
    that counts itself, and whole runs of both under nested `fired_by`
    blocks. */
module AuditLog {
  import opened Wrappers
  import opened AuditSchema
  import opened JsonValues
  import opened AuditQuery
  import Words = Text

  /** The `session=` argument, which may be left out. */
  datatype SessionArgument = NotGiven | Session(identity: Option<Identity>)

  /** The arguments of `write_event`. */
  datatype Call = Call(eventType: string, summary: string, actor: Option<int>, session: SessionArgument,
                       sessionId: Option<int>, severity: string, payload: Option<Payload>, reason: Option<string>,
                       refs: Option<map<string, int>>, context: Option<map<string, Json>>, detail: Option<Detail>,
                       correlation: Option<string>)

  datatype Refusal = BothStyles | Violates(violation: Violation)

  /** The table, and the last id the database gave out. */
  datatype Table = Table(rows: seq<Event>, issued: int)

  /** What no code of this module changes: the registry, the strict flag, and
      the users' emails. */
  datatype Setting = Setting(registry: Registry, strict: bool, emails: map<int, string>)

  predicate IsCanonical(call: Call) {
    call.session.Session? || call.payload.Some? || call.reason.Some? || call.refs.Some? || call.context.Some?
  }

  function IdentityOf(call: Call): Option<Identity> {
    if call.session.Session? then call.session.identity else None
  }

  /** The detail a call resolves to under a source. Only the canonical style
      is stamped. */
  function DetailOf(registry: Registry, source: Option<string>, call: Call): Option<Detail> {
    if !IsCanonical(call) then call.detail
    else
      Composed(Given(IdentityOf(call), call.payload, call.reason, call.refs,
                     WithFiredBy(registry, call.eventType, source, call.context)))
  }

  function SessionOf(call: Call): Option<int> {
    if IdentityOf(call).Some? then Some(IdentityOf(call).value.id) else call.sessionId
  }

  /** The row a call makes. */
  function RowOf(registry: Registry, source: Option<string>, call: Call, id: int, now: int): Event {
    Event(id, call.eventType, call.summary, call.severity, call.actor, SessionOf(call),
          DetailOf(registry, source, call), call.correlation, now)
  }

  /** Why a call is refused, if it is: two styles at once, or in strict mode
      a detail that breaks its schema. */
  function RefusalOf(setting: Setting, source: Option<string>, call: Call): Option<Refusal> {
    if IsCanonical(call) && call.detail.Some? then Some(BothStyles)
    else
      var violation := Validate(setting.registry, call.eventType, DetailOf(setting.registry, source, call));
      if setting.strict && violation.Some? then Some(Violates(violation.value)) else None
  }

  /** A call is refused exactly for mixing the two styles, or in strict mode
      for a detail that its type may not carry. */
  lemma RefusedExactly(setting: Setting, source: Option<string>, call: Call)
    ensures RefusalOf(setting, source, call).Some? <==>
            IsMixed(call) || (setting.strict && !Carries(setting.registry, source, call))
    ensures RefusalOf(setting, source, call) == Some(BothStyles) <==> IsMixed(call)
  {
    hide DetailOf, IsWellShaped, Validate;
    ValidateExactly(setting.registry, call.eventType, DetailOf(setting.registry, source, call));
  }

  /** Both styles at once. */
  predicate IsMixed(call: Call) {
    && call.detail.Some?
    && (call.session != NotGiven || call.payload != None || call.reason != None || call.refs != None
        || call.context != None)
  }

  /** No detail, or one the call's type may carry. */
  ghost predicate Carries(registry: Registry, source: Option<string>, call: Call) {
    var detail := DetailOf(registry, source, call);
    detail.None? || MayCarry(registry, call.eventType, detail.value)
  }

  /** A table with one more row. */
  function Added(table: Table, e: Event): Table {
    Table(table.rows + [e], e.id)
  }

  // ---------------------------------------------------------------------
  // The extract event
  // ---------------------------------------------------------------------

  const EXTRACTED := "session.audit_log_extracted"

  /** The arguments of `record_audit_log_extract`. */
  datatype Extract = Extract(session: Identity, actor: int, filters: Filters)

  function Summary(x: Extract, rows: nat): string {
    "Extracted Audit log CSV for session " + x.session.code + " (" + Words.Decimal(rows) + " rows"
    + (if IsActive(x.filters) then ", filtered" else "") + ")"
  }

  /** The call an extract makes when it records `rows`. */
  function ExtractCall(x: Extract, rows: nat): Call {
    Call(EXTRACTED, Summary(x, rows), Some(x.actor), Session(Some(x.session)), None, "info", Some(RowCount(rows)), None,
         None, if AsAuditContext(x.filters) == map[] then None else Some(AsAuditContext(x.filters)), None, None)
  }

  lemma CallOfExtract(x: Extract, rows: nat)
    ensures var described := AsAuditContext(x.filters);
            ExtractCall(x, rows) ==
            Call(EXTRACTED, Summary(x, rows), Some(x.actor), Session(Some(x.session)), None, "info",
                 Some(RowCount(rows)), None, None, if described == map[] then None else Some(described), None, None)
  {
  }

  /** How many rows the filter keeps of the table. */
  function RowsKept(setting: Setting, x: Extract, rows: seq<Event>): nat {
    Count(x.session.id, x.filters, setting.emails, rows)
  }

  /** An extract's row that tells the truth: it records the number of rows
      the filter keeps once the row itself is in the table. */
  predicate CountsItself(setting: Setting, source: Option<string>, before: seq<Event>, x: Extract, e: Event, rows: nat)
  {
    && e == RowOf(setting.registry, source, ExtractCall(x, rows), e.id, e.createdAt)
    && rows == RowsKept(setting, x, before + [e])
  }

  lemma KeepsReadsNoId(session: int, f: Filters, emails: map<int, string>, e: Event, id: int)
    ensures Keeps(session, f, emails, e.(id := id)) == Keeps(session, f, emails, e)
  {
  }

  /** Whether the filter keeps an extract's row does not hang on the count
      the row records, nor on its id. */
  lemma SameFate(setting: Setting, source: Option<string>, x: Extract, m: nat, id: int, n: nat, other: int, now: int)
    ensures Keeps(x.session.id, x.filters, setting.emails,
                  RowOf(setting.registry, source, ExtractCall(x, m), id, now)) ==
            Keeps(x.session.id, x.filters, setting.emails,
                  RowOf(setting.registry, source, ExtractCall(x, n), other, now))
  {
    hide DetailOf, Summary, Keeps;
    var e := RowOf(setting.registry, source, ExtractCall(x, m), id, now);
    var f := RowOf(setting.registry, source, ExtractCall(x, n), other, now);
    KeepsReadsNoId(x.session.id, x.filters, setting.emails, e, other);
    KeepsReadsNoText(x.session.id, x.filters, setting.emails, e.(id := other), f.summary, f.detail);
  }

  /** There is one count an extract can truthfully record. */
  lemma OneTrueCount(setting: Setting, source: Option<string>, before: seq<Event>, x: Extract, e: Event, m: nat,
                     f: Event, n: nat)
    requires CountsItself(setting, source, before, x, e, m) && CountsItself(setting, source, before, x, f, n)
    requires e.createdAt == f.createdAt
    ensures m == n
  {
    hide RowOf, Keeps, Selected;
    CountOneMore(x.session.id, x.filters, setting.emails, before, e);
    CountOneMore(x.session.id, x.filters, setting.emails, before, f);
    SameFate(setting, source, x, m, e.id, n, f.id, e.createdAt);
  }

  // ---------------------------------------------------------------------
  // One operation on a table
  // ---------------------------------------------------------------------

  function WriteEffect(setting: Setting, source: Option<string>, table: Table, call: Call, now: int):
    (Table, Option<Refusal>)
  {
    var refusal := RefusalOf(setting, source, call);
    if refusal.Some? then (table, refusal)
    else (Added(table, RowOf(setting.registry, source, call, table.issued + 1, now)), None)
  }

  /** The count an extract records: the filter's rows so far, and its own if
      the filter keeps it. */
  function TrueCount(setting: Setting, source: Option<string>, table: Table, x: Extract, now: int): nat {
    var bare := RowOf(setting.registry, source, ExtractCall(x, 0), table.issued + 1, now);
    RowsKept(setting, x, table.rows) + if Keeps(x.session.id, x.filters, setting.emails, bare) then 1 else 0
  }

  /** An extract writes the event with the true count, in one step. */
  function ExtractEffect(setting: Setting, source: Option<string>, table: Table, x: Extract, now: int):
    (Table, Option<Refusal>)
  {
    WriteEffect(setting, source, table, ExtractCall(x, TrueCount(setting, source, table, x, now)), now)
  }

  /** What is recorded is the truth. */
  lemma RecordsTheTruth(setting: Setting, source: Option<string>, table: Table, x: Extract, now: int)
    ensures var rows := TrueCount(setting, source, table, x, now);
            CountsItself(setting, source, table.rows, x,
                         RowOf(setting.registry, source, ExtractCall(x, rows), table.issued + 1, now), rows)
  {
    hide RowOf, Keeps, Selected;
    var rows := TrueCount(setting, source, table, x, now);
    var e := RowOf(setting.registry, source, ExtractCall(x, rows), table.issued + 1, now);
    SameFate(setting, source, x, 0, table.issued + 1, rows, table.issued + 1, now);
    CountOneMore(x.session.id, x.filters, setting.emails, table.rows, e);
    RowKeepsIdAndTime(setting.registry, source, ExtractCall(x, rows), table.issued + 1, now);
  }

  lemma RowKeepsIdAndTime(registry: Registry, source: Option<string>, call: Call, id: int, now: int)
    ensures RowOf(registry, source, call, id, now).id == id && RowOf(registry, source, call, id, now).createdAt == now
  {
  }

  /** An extract's detail, whatever it counts, is the same detail recounted;
      so what refuses one count refuses them all. */
  lemma ExtractDetail(registry: Registry, source: Option<string>, x: Extract, before: nat, after: nat)
    ensures DetailOf(registry, source, ExtractCall(x, after)) ==
            Recounted(DetailOf(registry, source, ExtractCall(x, before)), after)
  {
    hide Composed, WithFiredBy, Recounted, Summary, RowCount;
    hide AsAuditContext;
    var call := ExtractCall(x, before);
    var context := WithFiredBy(registry, EXTRACTED, source, call.context);
    RecountedIsComposed(Given(Some(x.session), call.payload, None, None, context), before, after);
  }

  lemma OneRefusal(setting: Setting, source: Option<string>, x: Extract, before: nat, after: nat)
    ensures RefusalOf(setting, source, ExtractCall(x, before)) == RefusalOf(setting, source, ExtractCall(x, after))
  {
    hide Validate, DetailOf, Recounted, Summary, RowCount;
    ExtractDetail(setting.registry, source, x, 0, before);
    ExtractDetail(setting.registry, source, x, 0, after);
    CountDecidesNothing(setting.registry, EXTRACTED, DetailOf(setting.registry, source, ExtractCall(x, 0)), before,
                        after);
  }

  // ---------------------------------------------------------------------
  // The log
  // ---------------------------------------------------------------------

  /** Pieces of a run: events, extracts, other code that raises, one thing
      after another, a `fired_by` block, and a caller that catches. */
  datatype Script =
    | Write(call: Call, now: int)
    | Record(extract: Extract, now: int)
    | Raise
    | Then(first: Script, second: Script)
    | FiredBy(who: string, body: Script)
    | Attempt(body: Script)

  /** What a run does to the table and whether it raises, with the source in
      force handed down to each block's body and to nothing else. */
  function Effect(setting: Setting, source: Option<string>, table: Table, script: Script): (Table, bool)
    decreases script
  {
    match script
    case Write(call, now) =>
      var (after, refusal) := WriteEffect(setting, source, table, call, now);
      (after, refusal.Some?)
    case Record(extract, now) =>
      var (after, refusal) := ExtractEffect(setting, source, table, extract, now);
      (after, refusal.Some?)
    case Raise => (table, true)
    case Then(first, second) =>
      var (after, raised) := Effect(setting, source, table, first);
      if raised then (after, true) else Effect(setting, source, after, second)
    case FiredBy(who, body) => Effect(setting, Some(who), table, body)
    case Attempt(body) => (Effect(setting, source, table, body).0, false)
  }

  /** An extract that was not refused: where its row stands, and the source
      in force. */
  datatype Executed = Executed(at: nat, source: Option<string>, extract: Extract)

  /** The extracts a run records, in order. */
  function Executes(setting: Setting, source: Option<string>, table: Table, script: Script): seq<Executed>
    decreases script
  {
    match script
    case Write(_, _) => []
    case Record(extract, now) =>
      if ExtractEffect(setting, source, table, extract, now).1.Some? then []
      else [Executed(|table.rows|, source, extract)]
    case Raise => []
    case Then(first, second) =>
      var (after, raised) := Effect(setting, source, table, first);
      Executes(setting, source, table, first) + if raised then [] else Executes(setting, source, after, second)
    case FiredBy(who, body) => Executes(setting, Some(who), table, body)
    case Attempt(body) => Executes(setting, source, table, body)
  }

  class AuditLog {
    const setting: Setting
    var rows: seq<Event>
    var issued: int
    /** The context variable: who fires what is written now. */
    var source: Option<string>

    constructor (setting: Setting)
      ensures this.setting == setting && rows == [] && issued == 0 && source == None
    {
      this.setting := setting;
      rows, issued, source := [], 0, None;
    }

    function Now(): Table
      reads this
    {
      Table(rows, issued)
    }

    /** `write_event`. */
    method WriteEvent(call: Call, now: int) returns (outcome: Result<Event, Refusal>)
      modifies this`rows, this`issued
      ensures (Now(), if outcome.Err? then Some(outcome.error) else None) ==
              WriteEffect(setting, source, old(Now()), call, now)
      ensures outcome.Ok? ==> outcome.value == RowOf(setting.registry, source, call, issued, now)
      ensures outcome.Err? <==> IsMixed(call) || (setting.strict && !Carries(setting.registry, source, call))
    {
      RefusedExactly(setting, source, call);
      hide MayCarry;
      var session, detail := call.sessionId, call.detail;
      if IsCanonical(call) {
        if call.detail.Some? {
          return Err(BothStyles);
        }
        var context := WithFiredBy(setting.registry, call.eventType, source, call.context);
        var identity := IdentityOf(call);
        session, detail := ComposeCanonical(Given(identity, call.payload, call.reason, call.refs, context));
        if identity.None? && call.sessionId.Some? {
          session := call.sessionId;
        }
      }
      var violation := Validate(setting.registry, call.eventType, detail);
      if violation.Some? && setting.strict {
        return Err(Violates(violation.value));
      }
      issued := issued + 1;
      var event := Event(issued, call.eventType, call.summary, call.severity, call.actor, session, detail,
                         call.correlation, now);
      rows := rows + [event];
      return Ok(event);
    }

    /** `record_audit_log_extract`: writes with the count so far, counts
        again, and patches its own row. The patched detail passes whatever
        the first one passed, so the second check never raises. */
    method RecordExtract(x: Extract, now: int) returns (outcome: Result<nat, Refusal>)
      modifies this`rows, this`issued
      ensures (Now(), if outcome.Err? then Some(outcome.error) else None) ==
              ExtractEffect(setting, source, old(Now()), x, now)
      ensures outcome.Ok? ==> rows != [] && CountsItself(setting, source, old(rows), x, rows[|rows| - 1], outcome.value)
    {
      hide RowOf, Keeps, Selected, RefusalOf, CountsItself, ExtractCall, Summary, Recounted, Validate, TrueCount;
      hide AsAuditContext;
      ghost var before := Now();
      ghost var truth := TrueCount(setting, source, before, x, now);
      var prior := RowsKept(setting, x, rows);
      OneRefusal(setting, source, x, prior, truth);
      var described := DescribeFilters(x.filters);
      CallOfExtract(x, prior);
      var written := WriteEvent(
        Call(EXTRACTED, Summary(x, prior), Some(x.actor), Session(Some(x.session)), None, "info",
             Some(RowCount(prior)), None, None, if described == map[] then None else Some(described), None, None),
        now);
      if written.Err? {
        return Err(written.error);
      }
      var event := written.value;
      RowKeepsIdAndTime(setting.registry, source, ExtractCall(x, prior), before.issued + 1, now);
      RowKeepsIdAndTime(setting.registry, source, ExtractCall(x, truth), before.issued + 1, now);
      var count := RowsKept(setting, x, rows);
      CountedAgain(setting, source, before, x, prior, now);
      RecordsTheTruth(setting, source, before, x, now);
      if count != prior {
        var detail := Recounted(event.detail, count);
        PatchedRow(setting, source, x, prior, count, issued, now);
        assert setting.strict ==> Validate(setting.registry, EXTRACTED, detail).None?;
        event := event.(summary := Summary(x, count), detail := detail);
        rows := rows[|rows| - 1 := event];
        assert rows == before.rows + [event];
      }
      return Ok(count);
    }

    /** A run, with `fired_by` as its `try` and `finally`: set, run the body,
        put back what was there. */
    method Run(script: Script) returns (raised: bool)
      modifies this
      ensures (Now(), raised) == Effect(setting, old(source), old(Now()), script)
      ensures source == old(source)
      decreases script
    {
      match script
      case Write(call, now) =>
        var outcome := WriteEvent(call, now);
        raised := outcome.Err?;
      case Record(extract, now) =>
        var outcome := RecordExtract(extract, now);
        raised := outcome.Err?;
      case Raise =>
        raised := true;
      case Then(first, second) =>
        raised := Run(first);
        if !raised {
          raised := Run(second);
        }
      case FiredBy(who, body) =>
        var token := source;
        source := Some(who);
        raised := Run(body);
        source := token;
      case Attempt(body) =>
        var caught := Run(body);
        raised := false;
    }
  }

  /** The second count, with the row in place, is the true one. */
  lemma CountedAgain(setting: Setting, source: Option<string>, before: Table, x: Extract, prior: nat, now: int)
    ensures RowsKept(setting, x,
                     before.rows + [RowOf(setting.registry, source, ExtractCall(x, prior), before.issued + 1, now)])
            == TrueCount(setting, source, before, x, now)
  {
    hide RowOf, Keeps, Selected;
    var e := RowOf(setting.registry, source, ExtractCall(x, prior), before.issued + 1, now);
    SameFate(setting, source, x, prior, before.issued + 1, 0, before.issued + 1, now);
    CountOneMore(x.session.id, x.filters, setting.emails, before.rows, e);
  }

  /** The row written with the first count, patched, is the row of the call
      with the second; and in strict mode, if it was not refused before, its
      new detail passes. */
  lemma PatchedRow(setting: Setting, source: Option<string>, x: Extract, prior: nat, count: nat, id: int, now: int)
    ensures var was := RowOf(setting.registry, source, ExtractCall(x, prior), id, now);
            && was.(summary := Summary(x, count), detail := Recounted(was.detail, count)) ==
               RowOf(setting.registry, source, ExtractCall(x, count), id, now)
            && (setting.strict && RefusalOf(setting, source, ExtractCall(x, prior)).None? ==>
                Validate(setting.registry, EXTRACTED, Recounted(was.detail, count)).None?)
  {
    hide DetailOf, Summary, Recounted, Validate;
    ExtractDetail(setting.registry, source, x, prior, count);
    ExtractDetail(setting.registry, source, x, prior, prior);
    CountDecidesNothing(setting.registry, EXTRACTED, DetailOf(setting.registry, source, ExtractCall(x, prior)), prior,
                        count);
  }
}
