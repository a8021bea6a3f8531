/** What holds of the audit table after any run (`app/services/audit.py`). */
module AuditRuns {
  import opened Wrappers
  import opened AuditSchema
  import opened JsonValues
  import opened AuditQuery
  import opened AuditLog

  /** From one row on, every stored detail is one its type may carry. */
  ghost predicate Sound(registry: Registry, rows: seq<Event>, from: nat) {
    forall i :: from <= i < |rows| ==> IsSound(registry, rows[i])
  }

  ghost predicate IsSound(registry: Registry, e: Event) {
    e.detail.None? || MayCarry(registry, e.eventType, e.detail.value)
  }

  lemma RowMeaning(registry: Registry, source: Option<string>, call: Call, id: int, now: int)
    ensures var e := RowOf(registry, source, call, id, now);
            e.id == id && e.eventType == call.eventType && e.detail == DetailOf(registry, source, call)
  {
  }

  /** In strict mode no run, whatever its nesting and wherever it raises,
      stores a detail that its type may not carry. */
  lemma {:induction false} StrictRunStaysSound(setting: Setting, source: Option<string>, table: Table, script: Script)
    requires setting.strict
    ensures var after := Effect(setting, source, table, script).0.rows;
            && Sound(setting.registry, after, |table.rows|)
            && (Sound(setting.registry, table.rows, 0) ==> Sound(setting.registry, after, 0))
    decreases script
  {
    hide IsSound, TrueCount, ExtractCall, RowOf, RefusalOf;
    RunExtends(setting, source, table, script);
    match script
    case Write(call, now) =>
      WrittenIsSound(setting, source, table, call, now);
    case Record(x, now) =>
      WrittenIsSound(setting, source, table, ExtractCall(x, TrueCount(setting, source, table, x, now)), now);
    case Raise =>
    case Then(first, second) =>
      StrictRunStaysSound(setting, source, table, first);
      RunExtends(setting, source, table, first);
      var (after, raised) := Effect(setting, source, table, first);
      if !raised {
        StrictRunStaysSound(setting, source, after, second);
        RunExtends(setting, source, after, second);
      }
    case FiredBy(who, body) =>
      StrictRunStaysSound(setting, Some(who), table, body);
    case Attempt(body) =>
      StrictRunStaysSound(setting, source, table, body);
  }

  lemma WrittenIsSound(setting: Setting, source: Option<string>, table: Table, call: Call, now: int)
    requires setting.strict
    ensures WriteEffect(setting, source, table, call, now).1.None? ==>
              IsSound(setting.registry, RowOf(setting.registry, source, call, table.issued + 1, now))
  {
    hide RowOf, MayCarry, DetailOf, RefusalOf;
    RefusedExactly(setting, source, call);
    RowMeaning(setting.registry, source, call, table.issued + 1, now);
  }

  /** Ids rise, and none is beyond the last one given out. */
  predicate Ordered(table: Table) {
    Rising(table.rows) && (table.rows != [] ==> table.rows[|table.rows| - 1].id <= table.issued)
  }

  lemma OneMoreOrdered(setting: Setting, source: Option<string>, table: Table, call: Call, now: int)
    requires Ordered(table)
    ensures var after := Added(table, RowOf(setting.registry, source, call, table.issued + 1, now));
            table.rows <= after.rows && Ordered(after) && table.issued <= after.issued
  {
    hide RowOf;
    RowMeaning(setting.registry, source, call, table.issued + 1, now);
  }

  /** A run only appends: every row there before is there after, in place and
      unchanged, and later rows have later ids. */
  lemma {:induction false} RunOnlyAppends(setting: Setting, source: Option<string>, table: Table, script: Script)
    requires Ordered(table)
    ensures var after := Effect(setting, source, table, script).0;
            table.rows <= after.rows && Ordered(after) && table.issued <= after.issued
    decreases script
  {
    hide RowOf, RefusalOf, Ordered, Added;
    match script
    case Write(call, now) =>
      OneMoreOrdered(setting, source, table, call, now);
    case Record(x, now) =>
      OneMoreOrdered(setting, source, table, ExtractCall(x, TrueCount(setting, source, table, x, now)), now);
    case Raise =>
    case Then(first, second) =>
      RunOnlyAppends(setting, source, table, first);
      var (after, raised) := Effect(setting, source, table, first);
      if !raised {
        RunOnlyAppends(setting, source, after, second);
      }
    case FiredBy(who, body) =>
      RunOnlyAppends(setting, Some(who), table, body);
    case Attempt(body) =>
      RunOnlyAppends(setting, source, table, body);
  }

  // ---------------------------------------------------------------------
  // Extracts
  // ---------------------------------------------------------------------

  /** No other code writes the extract event. */
  predicate LeavesExtractsAlone(script: Script) {
    match script
    case Write(call, _) => call.eventType != EXTRACTED
    case Record(_, _) => true
    case Raise => true
    case Then(first, second) => LeavesExtractsAlone(first) && LeavesExtractsAlone(second)
    case FiredBy(_, body) => LeavesExtractsAlone(body)
    case Attempt(body) => LeavesExtractsAlone(body)
  }

  /** The row an extract wrote says what that extract's own filter keeps of
      the table up to and with the row. */
  predicate Honest(setting: Setting, rows: seq<Event>, done: Executed) {
    && done.at < |rows|
    && var e := rows[done.at];
       CountsItself(setting, done.source, rows[..done.at], done.extract, e,
                    RowsKept(setting, done.extract, rows[..done.at + 1]))
  }

  lemma HonestLater(setting: Setting, rows: seq<Event>, more: seq<Event>, done: Executed)
    requires Honest(setting, rows, done) && rows <= more
    ensures Honest(setting, more, done)
  {
    hide CountsItself, RowsKept;
    assert more[done.at] == rows[done.at];
    assert more[..done.at] == rows[..done.at] && more[..done.at + 1] == rows[..done.at + 1];
  }

  /** A run leaves the rows before it where they were. */
  lemma {:induction false} RunExtends(setting: Setting, source: Option<string>, table: Table, script: Script)
    ensures table.rows <= Effect(setting, source, table, script).0.rows
    decreases script
  {
    hide RowOf, RefusalOf, TrueCount, ExtractCall;
    match script
    case Write(call, now) =>
    case Record(x, now) =>
    case Raise =>
    case Then(first, second) =>
      RunExtends(setting, source, table, first);
      var (after, raised) := Effect(setting, source, table, first);
      if !raised {
        RunExtends(setting, source, after, second);
      }
    case FiredBy(who, body) =>
      RunExtends(setting, Some(who), table, body);
    case Attempt(body) =>
      RunExtends(setting, source, table, body);
  }

  lemma RecordedIsHonest(setting: Setting, source: Option<string>, table: Table, x: Extract, now: int)
    requires ExtractEffect(setting, source, table, x, now).1.None?
    ensures Honest(setting, ExtractEffect(setting, source, table, x, now).0.rows, Executed(|table.rows|, source, x))
  {
    hide RowOf, RefusalOf, TrueCount, ExtractCall, RowsKept;
    RecordsTheTruth(setting, source, table, x, now);
    var rows := TrueCount(setting, source, table, x, now);
    var e := RowOf(setting.registry, source, ExtractCall(x, rows), table.issued + 1, now);
    var after := table.rows + [e];
    assert ExtractEffect(setting, source, table, x, now).0.rows == after;
    assert after[..|table.rows|] == table.rows && after[..|table.rows| + 1] == after;
  }

  /** Every extract a run records, whatever else the run does and however it
      raises, leaves a row that counts exactly what that extract's filter
      keeps of the table up to and with the row. */
  lemma {:induction false} ExtractsStayHonest(setting: Setting, source: Option<string>, table: Table, script: Script)
    ensures forall done :: done in Executes(setting, source, table, script) ==>
              |table.rows| <= done.at && Honest(setting, Effect(setting, source, table, script).0.rows, done)
    decreases script
  {
    hide RowOf, RefusalOf, TrueCount, ExtractCall, Honest, WriteEffect, ExtractEffect;
    match script
    case Write(call, now) =>
    case Record(x, now) =>
      if ExtractEffect(setting, source, table, x, now).1.None? {
        RecordedIsHonest(setting, source, table, x, now);
      }
    case Raise =>
    case Then(first, second) =>
      ExtractsStayHonest(setting, source, table, first);
      RunExtends(setting, source, table, first);
      var (after, raised) := Effect(setting, source, table, first);
      if !raised {
        ExtractsStayHonest(setting, source, after, second);
        RunExtends(setting, source, after, second);
        forall done | done in Executes(setting, source, table, first)
          ensures Honest(setting, Effect(setting, source, after, second).0.rows, done)
        {
          HonestLater(setting, after.rows, Effect(setting, source, after, second).0.rows, done);
        }
      }
    case FiredBy(who, body) =>
      ExtractsStayHonest(setting, Some(who), table, body);
    case Attempt(body) =>
      ExtractsStayHonest(setting, source, table, body);
  }

  lemma CountInDetail(registry: Registry, source: Option<string>, x: Extract, rows: nat)
    ensures var detail := DetailOf(registry, source, ExtractCall(x, rows));
            detail.Some? && Counts in detail.value && detail.value[Counts] == Body(RowCount(rows))
  {
    hide Body, AsAuditContext, WithFiredBy, Parts;
    var call := ExtractCall(x, rows);
    var g := Given(IdentityOf(call), call.payload, None, None,
                   WithFiredBy(registry, call.eventType, source, call.context));
    assert Part(g, Counts) == Some(Body(RowCount(rows)));
    assert Counts in Parts(g);
  }

  lemma {:induction false} SameSelection(session: int, f: Filters, g: Filters, emails: map<int, string>,
                                         rows: seq<Event>)
    requires forall e :: Keeps(session, f, emails, e) == Keeps(session, g, emails, e)
    ensures Selected(session, f, emails, rows) == Selected(session, g, emails, rows)
  {
    hide Keeps;
    if rows != [] {
      SameSelection(session, f, g, emails, rows[..|rows| - 1]);
    }
  }

  /** What an extract's row says of its filter: its context, without the
      stamp. */
  function FilterContext(e: Event): map<string, Json> {
    var detail := Entries(e.detail);
    if Context in detail && detail[Context].Dict? then detail[Context].fields - {FIRED_BY} else map[]
  }

  lemma DescriptionIsUnstamped(f: Filters)
    ensures FIRED_BY !in AsAuditContext(f)
  {
    hide AsAuditContext, Described;
    DescriptionSays(f);
    var stamp := FIRED_BY;
    assert |stamp| == 8;
    forall key ensures |KeyText(key)| > 8 {
    }
  }

  /** The row carries its filter's description, stamped or not. */
  lemma ContextInDetail(registry: Registry, source: Option<string>, x: Extract, rows: nat, e: Event)
    requires e.detail == DetailOf(registry, source, ExtractCall(x, rows))
    ensures FilterContext(e) == AsAuditContext(x.filters)
  {
    hide Body, AsAuditContext, Parts;
    DescriptionIsUnstamped(x.filters);
    var said := AsAuditContext(x.filters);
    var call := ExtractCall(x, rows);
    var context := WithFiredBy(registry, call.eventType, source, call.context);
    var g := Given(IdentityOf(call), call.payload, None, None, context);
    ComposedEntries(g);
    assert Entries(e.detail) == Parts(g);
    if Stamps(registry, call.eventType, source) {
      assert FIRED_BY in context.value;
      assert context.value - {FIRED_BY} == said;
      assert Part(g, Context) == Some(Dict(context.value));
      assert Context in Parts(g);
    } else if said != map[] {
      assert said - {FIRED_BY} == said;
      assert Part(g, Context) == Some(Dict(said));
      assert Context in Parts(g);
    } else {
      assert Part(g, Context) == None;
      assert Context !in Parts(g);
    }
  }

  /** Whoever reads a filter off such a row's context counts, for the row's
      session, the number the row records. */
  lemma RowSpeaksForItself(setting: Setting, rows: seq<Event>, done: Executed, read: Filters)
    requires Honest(setting, rows, done)
    requires IsReadable(read) && IsReadable(done.extract.filters)
    requires read.zone.name == done.extract.filters.zone.name ==> read.zone == done.extract.filters.zone
    requires AsAuditContext(read) == FilterContext(rows[done.at])
    ensures var e := rows[done.at];
            && e.sessionId.Some? && Counts in Entries(e.detail)
            && Entries(e.detail)[Counts] ==
               Body(RowCount(Count(e.sessionId.value, read, setting.emails, rows[..done.at + 1])))
  {
    hide Keeps, Selected, IsReadable, AsAuditContext, Body, DetailOf, FilterContext;
    var x, e := done.extract, rows[done.at];
    var kept := RowsKept(setting, x, rows[..done.at + 1]);
    CountInDetail(setting.registry, done.source, x, kept);
    ContextInDetail(setting.registry, done.source, x, kept, e);
    forall e: Event
      ensures Keeps(x.session.id, x.filters, setting.emails, e) == Keeps(x.session.id, read, setting.emails, e)
    {
      DescriptionNamesFilter(x.filters, read, x.session.id, setting.emails, e);
    }
    SameSelection(x.session.id, x.filters, read, setting.emails, rows[..done.at + 1]);
  }

  /** The row at `i` is one an extract of the run wrote. */
  ghost predicate IsExecuted(setting: Setting, source: Option<string>, table: Table, script: Script, i: int) {
    exists done :: done in Executes(setting, source, table, script) && done.at == i
  }

  /** And where no other code writes that event type, every extract event a
      run adds is one of those. */
  lemma {:induction false} ExtractsAreExecuted(setting: Setting, source: Option<string>, table: Table, script: Script)
    requires LeavesExtractsAlone(script)
    ensures var after := Effect(setting, source, table, script).0.rows;
            forall i :: |table.rows| <= i < |after| && after[i].eventType == EXTRACTED ==>
              IsExecuted(setting, source, table, script, i)
    decreases script
  {
    hide RowOf, RefusalOf, TrueCount, ExtractCall;
    match script
    case Write(call, now) =>
      RowMeaning(setting.registry, source, call, table.issued + 1, now);
    case Record(x, now) =>
      var done := Executed(|table.rows|, source, x);
      assert ExtractEffect(setting, source, table, x, now).1.None? ==>
          done in Executes(setting, source, table, script);
    case Raise =>
    case Then(first, second) =>
      ExtractsAreExecuted(setting, source, table, first);
      var (after, raised) := Effect(setting, source, table, first);
      RunExtends(setting, source, table, first);
      if !raised {
        ExtractsAreExecuted(setting, source, after, second);
        RunExtends(setting, source, after, second);
        ExecutedThen(setting, source, table, first, second);
      }
    case FiredBy(who, body) =>
      ExtractsAreExecuted(setting, Some(who), table, body);
      assert forall i :: IsExecuted(setting, Some(who), table, body, i) ==>
          IsExecuted(setting, source, table, script, i);
    case Attempt(body) =>
      ExtractsAreExecuted(setting, source, table, body);
      assert forall i :: IsExecuted(setting, source, table, body, i) ==> IsExecuted(setting, source, table, script, i);
  }

  lemma ExecutedThen(setting: Setting, source: Option<string>, table: Table, first: Script, second: Script)
    requires !Effect(setting, source, table, first).1
    ensures var after := Effect(setting, source, table, first).0;
            forall i ::
              IsExecuted(setting, source, table, first, i) || IsExecuted(setting, source, after, second, i) ==>
              IsExecuted(setting, source, table, Then(first, second), i)
  {
    hide Effect;
    var after := Effect(setting, source, table, first).0;
    assert Executes(setting, source, table, Then(first, second)) ==
           Executes(setting, source, table, first) + Executes(setting, source, after, second);
  }

  // ---------------------------------------------------------------------
  // fired_by
  // ---------------------------------------------------------------------

  /** Inside a block a canonical call whose schema allows a context carries
      the block's source and is otherwise the same; every other call,
      legacy-style ones included, is untouched. */
  lemma StampedExactly(registry: Registry, who: string, call: Call)
    ensures var plain := Entries(DetailOf(registry, None, call));
            var stamped := DetailOf(registry, Some(who), call);
            if IsCanonical(call) && Stamps(registry, call.eventType, Some(who)) then
              && stamped.Some? && Context in stamped.value && stamped.value[Context].Dict?
              && var context := if call.context.Some? then call.context.value else map[];
              && stamped.value == plain[Context := Dict(context[FIRED_BY := Text(who)])]
            else stamped == DetailOf(registry, None, call)
  {
    if IsCanonical(call) && Stamps(registry, call.eventType, Some(who)) {
      hide Part, Parts;
      var g := Given(IdentityOf(call), call.payload, call.reason, call.refs, call.context);
      var context := (if call.context.Some? then call.context.value else map[])[FIRED_BY := Text(who)];
      assert FIRED_BY in context;
      StampedParts(g, context);
      ComposedEntries(g);
      assert Context in Parts(g.(context := Some(context)));
    }
  }

  /** A call with only a type and a summary is no canonical one, and carries
      no stamp even where its schema allows a context. */
  lemma BareCallIsUnmarked(registry: Registry, who: string, eventType: string, summary: string)
    requires Stamps(registry, eventType, Some(who))
    ensures var call := Call(eventType, summary, None, NotGiven, None, "info", None, None, None, None, None, None);
            DetailOf(registry, Some(who), call) == None
  {
  }

  /** A stamp refuses no call that passes under any other source. */
  lemma StampRefusesNothing(setting: Setting, who: string, source: Option<string>, call: Call)
    ensures RefusalOf(setting, Some(who), call).Some? ==> RefusalOf(setting, source, call).Some?
  {
    hide Validate, Composed;
    var name, context := call.eventType, call.context;
    var under := WithFiredBy(setting.registry, name, source, context);
    StampKeepsValidity(setting.registry, name, Some(who),
                       Given(IdentityOf(call), call.payload, call.reason, call.refs, under));
    StampsOver(setting.registry, name, Some(who), source, context);
  }

  /** The inner stamp replaces the outer one. */
  lemma StampsOver(registry: Registry, eventType: string, inner: Option<string>, outer: Option<string>,
                   context: Option<map<string, Json>>)
    requires inner.Some?
    ensures WithFiredBy(registry, eventType, inner, WithFiredBy(registry, eventType, outer, context)) ==
            WithFiredBy(registry, eventType, inner, context)
  {
    if Stamps(registry, eventType, inner) && outer.Some? {
      var given := if context.Some? then context.value else map[];
      var stamp := Text(inner.value);
      assert given[FIRED_BY := Text(outer.value)][FIRED_BY := stamp] == given[FIRED_BY := stamp];
    }
  }

  /** Wrapping any run in a `fired_by` block, under any outer source or none,
      never makes it raise. */
  lemma {:induction false} BlockBreaksNoRun(setting: Setting, who: string, source: Option<string>, table: Table,
                                            other: Table, script: Script)
    ensures Effect(setting, Some(who), table, script).1 ==> Effect(setting, source, other, script).1
    decreases script
  {
    hide RowOf, RefusalOf, ExtractCall;
    match script
    case Write(call, now) =>
      StampRefusesNothing(setting, who, source, call);
    case Record(x, now) =>
      var m, n := TrueCount(setting, Some(who), table, x, now), TrueCount(setting, source, other, x, now);
      StampRefusesNothing(setting, who, source, ExtractCall(x, m));
      OneRefusal(setting, source, x, m, n);
    case Raise =>
    case Then(first, second) =>
      BlockBreaksNoRun(setting, who, source, table, other, first);
      BlockBreaksNoRun(setting, who, source, Effect(setting, Some(who), table, first).0,
                       Effect(setting, source, other, first).0, second);
    case FiredBy(inner, body) =>
      SameRaise(setting, Some(inner), table, other, body);
    case Attempt(body) =>
  }

  /** Whether a run raises does not hang on what is in the table. */
  lemma {:induction false} SameRaise(setting: Setting, source: Option<string>, table: Table, other: Table,
                                     script: Script)
    ensures Effect(setting, source, table, script).1 == Effect(setting, source, other, script).1
    decreases script
  {
    hide RowOf, RefusalOf, ExtractCall;
    match script
    case Write(call, now) =>
    case Record(x, now) =>
      OneRefusal(setting, source, x, TrueCount(setting, source, table, x, now),
                 TrueCount(setting, source, other, x, now));
    case Raise =>
    case Then(first, second) =>
      SameRaise(setting, source, table, other, first);
      SameRaise(setting, source, Effect(setting, source, table, first).0, Effect(setting, source, other, first).0,
                second);
    case FiredBy(who, body) =>
      SameRaise(setting, Some(who), table, other, body);
    case Attempt(body) =>
  }
}
