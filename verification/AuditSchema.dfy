/** What an audit event's detail is made of, and the check it must pass
    (`app/services/audit.py`). */
module AuditSchema {
  import opened JsonValues
  import opened Wrappers

  /** A top-level key of a detail: one of the nine the shape names, or any
      other. */
  datatype Slot =
    | SessionId | SessionCode
    | Changes | Snapshot | Counts | SetChanges
    | Reason | Refs | Context
    | Other(name: string)

  const SLOTS: set<Slot> := {SessionId, SessionCode, Changes, Snapshot, Counts, SetChanges, Reason, Refs, Context}

  type Detail = map<Slot, Json>

  /** The registered event types with the slots each allows, and the integer
      the shape check reads from a text, if any. */
  datatype Registry = Registry(allows: map<string, set<Slot>>, whole: string -> Option<int>)

  datatype Violation = BadShape | Unregistered | NotAllowed

  // ---------------------------------------------------------------------
  // validate_detail
  // ---------------------------------------------------------------------

  /** A value where the shape asks for an integer. */
  function IntOf(registry: Registry, v: Json): Option<int> {
    match v
    case Int(n) => Some(n)
    case Bool(flag) => Some(if flag then 1 else 0)
    case Real(r) => if r == r.Floor as real then Some(r.Floor) else None
    case Text(text) => registry.whole(text)
    case _ => None
  }

  predicate IsScalar(registry: Registry, v: Json) {
    v.Text? || IntOf(registry, v).Some?
  }

  predicate EndsInId(key: string) {
    |key| >= 3 && key[|key| - 3..] == "_id"
  }

  predicate IsRecords(v: Json) {
    v.List? && forall item :: item in v.items ==> item.Dict?
  }

  /** The shape of one slot's value. */
  predicate Shaped(registry: Registry, slot: Slot, v: Json) {
    match slot
    case SessionId => v.Null? || IntOf(registry, v).Some?
    case SessionCode => v.Null? || v.Text?
    case Changes => v.Null? || (v.Dict? && forall k :: k in v.fields ==> v.fields[k].List?)
    case Snapshot => v.Null? || v.Dict?
    case Counts =>
      v.Null? || (v.Dict? && forall k :: k in v.fields ==>
        var count := IntOf(registry, v.fields[k]); count.Some? && count.value >= 0)
    case SetChanges =>
      v.Null? || (v.Dict? && forall k :: k in v.fields ==>
        k in {"added", "removed", "updated"} && IsRecords(v.fields[k]))
    case Reason => v.Null? || v.Text?
    case Refs =>
      v.Null? || (v.Dict? && forall k :: k in v.fields ==> EndsInId(k) && IntOf(registry, v.fields[k]).Some?)
    case Context => v.Null? || (v.Dict? && forall k :: k in v.fields ==> IsScalar(registry, v.fields[k]))
    case Other(_) => false
  }

  /** The first thing wrong with a detail, in the order it is looked for. */
  function Validate(registry: Registry, eventType: string, detail: Option<Detail>): Option<Violation> {
    if detail.None? then None
    else if exists slot :: slot in detail.value && !Shaped(registry, slot, detail.value[slot]) then Some(BadShape)
    else if eventType !in registry.allows then Some(Unregistered)
    else if detail.value.Keys <= registry.allows[eventType] then None
    else Some(NotAllowed)
  }

  // ---------------------------------------------------------------------
  // What a detail that passes holds
  // ---------------------------------------------------------------------

  /** A number, or what the shape reads as one: a flag, a whole real, or the
      text of an integer. */
  predicate ReadsAsWhole(registry: Registry, v: Json) {
    || v.Int? || v.Bool?
    || (v.Real? && v.r.Floor as real == v.r)
    || (v.Text? && registry.whole(v.text).Some?)
  }

  predicate ReadsAsNegative(registry: Registry, v: Json) {
    || (v.Int? && v.n < 0) || (v.Real? && v.r < 0.0)
    || (v.Text? && registry.whole(v.text).Some? && registry.whole(v.text).value < 0)
  }

  /** The value under a slot; a missing one reads as null. */
  function At(detail: Detail, slot: Slot): Json {
    if slot in detail then detail[slot] else Null
  }

  /** Only the nine keys, and the plain ones of their shapes: an integer, two
      texts, lists by column, and a record. */
  ghost predicate HasPlainSlots(registry: Registry, detail: Detail) {
    && (forall name :: Other(name) !in detail)
    && (var v := At(detail, SessionId); v.Null? || ReadsAsWhole(registry, v))
    && (var v := At(detail, SessionCode); v.Null? || v.Text?)
    && (var v := At(detail, Reason); v.Null? || v.Text?)
    && (var v := At(detail, Changes); v.Null? || (v.Dict? && forall k :: k in v.fields ==> v.fields[k].List?))
    && (var v := At(detail, Snapshot); v.Null? || v.Dict?)
  }

  /** The others of theirs: counts that are not negative, records added,
      removed, or updated, refs by keys that end in `_id`, and a context of
      scalars. */
  ghost predicate HasDeepSlots(registry: Registry, detail: Detail) {
    && (var v := At(detail, Counts);
        v.Null? || (v.Dict? && forall k :: k in v.fields ==>
          ReadsAsWhole(registry, v.fields[k]) && !ReadsAsNegative(registry, v.fields[k])))
    && (var v := At(detail, SetChanges);
        v.Null? || (v.Dict? && forall k :: k in v.fields ==>
          && (k == "added" || k == "removed" || k == "updated") && v.fields[k].List?
          && forall i :: 0 <= i < |v.fields[k].items| ==> v.fields[k].items[i].Dict?))
    && (var v := At(detail, Refs);
        v.Null? || (v.Dict? && forall k :: k in v.fields ==>
          (exists stem :: k == stem + "_id") && ReadsAsWhole(registry, v.fields[k])))
    && (var v := At(detail, Context);
        v.Null? || (v.Dict? && forall k :: k in v.fields ==>
          v.fields[k].Text? || ReadsAsWhole(registry, v.fields[k])))
  }

  ghost predicate IsWellShaped(registry: Registry, detail: Detail) {
    HasPlainSlots(registry, detail) && HasDeepSlots(registry, detail)
  }

  /** A detail its event type may carry: of the one shape, under a registered
      type, and with no key beyond those the type allows. */
  ghost predicate MayCarry(registry: Registry, eventType: string, detail: Detail) {
    && IsWellShaped(registry, detail)
    && eventType in registry.allows
    && forall slot :: slot in detail ==> slot in registry.allows[eventType]
  }

  lemma ShapedWhole(registry: Registry, v: Json)
    ensures IntOf(registry, v).Some? <==> ReadsAsWhole(registry, v)
    ensures IntOf(registry, v).Some? ==> (IntOf(registry, v).value < 0 <==> ReadsAsNegative(registry, v))
  {
  }

  lemma ShapedRefKey(k: string)
    ensures EndsInId(k) <==> exists stem :: k == stem + "_id"
  {
    if EndsInId(k) {
      assert k == k[..|k| - 3] + "_id";
    }
    forall stem | k == stem + "_id" ensures EndsInId(k) {
    }
  }

  lemma ShapedRecords(v: Json)
    ensures IsRecords(v) <==> v.List? && forall i :: 0 <= i < |v.items| ==> v.items[i].Dict?
  {
    if v.List? {
      assert forall i :: 0 <= i < |v.items| ==> v.items[i] in v.items;
    }
  }

  lemma WellShapedExactly(registry: Registry, detail: Detail)
    ensures IsWellShaped(registry, detail) <==> forall slot :: slot in detail ==> Shaped(registry, slot, detail[slot])
  {
    hide Shaped, IsWellShaped;
    if forall slot :: slot in detail ==> Shaped(registry, slot, detail[slot]) {
      ShapedIsWell(registry, detail);
    }
    if IsWellShaped(registry, detail) {
      forall slot | slot in detail ensures Shaped(registry, slot, detail[slot]) {
        WellIsShaped(registry, detail, slot);
      }
    }
  }

  lemma ShapeWords(registry: Registry)
    ensures forall v: Json :: IntOf(registry, v).Some? <==> ReadsAsWhole(registry, v)
    ensures forall v: Json :: IntOf(registry, v).Some? ==>
              (IntOf(registry, v).value < 0 <==> ReadsAsNegative(registry, v))
    ensures forall v: Json :: IsRecords(v) <==> v.List? && forall i :: 0 <= i < |v.items| ==> v.items[i].Dict?
    ensures forall k: string :: EndsInId(k) <==> exists stem :: k == stem + "_id"
  {
    forall v: Json
      ensures IntOf(registry, v).Some? <==> ReadsAsWhole(registry, v)
      ensures IntOf(registry, v).Some? ==> (IntOf(registry, v).value < 0 <==> ReadsAsNegative(registry, v))
    {
      ShapedWhole(registry, v);
    }
    forall v: Json
      ensures IsRecords(v) <==> v.List? && forall i :: 0 <= i < |v.items| ==> v.items[i].Dict?
    {
      ShapedRecords(v);
    }
    forall k: string ensures EndsInId(k) <==> exists stem :: k == stem + "_id" {
      ShapedRefKey(k);
    }
  }

  lemma ShapedIsWell(registry: Registry, detail: Detail)
    requires forall slot :: slot in detail ==> Shaped(registry, slot, detail[slot])
    ensures IsWellShaped(registry, detail)
  {
    PlainIsWell(registry, detail);
    DeepIsWell(registry, detail);
  }

  lemma PlainIsWell(registry: Registry, detail: Detail)
    requires forall slot :: slot in detail ==> Shaped(registry, slot, detail[slot])
    ensures HasPlainSlots(registry, detail)
  {
    ShapeWords(registry);
    hide IntOf, ReadsAsWhole, ReadsAsNegative, IsRecords, EndsInId;
  }

  lemma DeepIsWell(registry: Registry, detail: Detail)
    requires forall slot :: slot in detail ==> Shaped(registry, slot, detail[slot])
    ensures HasDeepSlots(registry, detail)
  {
    ShapeWords(registry);
    hide IntOf, ReadsAsWhole, ReadsAsNegative, IsRecords, EndsInId;
  }

  lemma WellIsShaped(registry: Registry, detail: Detail, slot: Slot)
    requires IsWellShaped(registry, detail) && slot in detail
    ensures Shaped(registry, slot, detail[slot])
  {
    ShapeWords(registry);
    hide IntOf, ReadsAsWhole, ReadsAsNegative, IsRecords, EndsInId;
  }

  /** The check finds nothing exactly in no detail and in one its type may
      carry, and otherwise says the first fault: its shape, its type, or a
      key the type does not allow. */
  lemma ValidateExactly(registry: Registry, eventType: string, detail: Option<Detail>)
    ensures Validate(registry, eventType, detail) ==
            if detail.None? || MayCarry(registry, eventType, detail.value) then None
            else if !IsWellShaped(registry, detail.value) then Some(BadShape)
            else if eventType !in registry.allows then Some(Unregistered)
            else Some(NotAllowed)
  {
    if detail.Some? {
      WellShapedExactly(registry, detail.value);
      hide Shaped, IsWellShaped;
      assert eventType in registry.allows ==>
          (detail.value.Keys <= registry.allows[eventType] <==>
           forall slot :: slot in detail.value ==> slot in registry.allows[eventType]);
    }
  }

  // ---------------------------------------------------------------------
  // Composing a detail
  // ---------------------------------------------------------------------

  datatype Payload =
    | ChangesPayload(pairs: map<string, (Json, Json)>)
    | SnapshotPayload(columns: map<string, Json>)
    | CountsPayload(values: map<string, int>)
    | SetChangesPayload(added: seq<map<string, Json>>, removed: seq<map<string, Json>>, updated: seq<map<string, Json>>)

  function Records(items: seq<map<string, Json>>): Json {
    List(seq(|items|, i requires 0 <= i < |items| => Dict(items[i])))
  }

  function Numbers(values: map<string, int>): Json {
    Dict(map k | k in values :: Int(values[k]))
  }

  function SlotOf(payload: Payload): Slot {
    match payload
    case ChangesPayload(_) => Changes
    case SnapshotPayload(_) => Snapshot
    case CountsPayload(_) => Counts
    case SetChangesPayload(_, _, _) => SetChanges
  }

  /** `to_dict`, without its one key. */
  function Body(payload: Payload): Json {
    match payload
    case ChangesPayload(pairs) => Dict(map k | k in pairs :: List([pairs[k].0, pairs[k].1]))
    case SnapshotPayload(columns) => Dict(columns)
    case CountsPayload(values) => Numbers(values)
    case SetChangesPayload(added, removed, updated) =>
      Dict(map["added" := Records(added), "removed" := Records(removed), "updated" := Records(updated)])
  }

  /** What each payload writes: changes as the old value and then the new one,
      a snapshot as it is, counts as integers, and records in their order
      under the name of what befell them. */
  lemma BodyReads(payload: Payload, k: string)
    ensures Body(payload).Dict?
    ensures payload.ChangesPayload? ==>
              && SlotOf(payload) == Changes
              && Body(payload).fields.Keys == payload.pairs.Keys
              && (k in payload.pairs ==>
                    Body(payload).fields[k] == List([payload.pairs[k].0] + [payload.pairs[k].1]))
    ensures payload.SnapshotPayload? ==> SlotOf(payload) == Snapshot && Body(payload).fields == payload.columns
    ensures payload.CountsPayload? ==>
              && SlotOf(payload) == Counts
              && Body(payload).fields.Keys == payload.values.Keys
              && (k in payload.values ==> Body(payload).fields[k] == Int(payload.values[k]))
    ensures payload.SetChangesPayload? ==>
              var fields := Body(payload).fields;
              && SlotOf(payload) == SetChanges
              && fields.Keys == {"added", "removed", "updated"}
              && HoldsRecords(fields["added"], payload.added)
              && HoldsRecords(fields["removed"], payload.removed)
              && HoldsRecords(fields["updated"], payload.updated)
  {
    var added, removed, updated := "added", "removed", "updated";
    assert |added| == 5 && |removed| == |updated| == 7 && removed[0] == 'r' && updated[0] == 'u';
  }

  predicate HoldsRecords(v: Json, records: seq<map<string, Json>>) {
    v.List? && |v.items| == |records| && forall i :: 0 <= i < |records| ==> v.items[i] == Dict(records[i])
  }

  /** A session's row, as far as the log reads it. */
  datatype Identity = Identity(id: int, code: string)

  /** The canonical arguments of a call. */
  datatype Given = Given(session: Option<Identity>, payload: Option<Payload>, reason: Option<string>,
                         refs: Option<map<string, int>>, context: Option<map<string, Json>>)

  /** What goes under each slot, if anything. */
  function Part(g: Given, slot: Slot): Option<Json> {
    match slot
    case SessionId => if g.session.Some? then Some(Int(g.session.value.id)) else None
    case SessionCode => if g.session.Some? then Some(Text(g.session.value.code)) else None
    case Reason => if g.reason.Some? then Some(Text(g.reason.value)) else None
    case Refs => if g.refs.Some? && g.refs.value != map[] then Some(Numbers(g.refs.value)) else None
    case Context => if g.context.Some? && g.context.value != map[] then Some(Dict(g.context.value)) else None
    case Other(_) => None
    case _ => if g.payload.Some? && SlotOf(g.payload.value) == slot then Some(Body(g.payload.value)) else None
  }

  /** The parts that are there, by slot. */
  function Parts(g: Given): (parts: Detail)
    ensures forall slot :: slot in parts <==> Part(g, slot).Some?
    ensures forall slot :: slot in parts ==> Part(g, slot) == Some(parts[slot])
  {
    map slot | slot in SLOTS && Part(g, slot).Some? :: Part(g, slot).value
  }

  function Composed(g: Given): Option<Detail> {
    if Parts(g) == map[] then None else Some(Parts(g))
  }

  /** A detail read as a dict, `detail or {}`. */
  function Entries(detail: Option<Detail>): Detail {
    if detail.Some? then detail.value else map[]
  }

  lemma ComposedEntries(g: Given)
    ensures Entries(Composed(g)) == Parts(g)
  {
  }

  /** A detail that holds exactly a call's parts is its composed one. */
  lemma SameParts(g: Given, body: Detail)
    requires forall slot :: slot in body <==> Part(g, slot).Some?
    requires forall slot :: slot in body ==> Part(g, slot) == Some(body[slot])
    ensures body == Parts(g)
  {
    hide Part;
    assert body.Keys == Parts(g).Keys;
  }

  /** `_compose_canonical`: the session column's value, and the detail. */
  method ComposeCanonical(g: Given) returns (column: Option<int>, detail: Option<Detail>)
    ensures column == if g.session.Some? then Some(g.session.value.id) else None
    ensures detail == Composed(g)
  {
    hide Body, Numbers, Parts;
    var body: Detail := map[];
    if g.session.Some? {
      body := body[SessionId := Int(g.session.value.id)];
      body := body[SessionCode := Text(g.session.value.code)];
    }
    if g.payload.Some? {
      body := body[SlotOf(g.payload.value) := Body(g.payload.value)];
    }
    if g.reason.Some? {
      body := body[Reason := Text(g.reason.value)];
    }
    if g.refs.Some? && g.refs.value != map[] {
      body := body[Refs := Numbers(g.refs.value)];
    }
    if g.context.Some? && g.context.value != map[] {
      body := body[Context := Dict(g.context.value)];
    }
    column := if g.session.Some? then Some(g.session.value.id) else None;
    detail := if body != map[] then Some(body) else None;
    SameParts(g, body);
  }

  // ---------------------------------------------------------------------
  // fired_by
  // ---------------------------------------------------------------------

  const FIRED_BY := "fired_by"

  predicate Stamps(registry: Registry, eventType: string, source: Option<string>) {
    source.Some? && eventType in registry.allows && Context in registry.allows[eventType]
  }

  /** `_with_fired_by`. */
  function WithFiredBy(registry: Registry, eventType: string, source: Option<string>,
                       context: Option<map<string, Json>>):
    Option<map<string, Json>>
  {
    if !Stamps(registry, eventType, source) then context
    else
      var given := if context.Some? then context.value else map[];
      Some(given[FIRED_BY := Text(source.value)])
  }

  /** The stamp never turns a valid detail invalid, and never hides an
      invalid one, save one whose only fault was under `fired_by` itself. */
  lemma StampKeepsValidity(registry: Registry, eventType: string, source: Option<string>, g: Given)
    ensures var stamped := g.(context := WithFiredBy(registry, eventType, source, g.context));
            var sound := g.context.Some? && FIRED_BY in g.context.value ==>
              IsScalar(registry, g.context.value[FIRED_BY]);
            && (Validate(registry, eventType, Composed(g)).None? ==>
                Validate(registry, eventType, Composed(stamped)).None?)
            && (sound && Validate(registry, eventType, Composed(stamped)).None? ==>
                Validate(registry, eventType, Composed(g)).None?)
  {
    if Stamps(registry, eventType, source) {
      hide Part, Parts, Shaped, Validate;
      var context := WithFiredBy(registry, eventType, source, g.context);
      var stamped := g.(context := context);
      assert FIRED_BY in context.value;
      StampedParts(g, context.value);
      ContextShape(registry, g.context, source.value);
      assert Composed(stamped) == Some(Parts(stamped)) by { assert Context in Parts(stamped); }
      ComposedEntries(g);
      OneSlotChanged(registry, eventType, Composed(g), Dict(context.value));
    }
  }

  /** Setting an allowed context keeps a valid detail valid, and if the new
      context is fit only when the old one was, an invalid one invalid. */
  lemma OneSlotChanged(registry: Registry, eventType: string, detail: Option<Detail>, context: Json)
    requires eventType in registry.allows && Context in registry.allows[eventType]
    ensures var was, now := Entries(detail), Entries(detail)[Context := context];
            var before, after := Validate(registry, eventType, detail), Validate(registry, eventType, Some(now));
            var fit := Shaped(registry, Context, context);
            && (before.None? && fit ==> after.None?)
            && ((Context in was && fit ==> Shaped(registry, Context, was[Context])) ==> after.None? ==> before.None?)
  {
    hide Shaped;
    var was, now := Entries(detail), Entries(detail)[Context := context];
    assert now.Keys == was.Keys + {Context};
    assert forall slot :: slot in was && slot != Context ==> now[slot] == was[slot];
  }

  lemma StampedParts(g: Given, context: map<string, Json>)
    requires context != map[]
    ensures var stamped := g.(context := Some(context));
            && Parts(stamped) == Parts(g)[Context := Dict(context)]
            && (Context in Parts(g) <==> g.context.Some? && g.context.value != map[])
            && (Context in Parts(g) ==> Parts(g)[Context] == Dict(g.context.value))
  {
    hide Parts;
    var stamped := g.(context := Some(context));
    forall slot | slot != Context
      ensures Part(stamped, slot) == Part(g, slot)
    {
    }
    assert Part(stamped, Context) == Some(Dict(context));
    SameParts(stamped, Parts(g)[Context := Dict(context)]);
  }

  lemma ContextShape(registry: Registry, context: Option<map<string, Json>>, source: string)
    ensures var given := if context.Some? then context.value else map[];
            var stamped := given[FIRED_BY := Text(source)];
            var sound := FIRED_BY in given ==> IsScalar(registry, given[FIRED_BY]);
            && (Shaped(registry, Context, Dict(given)) ==> Shaped(registry, Context, Dict(stamped)))
            && (sound && Shaped(registry, Context, Dict(stamped)) ==> Shaped(registry, Context, Dict(given)))
  {
    var given := if context.Some? then context.value else map[];
    var stamped := given[FIRED_BY := Text(source)];
    assert forall k :: k in given && k != FIRED_BY ==> k in stamped && stamped[k] == given[k];
  }

  // ---------------------------------------------------------------------
  // Recounting
  // ---------------------------------------------------------------------

  function RowCount(rows: int): Payload {
    CountsPayload(map["rows" := rows])
  }

  /** A detail with its counts replaced by one count of rows. */
  function Recounted(detail: Option<Detail>, rows: int): Option<Detail> {
    Some(Entries(detail)[Counts := Body(RowCount(rows))])
  }

  /** Replacing the count gives the detail composed with the new count. */
  lemma RecountedIsComposed(g: Given, before: int, after: int)
    requires g.payload == Some(RowCount(before))
    ensures Recounted(Composed(g), after) == Composed(g.(payload := Some(RowCount(after))))
  {
    hide Body, Parts;
    var again := g.(payload := Some(RowCount(after)));
    ComposedEntries(g);
    SameParts(again, Parts(g)[Counts := Body(RowCount(after))]);
    assert Counts in Parts(again);
  }

  lemma CountShaped(registry: Registry, rows: nat)
    ensures Shaped(registry, Counts, Body(RowCount(rows)))
  {
  }

  /** One count's value, as long as it is not negative, decides nothing. */
  lemma CountDecidesNothing(registry: Registry, eventType: string, detail: Option<Detail>, before: nat, after: nat)
    ensures Validate(registry, eventType, Recounted(detail, before)) ==
            Validate(registry, eventType, Recounted(detail, after))
  {
    hide Shaped, Body;
    CountShaped(registry, before);
    CountShaped(registry, after);
    var was, now := Recounted(detail, before).value, Recounted(detail, after).value;
    assert was.Keys == now.Keys;
    assert forall slot :: slot in was ==> (Shaped(registry, slot, was[slot]) <==> Shaped(registry, slot, now[slot]));
  }
}
