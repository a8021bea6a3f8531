/** The self-review backfill `b4e8c2a9d1f6`: the two-pass classifier of one
    session's assignments, against the whole-group rule. */
module SelfReview {
  import opened Wrappers
  import opened Text
  import opened Ordering

  /** One of three tag slots. */
  type Slot = n: nat | n < 3

  datatype Source = RevieweeTag(slot: Slot) | PairContext(slot: Slot)

  type Tags = t: seq<Option<string>> | |t| == 3 witness [None, None, None]

  /** One assignment with what its joins bring. */
  datatype Row = Row(
    id: int,
    reviewer: int,
    reviewee: int,
    instrument: int,
    reviewerEmail: string,
    revieweeIdentifier: string,
    tags: Tags,
    groupKind: Option<string>)

  type Relationships = map<(int, int), Tags>

  // ---------------------------------------------------------------------
  // Group kinds and keys
  // ---------------------------------------------------------------------

  function SourceOf(code: string): Option<Source> {
    if code == "r1" then Some(RevieweeTag(0))
    else if code == "r2" then Some(RevieweeTag(1))
    else if code == "r3" then Some(RevieweeTag(2))
    else if code == "p1" then Some(PairContext(0))
    else if code == "p2" then Some(PairContext(1))
    else if code == "p3" then Some(PairContext(2))
    else None
  }

  lemma NamesNothing(code: string)
    ensures code == "both" || code == "" ==> SourceOf(code).None?
  {
  }

  /** The sources a group kind's codes name, in order; `both`, an empty code
      and an unknown one name none. */
  function Sources(codes: seq<string>): seq<Source> {
    if codes == [] then []
    else
      var source := SourceOf(Strip(codes[|codes| - 1]));
      Sources(codes[..|codes| - 1]) + if source.Some? then [source.value] else []
  }

  function Boundary(groupKind: Option<string>): seq<Source> {
    if groupKind.None? then [] else Sources(Split(groupKind.value, ','))
  }

  method DecodeGroupKind(groupKind: Option<string>) returns (sources: seq<Source>)
    ensures sources == Boundary(groupKind)
  {
    hide Strip, Split;
    if groupKind.None? {
      return [];
    }
    var codes := Split(groupKind.value, ',');
    sources := [];
    for i := 0 to |codes|
      invariant sources == Sources(codes[..i])
    {
      assert codes[..i + 1][..i] == codes[..i];
      var code := Strip(codes[i]);
      NamesNothing(code);
      if code == "both" || code == "" {
        continue;
      }
      var source := SourceOf(code);
      if source.Some? {
        sources := sources + [source.value];
      }
    }
    assert codes[..|codes|] == codes;
  }

  function RawTag(row: Row, source: Source, relationships: Relationships): Option<string>
  {
    match source
    case RevieweeTag(slot) => row.tags[slot]
    case PairContext(slot) =>
      if (row.reviewer, row.reviewee) in relationships then relationships[(row.reviewer, row.reviewee)][slot] else None
  }

  function KeyFrom(row: Row, sources: seq<Source>, relationships: Relationships): seq<string>
  {
    seq(|sources|, i requires 0 <= i < |sources| =>
      var raw := RawTag(row, sources[i], relationships);
      Strip(if raw.None? then "" else raw.value))
  }

  function GroupKey(row: Row, relationships: Relationships): seq<string> {
    KeyFrom(row, Boundary(row.groupKind), relationships)
  }

  predicate IsPair(fold: string -> string, row: Row) {
    '@' in row.revieweeIdentifier && fold(row.reviewerEmail) == fold(row.revieweeIdentifier)
  }

  /** A self pair on a group instrument: the reviewer is a member. */
  predicate IsMember(fold: string -> string, row: Row) {
    row.groupKind.Some? && IsPair(fold, row)
  }

  // ---------------------------------------------------------------------
  // What the two passes compute
  // ---------------------------------------------------------------------

  /** The key the first pass holds for an (instrument, reviewer): the last
      self pair's. */
  function SelfKey(fold: string -> string, rows: seq<Row>, relationships: Relationships,
                   instrument: int, reviewer: int): Option<seq<string>>
  {
    if rows == [] then None
    else
      var last := rows[|rows| - 1];
      if IsMember(fold, last) && last.instrument == instrument && last.reviewer == reviewer then
        Some(GroupKey(last, relationships))
      else SelfKey(fold, rows[..|rows| - 1], relationships, instrument, reviewer)
  }

  predicate IsFlagged(fold: string -> string, rows: seq<Row>, relationships: Relationships, row: Row) {
    if row.groupKind.None? then IsPair(fold, row)
    else SelfKey(fold, rows, relationships, row.instrument, row.reviewer) == Some(GroupKey(row, relationships))
  }

  function FlaggedIds(fold: string -> string, rows: seq<Row>, relationships: Relationships): set<int> {
    set row | row in rows && IsFlagged(fold, rows, relationships, row) :: row.id
  }

  predicate NeedsRelationships(rows: seq<Row>) {
    exists row :: row in rows && exists s :: s in Boundary(row.groupKind) && s.PairContext?
  }

  predicate UniqueIds(rows: seq<Row>) {
    forall i, j :: 0 <= i < j < |rows| ==> rows[i].id != rows[j].id
  }

  /** Leaving the relationships unread when no boundary needs them changes no
      key. */
  lemma UnreadRelationships(rows: seq<Row>, relationships: Relationships)
    requires !NeedsRelationships(rows)
    ensures forall row :: row in rows ==> GroupKey(row, map[]) == GroupKey(row, relationships)
  {
    hide Strip, Boundary;
    forall row | row in rows ensures GroupKey(row, map[]) == GroupKey(row, relationships) {
      var sources := Boundary(row.groupKind);
      forall i | 0 <= i < |sources| ensures GroupKey(row, map[])[i] == GroupKey(row, relationships)[i] {
        assert sources[i] in sources;
        assert !sources[i].PairContext?;
      }
    }
  }

  method KeysByAssignment(rows: seq<Row>, relationships: Relationships) returns (keys: map<int, seq<string>>)
    requires UniqueIds(rows)
    ensures forall row :: row in rows ==>
              && (row.id in keys <==> row.groupKind.Some?)
              && (row.id in keys ==> keys[row.id] == GroupKey(row, relationships))
  {
    hide Strip, Boundary, RawTag;
    keys := map[];
    for i := 0 to |rows|
      invariant forall id :: id in keys ==> exists j :: 0 <= j < i && rows[j].id == id
      invariant forall j :: 0 <= j < i ==>
                  && (rows[j].id in keys <==> rows[j].groupKind.Some?)
                  && (rows[j].id in keys ==> keys[rows[j].id] == GroupKey(rows[j], relationships))
    {
      var row := rows[i];
      var boundary := DecodeGroupKind(row.groupKind);
      if row.groupKind.None? {
        continue;
      }
      var key: seq<string> := [];
      for n := 0 to |boundary|
        invariant key == GroupKey(row, relationships)[..n]
      {
        var raw := RawTag(row, boundary[n], relationships);
        key := key + [Strip(if raw.None? then "" else raw.value)];
      }
      assert key == GroupKey(row, relationships);
      keys := keys[row.id := key];
    }
  }

  method ClassifySession(fold: string -> string, rows: seq<Row>, active: Relationships) returns (flagged: set<int>)
    requires UniqueIds(rows)
    ensures flagged == FlaggedIds(fold, rows, active)
  {
    hide GroupKey, IsPair, NeedsRelationships, IsFlagged;
    if rows == [] {
      return {};
    }
    var relationships: Relationships := map[];
    if NeedsRelationships(rows) {
      relationships := active;
    } else {
      UnreadRelationships(rows, active);
    }
    var keys := KeysByAssignment(rows, relationships);
    var selfKey := FirstPass(fold, rows, active, keys);
    flagged := SecondPass(fold, rows, active, keys, selfKey);
  }

  /** The keys of the group assignments, and of no others. */
  ghost predicate HoldsKeys(rows: seq<Row>, relationships: Relationships, keys: map<int, seq<string>>) {
    forall row :: row in rows ==>
      && (row.id in keys <==> row.groupKind.Some?)
      && (row.id in keys ==> keys[row.id] == GroupKey(row, relationships))
  }

  ghost predicate HoldsSelfKeys(fold: string -> string, rows: seq<Row>, relationships: Relationships,
                                selfKey: map<(int, int), seq<string>>) {
    forall instrument, reviewer ::
      SelfKey(fold, rows, relationships, instrument, reviewer) ==
      if (instrument, reviewer) in selfKey then Some(selfKey[(instrument, reviewer)]) else None
  }

  method FirstPass(fold: string -> string, rows: seq<Row>, ghost relationships: Relationships,
                   keys: map<int, seq<string>>)
    returns (selfKey: map<(int, int), seq<string>>)
    requires HoldsKeys(rows, relationships, keys)
    ensures HoldsSelfKeys(fold, rows, relationships, selfKey)
  {
    hide GroupKey, IsPair;
    selfKey := map[];
    for i := 0 to |rows|
      invariant HoldsSelfKeys(fold, rows[..i], relationships, selfKey)
    {
      var row := rows[i];
      assert rows[..i + 1][..i] == rows[..i];
      assert row in rows;
      if row.id in keys && IsPair(fold, row) {
        selfKey := selfKey[(row.instrument, row.reviewer) := keys[row.id]];
      }
    }
    assert rows[..|rows|] == rows;
  }

  method SecondPass(fold: string -> string, rows: seq<Row>, ghost relationships: Relationships,
                    keys: map<int, seq<string>>, selfKey: map<(int, int), seq<string>>)
    returns (flagged: set<int>)
    requires HoldsKeys(rows, relationships, keys)
    requires HoldsSelfKeys(fold, rows, relationships, selfKey)
    ensures flagged == FlaggedIds(fold, rows, relationships)
  {
    hide GroupKey, IsPair;
    flagged := {};
    for i := 0 to |rows|
      invariant flagged == set row | row in rows[..i] && IsFlagged(fold, rows, relationships, row) :: row.id
    {
      var row := rows[i];
      assert row in rows;
      assert rows[..i + 1] == rows[..i] + [row];
      if row.id !in keys {
        if IsPair(fold, row) {
          flagged := flagged + {row.id};
        }
      } else {
        if (row.instrument, row.reviewer) in selfKey && selfKey[(row.instrument, row.reviewer)] == keys[row.id] {
          flagged := flagged + {row.id};
        }
      }
    }
    assert rows[..|rows|] == rows;
  }

  // ---------------------------------------------------------------------
  // The whole-group rule
  // ---------------------------------------------------------------------

  /** Same instrument, reviewer and group. */
  predicate SameGroup(relationships: Relationships, a: Row, b: Row) {
    && a.groupKind.Some? && b.groupKind.Some?
    && a.instrument == b.instrument && a.reviewer == b.reviewer
    && GroupKey(a, relationships) == GroupKey(b, relationships)
  }

  /** A group is a self-review group when its reviewer is a member of it;
      an individual assignment, when it is a self pair. */
  ghost predicate IsSelfReview(fold: string -> string, rows: seq<Row>, relationships: Relationships, row: Row) {
    if row.groupKind.None? then IsPair(fold, row)
    else exists member :: member in rows && IsMember(fold, member) && SameGroup(relationships, member, row)
  }

  /** No reviewer is a member of two groups of one instrument. */
  ghost predicate OneOwnGroup(fold: string -> string, rows: seq<Row>, relationships: Relationships) {
    forall a, b :: a in rows && b in rows && IsMember(fold, a) && IsMember(fold, b)
                   && a.instrument == b.instrument && a.reviewer == b.reviewer ==>
      GroupKey(a, relationships) == GroupKey(b, relationships)
  }

  lemma {:induction false} SelfKeyIsAMembers(fold: string -> string, rows: seq<Row>, relationships: Relationships,
                                             instrument: int, reviewer: int)
    ensures var key := SelfKey(fold, rows, relationships, instrument, reviewer);
            && (key.Some? ==> exists member :: member in rows && IsMember(fold, member)
                                && member.instrument == instrument && member.reviewer == reviewer
                                && key.value == GroupKey(member, relationships))
            && (key.None? ==> forall member :: member in rows && IsMember(fold, member) ==>
                                member.instrument != instrument || member.reviewer != reviewer)
  {
    if rows != [] {
      var front, last := rows[..|rows| - 1], rows[|rows| - 1];
      assert last in rows;
      if IsMember(fold, last) && last.instrument == instrument && last.reviewer == reviewer {
      } else {
        SelfKeyIsAMembers(fold, front, relationships, instrument, reviewer);
        var key := SelfKey(fold, front, relationships, instrument, reviewer);
        if key.Some? {
          var member :| member in front && IsMember(fold, member) && member.instrument == instrument
                        && member.reviewer == reviewer && key.value == GroupKey(member, relationships);
          assert member in rows;
        }
      }
    }
  }

  /** Every flagged assignment is a self-review, and a whole group is flagged
      or none of it. */
  lemma FlaggedIsSelfReview(fold: string -> string, rows: seq<Row>, relationships: Relationships)
    ensures forall row :: row in rows && IsFlagged(fold, rows, relationships, row) ==>
              IsSelfReview(fold, rows, relationships, row)
    ensures forall a, b :: a in rows && b in rows && SameGroup(relationships, a, b) ==>
              (IsFlagged(fold, rows, relationships, a) <==> IsFlagged(fold, rows, relationships, b))
  {
    forall row | row in rows && IsFlagged(fold, rows, relationships, row)
      ensures IsSelfReview(fold, rows, relationships, row)
    {
      SelfKeyIsAMembers(fold, rows, relationships, row.instrument, row.reviewer);
      if row.groupKind.Some? {
        var member :| member in rows && IsMember(fold, member) && member.instrument == row.instrument
                      && member.reviewer == row.reviewer
                      && GroupKey(row, relationships) == GroupKey(member, relationships);
        assert SameGroup(relationships, member, row);
      }
    }
  }

  /** The two passes flag exactly the self-reviews if and only if no reviewer
      is a member of two groups of one instrument; the row order then does
      not matter. */
  lemma FlagsExactly(fold: string -> string, rows: seq<Row>, relationships: Relationships)
    ensures (forall row :: row in rows ==>
               (IsFlagged(fold, rows, relationships, row) <==> IsSelfReview(fold, rows, relationships, row)))
            <==> OneOwnGroup(fold, rows, relationships)
  {
    FlaggedIsSelfReview(fold, rows, relationships);
    if OneOwnGroup(fold, rows, relationships) {
      forall row | row in rows && IsSelfReview(fold, rows, relationships, row)
        ensures IsFlagged(fold, rows, relationships, row)
      {
        SelfKeyIsAMembers(fold, rows, relationships, row.instrument, row.reviewer);
      }
    } else {
      var a, b :| a in rows && b in rows && IsMember(fold, a) && IsMember(fold, b) && a.instrument == b.instrument
                  && a.reviewer == b.reviewer && GroupKey(a, relationships) != GroupKey(b, relationships);
      assert SameGroup(relationships, a, a) && SameGroup(relationships, b, b);
      assert IsSelfReview(fold, rows, relationships, a) && IsSelfReview(fold, rows, relationships, b);
      assert !IsFlagged(fold, rows, relationships, a) || !IsFlagged(fold, rows, relationships, b);
    }
  }

  // ---------------------------------------------------------------------
  // The rule in the columns' terms
  // ---------------------------------------------------------------------

  /** The group kind lists this code between its commas. */
  predicate Lists(groupKind: string, code: string) {
    exists i :: 0 <= i < |Split(groupKind, ',')| && Strip(Split(groupKind, ',')[i]) == code
  }

  /** A tag without the space around it; no tag reads as an empty one. */
  function TagText(tag: Option<string>): string {
    match tag
    case None => ""
    case Some(text) => Strip(text)
  }

  /** The tags of an active relationship from the row's reviewer to its
      reviewee, if there is one. */
  function PairTags(row: Row, relationships: Relationships): Tags {
    if (row.reviewer, row.reviewee) in relationships then relationships[(row.reviewer, row.reviewee)]
    else [None, None, None]
  }

  /** The reviewees agree in each tag the kind lists as `r1` to `r3`, and the
      relationships in each it lists as `p1` to `p3`. */
  ghost predicate AgreeInTags(kind: string, relationships: Relationships, a: Row, b: Row) {
    && (Lists(kind, "r1") ==> TagText(a.tags[0]) == TagText(b.tags[0]))
    && (Lists(kind, "r2") ==> TagText(a.tags[1]) == TagText(b.tags[1]))
    && (Lists(kind, "r3") ==> TagText(a.tags[2]) == TagText(b.tags[2]))
    && (Lists(kind, "p1") ==> TagText(PairTags(a, relationships)[0]) == TagText(PairTags(b, relationships)[0]))
    && (Lists(kind, "p2") ==> TagText(PairTags(a, relationships)[1]) == TagText(PairTags(b, relationships)[1]))
    && (Lists(kind, "p3") ==> TagText(PairTags(a, relationships)[2]) == TagText(PairTags(b, relationships)[2]))
  }

  /** The reviewer and the reviewee are one person, by an address. */
  predicate IsOneself(fold: string -> string, row: Row) {
    && (exists i :: 0 <= i < |row.revieweeIdentifier| && row.revieweeIdentifier[i] == '@')
    && fold(row.revieweeIdentifier) == fold(row.reviewerEmail)
  }

  /** An assignment to oneself; or, on a group instrument, one to somebody
      who agrees in the listed tags with an assignment there to oneself. */
  ghost predicate ReviewsOwnGroup(fold: string -> string, rows: seq<Row>, relationships: Relationships, row: Row) {
    match row.groupKind
    case None => IsOneself(fold, row)
    case Some(kind) =>
      exists own ::
        && own in rows && IsOneself(fold, own) && own.instrument == row.instrument && own.reviewer == row.reviewer
        && AgreeInTags(kind, relationships, own, row)
  }

  /** Rows of one instrument have its group kind. */
  predicate KindsByInstrument(rows: seq<Row>) {
    forall a, b :: a in rows && b in rows && a.instrument == b.instrument ==> a.groupKind == b.groupKind
  }

  function TextAt(row: Row, source: Source, relationships: Relationships): string {
    TagText(RawTag(row, source, relationships))
  }

  lemma {:induction false} ListedSources(codes: seq<string>)
    ensures forall source :: source in Sources(codes) <==>
              exists i :: 0 <= i < |codes| && SourceOf(Strip(codes[i])) == Some(source)
  {
    hide SourceOf, Strip;
    if codes != [] {
      var n := |codes| - 1;
      ListedSources(codes[..n]);
      assert forall i :: 0 <= i < n ==> codes[..n][i] == codes[i];
      forall source
        ensures source in Sources(codes) <==> exists i :: 0 <= i < |codes| && SourceOf(Strip(codes[i])) == Some(source)
      {
        if i :| 0 <= i < |codes| && SourceOf(Strip(codes[i])) == Some(source) {
          assert i < n ==> codes[..n][i] == codes[i];
        }
      }
    }
  }

  lemma CodesByName(code: string)
    ensures SourceOf(code) == Some(RevieweeTag(0)) <==> code == "r1"
    ensures SourceOf(code) == Some(RevieweeTag(1)) <==> code == "r2"
    ensures SourceOf(code) == Some(RevieweeTag(2)) <==> code == "r3"
    ensures SourceOf(code) == Some(PairContext(0)) <==> code == "p1"
    ensures SourceOf(code) == Some(PairContext(1)) <==> code == "p2"
    ensures SourceOf(code) == Some(PairContext(2)) <==> code == "p3"
  {
    var one, two, three, first, second, third := "r1", "r2", "r3", "p1", "p2", "p3";
    assert one[0] == two[0] == three[0] == 'r' && first[0] == second[0] == third[0] == 'p';
    assert one[1] == first[1] == '1' && two[1] == second[1] == '2' && three[1] == third[1] == '3';
  }

  /** Six sources, and each is listed by its own code. */
  lemma ListedByCode(kind: string)
    ensures var sources := Boundary(Some(kind));
            && (RevieweeTag(0) in sources <==> Lists(kind, "r1")) && (RevieweeTag(1) in sources <==> Lists(kind, "r2"))
            && (RevieweeTag(2) in sources <==> Lists(kind, "r3")) && (PairContext(0) in sources <==> Lists(kind, "p1"))
            && (PairContext(1) in sources <==> Lists(kind, "p2")) && (PairContext(2) in sources <==> Lists(kind, "p3"))
  {
    hide SourceOf, Strip, Split;
    ListedSources(Split(kind, ','));
    forall code: string
      ensures SourceOf(code) == Some(RevieweeTag(0)) <==> code == "r1"
      ensures SourceOf(code) == Some(RevieweeTag(1)) <==> code == "r2"
      ensures SourceOf(code) == Some(RevieweeTag(2)) <==> code == "r3"
      ensures SourceOf(code) == Some(PairContext(0)) <==> code == "p1"
      ensures SourceOf(code) == Some(PairContext(1)) <==> code == "p2"
      ensures SourceOf(code) == Some(PairContext(2)) <==> code == "p3"
    {
      CodesByName(code);
    }
  }

  lemma KeysBySource(a: Row, b: Row, sources: seq<Source>, relationships: Relationships)
    ensures KeyFrom(a, sources, relationships) == KeyFrom(b, sources, relationships) <==>
            forall source :: source in sources ==> TextAt(a, source, relationships) == TextAt(b, source, relationships)
  {
    StripsToItself("");
    hide RawTag, Strip;
    var left, right := KeyFrom(a, sources, relationships), KeyFrom(b, sources, relationships);
    assert forall i :: 0 <= i < |sources| ==>
        && left[i] == TextAt(a, sources[i], relationships)
        && right[i] == TextAt(b, sources[i], relationships);
    if left == right {
      assert forall i :: 0 <= i < |sources| ==> left[i] == right[i];
    }
    assert (forall i :: 0 <= i < |sources| ==> left[i] == right[i]) ==> left == right;
  }

  lemma SixSources(source: Source)
    ensures || source == RevieweeTag(0) || source == RevieweeTag(1) || source == RevieweeTag(2)
            || source == PairContext(0) || source == PairContext(1) || source == PairContext(2)
  {
  }

  lemma SourceTexts(row: Row, relationships: Relationships)
    ensures forall slot: Slot :: TextAt(row, RevieweeTag(slot), relationships) == TagText(row.tags[slot])
    ensures forall slot: Slot ::
              TextAt(row, PairContext(slot), relationships) == TagText(PairTags(row, relationships)[slot])
  {
    hide TagText;
  }

  /** Rows of one kind have the same key exactly when they agree in the tags
      the kind lists. */
  lemma KeysByTags(kind: string, a: Row, b: Row, relationships: Relationships)
    requires a.groupKind == b.groupKind == Some(kind)
    ensures GroupKey(a, relationships) == GroupKey(b, relationships) <==> AgreeInTags(kind, relationships, a, b)
  {
    var sources := Boundary(Some(kind));
    ListedByCode(kind);
    hide Boundary, Lists, Strip, KeyFrom;
    KeysBySource(a, b, sources, relationships);
    if AgreeInTags(kind, relationships, a, b) {
      forall source | source in sources ensures TextAt(a, source, relationships) == TextAt(b, source, relationships) {
        SixSources(source);
      }
    }
    SourceTexts(a, relationships);
    SourceTexts(b, relationships);
  }

  /** The two passes flag exactly the assignments within a reviewer's own
      group, in the columns' terms, if and only if no reviewer is a member of
      two groups of one instrument. */
  lemma FlagsByTags(fold: string -> string, rows: seq<Row>, relationships: Relationships)
    requires KindsByInstrument(rows)
    ensures (forall row :: row in rows ==>
               (IsFlagged(fold, rows, relationships, row) <==> ReviewsOwnGroup(fold, rows, relationships, row)))
            <==> OneOwnGroup(fold, rows, relationships)
  {
    hide IsFlagged, OneOwnGroup, IsSelfReview, ReviewsOwnGroup;
    FlagsExactly(fold, rows, relationships);
    forall row | row in rows
      ensures IsSelfReview(fold, rows, relationships, row) <==> ReviewsOwnGroup(fold, rows, relationships, row)
    {
      OwnGroupByTags(fold, rows, relationships, row);
    }
  }

  lemma OwnGroupByTags(fold: string -> string, rows: seq<Row>, relationships: Relationships, row: Row)
    requires KindsByInstrument(rows) && row in rows
    ensures IsSelfReview(fold, rows, relationships, row) <==> ReviewsOwnGroup(fold, rows, relationships, row)
  {
    hide GroupKey, AgreeInTags;
    if row.groupKind.Some? {
      forall own | own in rows && own.instrument == row.instrument
        ensures GroupKey(own, relationships) == GroupKey(row, relationships) <==>
                AgreeInTags(row.groupKind.value, relationships, own, row)
      {
        KeysByTags(row.groupKind.value, own, row, relationships);
      }
      assert forall own :: own in rows && IsMember(fold, own) && SameGroup(relationships, own, row) ==>
          IsOneself(fold, own) && AgreeInTags(row.groupKind.value, relationships, own, row);
      forall own | own in rows && IsOneself(fold, own) && own.instrument == row.instrument
                   && own.reviewer == row.reviewer && AgreeInTags(row.groupKind.value, relationships, own, row)
        ensures IsMember(fold, own) && SameGroup(relationships, own, row)
      {
      }
    }
  }

  // ---------------------------------------------------------------------
  // When the condition holds, and a session where it does not
  // ---------------------------------------------------------------------

  predicate SamePair(a: Row, b: Row) {
    a.reviewer == b.reviewer && a.reviewee == b.reviewee && a.instrument == b.instrument
  }

  /** What the joins of one session give: a reviewer has one email, and an
      assignment is the only one of its reviewer, reviewee and instrument. */
  ghost predicate AreAssignments(rows: seq<Row>) {
    && (forall a, b :: a in rows && b in rows && a.reviewer == b.reviewer ==> a.reviewerEmail == b.reviewerEmail)
    && (forall a, b :: a in rows && b in rows && SamePair(a, b) ==> a == b)
  }

  /** No two reviewees' identifiers fold alike. */
  ghost predicate UniqueReviewees(fold: string -> string, rows: seq<Row>) {
    forall a, b :: a in rows && b in rows && fold(a.revieweeIdentifier) == fold(b.revieweeIdentifier) ==>
      a.reviewee == b.reviewee
  }

  /** Where identifiers are unique under the classifier's own fold, the
      condition holds and the two passes are exact. */
  lemma UniqueRevieweesSuffice(fold: string -> string, rows: seq<Row>, relationships: Relationships)
    requires AreAssignments(rows) && UniqueReviewees(fold, rows)
    ensures OneOwnGroup(fold, rows, relationships)
    ensures forall row :: row in rows ==>
              (IsFlagged(fold, rows, relationships, row) <==> IsSelfReview(fold, rows, relationships, row))
  {
    hide GroupKey, IsFlagged, IsSelfReview;
    FlagsExactly(fold, rows, relationships);
  }

  /** `str.casefold` on ASCII text and the sharp s. */
  function Casefold(s: string): string {
    if s == "" then ""
    else (if s[0] == '\U{df}' then "ss" else [LowerChar(s[0])]) + Casefold(s[1..])
  }

  lemma {:induction false} CasefoldJoins(a: string, b: string)
    ensures Casefold(a + b) == Casefold(a) + Casefold(b)
  {
    if a == "" {
      assert a + b == b;
    } else {
      assert (a + b)[1..] == a[1..] + b;
      CasefoldJoins(a[1..], b);
    }
  }

  lemma SharpFoldsToDouble(before: string, after: string)
    ensures Casefold(before + "\U{df}" + after) == Casefold(before + "ss" + after)
  {
    SharpIsDouble();
    hide Casefold;
    CasefoldJoins(before + "\U{df}", after);
    CasefoldJoins(before + "ss", after);
    CasefoldJoins(before, "\U{df}");
    CasefoldJoins(before, "ss");
  }

  lemma SharpIsDouble()
    ensures Casefold("\U{df}") == Casefold("ss") == "ss"
  {
    assert "ss"[1..] == "s" && "s"[1..] == "" && "\U{df}"[1..] == "";
    assert Casefold("s") == "s" + Casefold("");
  }

  /** `looks_like_email`, which an identifier with an `@` must pass. */
  predicate LooksLikeEmail(s: string) {
    exists at, dot ::
      && 0 < at && at + 1 < dot < |s| - 1 && s[at] == '@' && s[dot] == '.'
      && forall i :: 0 <= i < |s| ==> !IsSpace(s[i]) && (s[i] == '@' ==> i == at)
  }

  /** One assignment of a reviewer to a reviewee in a team, on an instrument
      that groups by the first tag. */
  function Teammate(email: string, id: int, identifier: string, team: string): Row {
    Row(id, 1, id, 1, email, identifier, [Some(team), None, None], Some("r1"))
  }

  lemma TeammateKey(email: string, id: int, identifier: string, team: string)
    requires team != "" && !IsSpace(team[0]) && !IsSpace(team[|team| - 1])
    ensures GroupKey(Teammate(email, id, identifier, team), map[]) == [team]
  {
    hide Strip, Split;
    assert ',' !in "r1";
    SplitOfPiece("r1", "", ',');
    StripsToItself("r1");
    assert Sources(["r1"]) == [RevieweeTag(0)] by {
      assert ["r1"][..0] == [];
    }
    StripsToItself(team);
  }

  /** Any two identifiers that both fold to the reviewer's email, in two
      groups, leave the first group unflagged. */
  lemma TwoSelvesTwoGroups(fold: string -> string, email: string, first: string, second: string)
    requires '@' in first && '@' in second && fold(first) == fold(second) == fold(email)
    ensures var rows := [Teammate(email, 1, first, "A"), Teammate(email, 2, second, "B")];
            && AreAssignments(rows)
            && IsSelfReview(fold, rows, map[], rows[0]) && !IsFlagged(fold, rows, map[], rows[0])
            && !OneOwnGroup(fold, rows, map[])
  {
    hide GroupKey;
    var a, b := Teammate(email, 1, first, "A"), Teammate(email, 2, second, "B");
    var rows := [a, b];
    TeammateKey(email, 1, first, "A");
    TeammateKey(email, 2, second, "B");
    assert GroupKey(a, map[]) != GroupKey(b, map[]) by { assert ["A"][0] != ["B"][0]; }
    assert IsMember(fold, a) && IsMember(fold, b) && SameGroup(map[], a, a);
    assert a in rows && b in rows;
    assert rows[..1] == [a];
  }

  const SHARP := "stra\U{df}e@example.org"
  const DOUBLE := "strasse@example.org"

  /** Two well-formed addresses that agree under `casefold` but not under
      `lower`, by which the service tells reviewees apart, can both be the
      reviewer; put in two groups, the first group goes unflagged. */
  lemma TwoSpellingsOfOneself()
    ensures LooksLikeEmail(SHARP) && LooksLikeEmail(DOUBLE) && Lower(SHARP) != Lower(DOUBLE)
    ensures var rows := [Teammate(DOUBLE, 1, SHARP, "A"), Teammate(DOUBLE, 2, DOUBLE, "B")];
            && AreAssignments(rows)
            && IsSelfReview(Casefold, rows, map[], rows[0]) && !IsFlagged(Casefold, rows, map[], rows[0])
            && !OneOwnGroup(Casefold, rows, map[])
  {
    hide GroupKey, IsSelfReview, IsFlagged, AreAssignments, OneOwnGroup, Teammate, LooksLikeEmail;
    hide Casefold, Lower;
    SpellingsFoldAlike();
    SharpIsEmail();
    DoubleIsEmail();
    assert |Lower(SHARP)| == |SHARP| && |Lower(DOUBLE)| == |DOUBLE|;
    TwoSelvesTwoGroups(Casefold, DOUBLE, SHARP, DOUBLE);
  }

  lemma SpellingsFoldAlike()
    ensures Casefold(SHARP) == Casefold(DOUBLE)
  {
    hide Casefold;
    assert SHARP == "stra" + "\U{df}" + "e@example.org";
    assert DOUBLE == "stra" + "ss" + "e@example.org";
    SharpFoldsToDouble("stra", "e@example.org");
  }

  /** Small letters, the sharp s among them. */
  predicate IsLetters(s: string) {
    s != "" && forall i :: 0 <= i < |s| ==> 'a' <= s[i] <= 'z' || s[i] == '\U{df}'
  }

  lemma LettersMakeEmails(name: string, host: string, top: string)
    requires IsLetters(name) && IsLetters(host) && IsLetters(top)
    ensures LooksLikeEmail(name + "@" + host + "." + top)
    ensures '@' in name + "@" + host + "." + top
  {
    var s := name + "@" + host + "." + top;
    var at, dot := |name|, |name| + 1 + |host|;
    assert s[at] == '@' && s[dot] == '.';
    forall i | 0 <= i < |s| ensures !IsSpace(s[i]) && (s[i] == '@' ==> i == at) {
      if i < at {
        assert s[i] == name[i];
      } else if at < i < dot {
        assert s[i] == host[i - at - 1];
      } else if i > dot {
        assert s[i] == top[i - dot - 1];
      }
    }
  }

  lemma SharpIsEmail()
    ensures LooksLikeEmail(SHARP) && '@' in SHARP && |SHARP| == 18
  {
    hide LooksLikeEmail;
    LettersMakeEmails("stra\U{df}e", "example", "org");
    assert SHARP == "stra\U{df}e" + "@" + "example" + "." + "org";
  }

  lemma DoubleIsEmail()
    ensures LooksLikeEmail(DOUBLE) && '@' in DOUBLE && |DOUBLE| == 19
  {
    hide LooksLikeEmail;
    LettersMakeEmails("strasse", "example", "org");
    assert DOUBLE == "strasse" + "@" + "example" + "." + "org";
  }

  /** Any other order of the same rows flags the same assignments. */
  lemma OrderDoesNotMatter(fold: string -> string, rows: seq<Row>, reordered: seq<Row>, relationships: Relationships)
    requires forall row :: row in rows <==> row in reordered
    requires OneOwnGroup(fold, rows, relationships)
    ensures FlaggedIds(fold, rows, relationships) == FlaggedIds(fold, reordered, relationships)
  {
    FlagsExactly(fold, rows, relationships);
    FlagsExactly(fold, reordered, relationships);
    forall row | row in rows
      ensures IsFlagged(fold, rows, relationships, row) <==> IsFlagged(fold, reordered, relationships, row)
    {
      assert IsSelfReview(fold, rows, relationships, row) <==> IsSelfReview(fold, reordered, relationships, row);
    }
  }

  // ---------------------------------------------------------------------
  // The chunked update
  // ---------------------------------------------------------------------

  const BATCH_SIZE := 500

  function Flatten(chunks: seq<seq<int>>): seq<int> {
    if chunks == [] then [] else Flatten(chunks[..|chunks| - 1]) + chunks[|chunks| - 1]
  }

  /** One session's update: each flagged id appears in exactly one statement,
      in ascending order, at most 500 a statement, and no other row
      changes. */
  method UpdateFlagged(flagged: set<int>, table: map<int, bool>)
    returns (chunks: seq<seq<int>>, updated: map<int, bool>)
    requires flagged <= table.Keys
    ensures Ascending(Flatten(chunks)) && multiset(Flatten(chunks)) == multiset(flagged)
    ensures forall c :: c in chunks ==> 0 < |c| <= 500
    ensures updated.Keys == table.Keys
    ensures forall id :: id in table ==> updated[id] == (id in flagged || table[id])
  {
    var ids := SortedSet(flagged);
    SortedMembers(ids, flagged);
    chunks, updated := [], table;
    var i := 0;
    while i < |ids|
      invariant 0 <= i <= |ids|
      invariant Flatten(chunks) == ids[..i]
      invariant forall c :: c in chunks ==> 0 < |c| <= BATCH_SIZE
      invariant updated.Keys == table.Keys
      invariant forall id :: id in table ==> updated[id] == (id in ids[..i] || table[id])
    {
      var end := if i + BATCH_SIZE <= |ids| then i + BATCH_SIZE else |ids|;
      var chunk := ids[i..end];
      assert ids[..end] == ids[..i] + chunk;
      updated := map id | id in updated :: id in chunk || updated[id];
      FlattenSnoc(chunks, chunk);
      chunks := chunks + [chunk];
      i := end;
    }
    assert ids[..|ids|] == ids;
  }

  lemma SortedMembers(ids: seq<int>, flagged: set<int>)
    requires multiset(ids) == multiset(flagged)
    ensures forall id :: id in ids <==> id in flagged
  {
    assert forall id :: id in ids <==> id in multiset(ids);
  }

  lemma FlattenSnoc(chunks: seq<seq<int>>, chunk: seq<int>)
    ensures Flatten(chunks + [chunk]) == Flatten(chunks) + chunk
  {
    assert (chunks + [chunk])[..|chunks|] == chunks;
  }
}
