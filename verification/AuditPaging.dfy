/** Paging through the audit viewer (`app/services/audit.py`,
    `app/web/views/_audit_log.py`) while events are being appended. */
module AuditPaging {
  import opened Wrappers
  import opened AuditQuery
  import opened AuditLog
  import opened AuditRuns

  function Newest(rows: seq<Event>): (r: seq<Event>)
    ensures |r| == |rows|
  {
    seq(|rows|, i requires 0 <= i < |rows| => rows[|rows| - 1 - i])
  }

  /** The rows with `id < cursor`, when there is a cursor. */
  function Below(cursor: Option<int>, rows: seq<Event>): seq<Event> {
    if rows == [] then []
    else
      var front, last := rows[..|rows| - 1], rows[|rows| - 1];
      Below(cursor, front) + if cursor.Some? && last.id >= cursor.value then [] else [last]
  }

  function Limited(rows: seq<Event>, limit: nat): seq<Event> {
    if |rows| <= limit then rows else rows[..limit]
  }

  /** `list_events_for_session`, on a table whose order is that of its ids. */
  function Page(session: int, f: Filters, emails: map<int, string>, rows: seq<Event>, cursor: Option<int>, limit: nat):
    seq<Event>
  {
    Limited(Newest(Below(cursor, Selected(session, f, emails, rows))), limit)
  }

  /** The viewer's next cursor: the last row's id when the page is full. */
  function NextCursor(page: seq<Event>, limit: nat): Option<int> {
    if page != [] && |page| == limit then Some(page[|page| - 1].id) else None
  }

  // ---------------------------------------------------------------------
  // What a page holds
  // ---------------------------------------------------------------------

  lemma FrontRises(rows: seq<Event>)
    requires rows != [] && Rising(rows)
    ensures Rising(rows[..|rows| - 1])
    ensures forall e :: e in rows[..|rows| - 1] ==> e.id < rows[|rows| - 1].id
  {
  }

  lemma OneMoreRises(rows: seq<Event>, last: Event)
    requires Rising(rows) && forall e :: e in rows ==> e.id < last.id
    ensures Rising(rows + [last])
  {
  }

  lemma {:induction false} SelectedRises(session: int, f: Filters, emails: map<int, string>, rows: seq<Event>)
    requires Rising(rows)
    ensures Rising(Selected(session, f, emails, rows))
  {
    hide Keeps, Rising;
    if rows != [] {
      var front, last := rows[..|rows| - 1], rows[|rows| - 1];
      FrontRises(rows);
      SelectedRises(session, f, emails, front);
      SelectedMembers(session, f, emails, front);
      OneMoreRises(Selected(session, f, emails, front), last);
      assert Selected(session, f, emails, front) + [] == Selected(session, f, emails, front);
    } else {
      NoneRise();
    }
  }

  lemma NoneRise()
    ensures Rising([])
  {
  }

  lemma {:induction false} AllBelow(rows: seq<Event>, cursor: Option<int>)
    requires cursor.Some? ==> forall i :: 0 <= i < |rows| ==> rows[i].id < cursor.value
    ensures Below(cursor, rows) == rows
  {
    if rows != [] {
      AllBelow(rows[..|rows| - 1], cursor);
    }
  }

  /** Below a row's own id lie exactly the rows before it. */
  lemma {:induction false} BelowRow(rows: seq<Event>, j: nat)
    requires Rising(rows) && j < |rows|
    ensures Below(Some(rows[j].id), rows) == rows[..j]
    decreases |rows|
  {
    var front := rows[..|rows| - 1];
    if j == |rows| - 1 {
      AllBelow(front, Some(rows[j].id));
    } else {
      BelowRow(front, j);
      assert front[..j] == rows[..j];
    }
  }

  lemma NewestPrefix(rows: seq<Event>, j: nat)
    requires j <= |rows|
    ensures Newest(rows[..j]) == Newest(rows)[|rows| - j..]
  {
  }

  /** Ids fall through a listing. */
  predicate Falling(rows: seq<Event>) {
    forall i, j :: 0 <= i < j < |rows| ==> rows[i].id > rows[j].id
  }

  lemma FallingIds(rows: seq<Event>)
    requires Falling(rows)
    ensures forall i, j :: 0 <= i < j < |rows| ==> rows[i].id > rows[j].id
  {
  }

  lemma NewestFall(rows: seq<Event>)
    requires Rising(rows)
    ensures Falling(Newest(rows))
  {
  }

  /** After `done` rows, the next page, of a table grown meanwhile, starts
      where they left off in the first table. */
  lemma PageContinues(session: int, f: Filters, emails: map<int, string>, first: seq<Event>, grown: seq<Event>,
                      done: nat, limit: nat)
    requires first <= grown && Rising(grown)
    requires 0 < done <= |Selected(session, f, emails, first)|
    ensures var all := Newest(Selected(session, f, emails, first));
            Page(session, f, emails, grown, Some(all[done - 1].id), limit) == Limited(all[done..], limit)
  {
    hide Keeps, Newest, Selected;
    var kept := Selected(session, f, emails, first);
    var later := Selected(session, f, emails, grown[|first|..]);
    assert grown == first + grown[|first|..];
    SelectedAppend(session, f, emails, first, grown[|first|..]);
    SelectedRises(session, f, emails, grown);
    var j := |kept| - done;
    NewestAt(kept, done - 1);
    BelowRow(kept + later, j);
    assert (kept + later)[..j] == kept[..j];
    NewestPrefix(kept, j);
  }

  lemma NewestAt(rows: seq<Event>, k: nat)
    requires k < |rows|
    ensures Newest(rows)[k] == rows[|rows| - 1 - k]
  {
  }

  // ---------------------------------------------------------------------
  // The walk
  // ---------------------------------------------------------------------

  /** A table as it is each time a page is asked for. */
  ghost predicate IsHistory(history: nat -> seq<Event>) {
    forall k: nat :: Rising(history(k)) && history(0) <= history(k)
  }

  /** Where a walk stands after some pages of the rows it will show: what was
      seen, and the cursor. */
  predicate Stands(all: seq<Event>, limit: nat, seen: seq<Event>, cursor: Option<int>, pages: nat)
    requires limit >= 1
  {
    && seen <= all
    && (cursor.Some? ==> seen != [] && |seen| == pages * limit && cursor.value == seen[|seen| - 1].id)
    && (cursor.None? ==> seen == all && pages == |seen| / limit + 1)
  }

  lemma Advance(all: seq<Event>, limit: nat, seen: seq<Event>, pages: nat)
    requires limit >= 1 && seen <= all && |seen| == pages * limit
    ensures var page := Limited(all[|seen|..], limit);
            Stands(all, limit, seen + page, NextCursor(page, limit), pages + 1)
  {
    var page := Limited(all[|seen|..], limit);
    PagesSoFar(pages, limit, |page|);
    assert seen + page == all[..|seen| + |page|];
  }

  lemma FirstPage(session: int, f: Filters, emails: map<int, string>, rows: seq<Event>, limit: nat)
    requires limit >= 1
    ensures var page := Page(session, f, emails, rows, None, limit);
            Stands(Newest(Selected(session, f, emails, rows)), limit, page, NextCursor(page, limit), 1)
  {
    hide Selected, Newest, NextCursor, Limited, Stands;
    var all := Newest(Selected(session, f, emails, rows));
    var page := Page(session, f, emails, rows, None, limit);
    AllBelow(Selected(session, f, emails, rows), None);
    assert all[0..] == all;
    Advance(all, limit, [], 0);
    assert [] + page == page;
  }

  /** A further page, of a table grown meanwhile, carries the walk on. */
  lemma FurtherPage(session: int, f: Filters, emails: map<int, string>, first: seq<Event>, grown: seq<Event>,
                    limit: nat, seen: seq<Event>, cursor: Option<int>, pages: nat)
    requires limit >= 1 && first <= grown && Rising(grown) && cursor.Some?
    requires Stands(Newest(Selected(session, f, emails, first)), limit, seen, cursor, pages)
    ensures var page := Page(session, f, emails, grown, cursor, limit);
            && Stands(Newest(Selected(session, f, emails, first)), limit, seen + page, NextCursor(page, limit),
                      pages + 1)
            && (NextCursor(page, limit).Some? ==> |page| > 0)
  {
    hide Selected, Newest, Limited, Rising, Page;
    PageContinues(session, f, emails, first, grown, |seen|, limit);
    Advance(Newest(Selected(session, f, emails, first)), limit, seen, pages);
  }

  /** Walking the viewer to its end while the table grows shows exactly the
      rows the filter kept at the start, newest first and once each, and as
      many as the count; the pages are as many as that number needs, and one
      more when the last is full. */
  method Walk(session: int, f: Filters, emails: map<int, string>, history: nat -> seq<Event>, limit: nat)
    returns (seen: seq<Event>, pages: nat)
    requires limit >= 1 && IsHistory(history)
    ensures seen == Newest(Selected(session, f, emails, history(0)))
    ensures |seen| == Count(session, f, emails, history(0))
    ensures forall i, j :: 0 <= i < j < |seen| ==> seen[i].id > seen[j].id
    ensures pages == |seen| / limit + 1
  {
    hide Selected, Newest, Rising, Falling, NextCursor, Page, IsHistory;
    AtPage(history, 0);
    SelectedRises(session, f, emails, history(0));
    NewestFall(Selected(session, f, emails, history(0)));
    ghost var all := Newest(Selected(session, f, emails, history(0)));
    var page := Page(session, f, emails, history(0), None, limit);
    var cursor := NextCursor(page, limit);
    FirstPage(session, f, emails, history(0), limit);
    seen, pages := page, 1;
    while cursor.Some?
      invariant Stands(all, limit, seen, cursor, pages)
      decreases |all| - |seen|, cursor.Some?
    {
      AtPage(history, pages);
      FurtherPage(session, f, emails, history(0), history(pages), limit, seen, cursor, pages);
      page := Page(session, f, emails, history(pages), cursor, limit);
      cursor := NextCursor(page, limit);
      seen, pages := seen + page, pages + 1;
    }
    FallingIds(seen);
  }

  lemma AtPage(history: nat -> seq<Event>, k: nat)
    requires IsHistory(history)
    ensures Rising(history(k)) && history(0) <= history(k)
  {
  }

  lemma PagesSoFar(pages: nat, limit: nat, last: nat)
    requires limit >= 1 && last <= limit
    ensures last == limit ==> pages * limit + last == (pages + 1) * limit
    ensures last < limit ==> (pages * limit + last) / limit == pages
  {
    var n := pages * limit + last;
    Multiple(n / limit - pages, limit);
    assert (n / limit - pages) * limit == last - n % limit;
  }

  /** A multiple of a number is as large as it, or nothing. */
  lemma Multiple(z: int, limit: int)
    requires limit >= 1
    ensures z >= 1 ==> z * limit >= limit
    ensures z <= -1 ==> z * limit <= -limit
  {
    if z >= 1 {
      assert (z - 1) * limit >= 0;
    } else if z <= -1 {
      assert (-1 - z) * limit >= 0;
    }
  }

  /** The table after so many runs, one between each page and the next. */
  function TableAt(setting: Setting, source: Option<string>, table: Table, runs: nat -> Script, k: nat): Table {
    if k == 0 then table else Effect(setting, source, TableAt(setting, source, table, runs, k - 1), runs(k - 1)).0
  }

  /** Whatever this module writes between pages, the table is such a history,
      and each run starts where the one before it ended. */
  lemma {:induction false} RunsAreHistory(setting: Setting, source: Option<string>, table: Table, runs: nat -> Script,
                                          k: nat)
    requires Ordered(table)
    ensures var now := TableAt(setting, source, table, runs, k); Ordered(now) && table.rows <= now.rows
    ensures TableAt(setting, source, table, runs, 0) == table
    ensures TableAt(setting, source, table, runs, k + 1) ==
            Effect(setting, source, TableAt(setting, source, table, runs, k), runs(k)).0
  {
    hide Effect, Ordered;
    if k > 0 {
      RunsAreHistory(setting, source, table, runs, k - 1);
      RunOnlyAppends(setting, source, TableAt(setting, source, table, runs, k - 1), runs(k - 1));
    }
  }

  /** Audit-log writing between pages does not disturb a walk. */
  method WalkDuringRuns(session: int, f: Filters, setting: Setting, source: Option<string>, table: Table,
                        runs: nat -> Script, limit: nat) returns (seen: seq<Event>)
    requires limit >= 1 && Ordered(table)
    ensures seen == Newest(Selected(session, f, setting.emails, table.rows))
  {
    var history := (k: nat) => TableAt(setting, source, table, runs, k).rows;
    forall k: nat
      ensures Rising(history(k)) && history(0) <= history(k)
    {
      RunsAreHistory(setting, source, table, runs, k);
    }
    var pages;
    seen, pages := Walk(session, f, setting.emails, history, limit);
  }
}
