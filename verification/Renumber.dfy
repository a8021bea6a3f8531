/** Instrument numbers per session: the rank backfill `b7d4f2a9c153` and the
    renumbering of duplicates `d2f7a3c9b5e4`. */
module Renumber {

  datatype Instrument = Instrument(id: int, session: int, number: int)

  /** The order both migrations read in: by session, then by id, the primary
      key. */
  predicate IsOrdered(rows: seq<Instrument>) {
    forall i, j :: 0 <= i < j < |rows| ==>
      rows[i].session < rows[j].session || (rows[i].session == rows[j].session && rows[i].id < rows[j].id)
  }

  /** Two rows of different ids can be read in one order and not in both. */
  lemma OneOrder(a: Instrument, b: Instrument)
    requires a.id != b.id
    ensures IsOrdered([a, b]) <==> a.session < b.session || (a.session == b.session && a.id < b.id)
    ensures IsOrdered([a, b]) <==> !IsOrdered([b, a])
  {
    var ab, ba := [a, b], [b, a];
    assert ab[0] == a && ab[1] == b && ba[0] == b && ba[1] == a;
  }

  // ---------------------------------------------------------------------
  // The number each row ends with
  // ---------------------------------------------------------------------

  function Max(a: int, b: int): int {
    if a > b then a else b
  }

  /** The session's highest number, or 0. */
  function Highest(rows: seq<Instrument>, session: int): int {
    if rows == [] then 0
    else
      var last := rows[|rows| - 1];
      var before := Highest(rows[..|rows| - 1], session);
      if last.session == session then Max(before, last.number) else before
  }

  /** An earlier row of the session holds the same number. */
  predicate IsRepeat(rows: seq<Instrument>, k: nat)
    requires k < |rows|
  {
    exists j :: 0 <= j < k && rows[j].session == rows[k].session && rows[j].number == rows[k].number
  }

  /** How many of the first `n` rows are repeats of this session. */
  function Repeats(rows: seq<Instrument>, n: nat, session: int): nat
    requires n <= |rows|
  {
    if n == 0 then 0
    else Repeats(rows, n - 1, session) + if rows[n - 1].session == session && IsRepeat(rows, n - 1) then 1 else 0
  }

  function NewNumber(rows: seq<Instrument>, k: nat): int
    requires k < |rows|
  {
    if IsRepeat(rows, k) then Highest(rows, rows[k].session) + 1 + Repeats(rows, k, rows[k].session)
    else rows[k].number
  }

  function Renumbered(rows: seq<Instrument>): (r: seq<Instrument>)
    ensures |r| == |rows|
  {
    seq(|rows|, k requires 0 <= k < |rows| => rows[k].(number := NewNumber(rows, k)))
  }

  /** Every session's highest number before any change. */
  method HighestNumbers(rows: seq<Instrument>) returns (highest: map<int, int>)
    ensures forall k :: 0 <= k < |rows| ==> rows[k].session in highest
    ensures forall s :: s in highest ==> highest[s] == Highest(rows, s)
  {
    highest := map[];
    for k := 0 to |rows|
      invariant forall j :: 0 <= j < k ==> rows[j].session in highest
      invariant forall s :: Highest(rows[..k], s) == if s in highest then highest[s] else 0
    {
      var row := rows[k];
      assert rows[..k + 1][..k] == rows[..k];
      var before := if row.session in highest then highest[row.session] else 0;
      highest := highest[row.session := Max(before, row.number)];
    }
    assert rows[..|rows|] == rows;
  }

  ghost predicate HoldsNumbers(seen: set<(int, int)>, rows: seq<Instrument>, k: nat)
    requires k <= |rows|
  {
    forall s, n :: (s, n) in seen <==> exists j :: 0 <= j < k && rows[j].session == s && rows[j].number == n
  }

  lemma HoldsNone(rows: seq<Instrument>)
    ensures HoldsNumbers({}, rows, 0)
  {
  }

  lemma HoldsOneMore(seen: set<(int, int)>, rows: seq<Instrument>, k: nat)
    requires k < |rows| && HoldsNumbers(seen, rows, k)
    ensures (rows[k].session, rows[k].number) in seen <==> IsRepeat(rows, k)
    ensures HoldsNumbers(seen + {(rows[k].session, rows[k].number)}, rows, k + 1)
  {
  }

  lemma NoRepeats(rows: seq<Instrument>)
    ensures forall s :: Repeats(rows, 0, s) == 0
  {
  }

  lemma OneMoreRepeat(rows: seq<Instrument>, k: nat)
    requires k < |rows|
    ensures forall s :: Repeats(rows, k + 1, s) ==
                        Repeats(rows, k, s) + if rows[k].session == s && IsRepeat(rows, k) then 1 else 0
    ensures var session := rows[k].session;
            Renumbered(rows)[k] ==
            if IsRepeat(rows, k) then rows[k].(number := Highest(rows, session) + 1 + Repeats(rows, k, session))
            else rows[k]
  {
    hide IsRepeat, Highest;
  }

  method RenumberDuplicates(table: array<Instrument>)
    modifies table
    ensures table[..] == Renumbered(old(table[..]))
  {
    hide HoldsNumbers, IsRepeat, Highest, Renumbered, Repeats;
    ghost var rows := table[..];
    var highest := HighestNumbers(table[..]);
    var seen: set<(int, int)> := {};
    HoldsNone(rows);
    assert forall s :: Repeats(rows, 0, s) == 0 by { NoRepeats(rows); }
    for k := 0 to table.Length
      invariant forall j :: 0 <= j < |rows| ==> rows[j].session in highest
      invariant forall s :: s in highest ==> highest[s] == Highest(rows, s) + Repeats(rows, k, s)
      invariant HoldsNumbers(seen, rows, k)
      invariant forall j :: 0 <= j < k ==> table[j] == Renumbered(rows)[j]
      invariant forall j :: k <= j < table.Length ==> table[j] == rows[j]
    {
      var row := table[k];
      assert row == rows[k];
      HoldsOneMore(seen, rows, k);
      assert row.session in highest;
      OneMoreRepeat(rows, k);
      if (row.session, row.number) !in seen {
        seen := seen + {(row.session, row.number)};
      } else {
        assert seen == seen + {(row.session, row.number)};
        highest := highest[row.session := highest[row.session] + 1];
        table[k] := row.(number := highest[row.session]);
      }
    }
  }

  // ---------------------------------------------------------------------
  // What the renumbering is for
  // ---------------------------------------------------------------------

  predicate IsUnique(rows: seq<Instrument>) {
    forall i, j :: 0 <= i < j < |rows| ==> rows[i].session != rows[j].session || rows[i].number != rows[j].number
  }

  lemma {:induction false} HighestBounds(rows: seq<Instrument>, session: int)
    ensures Highest(rows, session) >= 0
    ensures forall j :: 0 <= j < |rows| && rows[j].session == session ==> rows[j].number <= Highest(rows, session)
  {
    if rows != [] {
      HighestBounds(rows[..|rows| - 1], session);
    }
  }

  lemma {:induction false} RepeatsGrow(rows: seq<Instrument>, few: nat, many: nat, session: int)
    requires few <= many <= |rows|
    ensures Repeats(rows, few, session) <= Repeats(rows, many, session)
    decreases many
  {
    if few < many {
      RepeatsGrow(rows, few, many - 1, session);
    }
  }

  /** Two repeats of a session get different numbers, in row order. */
  lemma RepeatsOrdered(rows: seq<Instrument>, i: nat, j: nat)
    requires i < j < |rows| && rows[i].session == rows[j].session && IsRepeat(rows, i) && IsRepeat(rows, j)
    ensures Highest(rows, rows[i].session) < NewNumber(rows, i) < NewNumber(rows, j)
  {
    RepeatsGrow(rows, i + 1, j, rows[i].session);
  }

  /** Afterwards no two rows of a session share a number. */
  lemma RenumberedIsUnique(rows: seq<Instrument>)
    ensures IsUnique(Renumbered(rows))
  {
    forall i, j | 0 <= i < j < |rows| && rows[i].session == rows[j].session
      ensures NewNumber(rows, i) != NewNumber(rows, j)
    {
      HighestBounds(rows, rows[i].session);
      if IsRepeat(rows, i) && IsRepeat(rows, j) {
        RepeatsOrdered(rows, i, j);
      }
    }
  }

  /** Row `k` has the lowest id of its session's holders of its number. */
  predicate IsLowest(rows: seq<Instrument>, k: nat)
    requires k < |rows|
  {
    forall j :: 0 <= j < |rows| && rows[j].session == rows[k].session && rows[j].number == rows[k].number ==>
      rows[k].id <= rows[j].id
  }

  lemma RepeatsAreNotLowest(rows: seq<Instrument>, k: nat)
    requires IsOrdered(rows) && k < |rows|
    ensures IsRepeat(rows, k) <==> !IsLowest(rows, k)
  {
    if IsRepeat(rows, k) {
      var j :| 0 <= j < k && rows[j].session == rows[k].session && rows[j].number == rows[k].number;
      assert rows[j].id < rows[k].id;
    } else {
      forall j | 0 <= j < |rows| && rows[j].session == rows[k].session && rows[j].number == rows[k].number
        ensures rows[k].id <= rows[j].id
      {
        assert j >= k;
      }
    }
  }

  /** The lowest id of each number keeps it, and every other holder gets a
      number above the session's original highest. */
  lemma LowestKeeps(rows: seq<Instrument>, k: nat)
    requires IsOrdered(rows) && k < |rows|
    ensures IsLowest(rows, k) ==> Renumbered(rows)[k] == rows[k]
    ensures !IsLowest(rows, k) ==> Renumbered(rows)[k].number > Highest(rows, rows[k].session) >= rows[k].number
  {
    HighestBounds(rows, rows[k].session);
    RepeatsAreNotLowest(rows, k);
  }

  /** The new numbers rise with the id. */
  lemma NewNumbersRise(rows: seq<Instrument>, j: nat, k: nat)
    requires IsOrdered(rows) && j < |rows| && k < |rows|
    requires rows[j].session == rows[k].session && rows[j].id < rows[k].id
    requires !IsLowest(rows, j) && !IsLowest(rows, k)
    ensures Renumbered(rows)[j].number < Renumbered(rows)[k].number
  {
    RepeatsAreNotLowest(rows, j);
    RepeatsAreNotLowest(rows, k);
    assert j < k;
    RepeatsOrdered(rows, j, k);
  }

  /** The renumbering changes nothing exactly when no number repeats, so a
      second run changes nothing. */
  lemma IdleExactlyWhenUnique(rows: seq<Instrument>)
    ensures Renumbered(rows) == rows <==> IsUnique(rows)
    ensures Renumbered(Renumbered(rows)) == Renumbered(rows)
  {
    RenumberedIsUnique(rows);
    UniqueIsIdle(Renumbered(rows));
    if IsUnique(rows) {
      UniqueIsIdle(rows);
    }
  }

  lemma UniqueIsIdle(rows: seq<Instrument>)
    requires IsUnique(rows)
    ensures Renumbered(rows) == rows
  {
    forall k | 0 <= k < |rows| ensures Renumbered(rows)[k] == rows[k] {
      assert !IsRepeat(rows, k);
    }
  }

  // ---------------------------------------------------------------------
  // The rank backfill
  // ---------------------------------------------------------------------

  /** The correlated COUNT: rows of the session with an id up to this one. */
  function Rank(rows: seq<Instrument>, session: int, id: int): nat {
    if rows == [] then 0
    else
      var last := rows[|rows| - 1];
      Rank(rows[..|rows| - 1], session, id) + if last.session == session && last.id <= id then 1 else 0
  }

  function InSession(rows: seq<Instrument>, session: int): nat {
    if rows == [] then 0
    else InSession(rows[..|rows| - 1], session) + if rows[|rows| - 1].session == session then 1 else 0
  }

  function Backfilled(rows: seq<Instrument>): (r: seq<Instrument>)
    ensures |r| == |rows|
  {
    seq(|rows|, k requires 0 <= k < |rows| => rows[k].(number := Rank(rows, rows[k].session, rows[k].id)))
  }

  /** Counting up to an id counts the rows up to that one. */
  lemma {:induction false} RankCounts(rows: seq<Instrument>, k: nat, n: nat)
    requires IsOrdered(rows) && k < |rows| && n <= |rows|
    ensures Rank(rows[..n], rows[k].session, rows[k].id) ==
            InSession(rows[..if n <= k + 1 then n else k + 1], rows[k].session)
  {
    if n > 0 {
      RankCounts(rows, k, n - 1);
      assert rows[..n][..n - 1] == rows[..n - 1];
      if n > k + 1 {
        assert rows[n - 1].session != rows[k].session || rows[n - 1].id > rows[k].id;
      } else {
        assert rows[n - 1].session == rows[k].session ==> rows[n - 1].id <= rows[k].id;
      }
    }
  }

  lemma {:induction false} InSessionGrows(rows: seq<Instrument>, few: nat, many: nat, session: int)
    requires few <= many <= |rows|
    ensures InSession(rows[..few], session) <= InSession(rows[..many], session)
    decreases many
  {
    if few < many {
      InSessionGrows(rows, few, many - 1, session);
      assert rows[..many][..many - 1] == rows[..many - 1];
    }
  }

  /** The row at which a session's count reaches `rank`. */
  lemma {:induction false} RankIsReached(rows: seq<Instrument>, n: nat, session: int, rank: int) returns (k: nat)
    requires n <= |rows| && 1 <= rank <= InSession(rows[..n], session)
    ensures k < n && rows[k].session == session && InSession(rows[..k + 1], session) == rank
  {
    assert n > 0;
    assert rows[..n][..n - 1] == rows[..n - 1];
    if rank == InSession(rows[..n], session) && rows[n - 1].session == session {
      k := n - 1;
    } else {
      k := RankIsReached(rows, n - 1, session, rank);
    }
  }

  lemma BackfilledNumber(rows: seq<Instrument>, k: nat)
    requires IsOrdered(rows) && k < |rows|
    ensures Backfilled(rows)[k].number == InSession(rows[..k + 1], rows[k].session)
    ensures Backfilled(rows)[k].number == InSession(rows[..k], rows[k].session) + 1
  {
    assert rows[..|rows|] == rows;
    assert rows[..k + 1][..k] == rows[..k];
    RankCounts(rows, k, |rows|);
  }

  ghost predicate IsRankOf(rows: seq<Instrument>, session: int, rank: int) {
    exists k :: 0 <= k < |rows| && rows[k].session == session && Backfilled(rows)[k].number == rank
  }

  /** A session's ranks are exactly 1 to the number of its rows. */
  lemma RanksAreContiguous(rows: seq<Instrument>, session: int, rank: int)
    requires IsOrdered(rows)
    ensures IsRankOf(rows, session, rank) <==> 1 <= rank <= InSession(rows, session)
  {
    assert rows[..|rows|] == rows;
    if 1 <= rank <= InSession(rows, session) {
      var k := RankIsReached(rows, |rows|, session, rank);
      BackfilledNumber(rows, k);
      assert Backfilled(rows)[k].number == rank;
    }
    if IsRankOf(rows, session, rank) {
      var k :| 0 <= k < |rows| && rows[k].session == session && Backfilled(rows)[k].number == rank;
      BackfilledNumber(rows, k);
      InSessionGrows(rows, k + 1, |rows|, session);
    }
  }

  /** Ranks rise with the id, so the renumbering leaves them alone. */
  lemma BackfillNeedsNoRenumbering(rows: seq<Instrument>)
    requires IsOrdered(rows)
    ensures forall i, j :: 0 <= i < j < |rows| && rows[i].session == rows[j].session ==>
              Backfilled(rows)[i].number < Backfilled(rows)[j].number
    ensures Renumbered(Backfilled(rows)) == Backfilled(rows)
  {
    forall i, j | 0 <= i < j < |rows| && rows[i].session == rows[j].session
      ensures Backfilled(rows)[i].number < Backfilled(rows)[j].number
    {
      BackfilledNumber(rows, i);
      BackfilledNumber(rows, j);
      InSessionGrows(rows, i + 1, j, rows[i].session);
    }
    UniqueIsIdle(Backfilled(rows));
  }
}
