/** How `tools/pace_audit.py` splits the time between merges. Times are epoch
    seconds, durations minutes. */
module PaceSplit {
  import opened Wrappers

  /** The first and last commit of a merged branch, and the stamp of the
      instruction it answers, if there is one; a squash has none of these. */
  datatype Branch = Branch(first: int, last: int, received: Option<int>)

  datatype Split = Split(cycle: Option<real>, turn: Option<real>, iter: Option<real>, push2merge: Option<real>,
                         wait: Option<real>, build: Option<real>)

  datatype Merge = Merge(merge: int, branch: Option<Branch>, split: Split)

  function Minutes(seconds: int): real {
    seconds as real / 60.0
  }

  /** The merge before, when there is one: `if prev`, so 0 is none. */
  function Before(rows: seq<Merge>, k: nat): Option<int>
    requires k < |rows|
  {
    if k == 0 || rows[k - 1].merge == 0 then None else Some(rows[k - 1].merge)
  }

  function Since(previous: Option<int>, moment: int): Option<real> {
    if previous.None? then None else Some(Minutes(moment - previous.value))
  }

  /** The stamp counts when it lies between the merge before and the first
      commit; a stamp of 0 counts for nothing. */
  predicate IsStamped(previous: Option<int>, b: Branch) {
    && previous.Some? && b.received.Some? && b.received.value != 0
    && previous.value <= b.received.value <= b.first
  }

  function SplitOf(previous: Option<int>, row: Merge): Split {
    var cycle := Since(previous, row.merge);
    match row.branch
    case None => Split(cycle, None, None, None, None, None)
    case Some(b) =>
      var stamped := IsStamped(previous, b);
      Split(cycle, Since(previous, b.first), Some(Minutes(b.last - b.first)), Some(Minutes(row.merge - b.last)),
            if stamped then Since(previous, b.received.value) else None,
            if stamped then Some(Minutes(b.first - b.received.value)) else None)
  }

  lemma BeforeIs(rows: seq<Merge>, k: nat)
    requires k < |rows|
    ensures Before(rows, k) == if k == 0 || rows[k - 1].merge == 0 then None else Some(rows[k - 1].merge)
  {
  }

  lemma CycleOf(previous: Option<int>, row: Merge)
    ensures SplitOf(previous, row).cycle == Since(previous, row.merge)
  {
  }

  /** The loop over the rows in merge order, carrying the merge before. */
  method SplitAll(table: array<Merge>)
    modifies table
    ensures forall k :: 0 <= k < table.Length ==>
              table[k] == old(table[k]).(split := SplitOf(Before(old(table[..]), k), old(table[k])))
  {
    hide Minutes, Before;
    ghost var rows := table[..];
    var prev: Option<int> := None;
    for k := 0 to table.Length
      invariant prev == if k == 0 then None else Some(rows[k - 1].merge)
      invariant forall j :: 0 <= j < k ==> table[j] == rows[j].(split := SplitOf(Before(rows, j), rows[j]))
      invariant forall j :: k <= j < table.Length ==> table[j] == rows[j]
    {
      var row := table[k];
      var known := prev.Some? && prev.value != 0;
      var split := Split(if known then Some(Minutes(row.merge - prev.value)) else None, None, None, None, None, None);
      if row.branch.Some? {
        var b := row.branch.value;
        if known {
          split := split.(turn := Some(Minutes(b.first - prev.value)));
        }
        split := split.(iter := Some(Minutes(b.last - b.first)), push2merge := Some(Minutes(row.merge - b.last)));
        if known && b.received.Some? && b.received.value != 0 && prev.value <= b.received.value <= b.first {
          split := split.(wait := Some(Minutes(b.received.value - prev.value)),
          build := Some(Minutes(b.first - b.received.value)));
        }
      }
      BeforeIs(rows, k);
      assert split == SplitOf(Before(rows, k), rows[k]);
      hide SplitOf;
      table[k] := row.(split := split);
      prev := Some(row.merge);
    }
  }

  // ---------------------------------------------------------------------
  // No time is lost or counted twice
  // ---------------------------------------------------------------------

  lemma MinutesAdd(a: int, b: int)
    ensures Minutes(a) + Minutes(b) == Minutes(a + b)
  {
  }

  /** A branch's cycle is its turn, its iteration and its wait to merge; and
      a stamped turn is its wait and its build, neither negative. */
  lemma CycleIsItsParts(previous: Option<int>, row: Merge)
    requires row.branch.Some?
    ensures var s := SplitOf(previous, row);
            && s.iter.Some? && s.push2merge.Some?
            && (previous.Some? <==> s.cycle.Some?) && (previous.Some? <==> s.turn.Some?)
            && (previous.Some? ==> s.cycle.value == s.turn.value + s.iter.value + s.push2merge.value)
            && (s.wait.Some? <==> s.build.Some?) && (s.wait.Some? <==> IsStamped(previous, row.branch.value))
            && (s.wait.Some? ==> s.turn == Some(s.wait.value + s.build.value))
            && (s.wait.Some? ==> s.wait.value >= 0.0 && s.build.value >= 0.0)
  {
  }

  /** What each duration lies between: the merge before, the stamp, the first
      commit, the last one, and the merge. */
  lemma SpansByMoment(previous: Option<int>, row: Merge)
    ensures var s := SplitOf(previous, row);
            && (s.cycle.Some? <==> previous.Some?)
            && (s.cycle.Some? ==> 60.0 * s.cycle.value == (row.merge - previous.value) as real)
            && (row.branch.None? ==> s == Split(s.cycle, None, None, None, None, None))
            && (row.branch.Some? ==>
                  var b := row.branch.value;
                  && s.iter.Some? && 60.0 * s.iter.value == (b.last - b.first) as real
                  && s.push2merge.Some? && 60.0 * s.push2merge.value == (row.merge - b.last) as real
                  && (s.turn.Some? <==> previous.Some?)
                  && (s.turn.Some? ==> 60.0 * s.turn.value == (b.first - previous.value) as real)
                  && (s.wait.Some? ==> 60.0 * s.wait.value == (b.received.value - previous.value) as real)
                  && (s.build.Some? ==> 60.0 * s.build.value == (b.first - b.received.value) as real)
                  && (s.wait.Some? <==> s.build.Some?)
                  && (s.wait.Some? <==>
                      && previous.Some? && b.received.Some? && b.received.value != 0
                      && previous.value <= b.received.value && b.received.value <= b.first))
  {
  }

  function SumCycles(rows: seq<Merge>): real {
    if rows == [] then 0.0
    else
      var last := rows[|rows| - 1];
      SumCycles(rows[..|rows| - 1]) + if last.split.cycle.Some? then last.split.cycle.value else 0.0
  }

  /** Real merges, after the epoch's first second, split by the loop. */
  predicate AreSplit(rows: seq<Merge>) {
    forall k :: 0 <= k < |rows| ==> rows[k].merge != 0 && rows[k].split == SplitOf(Before(rows, k), rows[k])
  }

  lemma SplitByOne(rows: seq<Merge>)
    requires |rows| > 1 && AreSplit(rows)
    ensures var n := |rows| - 1;
            && AreSplit(rows[..n])
            && rows[n].split.cycle == Some(Minutes(rows[n].merge - rows[n - 1].merge))
  {
    hide SplitOf, Minutes;
    var n := |rows| - 1;
    CycleOf(Before(rows, n), rows[n]);
    assert forall k :: 0 <= k < n ==> Before(rows[..n], k) == Before(rows, k) && rows[..n][k] == rows[k];
  }

  /** The cycles add up to the time from the first merge to the last. */
  lemma {:induction false} CyclesTelescope(rows: seq<Merge>)
    requires rows != [] && AreSplit(rows)
    ensures SumCycles(rows) == Minutes(rows[|rows| - 1].merge - rows[0].merge)
  {
    var n := |rows| - 1;
    if n == 0 {
      assert SumCycles(rows[..0]) == 0.0;
    } else {
      hide AreSplit, Minutes;
      SplitByOne(rows);
      CyclesTelescope(rows[..n]);
      MinutesAdd(rows[n - 1].merge - rows[0].merge, rows[n].merge - rows[n - 1].merge);
    }
  }
}
