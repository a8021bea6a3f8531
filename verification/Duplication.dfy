/** The duplicate-block count of `tools/code_metrics.py`, against a
    declarative rule. A file is the list of its code lines. */
module Duplication {
  import opened Sets
  import opened Text

  type File = seq<string>
  type Place = (nat, nat)

  const BLOCK_SIZES: seq<nat> := [6, 10, 15, 25]

  // ---------------------------------------------------------------------
  // The rule
  // ---------------------------------------------------------------------

  predicate IsWindow(files: seq<File>, size: nat, f: nat, i: nat) {
    f < |files| && i + size <= |files[f]|
  }

  function Window(files: seq<File>, size: nat, f: nat, i: nat): seq<string>
    requires IsWindow(files, size, f, i)
  {
    files[f][i..i + size]
  }

  ghost predicate SameBlock(files: seq<File>, size: nat, f: nat, i: nat, g: nat, h: nat) {
    && IsWindow(files, size, f, i) && IsWindow(files, size, g, h) && (f, i) != (g, h)
    && Window(files, size, f, i) == Window(files, size, g, h)
  }

  /** The block at (f, i) occurs at some other place too. */
  ghost predicate Repeated(files: seq<File>, size: nat, f: nat, i: nat) {
    exists g: nat, h: nat :: SameBlock(files, size, f, i, g, h)
  }

  /** Line `j` of file `f` lies in a repeated block. */
  ghost predicate Marked(files: seq<File>, size: nat, f: nat, j: nat) {
    exists i: nat :: i <= j < i + size && Repeated(files, size, f, i)
  }

  ghost function MarkedLines(files: seq<File>, size: nat, f: nat): set<nat>
    requires f < |files|
  {
    set j | 0 <= j < |files[f]| && Marked(files, size, f, j)
  }

  /** How many lines the rule marks in the first `n` files. */
  ghost function MarkedCount(files: seq<File>, size: nat, n: nat): nat
    requires n <= |files|
  {
    if n == 0 then 0 else MarkedCount(files, size, n - 1) + |MarkedLines(files, size, n - 1)|
  }

  function TotalLines(files: seq<File>): nat {
    if files == [] then 0 else TotalLines(files[..|files| - 1]) + |files[|files| - 1]|
  }

  /** The total is none for no files, and each file adds its own lines. */
  lemma TotalByFile(files: seq<File>, file: File)
    ensures TotalLines([]) == 0
    ensures TotalLines(files + [file]) == TotalLines(files) + |file|
  {
    assert (files + [file])[..|files|] == files;
  }

  // ---------------------------------------------------------------------
  // The key of a block
  // ---------------------------------------------------------------------

  predicate IsLine(s: string) {
    '\n' !in s
  }

  predicate AreLines(files: seq<File>) {
    forall f, j :: 0 <= f < |files| && 0 <= j < |files[f]| ==> IsLine(files[f][j])
  }

  /** No two texts share a digest. */
  ghost predicate IsInjective(digest: string -> string) {
    forall a, b :: digest(a) == digest(b) ==> a == b
  }

  /** Joining the same number of lines loses nothing. */
  lemma JoinInjective(a: seq<string>, b: seq<string>)
    requires |a| == |b| && Join(a, '\n') == Join(b, '\n')
    requires forall s :: s in a || s in b ==> IsLine(s)
    ensures a == b
  {
    if a != [] {
      SplitOfJoin(a, '\n');
      SplitOfJoin(b, '\n');
    }
  }

  function Key(files: seq<File>, size: nat, digest: string -> string, p: Place): string
    requires IsWindow(files, size, p.0, p.1)
  {
    digest(Join(Window(files, size, p.0, p.1), '\n'))
  }

  lemma KeyMeansBlock(files: seq<File>, size: nat, digest: string -> string, p: Place, q: Place)
    requires AreLines(files) && IsInjective(digest)
    requires IsWindow(files, size, p.0, p.1) && IsWindow(files, size, q.0, q.1)
    ensures Key(files, size, digest, p) == Key(files, size, digest, q) <==>
            Window(files, size, p.0, p.1) == Window(files, size, q.0, q.1)
  {
    if Key(files, size, digest, p) == Key(files, size, digest, q) {
      JoinInjective(Window(files, size, p.0, p.1), Window(files, size, q.0, q.1));
    }
  }

  // ---------------------------------------------------------------------
  // The loops
  // ---------------------------------------------------------------------

  /** Every window up to place (f, i), in reading order. */
  predicate IsBefore(p: Place, f: nat, i: nat) {
    p.0 < f || (p.0 == f && p.1 < i)
  }

  /** The places listed under each key are the windows read so far with that
      key, each once. */
  ghost predicate Indexed(files: seq<File>, size: nat, digest: string -> string,
                          locations: map<string, seq<Place>>, f: nat, i: nat) {
    && (forall key, p :: key in locations && p in locations[key] ==>
          IsWindow(files, size, p.0, p.1) && IsBefore(p, f, i) && Key(files, size, digest, p) == key)
    && (forall p: Place :: IsWindow(files, size, p.0, p.1) && IsBefore(p, f, i) ==>
          Key(files, size, digest, p) in locations && p in locations[Key(files, size, digest, p)])
    && (forall key :: key in locations ==>
          forall m, n :: 0 <= m < n < |locations[key]| ==> locations[key][m] != locations[key][n])
  }

  ghost predicate Counted(windows: map<string, nat>, locations: map<string, seq<Place>>) {
    windows.Keys == locations.Keys && forall key :: key in windows ==> windows[key] == |locations[key]|
  }

  lemma NothingIndexed(files: seq<File>, size: nat, digest: string -> string)
    ensures Indexed(files, size, digest, map[], 0, 0) && Counted(map[], map[])
  {
  }

  lemma CountOneMore(windows: map<string, nat>, locations: map<string, seq<Place>>, key: string, place: Place)
    requires Counted(windows, locations)
    ensures Counted(windows[key := (if key in windows then windows[key] else 0) + 1],
                    locations[key := (if key in locations then locations[key] else []) + [place]])
  {
  }

  /** Past a file's last window, the next to read is in the next file. */
  lemma NextFile(files: seq<File>, size: nat, digest: string -> string, locations: map<string, seq<Place>>, f: nat,
                 i: nat)
    requires f < |files| && i + size > |files[f]| && Indexed(files, size, digest, locations, f, i)
    ensures Indexed(files, size, digest, locations, f + 1, 0)
  {
    hide Key;
    assert forall p: Place :: IsWindow(files, size, p.0, p.1) ==> (IsBefore(p, f, i) <==> IsBefore(p, f + 1, 0));
  }

  method IndexWindows(files: seq<File>, size: nat, digest: string -> string)
    returns (windows: map<string, nat>, locations: map<string, seq<Place>>)
    ensures Indexed(files, size, digest, locations, |files|, 0)
    ensures Counted(windows, locations)
  {
    hide Key, Indexed, Counted, IsBefore;
    windows, locations := map[], map[];
    NothingIndexed(files, size, digest);
    for f := 0 to |files|
      invariant Indexed(files, size, digest, locations, f, 0)
      invariant Counted(windows, locations)
    {
      var i := 0;
      while i + size <= |files[f]|
        invariant Indexed(files, size, digest, locations, f, i)
        invariant Counted(windows, locations)
        invariant i <= |files[f]| + 1
        decreases |files[f]| + 1 - i
      {
        var key := Key(files, size, digest, (f, i));
        IndexOneMore(files, size, digest, locations, f, i);
        CountOneMore(windows, locations, key, (f, i));
        windows := windows[key := (if key in windows then windows[key] else 0) + 1];
        locations := locations[key := (if key in locations then locations[key] else []) + [(f, i)]];
        i := i + 1;
      }
      NextFile(files, size, digest, locations, f, i);
    }
  }

  lemma IndexOneMore(files: seq<File>, size: nat, digest: string -> string, locations: map<string, seq<Place>>,
                     f: nat, i: nat)
    requires Indexed(files, size, digest, locations, f, i) && IsWindow(files, size, f, i)
    ensures var key := Key(files, size, digest, (f, i));
            Indexed(files, size, digest,
                    locations[key := (if key in locations then locations[key] else []) + [(f, i)]], f, i + 1)
  {
    var key := Key(files, size, digest, (f, i));
    var listed := if key in locations then locations[key] else [];
    var longer := locations[key := listed + [(f, i)]];
    assert (f, i) !in listed;
    forall p: Place | IsWindow(files, size, p.0, p.1) && IsBefore(p, f, i + 1)
      ensures Key(files, size, digest, p) in longer && p in longer[Key(files, size, digest, p)]
    {
      if p != (f, i) {
        assert IsBefore(p, f, i);
      }
    }
  }

  /** Line `j` of file `f` lies in a block listed under one of these keys
      with another. */
  ghost predicate MarkedBy(locations: map<string, seq<Place>>, keys: set<string>, size: nat, f: nat, j: nat) {
    exists key, i: nat ::
      && key in keys && key in locations && |locations[key]| >= 2
      && (f, i) in locations[key] && i <= j < i + size
  }

  predicate Seen(seen: map<nat, set<nat>>, f: nat, j: nat) {
    f in seen && j in seen[f]
  }

  /** Python's `range(i, i + n)` as a set. */
  function Range(i: nat, n: nat): (r: set<nat>)
    ensures forall j :: j in r <==> i <= j < i + n
    ensures |r| == n
  {
    if n == 0 then {} else Range(i, n - 1) + {i + n - 1}
  }

  /** The same, for the first `n` places listed under one key. */
  ghost predicate MarkedByFirst(places: seq<Place>, n: nat, size: nat, f: nat, j: nat)
    requires n <= |places|
  {
    exists m :: 0 <= m < n && places[m].0 == f && places[m].1 <= j < places[m].1 + size
  }

  method MarkPlaces(places: seq<Place>, size: nat, before: map<nat, set<nat>>) returns (seen: map<nat, set<nat>>)
    ensures forall f: nat, j: nat :: Seen(seen, f, j) <==>
              Seen(before, f, j) || MarkedByFirst(places, |places|, size, f, j)
  {
    seen := before;
    for n := 0 to |places|
      invariant forall f: nat, j: nat :: Seen(seen, f, j) <==>
                  Seen(before, f, j) || MarkedByFirst(places, n, size, f, j)
    {
      var (g, i) := places[n];
      ghost var was := seen;
      seen := seen[g := (if g in seen then seen[g] else {}) + Range(i, size)];
      forall f: nat, j: nat
        ensures Seen(seen, f, j) <==> Seen(before, f, j) || MarkedByFirst(places, n + 1, size, f, j)
      {
        assert Seen(seen, f, j) <==> Seen(was, f, j) || (f == g && i <= j < i + size);
        assert MarkedByFirst(places, n + 1, size, f, j) <==>
               MarkedByFirst(places, n, size, f, j) || (f == g && i <= j < i + size);
      }
    }
  }

  method MarkRepeated(windows: map<string, nat>, locations: map<string, seq<Place>>, size: nat)
    returns (seen: map<nat, set<nat>>)
    requires Counted(windows, locations)
    ensures forall f: nat, j: nat :: Seen(seen, f, j) <==> MarkedBy(locations, windows.Keys, size, f, j)
  {
    seen := map[];
    var todo := windows.Keys;
    while todo != {}
      invariant todo <= windows.Keys
      invariant forall f: nat, j: nat :: Seen(seen, f, j) <==> MarkedBy(locations, windows.Keys - todo, size, f, j)
      decreases todo
    {
      var key :| key in todo;
      ghost var done := windows.Keys - todo;
      ghost var was := seen;
      if windows[key] >= 2 {
        seen := MarkPlaces(locations[key], size, seen);
      }
      todo := todo - {key};
      forall f: nat, j: nat
        ensures Seen(seen, f, j) <==> MarkedBy(locations, windows.Keys - todo, size, f, j)
      {
        MarkedByOneMore(locations, done, key, size, f, j);
        assert windows.Keys - todo == done + {key};
      }
    }
  }

  lemma MarkedByOneMore(locations: map<string, seq<Place>>, keys: set<string>, key: string, size: nat, f: nat, j: nat)
    requires key in locations
    ensures MarkedBy(locations, keys + {key}, size, f, j) <==>
            || MarkedBy(locations, keys, size, f, j)
            || (|locations[key]| >= 2 && MarkedByFirst(locations[key], |locations[key]|, size, f, j))
  {
    var places := locations[key];
    if |places| >= 2 && MarkedByFirst(places, |places|, size, f, j) {
      var m :| 0 <= m < |places| && places[m].0 == f && places[m].1 <= j < places[m].1 + size;
      assert (f, places[m].1) in places;
    }
    if MarkedBy(locations, keys + {key}, size, f, j) {
      var k, i: nat :| k in keys + {key} && k in locations && |locations[k]| >= 2
                       && (f, i) in locations[k] && i <= j < i + size;
      if k == key {
        var m :| 0 <= m < |places| && places[m] == (f, i);
      }
    }
  }

  // ---------------------------------------------------------------------
  // The loops meet the rule
  // ---------------------------------------------------------------------

  lemma IndexFindsRepeats(files: seq<File>, size: nat, digest: string -> string,
                          locations: map<string, seq<Place>>, f: nat, i: nat)
    requires AreLines(files) && IsInjective(digest)
    requires Indexed(files, size, digest, locations, |files|, 0)
    requires IsWindow(files, size, f, i)
    ensures Key(files, size, digest, (f, i)) in locations
    ensures Repeated(files, size, f, i) <==> |locations[Key(files, size, digest, (f, i))]| >= 2
  {
    var key := Key(files, size, digest, (f, i));
    assert IsBefore((f, i), |files|, 0);
    var places := locations[key];
    var m :| 0 <= m < |places| && places[m] == (f, i);
    if Repeated(files, size, f, i) {
      var g: nat, h: nat :| SameBlock(files, size, f, i, g, h);
      KeyMeansBlock(files, size, digest, (f, i), (g, h));
      assert IsBefore((g, h), |files|, 0);
      var n :| 0 <= n < |places| && places[n] == (g, h);
      assert m != n;
    }
    if |places| >= 2 {
      var n := if m == 0 then 1 else 0;
      var q := places[n];
      assert q in places;
      assert q != (f, i);
      KeyMeansBlock(files, size, digest, (f, i), q);
      assert SameBlock(files, size, f, i, q.0, q.1);
    }
  }

  lemma MarksMeetRule(files: seq<File>, size: nat, digest: string -> string, locations: map<string, seq<Place>>,
                      f: nat, j: nat)
    requires AreLines(files) && IsInjective(digest)
    requires Indexed(files, size, digest, locations, |files|, 0)
    ensures MarkedBy(locations, locations.Keys, size, f, j) <==> Marked(files, size, f, j)
  {
    if Marked(files, size, f, j) {
      var i: nat :| i <= j < i + size && Repeated(files, size, f, i);
      IndexFindsRepeats(files, size, digest, locations, f, i);
      assert IsBefore((f, i), |files|, 0);
      assert (f, i) in locations[Key(files, size, digest, (f, i))];
    }
    if MarkedBy(locations, locations.Keys, size, f, j) {
      var key, i: nat :| key in locations && |locations[key]| >= 2 && (f, i) in locations[key] && i <= j < i + size;
      IndexFindsRepeats(files, size, digest, locations, f, i);
    }
  }

  /** For one block size: a line is seen exactly when the rule marks it, and
      `dup` is how many there are. */
  method CountDuplicated(files: seq<File>, size: nat, digest: string -> string)
    returns (dup: nat, seen: map<nat, set<nat>>)
    requires AreLines(files) && IsInjective(digest)
    ensures forall f: nat, j: nat :: Seen(seen, f, j) <==> Marked(files, size, f, j)
    ensures dup == MarkedCount(files, size, |files|)
  {
    var windows, locations := IndexWindows(files, size, digest);
    seen := MarkRepeated(windows, locations, size);
    forall f: nat, j: nat ensures Seen(seen, f, j) <==> Marked(files, size, f, j) {
      MarksMeetRule(files, size, digest, locations, f, j);
    }
    dup := 0;
    for f := 0 to |files|
      invariant dup == MarkedCount(files, size, f)
    {
      var lines := if f in seen then seen[f] else {};
      assert lines == MarkedLines(files, size, f) by {
        forall j | j in lines ensures j in MarkedLines(files, size, f) {
          assert Seen(seen, f, j);
        }
        forall j | j in MarkedLines(files, size, f) ensures j in lines {
          assert Seen(seen, f, j);
        }
      }
      dup := dup + |lines|;
    }
  }

  // ---------------------------------------------------------------------
  // The curve
  // ---------------------------------------------------------------------

  lemma InnerWindow(files: seq<File>, small: nat, large: nat, f: nat, i: nat, shift: nat)
    requires IsWindow(files, large, f, i) && shift + small <= large
    ensures IsWindow(files, small, f, i + shift)
    ensures Window(files, small, f, i + shift) == Window(files, large, f, i)[shift..shift + small]
  {
    var inner, outer := Window(files, small, f, i + shift), Window(files, large, f, i);
    assert |inner| == small;
    forall k | 0 <= k < small ensures inner[k] == outer[shift..shift + small][k] {
      assert inner[k] == files[f][i + shift + k];
      assert outer[shift + k] == files[f][i + (shift + k)];
    }
  }

  /** A line in a repeated block is in a repeated smaller block. */
  lemma SmallerBlocksMarkMore(files: seq<File>, small: nat, large: nat, f: nat, j: nat)
    requires 0 < small <= large && Marked(files, large, f, j)
    ensures Marked(files, small, f, j)
  {
    var i: nat :| i <= j < i + large && Repeated(files, large, f, i);
    var g: nat, h: nat :| SameBlock(files, large, f, i, g, h);
    var shift := if j < i + small then 0 else j - i - small + 1;
    InnerWindow(files, small, large, f, i, shift);
    InnerWindow(files, small, large, g, h, shift);
    assert SameBlock(files, small, f, i + shift, g, h + shift);
    assert Repeated(files, small, f, i + shift);
  }

  /** The count only falls as the block size grows. */
  lemma {:induction false} CountFalls(files: seq<File>, small: nat, large: nat, n: nat)
    requires 0 < small <= large && n <= |files|
    ensures MarkedCount(files, large, n) <= MarkedCount(files, small, n)
  {
    if n > 0 {
      CountFalls(files, small, large, n - 1);
      var few, many := MarkedLines(files, large, n - 1), MarkedLines(files, small, n - 1);
      forall j | j in few ensures j in many {
        SmallerBlocksMarkMore(files, small, large, n - 1, j);
      }
      SubsetSize(few, many);
    }
  }

  /** The count never passes the number of lines. */
  lemma {:induction false} CountWithinTotal(files: seq<File>, size: nat, n: nat)
    requires n <= |files|
    ensures MarkedCount(files, size, n) <= TotalLines(files[..n])
  {
    if n > 0 {
      CountWithinTotal(files, size, n - 1);
      assert files[..n][..n - 1] == files[..n - 1];
      SubsetSize(MarkedLines(files, size, n - 1), Range(0, |files[n - 1]|));
    }
  }

  /** The printed curve: one count per block size, non-increasing and never
      past the total; nothing when there are no lines. */
  method Curve(files: seq<File>, digest: string -> string) returns (curve: seq<nat>)
    requires AreLines(files) && IsInjective(digest)
    ensures TotalLines(files) == 0 <==> curve == []
    ensures curve != [] ==>
              && curve == [MarkedCount(files, 6, |files|), MarkedCount(files, 10, |files|),
                           MarkedCount(files, 15, |files|), MarkedCount(files, 25, |files|)]
              && (forall k :: 0 <= k < |curve| ==> curve[k] <= TotalLines(files))
              && (forall k, m :: 0 <= k <= m < |curve| ==> curve[k] >= curve[m])
  {
    curve := [];
    if TotalLines(files) == 0 {
      return;
    }
    for n := 0 to |BLOCK_SIZES|
      invariant |curve| == n
      invariant forall k :: 0 <= k < n ==> curve[k] == MarkedCount(files, BLOCK_SIZES[k], |files|)
    {
      var dup, _ := CountDuplicated(files, BLOCK_SIZES[n], digest);
      curve := curve + [dup];
    }
    forall k | 0 <= k < |curve| ensures curve[k] <= TotalLines(files) {
      CountWithinTotal(files, BLOCK_SIZES[k], |files|);
      assert files[..|files|] == files;
    }
    forall k, m | 0 <= k <= m < |curve| ensures curve[k] >= curve[m] {
      CountFalls(files, BLOCK_SIZES[k], BLOCK_SIZES[m], |files|);
    }
  }
}
