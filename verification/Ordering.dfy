/** Python's `sorted` on integers. */
module Ordering {

  ghost predicate Ascending(xs: seq<int>) {
    forall i, j :: 0 <= i < j < |xs| ==> xs[i] <= xs[j]
  }

  function Insert(x: int, xs: seq<int>): seq<int> {
    if xs == [] || x <= xs[0] then [x] + xs else [xs[0]] + Insert(x, xs[1..])
  }

  function Sorted(xs: seq<int>): seq<int> {
    if xs == [] then [] else Insert(xs[0], Sorted(xs[1..]))
  }

  lemma {:induction false} InsertKeeps(x: int, xs: seq<int>)
    ensures multiset(Insert(x, xs)) == multiset(xs) + multiset{x}
  {
    if xs == [] || x <= xs[0] {
      assert multiset([x] + xs) == multiset([x]) + multiset(xs);
    } else {
      var head, tail := [xs[0]], xs[1..];
      InsertKeeps(x, tail);
      assert xs == head + tail;
      assert multiset(head + tail) == multiset(head) + multiset(tail);
      assert multiset(head + Insert(x, tail)) == multiset(head) + multiset(Insert(x, tail));
    }
  }

  lemma {:induction false} Inserted(x: int, xs: seq<int>, y: int)
    ensures y in Insert(x, xs) <==> y == x || y in xs
  {
    if xs != [] && xs[0] < x {
      Inserted(x, xs[1..], y);
      assert xs == [xs[0]] + xs[1..];
    }
  }

  lemma AscendingCons(x: int, xs: seq<int>)
    requires Ascending(xs) && forall y :: y in xs ==> x <= y
    ensures Ascending([x] + xs)
  {
    var r := [x] + xs;
    forall i, j | 0 <= i < j < |r| ensures r[i] <= r[j] {
      assert r[j] == xs[j - 1] && xs[j - 1] in xs;
      assert i > 0 ==> r[i] == xs[i - 1];
    }
  }

  lemma {:induction false} InsertAscending(x: int, xs: seq<int>)
    requires Ascending(xs)
    ensures Ascending(Insert(x, xs))
  {
    if xs == [] || x <= xs[0] {
      AscendingCons(x, xs);
    } else {
      var rest := Insert(x, xs[1..]);
      InsertAscending(x, xs[1..]);
      forall y | y in rest ensures xs[0] <= y {
        Inserted(x, xs[1..], y);
      }
      AscendingCons(xs[0], rest);
    }
  }

  /** The same numbers, in ascending order. */
  lemma {:induction false} SortedMeaning(xs: seq<int>)
    ensures multiset(Sorted(xs)) == multiset(xs)
    ensures Ascending(Sorted(xs))
  {
    if xs != [] {
      SortedMeaning(xs[1..]);
      InsertKeeps(xs[0], Sorted(xs[1..]));
      InsertAscending(xs[0], Sorted(xs[1..]));
      assert xs == [xs[0]] + xs[1..];
    }
  }

  lemma EmptyOrNot(s: set<int>)
    ensures s == {} || exists x :: x in s
  {
    if forall x :: x !in s {
      assert s == {};
    }
  }

  /** `sorted` on a set. */
  method SortedSet(given: set<int>) returns (xs: seq<int>)
    ensures Ascending(xs) && multiset(xs) == multiset(given)
  {
    var listed: seq<int> := [];
    var todo := given;
    while todo != {}
      invariant todo <= given
      invariant multiset(listed) == multiset(given - todo)
      decreases todo
    {
      EmptyOrNot(todo);
      var x :| x in todo;
      assert multiset(given - (todo - {x})) == multiset(given - todo) + multiset{x};
      listed := listed + [x];
      todo := todo - {x};
    }
    assert given - todo == given;
    xs := Sorted(listed);
    SortedMeaning(listed);
  }
}
