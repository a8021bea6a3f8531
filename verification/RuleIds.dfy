/** The rule-id check of `app/schemas/rules.py`: a stack over a forest of
    rules, against flattening it and asking for distinct ids. */
module RuleIds {
  import opened Wrappers

  /** A rule's kind and, for a composite, its children. */
  datatype Rule =
    | Filter(id: string)
    | Match(id: string)
    | Quota(id: string)
    | Composite(id: string, rules: seq<Rule>)

  /** Every id of the forest, nested composites included, once per node. */
  function Flatten(rules: seq<Rule>): seq<string>
    decreases rules
  {
    if rules == [] then []
    else
      var first := rules[0];
      [first.id] + (if first.Composite? then Flatten(first.rules) else []) + Flatten(rules[1..])
  }

  predicate IsDistinct(ids: seq<string>) {
    forall i, j :: 0 <= i < j < |ids| ==> ids[i] != ids[j]
  }

  lemma {:induction false} FlattenConcat(a: seq<Rule>, b: seq<Rule>)
    ensures Flatten(a + b) == Flatten(a) + Flatten(b)
    decreases |a|
  {
    if a == [] {
      assert a + b == b;
    } else {
      assert (a + b)[1..] == a[1..] + b;
      FlattenConcat(a[1..], b);
    }
  }

  /** The top of the stack and what is under it. */
  lemma FlattenTop(stack: seq<Rule>)
    requires stack != []
    ensures var top := stack[|stack| - 1];
            Flatten(stack) ==
            Flatten(stack[..|stack| - 1]) + ([top.id] + if top.Composite? then Flatten(top.rules) else [])
  {
    var front, top := stack[..|stack| - 1], stack[|stack| - 1];
    assert stack == front + [top];
    FlattenConcat(front, [top]);
    assert [top][1..] == [];
  }

  /** Two places with one id are two of that id. */
  lemma RepeatedTwice(ids: seq<string>, i: int, j: int)
    requires 0 <= i < j < |ids| && ids[i] == ids[j]
    ensures multiset(ids)[ids[i]] >= 2
  {
    var before, after := ids[..j], ids[j..];
    assert ids == before + after;
    assert before[i] in multiset(before) && after[0] in multiset(after);
    assert multiset(ids) == multiset(before) + multiset(after);
  }

  lemma {:induction false} DistinctOnce(ids: seq<string>)
    requires IsDistinct(ids)
    ensures forall id :: multiset(ids)[id] <= 1
  {
    if ids != [] {
      var front, last := ids[..|ids| - 1], ids[|ids| - 1];
      DistinctOnce(front);
      assert ids == front + [last];
      assert last !in multiset(front);
    }
  }

  /** An id seen twice is two places in the list. */
  lemma DistinctMeansOnce(ids: seq<string>)
    ensures IsDistinct(ids) <==> forall id :: multiset(ids)[id] <= 1
  {
    if IsDistinct(ids) {
      DistinctOnce(ids);
    } else {
      var i, j :| 0 <= i < j < |ids| && ids[i] == ids[j];
      RepeatedTwice(ids, i, j);
    }
  }

  /** Moving the popped node's id to the seen set keeps the ids accounted
      for; a node whose id is already there makes two. */
  lemma Popped(all: multiset<string>, seen: set<string>, under: seq<string>, id: string, children: seq<string>)
    requires all == multiset(seen) + multiset(under + ([id] + children))
    ensures id in seen ==> all[id] >= 2
    ensures id !in seen ==> all == multiset(seen + {id}) + multiset(under + children)
  {
    assert multiset(under + ([id] + children)) == multiset(under) + (multiset{id} + multiset(children));
    assert multiset(under + children) == multiset(under) + multiset(children);
    if id !in seen {
      assert multiset(seen + {id}) == multiset(seen) + multiset{id};
    }
  }

  /** The validator: the id it refuses with, if any. It ends on every forest,
      and refuses exactly when two nodes anywhere share an id. */
  method DuplicateId(rules: seq<Rule>) returns (duplicate: Option<string>)
    ensures duplicate.None? <==> IsDistinct(Flatten(rules))
    ensures duplicate.Some? ==> multiset(Flatten(rules))[duplicate.value] >= 2
  {
    var seen: set<string> := {};
    var stack := rules;
    DistinctMeansOnce(Flatten(rules));
    while stack != []
      invariant multiset(Flatten(rules)) == multiset(seen) + multiset(Flatten(stack))
      decreases |Flatten(stack)|
    {
      hide Flatten, IsDistinct;
      FlattenTop(stack);
      var rule := stack[|stack| - 1];
      stack := stack[..|stack| - 1];
      var children := if rule.Composite? then rule.rules else [];
      FlattenNone();
      Popped(multiset(Flatten(rules)), seen, Flatten(stack), rule.id, Flatten(children));
      if rule.id in seen {
        return Some(rule.id);
      }
      seen := seen + {rule.id};
      FlattenConcat(stack, children);
      stack := stack + children;
    }
    return None;
  }

  lemma FlattenNone()
    ensures Flatten([]) == []
  {
  }
}
