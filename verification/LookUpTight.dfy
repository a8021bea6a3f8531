/** The bound on calls after a refused sign-in is reached: with enough keys,
    some interleaving makes all `workers - 1` of them. */
module LookUpTight {
  import opened Wrappers
  import opened LookUp

  lemma {:induction false} RunSnoc(lower: string -> string, s: State, steps: seq<Step>, t: State, step: Step)
    requires Runs(lower, s, steps, t) && Enabled(t, step)
    ensures Runs(lower, s, steps + [step], Apply(lower, t, step))
    decreases |steps|
  {
    if steps == [] {
      assert [step][1..] == [];
    } else {
      RunSnoc(lower, Apply(lower, s, steps[0]), steps[1..], t, step);
      assert (steps + [step])[1..] == steps[1..] + [step];
    }
  }

  lemma {:induction false} RunJoin(lower: string -> string, s: State, before: seq<Step>, t: State, after: seq<Step>,
                                   u: State)
    requires Runs(lower, s, before, t) && Runs(lower, t, after, u)
    ensures Runs(lower, s, before + after, u)
    decreases |before|
  {
    if before == [] {
      assert before + after == after;
    } else {
      RunJoin(lower, Apply(lower, s, before[0]), before[1..], t, after, u);
      assert (before + after)[1..] == before[1..] + after;
    }
  }

  /** The first `n` keys are submitted. */
  function Submitted(s: State, n: nat): State {
    s.(submitted := n)
  }

  lemma {:induction false} ReachSubmitted(lower: string -> string, s: State, n: nat) returns (steps: seq<Step>)
    requires s.main.Submitting? && s.submitted == 0 && n <= |s.keys|
    ensures Runs(lower, s, steps, Submitted(s, n))
  {
    if n == 0 {
      steps := [];
    } else {
      steps := ReachSubmitted(lower, s, n - 1);
      RunSnoc(lower, s, steps, Submitted(s, n - 1), Submit);
      steps := steps + [Submit];
    }
  }

  /** The first `n` threads have each taken a key and passed the test of
      `stopped`. */
  function AtTheDoor(s: State, n: nat): State {
    s.(taken := n,
    workers := seq(|s.workers|, w requires 0 <= w < |s.workers| => if w < n then Asking(w) else Idle),
    futures := seq(|s.keys|, k => if k < n then Running else Pending))
  }

  lemma {:induction false} ReachDoor(lower: string -> string, s: State, n: nat) returns (steps: seq<Step>)
    requires s == AtTheDoor(s, 0) && s.stopped.None?
    requires n <= s.submitted <= |s.keys| && n <= |s.workers|
    ensures Runs(lower, s, steps, AtTheDoor(s, n))
  {
    if n == 0 {
      steps := [];
    } else {
      var w := n - 1;
      steps := ReachDoor(lower, s, w);
      var at := AtTheDoor(s, w);
      RunSnoc(lower, s, steps, at, Take(w));
      var taken := Apply(lower, at, Take(w));
      RunSnoc(lower, s, steps + [Take(w)], taken, Check(w));
      assert Apply(lower, taken, Check(w)).workers == AtTheDoor(s, n).workers;
      assert Apply(lower, taken, Check(w)).futures == AtTheDoor(s, n).futures;
      steps := steps + [Take(w)] + [Check(w)];
    }
  }

  /** Threads 1 up to `n` have made their calls too. */
  function Called(s: State, n: nat): State
    requires n >= 1
  {
    s.(calls := seq(n, k => k),
    workers := seq(|s.workers|, w requires 0 <= w < |s.workers| => if 1 <= w < n then InFlight(w) else s.workers[w]))
  }

  lemma {:induction false} ReachCalled(lower: string -> string, s: State, n: nat) returns (steps: seq<Step>)
    requires 1 <= n <= |s.workers| && s.calls == [0]
    requires forall w :: 1 <= w < |s.workers| ==> s.workers[w] == Asking(w)
    ensures Runs(lower, s, steps, Called(s, n))
  {
    if n == 1 {
      steps := [];
      assert Called(s, 1).calls == s.calls && Called(s, 1).workers == s.workers;
    } else {
      var w := n - 1;
      steps := ReachCalled(lower, s, w);
      var at := Called(s, w);
      RunSnoc(lower, s, steps, at, Call(w));
      assert Apply(lower, at, Call(w)).calls == Called(s, n).calls;
      assert Apply(lower, at, Call(w)).workers == Called(s, n).workers;
      steps := steps + [Call(w)];
    }
  }

  /** One refusal recorded while every other thread is past the test. */
  lemma ReachRefused(lower: string -> string, s: State) returns (steps: seq<Step>, t: State)
    requires |s.workers| > 0 && |s.keys| > 0 && s.workers[0] == Asking(0) && s.calls == [] && s.stopped.None?
    ensures Runs(lower, s, steps, t)
    ensures t.stopped == Some(Unauthorized) && t.calls == [0] && |t.workers| == |s.workers|
    ensures forall w :: 1 <= w < |s.workers| ==> t.workers[w] == s.workers[w]
  {
    var called := Apply(lower, s, Call(0));
    var answered := Apply(lower, called, Reply(0, Failed(Unauthorized)));
    t := Apply(lower, answered, Record(0));
    RunSnoc(lower, s, [], s, Call(0));
    RunSnoc(lower, s, [] + [Call(0)], called, Reply(0, Failed(Unauthorized)));
    RunSnoc(lower, s, [] + [Call(0)] + [Reply(0, Failed(Unauthorized))], answered, Record(0));
    steps := [] + [Call(0)] + [Reply(0, Failed(Unauthorized))] + [Record(0)];
  }

  /** The bound `workers - 1` is the best there is. */
  lemma BoundIsReached(lower: string -> string, input: seq<string>, workers: nat)
    returns (before: seq<Step>, s: State, after: seq<Step>, t: State)
    requires 0 < workers <= |Distinct(input)|
    ensures Runs(lower, Init(input, workers), before, s) && s.stopped.Some?
    ensures Runs(lower, s, after, t)
    ensures |t.calls| == |s.calls| + workers - 1
  {
    var start := Init(input, workers);
    var first := ReachSubmitted(lower, start, workers);
    var submitted := Submitted(start, workers);
    assert submitted == AtTheDoor(submitted, 0) by {
      assert submitted.workers == AtTheDoor(submitted, 0).workers;
      assert submitted.futures == AtTheDoor(submitted, 0).futures;
    }
    var second := ReachDoor(lower, submitted, workers);
    var door := AtTheDoor(submitted, workers);
    var third;
    third, s := ReachRefused(lower, door);
    RunJoin(lower, start, first, submitted, second, door);
    RunJoin(lower, start, first + second, door, third, s);
    before := first + second + third;
    after := ReachCalled(lower, s, workers);
    t := Called(s, workers);
  }
}
