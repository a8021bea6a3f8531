/** The budget's promise: once it has run out, `look_up_all` ends by its own
    steps, whatever the pool and the directory still do. */
module LookUpBudget {
  import opened LookUp
  import opened LookUpSafety
  import opened LookUpTheorems

  /** A step of the main thread. */
  predicate IsMain(step: Step) {
    || step.Submit? || step.StartWait? || step.WaitDone? || step.WaitExpired?
    || step.CancelNext? || step.StartCollect? || step.CollectNext? || step.Return?
  }

  /** The wait is over, by the budget or by all being done. */
  predicate IsPastWait(s: State) {
    s.main.Cancelling? || s.main.Collecting? || HasEnded(s)
  }

  predicate HasEnded(s: State) {
    s.main.Returned? || s.main.Broken?
  }

  /** The steps the main thread has left: one for each key still queued, one
      for each outcome to collect, and two between. */
  function MainLeft(s: State): int {
    match s.main
    case Cancelling => (s.submitted - s.taken) + |s.keys| + 2
    case Collecting => |s.keys| - |s.collected| + 1
    case _ => 0
  }

  function MainSteps(steps: seq<Step>): nat {
    if steps == [] then 0 else (if IsMain(steps[0]) then 1 else 0) + MainSteps(steps[1..])
  }

  /** A step of the pool never gives the main thread more to do, and its own
      steps use up what it has. */
  lemma StepPastWait(lower: string -> string, s: State, step: Step)
    requires Inv(lower, s) && Enabled(s, step) && IsPastWait(s)
    ensures IsPastWait(Apply(lower, s, step))
    ensures MainLeft(Apply(lower, s, step)) + (if IsMain(step) then 1 else 0) <= MainLeft(s)
  {
    hide Pool, History;
  }

  lemma {:induction false} RunPastWait(lower: string -> string, s: State, steps: seq<Step>, t: State)
    requires Inv(lower, s) && Runs(lower, s, steps, t) && IsPastWait(s)
    ensures IsPastWait(t) && MainSteps(steps) + MainLeft(t) <= MainLeft(s)
    decreases |steps|
  {
    hide Inv;
    if steps != [] {
      StepPastWait(lower, s, steps[0]);
      StepInv(lower, s, steps[0]);
      RunPastWait(lower, Apply(lower, s, steps[0]), steps[1..], t);
    }
  }

  /** The main thread's next step past the wait; it waits for nobody. */
  function NextMain(s: State): Step {
    if s.main.Cancelling? then (if s.taken < s.submitted then CancelNext else StartCollect)
    else if |s.collected| < |s.keys| then CollectNext
    else Return
  }

  lemma MainIsNeverBlocked(lower: string -> string, s: State)
    requires Inv(lower, s) && IsPastWait(s) && !HasEnded(s)
    ensures IsMain(NextMain(s)) && Enabled(s, NextMain(s))
  {
    hide Pool, History;
  }

  lemma MainLeftBounds(lower: string -> string, s: State)
    requires Inv(lower, s)
    ensures 0 <= MainLeft(s) <= 2 * |s.keys| + 2
  {
    hide Pool, History;
  }

  /** However the pool and the directory are interleaved with it, past the
      wait the main thread makes at most two steps a distinct key and two
      more, and at every moment until it has returned or raised its next step
      is possible. */
  lemma BudgetHolds(lower: string -> string, input: seq<string>, workers: nat, before: seq<Step>, s: State,
                    after: seq<Step>, t: State)
    requires workers > 0
    requires Runs(lower, Init(input, workers), before, s) && IsPastWait(s)
    requires Runs(lower, s, after, t)
    ensures MainSteps(after) <= 2 * |Distinct(input)| + 2
    ensures HasEnded(t) || (IsMain(NextMain(t)) && Enabled(t, NextMain(t)))
  {
    hide Inv, MainLeft;
    InitInv(lower, input, workers);
    RunInv(lower, Init(input, workers), before, s);
    RunExtends(lower, Init(input, workers), before, s);
    RunInv(lower, s, after, t);
    RunPastWait(lower, s, after, t);
    MainLeftBounds(lower, s);
    MainLeftBounds(lower, t);
    if !HasEnded(t) {
      MainIsNeverBlocked(lower, t);
    }
  }

  /** From any such moment the main thread can finish with no step of anyone
      else's: it never depends on a lookup still in flight. */
  lemma {:induction false} FinishesAlone(lower: string -> string, s: State) returns (steps: seq<Step>, t: State)
    requires Inv(lower, s) && IsPastWait(s)
    ensures Runs(lower, s, steps, t) && HasEnded(t)
    ensures forall step :: step in steps ==> IsMain(step)
    ensures |steps| <= MainLeft(s)
    decreases MainLeft(s)
  {
    MainLeftBounds(lower, s);
    hide Inv, MainLeft, NextMain, IsMain;
    if HasEnded(s) {
      steps, t := [], s;
    } else {
      var step := NextMain(s);
      MainIsNeverBlocked(lower, s);
      StepPastWait(lower, s, step);
      StepInv(lower, s, step);
      var next := Apply(lower, s, step);
      MainLeftBounds(lower, next);
      var rest;
      rest, t := FinishesAlone(lower, next);
      steps := [step] + rest;
      assert steps[1..] == rest;
    }
  }
}
