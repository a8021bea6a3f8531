/** The promises of `look_up_all`, over every interleaving, every directory
    and every moment the budget can run out. */
module LookUpTheorems {
  import opened Wrappers
  import opened LookUp
  import opened LookUpSafety

  /** The returned dictionary: each key with what was collected for it. */
  ghost function ResultOf(s: State): map<string, Outcome>
    requires |s.collected| == |s.keys|
    requires forall i, j :: 0 <= i < j < |s.keys| ==> s.keys[i] != s.keys[j]
  {
    map i | 0 <= i < |s.keys| :: s.keys[i] := s.collected[i]
  }

  // ---------------------------------------------------------------------
  // What a step and a run leave alone
  // ---------------------------------------------------------------------

  ghost predicate Extends(s: State, t: State) {
    && t.keys == s.keys
    && |t.workers| == |s.workers|
    && s.calls <= t.calls
    && (forall k :: k in s.answers ==> k in t.answers && t.answers[k] == s.answers[k])
    && (s.stopped.Some? ==> t.stopped == s.stopped)
    && (s.timedOut ==> t.timedOut)
  }

  lemma StepExtends(lower: string -> string, s: State, step: Step)
    requires Inv(lower, s) && Enabled(s, step)
    ensures Extends(s, Apply(lower, s, step))
  {
    if step.Reply? {
      assert WorkerOk(lower, s, s.workers[step.w]);
    }
  }

  lemma {:induction false} RunExtends(lower: string -> string, s: State, steps: seq<Step>, t: State)
    requires Inv(lower, s) && Runs(lower, s, steps, t)
    ensures Extends(s, t)
    decreases |steps|
  {
    if steps != [] {
      var next := Apply(lower, s, steps[0]);
      StepExtends(lower, s, steps[0]);
      StepInv(lower, s, steps[0]);
      RunExtends(lower, next, steps[1..], t);
    }
  }

  // ---------------------------------------------------------------------
  // The result
  // ---------------------------------------------------------------------

  /** Key `k` is finished, and if it was collected, with its own outcome. */
  ghost predicate IsKept(s: State, k: nat) {
    k < |s.futures| && IsSettled(s.futures[k]) && (k < |s.collected| ==> s.futures[k] == Done(s.collected[k]))
  }

  lemma StepKeeps(lower: string -> string, s: State, step: Step, k: nat)
    requires Inv(lower, s) && Enabled(s, step) && IsKept(s, k)
    ensures IsKept(Apply(lower, s, step), k) && Apply(lower, s, step).futures[k] == s.futures[k]
  {
    hide History;
    if step.Publish? {
      assert WorkerOk(lower, s, s.workers[step.w]);
    }
  }

  /** A finished lookup stays finished, and is collected with its own outcome
      however the rest of the run goes. */
  lemma {:induction false} FinishedIsKept(lower: string -> string, s: State, steps: seq<Step>, t: State, k: nat)
    requires Inv(lower, s) && Runs(lower, s, steps, t) && IsKept(s, k)
    ensures IsKept(t, k) && t.futures[k] == s.futures[k]
    decreases |steps|
  {
    hide Inv, IsKept;
    if steps != [] {
      StepKeeps(lower, s, steps[0], k);
      StepInv(lower, s, steps[0]);
      FinishedIsKept(lower, Apply(lower, s, steps[0]), steps[1..], t, k);
    }
  }

  /** Where one collected outcome comes from: the classified answer of that
      key's call, that call's own error, the recorded sign-in failure for a
      key never asked, or `timeout`, the last only if the budget ran out and
      the key was not finished in the earlier state `s`. */
  ghost predicate Explained(lower: string -> string, s: State, t: State, i: nat, outcome: Outcome)
    requires i < |t.keys| && i < |s.futures|
  {
    || (outcome == ErrorOutcome(Timeout) && t.timedOut && (i >= |s.collected| ==> !IsSettled(s.futures[i])))
    || (i !in t.calls && t.stopped.Some? && outcome == ErrorOutcome(t.stopped.value))
    || (i in t.answers && t.answers[i].Found? && outcome == Classify(lower, t.keys[i], t.answers[i].users))
    || (i in t.answers && t.answers[i].Failed? && outcome == ErrorOutcome(t.answers[i].kind))
  }

  lemma CollectedExplained(lower: string -> string, s: State, steps: seq<Step>, t: State, i: nat)
    requires Inv(lower, s) && Runs(lower, s, steps, t) && i < |t.collected|
    ensures i < |t.keys| && i < |s.futures|
    ensures Explained(lower, s, t, i, t.collected[i])
    ensures t.collected[i].status == NOT_FOUND ==> i in t.answers && t.answers[i] == Found([])
  {
    RunInv(lower, s, steps, t);
    RunExtends(lower, s, steps, t);
    if i >= |s.collected| && IsSettled(s.futures[i]) {
      FinishedIsKept(lower, s, steps, t, i);
    }
    if t.futures[i] == Done(t.collected[i]) {
      assert Justified(lower, t, i, t.futures[i]);
      if i in t.answers && t.answers[i].Found? {
        ClassifyMeaning(lower, t.keys[i], t.answers[i].users);
      }
    }
  }

  /** Every returned result covers exactly the input's keys; each outcome is
      explained, and whichever earlier moment one looks at, a key finished by
      then and not yet collected does not say `timeout`; and "nobody there" is
      only ever the directory's own empty answer. */
  lemma ResultExplained(lower: string -> string, input: seq<string>, workers: nat, before: seq<Step>, s: State,
                        after: seq<Step>, t: State)
    requires workers > 0
    requires Runs(lower, Init(input, workers), before, s) && Runs(lower, s, after, t)
    requires t.main.Returned?
    ensures |t.collected| == |t.keys| == |s.futures|
    ensures forall i, j :: 0 <= i < j < |t.keys| ==> t.keys[i] != t.keys[j]
    ensures ResultOf(t).Keys == set k | k in input
    ensures forall i :: 0 <= i < |t.keys| ==> Explained(lower, s, t, i, ResultOf(t)[t.keys[i]])
    ensures forall i :: 0 <= i < |t.keys| && ResultOf(t)[t.keys[i]].status == NOT_FOUND ==>
              i in t.answers && t.answers[i] == Found([])
  {
    hide Explained, Pool, History;
    InitInv(lower, input, workers);
    RunInv(lower, Init(input, workers), before, s);
    RunExtends(lower, Init(input, workers), before, s);
    RunInv(lower, s, after, t);
    RunExtends(lower, s, after, t);
    assert t.keys == Distinct(input);
    ResultKeys(t);
    forall i | 0 <= i < |t.keys|
      ensures Explained(lower, s, t, i, ResultOf(t)[t.keys[i]])
      ensures ResultOf(t)[t.keys[i]].status == NOT_FOUND ==> i in t.answers && t.answers[i] == Found([])
    {
      CollectedExplained(lower, s, after, t, i);
    }
  }

  lemma ResultKeys(s: State)
    requires |s.collected| == |s.keys|
    requires forall i, j :: 0 <= i < j < |s.keys| ==> s.keys[i] != s.keys[j]
    ensures ResultOf(s).Keys == set k | k in s.keys
    ensures forall i :: 0 <= i < |s.keys| ==> ResultOf(s)[s.keys[i]] == s.collected[i]
  {
    forall k | k in s.keys ensures k in ResultOf(s) {
      var i :| 0 <= i < |s.keys| && s.keys[i] == k;
      assert s.keys[i] in ResultOf(s);
    }
  }

  /** When all lookups finished inside the budget, no outcome says
      `timeout`: every key was answered or skipped for the sign-in. */
  lemma NoTimeoutWithinBudget(lower: string -> string, input: seq<string>, workers: nat, steps: seq<Step>, t: State)
    requires workers > 0
    requires Runs(lower, Init(input, workers), steps, t)
    requires t.main.Returned? && !t.timedOut
    ensures forall i :: 0 <= i < |t.collected| ==> t.collected[i].errorKind != Some(Timeout)
    ensures forall i :: 0 <= i < |t.keys| ==>
              (i in t.answers && !t.answers[i].Crash?) || (i !in t.calls && t.stopped.Some?)
  {
    InitInv(lower, input, workers);
    RunInv(lower, Init(input, workers), steps, t);
    forall i | 0 <= i < |t.keys|
      ensures t.collected[i].errorKind != Some(Timeout)
      ensures (i in t.answers && !t.answers[i].Crash?) || (i !in t.calls && t.stopped.Some?)
    {
      assert t.futures[i] == Done(t.collected[i]);
      assert Justified(lower, t, i, t.futures[i]);
      if i in t.answers && t.answers[i].Found? {
        ClassifyMeaning(lower, t.keys[i], t.answers[i].users);
      }
    }
  }

  /** `look_up_all` raises only what a directory call raised that was no
      `GraphError`. */
  lemma RaisesOnlyADirectoryCrash(lower: string -> string, input: seq<string>, workers: nat, steps: seq<Step>, t: State)
    requires workers > 0
    requires Runs(lower, Init(input, workers), steps, t)
    requires t.main.Broken?
    ensures exists k :: k in t.answers && t.answers[k] == Crash
  {
    InitInv(lower, input, workers);
    RunInv(lower, Init(input, workers), steps, t);
    var k := |t.collected|;
    assert Justified(lower, t, k, t.futures[k]);
    assert k in t.answers && t.answers[k] == Crash;
  }

  // ---------------------------------------------------------------------
  // Calls: once per key, a bounded number at a time
  // ---------------------------------------------------------------------

  /** Keys asked and not yet answered. */
  ghost function Outstanding(s: State): set<nat> {
    set k | k in s.calls && k !in s.answers
  }

  lemma {:induction false} CoveredByIndices(keys: set<nat>, workers: seq<Worker>)
    requires forall k :: k in keys ==> InFlight(k) in workers
    ensures |keys| <= |workers|
    decreases |workers|
  {
    if workers != [] {
      var last := workers[|workers| - 1];
      var front := workers[..|workers| - 1];
      assert workers == front + [last];
      var rest := if last.InFlight? then keys - {last.key} else keys;
      CoveredByIndices(rest, front);
    } else {
      assert keys == {};
    }
  }

  lemma CallsBounded(lower: string -> string, input: seq<string>, workers: nat, steps: seq<Step>, t: State)
    requires workers > 0
    requires Runs(lower, Init(input, workers), steps, t)
    ensures forall i, j :: 0 <= i < j < |t.calls| ==> t.calls[i] != t.calls[j]
    ensures forall k :: k in t.calls ==> k < |t.keys|
    ensures |Outstanding(t)| <= workers
  {
    InitInv(lower, input, workers);
    RunInv(lower, Init(input, workers), steps, t);
    RunExtends(lower, Init(input, workers), steps, t);
    forall k | k in Outstanding(t) ensures InFlight(k) in t.workers {
      assert IsInFlight(t, k);
    }
    CoveredByIndices(Outstanding(t), t.workers);
  }

  // ---------------------------------------------------------------------
  // A refused sign-in
  // ---------------------------------------------------------------------

  lemma StepAfterRefusal(lower: string -> string, s: State, step: Step)
    requires Inv(lower, s) && Enabled(s, step) && s.stopped.Some?
    ensures var t := Apply(lower, s, step);
            |t.calls| + Total(t.workers, ASKING_WEIGHT) <= |s.calls| + Total(s.workers, ASKING_WEIGHT)
  {
    var t := Apply(lower, s, step);
    if !(step.Submit? || step.StartWait? || step.WaitDone? || step.WaitExpired? || step.CancelNext?
         || step.StartCollect? || step.CollectNext? || step.Return?) {
      TotalUpdate(s.workers, step.w, t.workers[step.w], ASKING_WEIGHT);
    }
  }

  lemma {:induction false} RunAfterRefusal(lower: string -> string, s: State, steps: seq<Step>, t: State)
    requires Inv(lower, s) && Runs(lower, s, steps, t) && s.stopped.Some?
    ensures |t.calls| + Total(t.workers, ASKING_WEIGHT) <= |s.calls| + Total(s.workers, ASKING_WEIGHT)
    decreases |steps|
  {
    if steps != [] {
      StepAfterRefusal(lower, s, steps[0]);
      StepExtends(lower, s, steps[0]);
      StepInv(lower, s, steps[0]);
      RunAfterRefusal(lower, Apply(lower, s, steps[0]), steps[1..], t);
    }
  }

  /** A refused sign-in, by name. */
  predicate IsRefusal(answer: Answer) {
    answer == Failed(Unauthorized) || answer == Failed(Forbidden)
  }

  ghost predicate IsRecording(s: State, k: nat) {
    exists w :: 0 <= w < |s.workers| && s.workers[w].Recording? && s.workers[w].key == k
  }

  /** Every refused sign-in is recorded, or about to be by the thread that
      got it. */
  ghost predicate RefusalsNoted(s: State) {
    forall k :: k in s.answers && IsRefusal(s.answers[k]) ==> s.stopped.Some? || IsRecording(s, k)
  }

  lemma StepNotes(lower: string -> string, s: State, step: Step)
    requires Enabled(s, step) && RefusalsNoted(s)
    ensures RefusalsNoted(Apply(lower, s, step))
  {
    var t := Apply(lower, s, step);
    forall k | k in t.answers && IsRefusal(t.answers[k]) ensures t.stopped.Some? || IsRecording(t, k) {
      if step.Reply? && k == s.workers[step.w].key {
        assert t.workers[step.w].Recording? && t.workers[step.w].key == k;
      } else if s.stopped.None? && !step.Record? {
        var v :| 0 <= v < |s.workers| && s.workers[v].Recording? && s.workers[v].key == k;
        assert t.workers[v] == s.workers[v];
      }
    }
  }

  lemma {:induction false} RunNotes(lower: string -> string, s: State, steps: seq<Step>, t: State)
    requires RefusalsNoted(s) && Runs(lower, s, steps, t)
    ensures RefusalsNoted(t)
    decreases |steps|
  {
    hide RefusalsNoted;
    if steps != [] {
      StepNotes(lower, s, steps[0]);
      RunNotes(lower, Apply(lower, s, steps[0]), steps[1..], t);
    }
  }

  /** By the time a lookup that was refused sign-in is finished, with 401 or
      with 403, a refusal has been recorded. */
  lemma RefusalIsRecorded(lower: string -> string, input: seq<string>, workers: nat, steps: seq<Step>, s: State, k: nat)
    requires workers > 0 && Runs(lower, Init(input, workers), steps, s)
    requires k < |s.futures| && IsSettled(s.futures[k]) && k in s.answers
    requires s.answers[k] == Failed(Unauthorized) || s.answers[k] == Failed(Forbidden)
    ensures s.stopped == Some(Unauthorized) || s.stopped == Some(Forbidden)
  {
    InitInv(lower, input, workers);
    RunInv(lower, Init(input, workers), steps, s);
    RunNotes(lower, Init(input, workers), steps, s);
    FinishedIsNotRecording(lower, s, k);
    assert History(lower, s);
  }

  lemma FinishedIsNotRecording(lower: string -> string, s: State, k: nat)
    requires Pool(lower, s) && k < |s.futures| && IsSettled(s.futures[k])
    ensures !IsRecording(s, k)
  {
    forall w | 0 <= w < |s.workers| ensures !(s.workers[w].Recording? && s.workers[w].key == k) {
      assert WorkerOk(lower, s, s.workers[w]);
    }
  }

  /** Once some lookup has finished with its sign-in refused, with 401 or 403,
      one such failure is recorded and stays the one recorded, at most
      `workers - 1` calls follow, and every key settled without being asked
      carries that failure, whatever other lookups in flight fail with. */
  lemma RefusalStops(lower: string -> string, input: seq<string>, workers: nat,
                     before: seq<Step>, s: State, k: nat, after: seq<Step>, t: State)
    requires workers > 0
    requires Runs(lower, Init(input, workers), before, s) && Runs(lower, s, after, t)
    requires k < |s.futures| && IsSettled(s.futures[k]) && k in s.answers
    requires s.answers[k] == Failed(Unauthorized) || s.answers[k] == Failed(Forbidden)
    ensures s.stopped == Some(Unauthorized) || s.stopped == Some(Forbidden)
    ensures exists j :: j in s.answers && s.answers[j] == Failed(s.stopped.value)
    ensures t.stopped == s.stopped
    ensures |t.calls| <= |s.calls| + workers - 1
    ensures forall j :: 0 <= j < |t.futures| && IsSettled(t.futures[j]) && j !in t.calls ==>
              t.futures[j] == Done(ErrorOutcome(s.stopped.value))
  {
    RefusalIsRecorded(lower, input, workers, before, s, k);
    RecordedRefusalStops(lower, input, workers, before, s, after, t);
  }

  /** The same from the moment a refusal is recorded; and nothing but a 401 or
      a 403 is. */
  lemma RecordedRefusalStops(lower: string -> string, input: seq<string>, workers: nat,
                             before: seq<Step>, s: State, after: seq<Step>, t: State)
    requires workers > 0
    requires Runs(lower, Init(input, workers), before, s) && s.stopped.Some?
    requires Runs(lower, s, after, t)
    ensures t.stopped == s.stopped && (s.stopped == Some(Unauthorized) || s.stopped == Some(Forbidden))
    ensures exists k :: k in s.answers && s.answers[k] == Failed(s.stopped.value)
    ensures |t.calls| <= |s.calls| + workers - 1
    ensures forall k :: 0 <= k < |t.futures| && IsSettled(t.futures[k]) && k !in t.calls ==>
              t.futures[k] == Done(ErrorOutcome(s.stopped.value))
  {
    InitInv(lower, input, workers);
    RunInv(lower, Init(input, workers), before, s);
    RunExtends(lower, Init(input, workers), before, s);
    RunInv(lower, s, after, t);
    RunExtends(lower, s, after, t);
    RunAfterRefusal(lower, s, after, t);
    forall k | 0 <= k < |t.futures| && IsSettled(t.futures[k]) && k !in t.calls
      ensures t.futures[k] == Done(ErrorOutcome(s.stopped.value))
    {
      assert Justified(lower, t, k, t.futures[k]);
    }
  }

  // ---------------------------------------------------------------------
  // Every interleaving ends
  // ---------------------------------------------------------------------

  function Stage(x: Worker): nat {
    match x
    case Idle => 0
    case Publishing(_, _) => 1
    case Recording(_, _) => 2
    case InFlight(_) => 3
    case Asking(_) => 4
    case Checking(_) => 5
  }

  const STAGE_WEIGHT: Worker -> nat := (x: Worker) => Stage(x)

  function Phase(main: Main): nat {
    match main
    case Submitting => 4
    case Waiting => 3
    case Cancelling => 2
    case Collecting => 1
    case Returned => 0
    case Broken => 0
  }

  ghost function Remaining(s: State): int {
    Phase(s.main) + (|s.keys| - s.submitted) + 6 * (|s.keys| - s.taken) + (|s.keys| - |s.collected|)
    + Total(s.workers, STAGE_WEIGHT)
  }

  lemma StepUsesOne(lower: string -> string, s: State, step: Step)
    requires Inv(lower, s) && Enabled(s, step)
    ensures Remaining(Apply(lower, s, step)) <= Remaining(s) - 1
  {
    if step.Take? || step.Check? || step.Call? || step.Reply? || step.Record? || step.Publish? {
      WorkerStepUsesOne(lower, s, step);
    }
  }

  lemma WorkerStepUsesOne(lower: string -> string, s: State, step: Step)
    requires Shape(s) && Enabled(s, step)
    requires step.Take? || step.Check? || step.Call? || step.Reply? || step.Record? || step.Publish?
    ensures Remaining(Apply(lower, s, step)) <= Remaining(s) - 1
  {
    var t := Apply(lower, s, step);
    assert t.workers == s.workers[step.w := t.workers[step.w]];
    TotalUpdate(s.workers, step.w, t.workers[step.w], STAGE_WEIGHT);
    assert Stage(t.workers[step.w]) < Stage(s.workers[step.w]) || step.Take?;
  }

  lemma {:induction false} RunLength(lower: string -> string, s: State, steps: seq<Step>, t: State)
    requires Inv(lower, s) && Runs(lower, s, steps, t)
    ensures |steps| <= Remaining(s) - Remaining(t) && 0 <= Remaining(t)
    decreases |steps|
  {
    if steps != [] {
      StepUsesOne(lower, s, steps[0]);
      StepInv(lower, s, steps[0]);
      RunLength(lower, Apply(lower, s, steps[0]), steps[1..], t);
    }
  }

  /** Until the call returns or raises, something other than the budget can
      move it on: no reachable state is stuck waiting. */
  lemma NeverStuck(lower: string -> string, s: State)
    requires Inv(lower, s) && |s.workers| > 0
    requires !s.main.Returned? && !s.main.Broken?
    ensures exists step :: Enabled(s, step) && !step.WaitExpired?
  {
    match s.main {
      case Submitting => assert Enabled(s, if s.submitted < |s.keys| then Submit else StartWait);
      case Cancelling => assert Enabled(s, if s.taken < s.submitted then CancelNext else StartCollect);
      case Collecting => assert Enabled(s, if |s.collected| < |s.keys| then CollectNext else Return);
      case Waiting =>
        if k :| 0 <= k < |s.futures| && s.futures[k].Running? {
          assert HasWorker(s, k);
          var w :| 0 <= w < |s.workers| && !s.workers[w].Idle? && s.workers[w].key == k;
          BusyWorkerMoves(lower, s, w);
        } else if s.taken < |s.keys| {
          if s.workers[0].Idle? {
            assert Enabled(s, Take(0));
          } else {
            BusyWorkerMoves(lower, s, 0);
          }
        } else {
          forall f | f in s.futures ensures IsSettled(f) {
            var k :| 0 <= k < |s.futures| && s.futures[k] == f;
          }
          assert Enabled(s, WaitDone);
        }
    }
  }

  /** Nobody waits for anybody but the pool's queue: in every reachable state
      the budget may run out of a wait, an idle thread may take a waiting
      key, a busy one may make its own next step, and a call in flight may be
      answered by any page, any exception and any error but the two the
      search adds itself. */
  lemma AnyoneMayMove(lower: string -> string, s: State, w: nat, answer: Answer)
    requires Inv(lower, s) && w < |s.workers|
    ensures s.main.Waiting? ==> Enabled(s, WaitExpired)
    ensures s.workers[w].Idle? ==> (Enabled(s, Take(w)) <==> s.taken < s.submitted)
    ensures s.workers[w].Checking? ==> Enabled(s, Check(w))
    ensures s.workers[w].Asking? ==> Enabled(s, Call(w))
    ensures s.workers[w].InFlight? ==>
              (Enabled(s, Reply(w, answer)) <==> answer != Failed(Timeout) && answer != Failed(Incomplete))
    ensures s.workers[w].Recording? ==> Enabled(s, Record(w))
    ensures s.workers[w].Publishing? ==> Enabled(s, Publish(w))
  {
    assert WorkerOk(lower, s, s.workers[w]);
    hide Justified, FromAnswer;
  }

  lemma BusyWorkerMoves(lower: string -> string, s: State, w: nat)
    requires Inv(lower, s) && w < |s.workers| && !s.workers[w].Idle?
    ensures exists step :: Enabled(s, step) && !step.WaitExpired?
  {
    assert WorkerOk(lower, s, s.workers[w]);
    match s.workers[w] {
      case Checking(_) => assert Enabled(s, Check(w));
      case Asking(_) => assert Enabled(s, Call(w));
      case InFlight(_) => assert Enabled(s, Reply(w, Found([])));
      case Recording(_, _) => assert Enabled(s, Record(w));
      case Publishing(_, _) => assert Enabled(s, Publish(w));
    }
  }

  /** Every interleaving is finite, and one that cannot be continued has
      returned or raised. */
  lemma EveryRunEnds(lower: string -> string, input: seq<string>, workers: nat, steps: seq<Step>, t: State)
    requires workers > 0
    requires Runs(lower, Init(input, workers), steps, t)
    ensures |steps| <= 8 * |Distinct(input)| + 4
    ensures (forall step :: Enabled(t, step) ==> step.WaitExpired?) ==> t.main.Returned? || t.main.Broken?
  {
    var s := Init(input, workers);
    InitInv(lower, input, workers);
    RunInv(lower, s, steps, t);
    RunExtends(lower, s, steps, t);
    RunLength(lower, s, steps, t);
    TotalZero(s.workers, STAGE_WEIGHT);
    if !t.main.Returned? && !t.main.Broken? {
      NeverStuck(lower, t);
    }
  }
}
