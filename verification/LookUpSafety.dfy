/** What every interleaving of `look_up_all` keeps, and what it returns. */
module LookUpSafety {
  import opened LookUp

  // ---------------------------------------------------------------------
  // The invariant holds at the start and is kept by every step
  // ---------------------------------------------------------------------

  lemma InitInv(lower: string -> string, input: seq<string>, workers: nat)
    requires workers > 0
    ensures Inv(lower, Init(input, workers))
  {
  }

  lemma MainShape(lower: string -> string, s: State, step: Step)
    requires Inv(lower, s) && Enabled(s, step)
    requires step.Submit? || step.StartWait? || step.WaitDone? || step.WaitExpired? || step.CancelNext?
          || step.StartCollect? || step.CollectNext? || step.Return?
    ensures Shape(Apply(lower, s, step))
  {
    hide Pool, History;
    if step.CancelNext? {
      assert s.futures[s.taken] in s.futures;
    }
  }

  lemma MainStep(lower: string -> string, s: State, step: Step)
    requires Inv(lower, s) && Enabled(s, step)
    requires step.Submit? || step.StartWait? || step.WaitDone? || step.WaitExpired? || step.CancelNext?
          || step.StartCollect? || step.CollectNext? || step.Return?
    ensures Inv(lower, Apply(lower, s, step))
  {
    hide Pool;
    var t := Apply(lower, s, step);
    MainShape(lower, s, step);
    KeepPool(lower, s, t);
    KeepHistory(lower, s, t);
  }

  /** Steps of the main thread leave the pool and what it recorded alone. */
  ghost predicate SamePool(s: State, t: State) {
    && t.workers == s.workers && t.calls == s.calls && t.answers == s.answers && t.stopped == s.stopped
    && t.keys == s.keys && t.taken >= s.taken
    && |t.futures| == |s.futures| == |s.keys|
    && (forall k :: 0 <= k < |s.futures| ==>
          t.futures[k] == s.futures[k] || (s.futures[k].Pending? && t.futures[k].Cancelled?))
  }

  lemma SameJustified(lower: string -> string, s: State, t: State)
    requires SamePool(s, t)
    ensures forall k, f :: Justified(lower, s, k, f) ==> Justified(lower, t, k, f)
  {
  }

  lemma KeepPool(lower: string -> string, s: State, t: State)
    requires Pool(lower, s) && SamePool(s, t)
    ensures Pool(lower, t)
  {
    SameJustified(lower, s, t);
    forall k | 0 <= k < |t.futures| && t.futures[k].Running? ensures HasWorker(t, k) {
      assert HasWorker(s, k);
    }
    forall w | 0 <= w < |t.workers| ensures WorkerOk(lower, t, t.workers[w]) {
      assert WorkerOk(lower, s, s.workers[w]);
    }
  }

  lemma KeepHistory(lower: string -> string, s: State, t: State)
    requires History(lower, s) && SamePool(s, t)
    requires t.timedOut == s.timedOut || t.timedOut
    requires t.collected == s.collected
          || (&& |t.collected| == |s.collected| + 1 && t.collected[..|s.collected|] == s.collected
              && |s.collected| < |s.futures|
              && (|| s.futures[|s.collected|] == Done(t.collected[|s.collected|])
                  || (t.collected[|s.collected|] == ErrorOutcome(Timeout) && t.timedOut)))
    ensures History(lower, t)
  {
    SameJustified(lower, s, t);
    forall k | k in t.calls && k !in t.answers ensures IsInFlight(t, k) {
      assert IsInFlight(s, k);
    }
    forall i | 0 <= i < |t.collected| && i < |t.futures|
      ensures t.futures[i] == Done(t.collected[i]) || (t.collected[i] == ErrorOutcome(Timeout) && t.timedOut)
    {
      if i < |s.collected| {
        assert t.collected[i] == s.collected[i];
      }
    }
  }

  /** The other threads of the pool after thread `w` moves: their keys, and
      what their states say, are not touched. */
  ghost predicate Others(s: State, t: State, w: nat) {
    && w < |s.workers| == |t.workers|
    && (forall v :: 0 <= v < |s.workers| && v != w ==> t.workers[v] == s.workers[v])
  }

  /** A step of thread `w`, which holds at most key `k`, changes nothing
      about any other key. */
  ghost predicate OnlyTouches(s: State, t: State, w: nat, k: nat) {
    && Others(s, t, w)
    && t.keys == s.keys && |t.futures| == |s.futures| && k < |s.futures|
    && t.taken >= s.taken
    && (s.workers[w].Idle? || s.workers[w].key == k)
    && (t.workers[w].Idle? || t.workers[w].key == k)
    && (forall v :: 0 <= v < |s.workers| && v != w && !s.workers[v].Idle? ==> s.workers[v].key != k)
    && (forall j :: 0 <= j < |s.futures| && j != k ==> t.futures[j] == s.futures[j])
    && (forall j :: j != k ==> (j in t.calls <==> j in s.calls))
    && (forall j :: j != k ==> (j in t.answers <==> j in s.answers))
    && (forall j :: j in s.answers ==> j in t.answers && t.answers[j] == s.answers[j])
    && (s.stopped.Some? ==> t.stopped == s.stopped)
  }

  lemma OthersJustified(lower: string -> string, s: State, t: State, w: nat, k: nat)
    requires OnlyTouches(s, t, w, k)
    ensures forall j, f :: j != k && Justified(lower, s, j, f) ==> Justified(lower, t, j, f)
  {
  }

  lemma PoolKept(lower: string -> string, s: State, t: State, w: nat, k: nat)
    requires Pool(lower, s) && OnlyTouches(s, t, w, k)
    requires WorkerOk(lower, t, t.workers[w])
    requires t.futures[k].Running? ==> !t.workers[w].Idle?
    ensures Pool(lower, t)
  {
    OthersJustified(lower, s, t, w, k);
    forall v | 0 <= v < |t.workers| ensures WorkerOk(lower, t, t.workers[v]) {
      assert v == w || WorkerOk(lower, s, s.workers[v]);
    }
    forall j | 0 <= j < |t.futures| && t.futures[j].Running? ensures HasWorker(t, j) {
      if j == k {
        assert t.workers[w].key == j;
      } else {
        assert HasWorker(s, j);
        var v :| 0 <= v < |s.workers| && !s.workers[v].Idle? && s.workers[v].key == j;
        assert t.workers[v] == s.workers[v];
      }
    }
  }

  lemma HistoryKept(lower: string -> string, s: State, t: State, w: nat, k: nat)
    requires History(lower, s) && OnlyTouches(s, t, w, k)
    requires t.calls == s.calls || (t.calls == s.calls + [k] && k !in s.calls)
    requires k in t.calls ==> k < t.taken
    requires k in t.answers ==> k in t.calls && (t.answers[k].Failed? ==> IsGraphKind(t.answers[k].kind))
    requires k in t.calls && k !in t.answers ==> t.workers[w] == InFlight(k)
    requires IsSettled(t.futures[k]) ==> Justified(lower, t, k, t.futures[k])
    requires s.futures[k].Done? ==> t.futures[k] == s.futures[k]
    requires t.stopped == s.stopped
          || (t.stopped.Some? && IsSignIn(t.stopped.value) && k in t.answers && t.answers[k] == Failed(t.stopped.value))
    requires t.stopped.Some? ==> Total(t.workers, ASKING_WEIGHT) < |t.workers|
    requires t.collected == s.collected && t.timedOut == s.timedOut
    ensures History(lower, t)
  {
    OthersJustified(lower, s, t, w, k);
    forall j | j in t.calls && j !in t.answers ensures IsInFlight(t, j) {
      if j != k {
        assert IsInFlight(s, j);
        var v :| 0 <= v < |s.workers| && s.workers[v] == InFlight(j);
        assert t.workers[v] == s.workers[v];
      }
    }
    if t.stopped == s.stopped && s.stopped.Some? {
      var j :| j in s.answers && s.answers[j] == Failed(s.stopped.value);
      assert j in t.answers && t.answers[j] == Failed(t.stopped.value);
    }
  }

  /** A thread at work holds a running key that no other thread holds. */
  lemma HeldKey(lower: string -> string, s: State, w: nat)
    requires Pool(lower, s) && w < |s.workers| && !s.workers[w].Idle?
    ensures WorkerOk(lower, s, s.workers[w])
    ensures forall v :: 0 <= v < |s.workers| && v != w && !s.workers[v].Idle? ==> s.workers[v].key != s.workers[w].key
  {
  }

  lemma TakeStep(lower: string -> string, s: State, w: nat)
    requires Inv(lower, s) && Enabled(s, Take(w))
    ensures Inv(lower, Apply(lower, s, Take(w)))
  {
    var t := Apply(lower, s, Take(w));
    var k := s.taken;
    TotalUpdate(s.workers, w, t.workers[w], ASKING_WEIGHT);
    assert Shape(t) by {
      assert s.futures[k] in s.futures;
    }
    assert forall v :: 0 <= v < |s.workers| ==> WorkerOk(lower, s, s.workers[v]);
    assert OnlyTouches(s, t, w, k);
    PoolKept(lower, s, t, w, k);
    HistoryKept(lower, s, t, w, k);
  }

  lemma CheckStep(lower: string -> string, s: State, w: nat)
    requires Inv(lower, s) && Enabled(s, Check(w))
    ensures Inv(lower, Apply(lower, s, Check(w)))
  {
    var t := Apply(lower, s, Check(w));
    var k := s.workers[w].key;
    HeldKey(lower, s, w);
    TotalUpdate(s.workers, w, t.workers[w], ASKING_WEIGHT);
    assert OnlyTouches(s, t, w, k);
    PoolKept(lower, s, t, w, k);
    HistoryKept(lower, s, t, w, k);
  }

  lemma CallStep(lower: string -> string, s: State, w: nat)
    requires Inv(lower, s) && Enabled(s, Call(w))
    ensures Inv(lower, Apply(lower, s, Call(w)))
  {
    var t := Apply(lower, s, Call(w));
    var k := s.workers[w].key;
    HeldKey(lower, s, w);
    TotalUpdate(s.workers, w, t.workers[w], ASKING_WEIGHT);
    assert OnlyTouches(s, t, w, k);
    assert k !in s.answers;
    PoolKept(lower, s, t, w, k);
    HistoryKept(lower, s, t, w, k);
  }

  lemma ReplyStep(lower: string -> string, s: State, w: nat, answer: Answer)
    requires Inv(lower, s) && Enabled(s, Reply(w, answer))
    ensures Inv(lower, Apply(lower, s, Reply(w, answer)))
  {
    var t := Apply(lower, s, Reply(w, answer));
    var k := s.workers[w].key;
    HeldKey(lower, s, w);
    TotalUpdate(s.workers, w, t.workers[w], ASKING_WEIGHT);
    assert OnlyTouches(s, t, w, k);
    PoolKept(lower, s, t, w, k);
    HistoryKept(lower, s, t, w, k);
  }

  lemma RecordStep(lower: string -> string, s: State, w: nat)
    requires Inv(lower, s) && Enabled(s, Record(w))
    ensures Inv(lower, Apply(lower, s, Record(w)))
  {
    var t := Apply(lower, s, Record(w));
    var k := s.workers[w].key;
    HeldKey(lower, s, w);
    assert OnlyTouches(s, t, w, k);
    PoolKept(lower, s, t, w, k);
    assert ASKING_WEIGHT(t.workers[w]) == 0;
    TotalBound(t.workers, ASKING_WEIGHT);
    HistoryKept(lower, s, t, w, k);
  }

  lemma PublishStep(lower: string -> string, s: State, w: nat)
    requires Inv(lower, s) && Enabled(s, Publish(w))
    ensures Inv(lower, Apply(lower, s, Publish(w)))
  {
    var t := Apply(lower, s, Publish(w));
    var k := s.workers[w].key;
    HeldKey(lower, s, w);
    TotalUpdate(s.workers, w, t.workers[w], ASKING_WEIGHT);
    assert OnlyTouches(s, t, w, k);
    assert Shape(t) by {
      assert s.futures[k] in s.futures;
    }
    PoolKept(lower, s, t, w, k);
    HistoryKept(lower, s, t, w, k);
  }

  lemma StepInv(lower: string -> string, s: State, step: Step)
    requires Inv(lower, s) && Enabled(s, step)
    ensures Inv(lower, Apply(lower, s, step))
  {
    match step
    case Take(w) => TakeStep(lower, s, w);
    case Check(w) => CheckStep(lower, s, w);
    case Call(w) => CallStep(lower, s, w);
    case Reply(w, answer) => ReplyStep(lower, s, w, answer);
    case Record(w) => RecordStep(lower, s, w);
    case Publish(w) => PublishStep(lower, s, w);
    case _ => MainStep(lower, s, step);
  }

  lemma {:induction false} RunInv(lower: string -> string, s: State, steps: seq<Step>, t: State)
    requires Inv(lower, s) && Runs(lower, s, steps, t)
    ensures Inv(lower, t)
    decreases |steps|
  {
    if steps != [] {
      StepInv(lower, s, steps[0]);
      RunInv(lower, Apply(lower, s, steps[0]), steps[1..], t);
    }
  }
}
