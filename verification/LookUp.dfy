/** Directory lookups in `cordware/graph.py`: what one address comes to, and
    the concurrent `look_up_all` as a transition system. */
module LookUp {
  import opened Sets
  import opened Wrappers

  // ---------------------------------------------------------------------
  // One address against the directory's answer
  // ---------------------------------------------------------------------

  datatype User = User(id: string, displayName: string, mail: Option<string>, upn: string)

  /** The kinds a `GraphError` can have, then the two only an outcome has. */
  datatype Kind =
    | NoToken | Unauthorized | Forbidden | Throttled | Server | Network | BadResponse
    | Timeout | Incomplete

  predicate IsGraphKind(kind: Kind) {
    kind != Timeout && kind != Incomplete
  }

  /** Failures that mean the token, not the address. */
  predicate IsSignIn(kind: Kind) {
    kind == Unauthorized || kind == Forbidden
  }

  datatype Status = OK | USE_PRIMARY | FOUND_NO_PRIMARY | AMBIGUOUS | NOT_FOUND | ERROR

  datatype MatchType = PRIMARY_MAIL | UPN | MULTIPLE | NONE

  datatype Advice = SignOutAndIn | TryLater

  datatype Note =
    | NoNote
    | NoMatch
    | ManyMatch(count: nat)
    | NoPrimaryMail
    | NeitherField
    | NotLookedUp(advice: Advice)
    | LookupIncomplete(kind: Kind, advice: Advice)

  datatype Outcome = Outcome(status: Status, matchType: MatchType, user: Option<User>, note: Note,
                             errorKind: Option<Kind>)

  predicate IsResolved(status: Status) {
    status == OK || status == USE_PRIMARY || status == FOUND_NO_PRIMARY
  }

  /** The last row seen for each account id. */
  function ById(users: seq<User>): map<string, User> {
    if users == [] then map[]
    else
      var last := users[|users| - 1];
      ById(users[..|users| - 1])[last.id := last]
  }

  function Folded(lower: string -> string, mail: Option<string>): string {
    lower(if mail.Some? then mail.value else "")
  }

  function Classify(lower: string -> string, key: string, users: seq<User>): Outcome {
    var distinct := ById(users);
    if |distinct| == 0 then Outcome(NOT_FOUND, NONE, None, NoMatch, None)
    else if |distinct| > 1 then Outcome(AMBIGUOUS, MULTIPLE, None, ManyMatch(|distinct|), None)
    else
      ByIdKeys(users);
      var user := distinct[users[0].id];
      var mail := Folded(lower, user.mail);
      if mail != "" && mail == key then Outcome(OK, PRIMARY_MAIL, Some(user), NoNote, None)
      else if lower(user.upn) == key then
        if mail != "" then Outcome(USE_PRIMARY, UPN, Some(user), NoNote, None)
        else Outcome(FOUND_NO_PRIMARY, UPN, Some(user), NoPrimaryMail, None)
      else Outcome(AMBIGUOUS, MULTIPLE, None, NeitherField, None)
  }

  function ErrorOutcome(kind: Kind): Outcome {
    var advice := if IsSignIn(kind) then SignOutAndIn else TryLater;
    if kind == Incomplete then Outcome(ERROR, NONE, None, NotLookedUp(advice), Some(kind))
    else Outcome(ERROR, NONE, None, LookupIncomplete(kind, advice), Some(kind))
  }

  lemma {:induction false} ByIdKeys(users: seq<User>)
    ensures forall u :: u in users ==> u.id in ById(users)
    ensures forall id :: id in ById(users) ==> ById(users)[id] in users && ById(users)[id].id == id
    ensures users != [] ==> ById(users)[users[|users| - 1].id] == users[|users| - 1]
  {
    if users != [] {
      var front, last := users[..|users| - 1], users[|users| - 1];
      ByIdKeys(front);
      assert users == front + [last];
    }
  }

  /** Every row is the same account. */
  ghost predicate OneAccount(users: seq<User>) {
    users != [] && forall u :: u in users ==> u.id == users[0].id
  }

  lemma ByIdSize(users: seq<User>)
    ensures |ById(users)| == 0 <==> users == []
    ensures |ById(users)| == 1 <==> OneAccount(users)
  {
    ByIdKeys(users);
    var ids := ById(users).Keys;
    if users != [] {
      assert users[0].id in ids;
      if OneAccount(users) {
        assert ids == {users[0].id};
      } else {
        var u :| u in users && u.id != users[0].id;
        assert {u.id, users[0].id} <= ids;
        SubsetSize({u.id, users[0].id}, ids);
      }
    }
  }

  /** "Nobody there" is said of an empty answer and of nothing else; an
      account is named exactly when every row is one account and the last
      row's mail or sign-in name folds to the key; and the account named is
      that row. */
  lemma ClassifyMeaning(lower: string -> string, key: string, users: seq<User>)
    ensures var o := Classify(lower, key, users);
            && (o.status == NOT_FOUND <==> users == [])
            && (IsResolved(o.status) <==>
                && OneAccount(users)
                && var user := users[|users| - 1];
                   (Folded(lower, user.mail) == key && key != "") || lower(user.upn) == key)
            && (IsResolved(o.status) <==> o.user.Some?)
            && (o.user.Some? ==> o.user.value == users[|users| - 1])
            && (o.status == OK <==> o.user.Some? && Folded(lower, o.user.value.mail) == key && key != "")
            && (o.status == FOUND_NO_PRIMARY ==> Folded(lower, o.user.value.mail) == "")
            && (o.status == USE_PRIMARY ==> Folded(lower, o.user.value.mail) !in {"", key})
            && (o.matchType == PRIMARY_MAIL <==> o.status == OK)
            && (o.matchType == UPN <==> o.status == USE_PRIMARY || o.status == FOUND_NO_PRIMARY)
            && (o.matchType == MULTIPLE <==> o.status == AMBIGUOUS)
            && (o.matchType == NONE <==> o.status == NOT_FOUND)
            && (o.note.ManyMatch? <==> users != [] && !OneAccount(users))
            && (o.note.ManyMatch? ==> o.status == AMBIGUOUS && o.note.count == |set u | u in users :: u.id|)
  {
    ByIdKeys(users);
    ByIdSize(users);
    assert ById(users).Keys == set u | u in users :: u.id;
  }

  /** An outcome tells what it came from: an error is never mistaken for an
      answer, nor one kind of failure for another. */
  lemma OutcomesTellApart(lower: string -> string, key: string, users: seq<User>, a: Kind, b: Kind)
    ensures Classify(lower, key, users).errorKind.None? && Classify(lower, key, users).status != ERROR
    ensures ErrorOutcome(a).status == ERROR && ErrorOutcome(a).user.None?
    ensures ErrorOutcome(a) == ErrorOutcome(b) <==> a == b
    ensures ErrorOutcome(a).errorKind == Some(a) && ErrorOutcome(a).matchType == NONE
    ensures (ErrorOutcome(a).note.NotLookedUp? <==> a == Incomplete) && ErrorOutcome(a).note != NoNote
    ensures var note := ErrorOutcome(a).note;
            && (note.NotLookedUp? || note.LookupIncomplete?)
            && (note.advice == SignOutAndIn <==> a == Unauthorized || a == Forbidden)
            && (note.LookupIncomplete? ==> note.kind == a)
  {
    ClassifyMeaning(lower, key, users);
  }

  // ---------------------------------------------------------------------
  // look_up_all: the state and its steps
  // ---------------------------------------------------------------------

  /** What the directory does with one call: a page of users, a
      `GraphError`, or any other exception. */
  datatype Answer = Found(users: seq<User>) | Failed(kind: Kind) | Crash

  datatype Future = Pending | Running | Done(outcome: Outcome) | Raised | Cancelled

  /** Where one pool thread is inside `look_up`. Keys are positions in the
      list of distinct keys. */
  datatype Worker =
    | Idle
    | Checking(key: nat)                  // before the lock's test of `stopped`
    | Asking(key: nat)                    // past the test, before the call
    | InFlight(key: nat)                  // inside find_users
    | Recording(key: nat, kind: Kind)     // refused sign-in, before the lock
    | Publishing(key: nat, result: Future) // returning to the future

  datatype Main = Submitting | Waiting | Cancelling | Collecting | Returned | Broken

  /** `calls` and `answers` record what was asked and answered; the queue is
      the keys from `taken` up to `submitted`. */
  datatype State = State(
    keys: seq<string>,
    workers: seq<Worker>,
    futures: seq<Future>,
    taken: nat,
    submitted: nat,
    stopped: Option<Kind>,
    main: Main,
    timedOut: bool,
    collected: seq<Outcome>,
    calls: seq<nat>,
    answers: map<nat, Answer>)

  datatype Step =
    | Submit
    | StartWait
    | WaitDone
    | WaitExpired
    | CancelNext
    | StartCollect
    | CollectNext
    | Return
    | Take(w: nat)
    | Check(w: nat)
    | Call(w: nat)
    | Reply(w: nat, answer: Answer)
    | Record(w: nat)
    | Publish(w: nat)

  /** `list(dict.fromkeys(keys))`: first occurrences, in order. */
  function Distinct(keys: seq<string>): (r: seq<string>)
    ensures forall k :: k in r <==> k in keys
    ensures forall i, j :: 0 <= i < j < |r| ==> r[i] != r[j]
  {
    if keys == [] then []
    else
      var front := Distinct(keys[..|keys| - 1]);
      var last := keys[|keys| - 1];
      assert keys == keys[..|keys| - 1] + [last];
      if last in front then front else front + [last]
  }

  function FirstIndex(keys: seq<string>, key: string): nat {
    if keys == [] || keys[0] == key then 0 else 1 + FirstIndex(keys[1..], key)
  }

  lemma {:induction false} FirstIndexOfFront(keys: seq<string>, last: string, key: string)
    ensures key in keys ==> FirstIndex(keys + [last], key) == FirstIndex(keys, key) < |keys|
    ensures key !in keys ==> FirstIndex(keys, key) == |keys| && FirstIndex(keys + [last], key) >= |keys|
  {
    if keys != [] {
      assert (keys + [last])[1..] == keys[1..] + [last];
      FirstIndexOfFront(keys[1..], last, key);
    }
  }

  /** The distinct keys stand in the order of their first occurrences. */
  lemma {:induction false} DistinctInOrder(keys: seq<string>)
    ensures forall i, j :: 0 <= i < j < |Distinct(keys)| ==>
              FirstIndex(keys, Distinct(keys)[i]) < FirstIndex(keys, Distinct(keys)[j])
  {
    if keys != [] {
      var front, last := keys[..|keys| - 1], keys[|keys| - 1];
      assert keys == front + [last];
      DistinctInOrder(front);
      var r, early := Distinct(keys), Distinct(front);
      forall i, j | 0 <= i < j < |r|
        ensures FirstIndex(keys, r[i]) < FirstIndex(keys, r[j])
      {
        FirstIndexOfFront(front, last, r[i]);
        FirstIndexOfFront(front, last, r[j]);
        assert r[i] == early[i] && early[i] in early && early[i] in front;
        if j < |early| {
          assert r[j] == early[j] && early[j] in early && early[j] in front;
          assert FirstIndex(front, early[i]) < FirstIndex(front, early[j]);
        } else {
          assert r == early + [last] && r[j] == last && last !in front;
        }
      }
    }
  }

  function Init(input: seq<string>, workers: nat): State {
    var keys := Distinct(input);
    State(keys, seq(workers, _ => Idle), seq(|keys|, _ => Pending), 0, 0, None, Submitting, false,
          [], [], map[])
  }

  predicate IsSettled(f: Future) {
    f.Done? || f.Raised?
  }

  /** What `look_up` gives for an answer. */
  function FromAnswer(lower: string -> string, key: string, answer: Answer): Future {
    match answer
    case Found(users) => Done(Classify(lower, key, users))
    case Failed(kind) => Done(ErrorOutcome(kind))
    case Crash => Raised
  }

  /** The bounds on keys hold in every reachable state; they are here to make
      each step well defined on its own. */
  predicate Enabled(s: State, step: Step) {
    match step
    case Submit => s.main.Submitting? && s.submitted < |s.keys|
    case StartWait => s.main.Submitting? && s.submitted == |s.keys|
    case WaitDone => s.main.Waiting? && forall f :: f in s.futures ==> IsSettled(f)
    case WaitExpired => s.main.Waiting?
    case CancelNext => s.main.Cancelling? && s.taken < s.submitted && s.taken < |s.futures|
    case StartCollect => s.main.Cancelling? && s.taken >= s.submitted
    case CollectNext => s.main.Collecting? && |s.collected| < |s.keys| && |s.collected| < |s.futures|
    case Return => s.main.Collecting? && |s.collected| >= |s.keys|
    case Take(w) => w < |s.workers| && s.workers[w].Idle? && s.taken < s.submitted && s.taken < |s.futures|
    case Check(w) => w < |s.workers| && s.workers[w].Checking?
    case Call(w) => w < |s.workers| && s.workers[w].Asking?
    case Reply(w, answer) =>
      && w < |s.workers| && s.workers[w].InFlight? && s.workers[w].key < |s.keys|
      && (answer.Failed? ==> IsGraphKind(answer.kind))
    case Record(w) => w < |s.workers| && s.workers[w].Recording?
    case Publish(w) => w < |s.workers| && s.workers[w].Publishing? && s.workers[w].key < |s.futures|
  }

  function Apply(lower: string -> string, s: State, step: Step): State
    requires Enabled(s, step)
  {
    match step
    case Submit => s.(submitted := s.submitted + 1)
    case StartWait => s.(main := Waiting)
    case WaitDone => s.(main := Cancelling)
    case WaitExpired => s.(main := Cancelling, timedOut := true)
    case CancelNext => s.(futures := s.futures[s.taken := Cancelled], taken := s.taken + 1)
    case StartCollect => s.(main := Collecting)
    case CollectNext => (
      match s.futures[|s.collected|]
      case Done(outcome) => s.(collected := s.collected + [outcome])
      case Raised => s.(main := Broken)
      case _ => s.(collected := s.collected + [ErrorOutcome(Timeout)])
    )
    case Return => s.(main := Returned)
    case Take(w) =>
      s.(workers := s.workers[w := Checking(s.taken)], futures := s.futures[s.taken := Running],
      taken := s.taken + 1)
    case Check(w) =>
      var k := s.workers[w].key;
      s.(workers := s.workers[w := if s.stopped.Some? then Publishing(k, Done(ErrorOutcome(s.stopped.value)))
                                   else Asking(k)])
    case Call(w) =>
      var k := s.workers[w].key;
      s.(workers := s.workers[w := InFlight(k)], calls := s.calls + [k])
    case Reply(w, answer) =>
      var k := s.workers[w].key;
      s.(answers := s.answers[k := answer],
      workers := s.workers[w := if answer.Failed? && IsSignIn(answer.kind) then Recording(k, answer.kind)
                                else Publishing(k, FromAnswer(lower, s.keys[k], answer))])
    case Record(w) =>
      var k, kind := s.workers[w].key, s.workers[w].kind;
      s.(stopped := if s.stopped.Some? then s.stopped else Some(kind),
      workers := s.workers[w := Publishing(k, Done(ErrorOutcome(kind)))])
    case Publish(w) =>
      s.(futures := s.futures[s.workers[w].key := s.workers[w].result], workers := s.workers[w := Idle])
  }

  /** One interleaving: the state after the steps, if each was enabled. */
  ghost predicate Runs(lower: string -> string, s: State, steps: seq<Step>, t: State)
    decreases |steps|
  {
    if steps == [] then s == t
    else Enabled(s, steps[0]) && Runs(lower, Apply(lower, s, steps[0]), steps[1..], t)
  }

  // ---------------------------------------------------------------------
  // Counting over the pool
  // ---------------------------------------------------------------------

  function Total(ws: seq<Worker>, weight: Worker -> nat): nat {
    if ws == [] then 0 else weight(ws[0]) + Total(ws[1..], weight)
  }

  lemma {:induction false} TotalUpdate(ws: seq<Worker>, w: nat, x: Worker, weight: Worker -> nat)
    requires w < |ws|
    ensures Total(ws[w := x], weight) + weight(ws[w]) == Total(ws, weight) + weight(x)
  {
    if w == 0 {
      assert ws[w := x][1..] == ws[1..];
    } else {
      TotalUpdate(ws[1..], w - 1, x, weight);
      assert ws[w := x][1..] == ws[1..][w - 1 := x];
    }
  }

  lemma {:induction false} TotalBound(ws: seq<Worker>, weight: Worker -> nat)
    requires forall x :: weight(x) <= 1
    ensures Total(ws, weight) <= |ws|
    ensures (exists w :: 0 <= w < |ws| && weight(ws[w]) == 0) ==> Total(ws, weight) < |ws|
  {
    if ws != [] {
      TotalBound(ws[1..], weight);
      if w :| 0 <= w < |ws| && weight(ws[w]) == 0 {
        assert w > 0 ==> weight(ws[1..][w - 1]) == 0;
      }
    }
  }

  lemma {:induction false} TotalZero(ws: seq<Worker>, weight: Worker -> nat)
    requires forall w :: 0 <= w < |ws| ==> weight(ws[w]) == 0
    ensures Total(ws, weight) == 0
  {
    if ws != [] {
      TotalZero(ws[1..], weight);
    }
  }

  const ASKING_WEIGHT: Worker -> nat := (x: Worker) => if x.Asking? then 1 else 0

  // ---------------------------------------------------------------------
  // The invariant
  // ---------------------------------------------------------------------

  /** A settled future holds this key's own answer, or was skipped for the
      recorded sign-in failure without being asked. */
  ghost predicate Justified(lower: string -> string, s: State, k: nat, f: Future) {
    && k < |s.keys|
    && (|| (k in s.calls && k in s.answers && f == FromAnswer(lower, s.keys[k], s.answers[k]))
        || (k !in s.calls && s.stopped.Some? && f == Done(ErrorOutcome(s.stopped.value))))
  }

  ghost predicate Shape(s: State) {
    && |s.futures| == |s.keys|
    && s.taken <= s.submitted <= |s.keys|
    && (!s.main.Submitting? ==> s.submitted == |s.keys|)
    && (s.main.Collecting? || s.main.Returned? || s.main.Broken? ==> s.taken == s.submitted)
    && |s.collected| <= |s.keys|
    && (s.main.Submitting? || s.main.Waiting? || s.main.Cancelling? ==> s.collected == [])
    && (s.main.Returned? ==> |s.collected| == |s.keys|)
    && (s.main.Broken? ==> |s.collected| < |s.keys| && s.futures[|s.collected|].Raised?)
    && (forall k :: s.taken <= k < |s.keys| ==> s.futures[k].Pending?)
    && (forall k :: 0 <= k < s.taken ==> !s.futures[k].Pending?)
    && (s.main.Submitting? || s.main.Waiting? ==> forall f :: f in s.futures ==> !f.Cancelled?)
    && (!s.timedOut && !s.main.Submitting? && !s.main.Waiting? ==> forall f :: f in s.futures ==> IsSettled(f))
  }

  ghost predicate WorkerOk(lower: string -> string, s: State, x: Worker) {
    !x.Idle? ==>
      && x.key < s.taken && x.key < |s.futures|
      && s.futures[x.key].Running?
      && match x
         case Checking(k) => k !in s.calls
         case Asking(k) => k !in s.calls
         case InFlight(k) => k in s.calls && k !in s.answers
         case Recording(k, kind) => k in s.calls && k in s.answers && s.answers[k] == Failed(kind) && IsSignIn(kind)
         case Publishing(k, f) => IsSettled(f) && Justified(lower, s, k, f)
  }

  ghost predicate Pool(lower: string -> string, s: State) {
    && (forall w :: 0 <= w < |s.workers| ==> WorkerOk(lower, s, s.workers[w]))
    && (forall v, w :: 0 <= v < w < |s.workers| && !s.workers[v].Idle? && !s.workers[w].Idle? ==>
          s.workers[v].key != s.workers[w].key)
    && (forall k :: 0 <= k < |s.futures| && s.futures[k].Running? ==> HasWorker(s, k))
  }

  ghost predicate HasWorker(s: State, k: nat) {
    exists w :: 0 <= w < |s.workers| && !s.workers[w].Idle? && s.workers[w].key == k
  }

  ghost predicate IsInFlight(s: State, k: nat) {
    exists w :: 0 <= w < |s.workers| && s.workers[w] == InFlight(k)
  }

  ghost predicate History(lower: string -> string, s: State) {
    && (forall i, j :: 0 <= i < j < |s.calls| ==> s.calls[i] != s.calls[j])
    && (forall k :: k in s.calls ==> k < s.taken)
    && (forall k :: k in s.answers ==> k in s.calls && (s.answers[k].Failed? ==> IsGraphKind(s.answers[k].kind)))
    && (forall k :: k in s.calls && k !in s.answers ==> IsInFlight(s, k))
    && (forall k :: 0 <= k < |s.futures| && IsSettled(s.futures[k]) ==> Justified(lower, s, k, s.futures[k]))
    && (s.stopped.Some? ==>
          && IsSignIn(s.stopped.value)
          && exists k :: k in s.answers && s.answers[k] == Failed(s.stopped.value))
    && (s.stopped.Some? ==> Total(s.workers, ASKING_WEIGHT) < |s.workers|)
    && (forall i :: 0 <= i < |s.collected| && i < |s.futures| ==>
          || s.futures[i] == Done(s.collected[i])
          || (s.collected[i] == ErrorOutcome(Timeout) && s.timedOut))
  }

  ghost predicate Inv(lower: string -> string, s: State) {
    Shape(s) && Pool(lower, s) && History(lower, s)
  }
}
