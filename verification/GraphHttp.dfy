/** The two request loops of `cordware/graph.py` against an arbitrary
    transport: `GraphDirectory._get`, which retries, and
    `GraphMailer.send_mail`, which must not send twice. */
module GraphHttp {
  import opened Wrappers
  import opened LookUp
  import opened Sets
  import opened Sums
  import opened Text

  datatype Header = Header(name: string, value: FloatText)

  /** One call of the transport: a response, or an `OSError` or
      `HTTPException`. */
  datatype Reply = NetworkFailure | Response(status: int, headers: seq<Header>, body: string)

  datatype GraphError = GraphError(kind: Kind, status: Option<int>)

  datatype Wait = Seconds(value: real) | Forever

  const MAX_WAIT: real := 30.0

  predicate IsSuccess(reply: Reply) {
    reply.Response? && 200 <= reply.status < 300
  }

  predicate IsThrottled(reply: Reply) {
    reply.Response? && reply.status == 429
  }

  /** The first `Retry-After`, never below zero; a second when there is none
      or it is no number. Python's `max(0.0, nan)` is `0.0`. */
  function RetryAfter(headers: seq<Header>): (wait: Wait)
    ensures wait.Seconds? ==> wait.value >= 0.0
  {
    if headers == [] then Seconds(1.0)
    else if IsRetryAfter(headers[0]) then WaitOf(headers[0].value)
    else RetryAfter(headers[1..])
  }

  predicate IsRetryAfter(header: Header) {
    Lower(header.name) == "retry-after"
  }

  function WaitOf(text: FloatText): (wait: Wait)
    ensures wait.Seconds? ==> wait.value >= 0.0
  {
    match text
    case Finite(value) => Seconds(if value > 0.0 then value else 0.0)
    case PosInf => Forever
    case NegInf => Seconds(0.0)
    case NaN => Seconds(0.0)
    case NotAFloat => Seconds(1.0)
  }

  /** Any spelling of the name, and no other name. */
  lemma AnyCase(header: Header)
    ensures header.name == "Retry-After" || header.name == "RETRY-AFTER" ==> IsRetryAfter(header)
    ensures IsRetryAfter(header) ==> |header.name| == 11 && header.name[5] == '-'
  {
    assert Lower("Retry-After") == "retry-after" == Lower("RETRY-AFTER");
    assert IsRetryAfter(header) ==> Lower(header.name)[5] == '-';
  }

  /** The first such header decides, whatever the case of its name: a finite
      wait is the number it holds, or none when that is negative, and a text
      that is no number is a second. Without one the wait is a second. */
  lemma {:induction false} FirstHeaderDecides(headers: seq<Header>, k: nat)
    requires k <= |headers| && forall j :: 0 <= j < k ==> !IsRetryAfter(headers[j])
    ensures k == |headers| ==> RetryAfter(headers) == Seconds(1.0)
    ensures k < |headers| && IsRetryAfter(headers[k]) ==> RetryAfter(headers) == WaitOf(headers[k].value)
    ensures forall seconds: real :: 0.0 <= seconds ==> WaitOf(Finite(seconds)) == Seconds(seconds)
    ensures forall seconds: real :: seconds < 0.0 ==> WaitOf(Finite(seconds)) == Seconds(0.0)
    ensures WaitOf(PosInf) == Forever && WaitOf(NotAFloat) == Seconds(1.0)
    ensures WaitOf(NegInf) == Seconds(0.0) && WaitOf(NaN) == Seconds(0.0)
  {
    if k > 0 {
      FirstHeaderDecides(headers[1..], k - 1);
    }
  }

  function Pow2(n: nat): real {
    if n == 0 then 1.0 else 2.0 * Pow2(n - 1)
  }

  /** The error a reply that is no success stands for. */
  function Failure(reply: Reply): GraphError {
    if reply.NetworkFailure? then GraphError(Network, None)
    else if reply.status == 401 then GraphError(Unauthorized, Some(401))
    else if reply.status == 403 then GraphError(Forbidden, Some(403))
    else if reply.status == 429 then GraphError(Throttled, Some(429))
    else if reply.status >= 500 then GraphError(Server, Some(reply.status))
    else GraphError(BadResponse, Some(reply.status))
  }

  /** The wait before another attempt, for a reply that earns one. */
  function RetryWait(reply: Reply, attempt: nat): Option<real> {
    if reply.NetworkFailure? then Some(Pow2(attempt))
    else if IsThrottled(reply) then
      var wait := RetryAfter(reply.headers);
      if wait.Seconds? && wait.value <= MAX_WAIT then Some(wait.value) else None
    else if reply.status >= 500 then Some(Pow2(attempt))
    else None
  }

  /** What earns another attempt, and after how long: a dropped connection or
      a server's error after 1, 2, 4 seconds and so on, and a 429 after the
      wait it asks for, up to 30 seconds. */
  lemma RetriesExactly(reply: Reply, attempt: nat)
    ensures reply == NetworkFailure || reply.status >= 500 ==>
              && RetryWait(reply, attempt).Some?
              && RetryWait(reply, 0) == Some(1.0) && RetryWait(reply, 1) == Some(2.0)
              && RetryWait(reply, attempt + 1) == Some(2.0 * RetryWait(reply, attempt).value)
    ensures reply.Response? && reply.status == 429 ==>
              forall seconds: real ::
                RetryWait(reply, attempt) == Some(seconds) <==>
                RetryAfter(reply.headers) == Seconds(seconds) && seconds <= 30.0
    ensures RetryWait(reply, attempt).Some? ==>
              reply.NetworkFailure? || reply.status == 429 || reply.status >= 500
    ensures reply.Response? && RetryWait(reply, attempt).Some? ==>
              Failure(reply) == GraphError(if reply.status == 429 then Throttled else Server, Some(reply.status))
  {
    assert Pow2(1) == 2.0 * Pow2(0);
  }

  /** The sum over a < retries of max(30, 2^a). */
  function SleepBound(retries: nat): (bound: real)
    ensures bound >= 0.0
  {
    if retries == 0 then 0.0
    else SleepBound(retries - 1) + if Pow2(retries - 1) > MAX_WAIT then Pow2(retries - 1) else MAX_WAIT
  }

  lemma {:induction false} SleepBoundMonotone(few: nat, many: nat)
    requires few <= many
    ensures SleepBound(few) <= SleepBound(many)
    decreases many
  {
    if few < many {
      SleepBoundMonotone(few, many - 1);
    }
  }

  lemma SleepsNothing()
    ensures Sum([]) == 0.0 == SleepBound(0)
  {
  }

  lemma SleepBoundStep(attempt: nat, wait: real)
    requires wait <= Pow2(attempt) || wait <= MAX_WAIT
    ensures SleepBound(attempt) + wait <= SleepBound(attempt + 1)
  {
  }

  /** A GET with retries. `calls` counts the transport's calls and `slept`
      lists the waits. */
  method Get(transport: nat -> Reply, retries: nat)
    returns (result: Result<string, GraphError>, calls: nat, slept: seq<real>)
    ensures 1 <= calls <= retries + 1 && |slept| == calls - 1
    ensures forall a :: 0 <= a < calls - 1 ==>
              !IsSuccess(transport(a)) && RetryWait(transport(a), a) == Some(slept[a])
    ensures calls == retries + 1 || IsSuccess(transport(calls - 1)) || RetryWait(transport(calls - 1), calls - 1).None?
    ensures IsSuccess(transport(calls - 1)) ==> result == Ok(transport(calls - 1).body)
    ensures !IsSuccess(transport(calls - 1)) ==> result == Err(Failure(transport(calls - 1)))
    ensures Sum(slept) <= SleepBound(retries)
  {
    hide RetryAfter, SleepBound, Sum;
    SleepsNothing();
    slept := [];
    for attempt := 0 to retries + 1
      invariant |slept| == attempt
      invariant forall a :: 0 <= a < attempt ==>
                  !IsSuccess(transport(a)) && RetryWait(transport(a), a) == Some(slept[a])
      invariant Sum(slept) <= SleepBound(attempt)
      invariant attempt <= retries
    {
      var last := attempt == retries;
      var reply := transport(attempt);
      calls := attempt + 1;
      SleepBoundMonotone(attempt, retries);
      var error, wait;
      if reply.NetworkFailure? {
        error, wait := GraphError(Network, None), Pow2(attempt);
      } else if 200 <= reply.status < 300 {
        result := Ok(reply.body);
        return;
      } else if reply.status == 401 {
        result := Err(GraphError(Unauthorized, Some(401)));
        return;
      } else if reply.status == 403 {
        result := Err(GraphError(Forbidden, Some(403)));
        return;
      } else if reply.status == 429 {
        var asked := RetryAfter(reply.headers);
        error := GraphError(Throttled, Some(429));
        if asked.Forever? || asked.value > MAX_WAIT {
          result := Err(error);
          return;
        }
        wait := asked.value;
      } else if reply.status >= 500 {
        error, wait := GraphError(Server, Some(reply.status)), Pow2(attempt);
      } else {
        result := Err(GraphError(BadResponse, Some(reply.status)));
        return;
      }
      if last {
        result := Err(error);
        return;
      }
      SumSnoc(slept, wait);
      SleepBoundStep(attempt, wait);
      slept := slept + [wait];
    }
    assert false;
  }

  /** The posts of one call whose reply was anything but a 429: any of them
      may have been accepted. */
  ghost function MayBeAccepted(transport: nat -> Reply, posts: nat): set<nat> {
    set a | 0 <= a < posts && !IsThrottled(transport(a))
  }

  /** One message. A second post follows only a 429 whose wait is short
      enough, so at most one post can have been accepted. */
  method SendMail(transport: nat -> Reply, maxWait: real)
    returns (result: Result<(), GraphError>, posts: nat, slept: seq<real>)
    ensures posts == 1 || posts == 2
    ensures posts == 2 <==>
            && IsThrottled(transport(0))
            && RetryAfter(transport(0).headers).Seconds?
            && RetryAfter(transport(0).headers).value <= maxWait
    ensures slept == if posts == 2 then [RetryAfter(transport(0).headers).value] else []
    ensures IsSuccess(transport(posts - 1)) ==> result == Ok(())
    ensures !IsSuccess(transport(posts - 1)) ==> result == Err(Failure(transport(posts - 1)))
    ensures |MayBeAccepted(transport, posts)| <= 1
    ensures forall a :: 0 <= a < posts - 1 ==> transport(a).Response? && transport(a).status == 429
  {
    slept := [];
    for attempt := 0 to 2
      invariant attempt <= 1
      invariant |slept| == attempt
      invariant attempt == 1 ==>
                  && IsThrottled(transport(0))
                  && RetryAfter(transport(0).headers) == Seconds(slept[0])
                  && slept[0] <= maxWait
    {
      var reply := transport(attempt);
      posts := attempt + 1;
      AtMostLast(transport, posts);
      if reply.NetworkFailure? {
        result := Err(GraphError(Network, None));
        return;
      }
      if 200 <= reply.status < 300 {
        result := Ok(());
        return;
      }
      if reply.status == 401 {
        result := Err(GraphError(Unauthorized, Some(401)));
        return;
      }
      if reply.status == 403 {
        result := Err(GraphError(Forbidden, Some(403)));
        return;
      }
      if reply.status == 429 {
        var wait := RetryAfter(reply.headers);
        if attempt == 0 && wait.Seconds? && wait.value <= maxWait {
          slept := slept + [wait.value];
          continue;
        }
        result := Err(GraphError(Throttled, Some(429)));
        return;
      }
      if reply.status >= 500 {
        result := Err(GraphError(Server, Some(reply.status)));
        return;
      }
      result := Err(GraphError(BadResponse, Some(reply.status)));
      return;
    }
    assert false;
  }

  lemma AtMostLast(transport: nat -> Reply, posts: nat)
    requires posts > 0 && forall a :: 0 <= a < posts - 1 ==> IsThrottled(transport(a))
    ensures |MayBeAccepted(transport, posts)| <= 1
  {
    assert MayBeAccepted(transport, posts) <= {posts - 1};
    SubsetSize(MayBeAccepted(transport, posts), {posts - 1});
  }
}
