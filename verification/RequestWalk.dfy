/**
 One proxied request (proxy/reverseproxy.go, proxy/invoker.go): the walk over a snapshot of the
 pool, which failures it may retry after, and what is counted on the way.

 What a backend and the network do is an event chosen by the world. An event fixes two things:
 what the transport returns to the walk, and whether the backend may have run the request.
 */
module RequestWalk {
  import opened Options
  import opened ServiceIndex

  // ------------------------------------------------------------------ one attempt

  datatype Failure =
    | Connect            // a connectError: the request was not written, or not run
    | FunctionFailed     // the function ran and failed
    | Plain              // anything else

  datatype Answer = Response(status: nat) | Failed(failure: Failure)

  /** Attempt on a container through the shared transport. */
  datatype ContainerEvent = DialFailed | HandshakeFailed | BrokeOff | Replied(status: nat)

  /** The reply of the Lambda API. The flag of an error says whether the function may have run. */
  datatype InvokeEvent =
    | Unreachable                                // the dialer of the Lambda client marked it
    | ApiError(code: string, mayHaveRun: bool)
    | OtherError(mayHaveRun: bool)
    | Errored                                    // FunctionError set
    | Returned(status: Option<nat>)              // None: the result could not be translated

  datatype Body = NoBody | Unreadable | Bytes(len: nat)

  const MAX_FUNCTION_BODY: nat := 4 * 1024 * 1024

  const THROTTLED := "TooManyRequestsException"
  const NOT_FOUND := "ResourceNotFoundException"
  const ACCESS_DENIED := "AccessDeniedException"

  predicate FunctionDidNotRun(code: string) {
    code == THROTTLED || code == NOT_FOUND || code == ACCESS_DENIED
  }

  datatype ReadResult = ReadFailed | TooLarge | Read(len: nat)

  /** `readBody`: at most one byte past the cap is read. */
  function ReadBody(body: Body): (r: ReadResult)
    ensures r.TooLarge? <==> body.Bytes? && body.len > MAX_FUNCTION_BODY
    ensures r.Read? ==> r.len <= MAX_FUNCTION_BODY
  {
    match body
    case NoBody => Read(0)
    case Unreadable => ReadFailed
    case Bytes(n) =>
      var got := if n > MAX_FUNCTION_BODY + 1 then MAX_FUNCTION_BODY + 1 else n;
      if got > MAX_FUNCTION_BODY then TooLarge else Read(got)
  }

  /** `FunctionInvoker.RoundTrip`; `encodes` says whether the event could be marshalled. */
  function InvokeRoundTrip(body: Body, encodes: bool, e: InvokeEvent): Answer {
    match ReadBody(body)
    case ReadFailed => Failed(Plain)
    case TooLarge => Response(413)
    case Read(_) =>
      if !encodes then Failed(Plain)
      else match e
           case Unreachable => Failed(Connect)
           case ApiError(code, _) => if FunctionDidNotRun(code) then Failed(Connect) else Failed(Plain)
           case OtherError(_) => Failed(Plain)
           case Errored => Failed(FunctionFailed)
           case Returned(status) => if status.Some? then Response(status.value) else Failed(Plain)
  }

  /** The function was invoked and may have run. */
  predicate InvokeMayHaveRun(body: Body, encodes: bool, e: InvokeEvent) {
    && ReadBody(body).Read? && encodes
    && match e
       case Unreachable => false
       case ApiError(_, ran) => ran
       case OtherError(ran) => ran
       case Errored => true
       case Returned(_) => true
  }

  function ContainerRoundTrip(e: ContainerEvent): Answer {
    match e
    case DialFailed => Failed(Connect)
    case HandshakeFailed => Failed(Connect)
    case BrokeOff => Failed(Plain)
    case Replied(status) => Response(status)
  }

  /** What happens at one attempt, whichever kind of member it falls on. */
  datatype Event = Event(container: ContainerEvent, encodes: bool, invoke: InvokeEvent)

  function RoundTripOn(b: Backend, body: Body, e: Event): Answer {
    if b.target.Function? then InvokeRoundTrip(body, e.encodes, e.invoke)
    else ContainerRoundTrip(e.container)
  }

  /** The backend may have acted on the request. A connection that broke after the request was
      written counts as run, since nothing says otherwise. */
  predicate MayHaveRun(b: Backend, body: Body, e: Event) {
    if b.target.Function? then InvokeMayHaveRun(body, e.encodes, e.invoke)
    else e.container.BrokeOff? || e.container.Replied?
  }

  /** The Lambda API's own promise, on which the classification rests: a throttled call, a missing
      function and a denied permission are answered without running the function. */
  predicate ApiHonest(e: Event) {
    e.invoke.ApiError? && FunctionDidNotRun(e.invoke.code) ==> !e.invoke.mayHaveRun
  }

  // ------------------------------------------------------------------ answers by the events alone

  /** The body reaches the function: there is none, or it can be read and is within 4 MiB. */
  predicate BodyFits(body: Body) {
    body.NoBody? || (body.Bytes? && body.len <= 4194304)
  }

  /** No connection could be made, or the Lambda API refused to run the function: by the events. */
  predicate NotConnected(b: Backend, body: Body, e: Event) {
    if b.target.Container? then e.container.DialFailed? || e.container.HandshakeFailed?
    else
      && BodyFits(body) && e.encodes
      && (|| e.invoke.Unreachable?
          || (e.invoke.ApiError?
              && (|| e.invoke.code == "TooManyRequestsException"
                  || e.invoke.code == "ResourceNotFoundException"
                  || e.invoke.code == "AccessDeniedException")))
  }

  /** The backend's own status; or 413 for a body that is over the cap of a function. */
  predicate Replies(b: Backend, body: Body, e: Event, status: nat) {
    if b.target.Container? then e.container == Replied(status)
    else if body.Bytes? && body.len > 4194304 then status == 413
    else BodyFits(body) && e.encodes && e.invoke == Returned(Some(status))
  }

  /** The function ran and reported an error of its own. */
  predicate FunctionErred(b: Backend, body: Body, e: Event) {
    b.target.Function? && BodyFits(body) && e.encodes && e.invoke.Errored?
  }

  /** Each answer of an attempt, by what the network and the backend did, both ways; every other
      event is a plain failure. */
  lemma AttemptIff(b: Backend, body: Body, e: Event)
    ensures RoundTripOn(b, body, e) == Failed(Connect) <==> NotConnected(b, body, e)
    ensures forall s :: RoundTripOn(b, body, e) == Response(s) <==> Replies(b, body, e, s)
    ensures RoundTripOn(b, body, e) == Failed(FunctionFailed) <==> FunctionErred(b, body, e)
  {
  }

  /** A connectError is produced only where the backend has not run the request. */
  lemma ConnectMeansNotRun(b: Backend, body: Body, e: Event)
    requires ApiHonest(e) && RoundTripOn(b, body, e) == Failed(Connect)
    ensures !MayHaveRun(b, body, e)
  {
  }

  // ------------------------------------------------------------------ the walk

  /** Attempt number i meets event(i) on whatever member it falls on, and finds the request's
      context cancelled afterwards when cancelled(i). */
  datatype World = World(event: nat -> Event, cancelled: nat -> bool)

  /** The order in which a request that starts at `start` would visit the members. */
  function Rotated(members: seq<Backend>, start: nat): (order: seq<Backend>)
    requires start < |members|
    ensures |order| == |members|
    ensures multiset(order) == multiset(members)
  {
    assert members == members[..start] + members[start..];
    members[start..] + members[..start]
  }

  lemma RotatedAt(members: seq<Backend>, start: nat, i: nat)
    requires start < |members| && i < |members|
    ensures Rotated(members, start)[i] == members[(start + i) % |members|]
  {
    var n := |members|;
    if start + i < n {
      SmallMod(start + i, n);
    } else {
      WrapMod(start + i, n);
    }
  }

  lemma SmallMod(x: nat, n: nat)
    requires x < n
    ensures x % n == x
  {
  }

  lemma WrapMod(x: nat, n: nat)
    requires 0 < n <= x < 2 * n
    ensures x % n == x - n
  {
  }

  /** The member that attempt i falls on. */
  function Chosen(members: seq<Backend>, start: nat, i: nat): (b: Backend)
    requires start < |members| && i < |members|
    ensures b == Rotated(members, start)[i]
  {
    RotatedAt(members, start, i);
    members[(start + i) % |members|]
  }

  /** A further attempt follows this answer. */
  predicate Retries(body: Body, a: Answer, cancelled: bool) {
    a == Failed(Connect) && body.NoBody? && !cancelled
  }

  /** Attempt number i of the walk along `order` is followed by another. */
  predicate Continues(order: seq<Backend>, i: nat, body: Body, w: World)
    requires i < |order|
  {
    Retries(body, RoundTripOn(order[i], body, w.event(i)), w.cancelled(i))
  }

  /** The number of attempts that the recursive walk along `order` makes from number i on. */
  function Attempts(order: seq<Backend>, i: nat, body: Body, w: World): (k: nat)
    requires i <= |order|
    ensures i + k <= |order| && (i < |order| ==> k > 0)
    decreases |order| - i
  {
    if i == |order| then 0
    else if Continues(order, i, body, w) then 1 + Attempts(order, i + 1, body, w)
    else 1
  }

  /** Attempt j takes place: each before it could not connect, with nothing to replay and nobody
      having cancelled. By the events alone. */
  predicate Reached(order: seq<Backend>, body: Body, w: World, j: nat)
    requires j <= |order|
  {
    forall h :: 0 <= h < j ==> body.NoBody? && NotConnected(order[h], body, w.event(h)) && !w.cancelled(h)
  }

  /** The first member that is reached and replies does so with this status. */
  ghost predicate FirstReplies(order: seq<Backend>, body: Body, w: World, status: nat) {
    exists j :: 0 <= j < |order| && Reached(order, body, w, j) && Replies(order[j], body, w.event(j), status)
  }

  lemma ContinuesIff(order: seq<Backend>, i: nat, body: Body, w: World)
    requires i < |order|
    ensures Continues(order, i, body, w) <==>
      body.NoBody? && NotConnected(order[i], body, w.event(i)) && !w.cancelled(i)
  {
    AttemptIff(order[i], body, w.event(i));
  }

  /** The last attempt of the walk is one that is reached, and nothing after it is. */
  lemma ReachedIff(order: seq<Backend>, body: Body, w: World, j: nat)
    requires j < |order|
    ensures j < Attempts(order, 0, body, w) <==> Reached(order, body, w, j)
  {
    if j < Attempts(order, 0, body, w) {
      forall h | 0 <= h < j
        ensures body.NoBody? && NotConnected(order[h], body, w.event(h)) && !w.cancelled(h)
      {
        EarlierAttemptsRetry(order, 0, body, w, h);
        ContinuesIff(order, h, body, w);
      }
    }
    if Reached(order, body, w, j) {
      forall h | 0 <= h < j
        ensures Continues(order, h, body, w)
      {
        ContinuesIff(order, h, body, w);
      }
      WalksOn(order, 0, body, w, j);
    }
  }

  lemma StopsAt(order: seq<Backend>, body: Body, w: World, j: nat)
    requires j < |order| && Reached(order, body, w, j) && !Continues(order, j, body, w)
    ensures Attempts(order, 0, body, w) == j + 1
  {
    forall h | 0 <= h < j
      ensures Continues(order, h, body, w)
    {
      ContinuesIff(order, h, body, w);
    }
    WalksOn(order, 0, body, w, j);
  }

  /** The answer at the end of the walk, by the events alone. */
  lemma LastReplyIff(order: seq<Backend>, body: Body, w: World, s: nat)
    requires order != []
    ensures
      var last := Attempts(order, 0, body, w) - 1;
      RoundTripOn(order[last], body, w.event(last)) == Response(s) <==> FirstReplies(order, body, w, s)
  {
    var last := Attempts(order, 0, body, w) - 1;
    ReachedIff(order, body, w, last);
    AttemptIff(order[last], body, w.event(last));
    if j :| 0 <= j < |order| && Reached(order, body, w, j) && Replies(order[j], body, w.event(j), s) {
      AttemptIff(order[j], body, w.event(j));
      StopsAt(order, body, w, j);
    }
  }

  /** A cancelled context makes the attempt it follows the last. */
  lemma CancelledIsLast(order: seq<Backend>, body: Body, w: World, i: nat)
    requires w.cancelled(i)
    ensures Attempts(order, 0, body, w) <= i + 1
  {
    if i + 1 < |order| {
      ReachedIff(order, body, w, i + 1);
      assert !Reached(order, body, w, i + 1);
    }
  }

  datatype Outcome = NoBackend | Answered(status: nat) | GaveUp(last: Failure)

  /** `poolTransport.RoundTrip`. `tried` lists the members in the order they were tried and
      `counted` the failures reported to onError. */
  method RoundTrip(members: seq<Backend>, start: nat, body: Body, w: World)
    returns (out: Outcome, tried: seq<Backend>, counted: nat)
    requires members != [] ==> start < |members|
    ensures members == [] ==> out == NoBackend && tried == [] && counted == 0
    ensures members != [] ==>
      && tried == Rotated(members, start)[..Attempts(Rotated(members, start), 0, body, w)]
      && out != NoBackend && counted == (if out.Answered? then |tried| - 1 else |tried|)
      && (forall s :: out == Answered(s) <==> FirstReplies(Rotated(members, start), body, w, s))
      && (forall i: nat :: w.cancelled(i) ==> |tried| <= i + 1)
  {
    if members == [] {
      return NoBackend, [], 0;
    }
    out, tried, counted := Walk(members, start, body, w);
    ghost var order := Rotated(members, start);
    forall s
      ensures out == Answered(s) <==> FirstReplies(order, body, w, s)
    {
      LastReplyIff(order, body, w, s);
    }
    forall i: nat | w.cancelled(i)
      ensures |tried| <= i + 1
    {
      CancelledIsLast(order, body, w, i);
    }
  }

  /** The loop, against the recursive walk. */
  method Walk(members: seq<Backend>, start: nat, body: Body, w: World)
    returns (out: Outcome, tried: seq<Backend>, counted: nat)
    requires start < |members|
    ensures
      var order := Rotated(members, start);
      var k := Attempts(order, 0, body, w);
      && tried == order[..k]
      && out == (match RoundTripOn(order[k - 1], body, w.event(k - 1))
                 case Response(status) => Answered(status)
                 case Failed(f) => GaveUp(f))
      && counted == if out.Answered? then k - 1 else k
  {
    out, tried, counted := NoBackend, [], 0;
    ghost var order := Rotated(members, start);
    var i := 0;
    while i < |members|
      invariant 0 <= i <= |members| && counted == i
      invariant tried == order[..i]
      invariant Attempts(order, 0, body, w) == i + Attempts(order, i, body, w)
      invariant i > 0 ==> out == GaveUp(Connect) && RoundTripOn(order[i - 1], body, w.event(i - 1)) == Failed(Connect)
    {
      var b := Chosen(members, start, i);
      tried := tried + [b];
      assert order[..i + 1] == order[..i] + [b];
      var answer := RoundTripOn(b, body, w.event(i));
      if answer.Response? {
        return Answered(answer.status), tried, counted;
      }
      counted := counted + 1;
      out := GaveUp(answer.failure);
      if !body.NoBody? || answer.failure != Connect || w.cancelled(i) {
        return;
      }
      i := i + 1;
    }
    assert order[..|members|] == order;
  }

  /** `ErrorHandler`: an error that carries an attempt is not counted again; an empty pool is. */
  function CountedByHandler(out: Outcome): nat {
    if out.NoBackend? then 1 else 0
  }

  function FailedAmong(tried: seq<Backend>, body: Body, w: World): nat {
    if tried == [] then 0
    else
      var last := |tried| - 1;
      FailedAmong(tried[..last], body, w)
      + (if RoundTripOn(tried[last], body, w.event(last)).Failed? then 1 else 0)
  }

  // ------------------------------------------------------------------ what the walk guarantees

  /** Every attempt but the last ended in a connectError, with no body and a live context. */
  lemma {:induction false} EarlierAttemptsRetry(order: seq<Backend>, i: nat, body: Body, w: World, j: nat)
    requires i <= j && i <= |order| && j + 1 < i + Attempts(order, i, body, w)
    ensures j < |order| && Continues(order, j, body, w)
    decreases j - i
  {
    if i < j {
      EarlierAttemptsRetry(order, i + 1, body, w, j);
    }
  }

  /** The last attempt is the end of the order, or one after which the rule forbids another. */
  lemma {:induction false} LastAttemptStops(order: seq<Backend>, i: nat, body: Body, w: World)
    requires i < |order|
    ensures
      var last := i + Attempts(order, i, body, w) - 1;
      last == |order| - 1 || !Continues(order, last, body, w)
    decreases |order| - i
  {
    if i + 1 < |order| && Continues(order, i, body, w) {
      LastAttemptStops(order, i + 1, body, w);
    }
  }

  /** As many attempts as are followed by another, and one more. */
  lemma {:induction false} WalksOn(order: seq<Backend>, i: nat, body: Body, w: World, j: nat)
    requires i <= j < |order| && forall h :: i <= h < j ==> Continues(order, h, body, w)
    ensures Attempts(order, i, body, w) == j - i + Attempts(order, j, body, w)
    decreases j - i
  {
    if i < j {
      WalksOn(order, i + 1, body, w, j);
    }
  }

  /** If no attempt connects, the request has no body and nobody cancels, every member is tried. */
  lemma AllTried(order: seq<Backend>, w: World)
    requires Reached(order, NoBody, w, |order|)
    ensures Attempts(order, 0, NoBody, w) == |order|
  {
    if order != [] {
      ReachedIff(order, NoBody, w, |order| - 1);
    }
  }

  /** The answer of the walk is the first success: every earlier member failed to connect. */
  lemma FirstSuccess(order: seq<Backend>, body: Body, w: World, j: nat)
    requires j < |order| && RoundTripOn(order[j], body, w.event(j)).Response?
    ensures Attempts(order, 0, body, w) == j + 1 <==> forall h :: 0 <= h < j ==> Continues(order, h, body, w)
  {
    if forall h :: 0 <= h < j ==> Continues(order, h, body, w) {
      WalksOn(order, 0, body, w, j);
    }
    if Attempts(order, 0, body, w) == j + 1 {
      forall h | 0 <= h < j
        ensures Continues(order, h, body, w)
      {
        EarlierAttemptsRetry(order, 0, body, w, h);
      }
    }
  }

  lemma BodyMeansOneAttempt(order: seq<Backend>, i: nat, body: Body, w: World)
    requires i < |order| && !body.NoBody?
    ensures Attempts(order, i, body, w) == 1
  {
  }

  /** At most one backend ever runs a request: of two attempts, only the later may have run it. */
  lemma AtMostOneRuns(order: seq<Backend>, body: Body, w: World, g: nat, h: nat)
    requires forall e: nat :: ApiHonest(w.event(e))
    requires g < h < Attempts(order, 0, body, w)
    ensures g < |order| && !MayHaveRun(order[g], body, w.event(g))
  {
    EarlierAttemptsRetry(order, 0, body, w, g);
    ConnectMeansNotRun(order[g], body, w.event(g));
  }

  /** The members tried are distinct whenever the pool's members are. */
  lemma TriedDistinct(members: seq<Backend>, start: nat, g: nat, h: nat)
    requires start < |members| && g < h < |members|
    requires forall i, j :: 0 <= i < j < |members| ==> members[i].key != members[j].key
    ensures Rotated(members, start)[g].key != Rotated(members, start)[h].key
  {
  }

  /** A whole request. It is answered with the status of the first member that is reached and
      replies, and with 502 if there is none; over RoundTrip and ErrorHandler together each failed
      attempt is counted once, and a request that finds an empty pool counts once as well. */
  method HandleRequest(members: seq<Backend>, start: nat, body: Body, w: World)
    returns (status: nat, tried: seq<Backend>, total: nat)
    requires members != [] ==> start < |members|
    ensures members == [] ==> status == 502 && total == 1
    ensures members != [] ==>
      var order := Rotated(members, start);
      && (forall s :: FirstReplies(order, body, w, s) ==> status == s)
      && ((forall s :: !FirstReplies(order, body, w, s)) ==> status == 502)
      && total == FailedAmong(tried, body, w)
      && 0 < |tried| <= |members| && tried == order[..|tried|]
  {
    var out, counted;
    out, tried, counted := RoundTrip(members, start, body, w);
    total := counted + CountedByHandler(out);
    status := if out.Answered? then out.status else 502;
    if members != [] {
      WalkCounts(Rotated(members, start), body, w);
      LastOutcome(Rotated(members, start), body, w, out);
    }
  }

  lemma LastOutcome(order: seq<Backend>, body: Body, w: World, out: Outcome)
    requires order != [] && forall s :: out == Answered(s) <==> FirstReplies(order, body, w, s)
    ensures
      var last := Attempts(order, 0, body, w) - 1;
      out.Answered? <==> RoundTripOn(order[last], body, w.event(last)).Response?
  {
    var last := Attempts(order, 0, body, w) - 1;
    var answer := RoundTripOn(order[last], body, w.event(last));
    if answer.Response? {
      LastReplyIff(order, body, w, answer.status);
    }
    if out.Answered? {
      LastReplyIff(order, body, w, out.status);
    }
  }

  lemma WalkCounts(order: seq<Backend>, body: Body, w: World)
    requires order != []
    ensures
      var k := Attempts(order, 0, body, w);
      FailedAmong(order[..k], body, w) ==
        if RoundTripOn(order[k - 1], body, w.event(k - 1)).Failed? then k else k - 1
  {
    var k := Attempts(order, 0, body, w);
    forall j | 0 <= j < k - 1
      ensures RoundTripOn(order[j], body, w.event(j)).Failed?
    {
      EarlierAttemptsRetry(order, 0, body, w, j);
    }
    AllFailed(order[..k - 1], body, w);
    assert order[..k][..k - 1] == order[..k - 1];
  }

  lemma {:induction false} AllFailed(tried: seq<Backend>, body: Body, w: World)
    requires forall j :: 0 <= j < |tried| ==> RoundTripOn(tried[j], body, w.event(j)).Failed?
    ensures FailedAmong(tried, body, w) == |tried|
  {
    if tried != [] {
      AllFailed(tried[..|tried| - 1], body, w);
    }
  }
}
