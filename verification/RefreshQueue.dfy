/**
 * The single-flight token refresh of the web client. The first unauthorised response starts a
 * refresh, those that arrive meanwhile wait in a queue, and the refresh settles the queue when it
 * ends. Every interleaving of arrivals and refresh completions is a run.
 */
module RefreshQueue {
  type Request = nat

  datatype Answer = NewToken(token: string) | Denied(error: string)

  /** A queued promise: the request that waits, and the refresh in flight when it began to wait. */
  datatype Waiter = Waiter(request: Request, refresh: nat)

  /** A promise resolved or rejected, and by which refresh. */
  datatype Settlement = Settlement(waiter: nat, refresh: nat, answer: Answer)

  /** `isRefreshing` and `failedQueue` are the module's variables and `retried` the requests marked as
      retried. The rest is the record of the run: who started each refresh, which are in flight, how
      the others ended, every promise ever queued (the queue holds their numbers), and every one
      settled. */
  datatype Client = Client(
    isRefreshing: bool,
    failedQueue: seq<nat>,
    retried: set<Request>,
    starters: seq<Request>,
    inFlight: set<nat>,
    ended: map<nat, Answer>,
    waiters: seq<Waiter>,
    settled: seq<Settlement>)

  datatype Event =
    | ErrorArrives(request: Request, unauthorized: bool, authEndpoint: bool, refreshToken: bool)
    | RefreshEnds(refresh: nat, answer: Answer)

  function Idle(): Client {
    Client(false, [], {}, [], {}, map[], [], [])
  }

  function SettleAll(queue: seq<nat>, refresh: nat, answer: Answer): (r: seq<Settlement>)
    ensures |r| == |queue|
    ensures forall k :: 0 <= k < |queue| ==> r[k] == Settlement(queue[k], refresh, answer)
  {
    if queue == [] then []
    else SettleAll(queue[..|queue| - 1], refresh, answer) + [Settlement(queue[|queue| - 1], refresh, answer)]
  }

  /** The queue is settled and emptied, and the flag goes down. */
  function End(c: Client, refresh: nat, answer: Answer): Client {
    c.(isRefreshing := false, failedQueue := [], inFlight := c.inFlight - {refresh}, ended := c.ended[refresh := answer],
       settled := c.settled + SettleAll(c.failedQueue, refresh, answer))
  }

  function Wait(c: Client, request: Request): Client
    requires c.starters != []
  {
    c.(failedQueue := c.failedQueue + [|c.waiters|],
       waiters := c.waiters + [Waiter(request, |c.starters| - 1)])
  }

  function Start(c: Client, request: Request): Client {
    c.(isRefreshing := true, retried := c.retried + {request}, starters := c.starters + [request],
       inFlight := c.inFlight + {|c.starters|})
  }

  predicate Handled(c: Client, request: Request, unauthorized: bool, authEndpoint: bool) {
    unauthorized && request !in c.retried && !authEndpoint
  }

  /** One callback. Without a refresh token the refresh is denied before it is sent. */
  function Step(c: Client, event: Event): Client
    requires c.isRefreshing ==> c.starters != []
  {
    match event
    case ErrorArrives(request, unauthorized, authEndpoint, refreshToken) =>
      if !Handled(c, request, unauthorized, authEndpoint) then c
      else if c.isRefreshing then Wait(c, request)
      else if refreshToken then Start(c, request)
      else End(Start(c, request), |c.starters|, Denied("No refresh token"))
    case RefreshEnds(refresh, answer) =>
      if refresh in c.inFlight then End(c, refresh, answer) else c
  }

  // ── The invariant ──

  function SettledIds(settled: seq<Settlement>): seq<nat> {
    seq(|settled|, k requires 0 <= k < |settled| => settled[k].waiter)
  }

  predicate Counting(ids: seq<nat>, n: nat) {
    |ids| == n && forall k :: 0 <= k < n ==> ids[k] == k
  }

  /** At most one refresh is in flight, the latest, and the flag says whether. */
  predicate SingleFlight(c: Client) {
    if c.isRefreshing then c.starters != [] && c.inFlight == {|c.starters| - 1} else c.inFlight == {}
  }

  /** Only a refresh in flight keeps anyone waiting, and they wait for that one. */
  predicate QueueWaits(c: Client) {
    && (c.failedQueue != [] ==> c.isRefreshing)
    && (forall k :: 0 <= k < |c.failedQueue| ==> c.failedQueue[k] < |c.waiters|)
    && (forall k :: 0 <= k < |c.failedQueue| ==> c.waiters[c.failedQueue[k]].refresh == |c.starters| - 1)
  }

  /** Every promise ever queued is settled, or in the queue: each once, in the order they came. */
  predicate EachOnce(c: Client) {
    Counting(SettledIds(c.settled) + c.failedQueue, |c.waiters|)
  }

  predicate SettledRightly(c: Client, s: Settlement) {
    && s.waiter < |c.waiters|
    && c.waiters[s.waiter].refresh == s.refresh
    && s.refresh in c.ended && c.ended[s.refresh] == s.answer
  }

  /** A request starts at most one refresh. */
  predicate StartsOnce(c: Client) {
    && (forall k :: 0 <= k < |c.starters| ==> c.starters[k] in c.retried)
    && (forall i, j :: 0 <= i < j < |c.starters| ==> c.starters[i] != c.starters[j])
  }

  predicate EndsOnce(c: Client) {
    forall k :: k in c.ended ==> k < |c.starters| && k !in c.inFlight
  }

  predicate Inv(c: Client) {
    && SingleFlight(c) && QueueWaits(c) && EachOnce(c) && StartsOnce(c) && EndsOnce(c)
    && (forall k :: 0 <= k < |c.settled| ==> SettledRightly(c, c.settled[k]))
  }

  lemma WaitKeepsInv(c: Client, request: Request)
    requires Inv(c) && c.isRefreshing
    ensures Inv(Wait(c, request))
  {
    var after := Wait(c, request);
    assert SettledIds(after.settled) + after.failedQueue == (SettledIds(c.settled) + c.failedQueue) + [|c.waiters|];
    forall k | 0 <= k < |after.settled| ensures SettledRightly(after, after.settled[k]) {
      assert SettledRightly(c, c.settled[k]);
    }
  }

  lemma StartKeepsInv(c: Client, request: Request)
    requires Inv(c) && !c.isRefreshing && request !in c.retried
    ensures Inv(Start(c, request))
  {
    var after := Start(c, request);
    forall k | 0 <= k < |after.settled| ensures SettledRightly(after, after.settled[k]) {
      assert SettledRightly(c, c.settled[k]);
    }
  }

  lemma EndSettles(c: Client, refresh: nat, answer: Answer, k: nat)
    requires Inv(c) && refresh in c.inFlight && k < |End(c, refresh, answer).settled|
    ensures SettledRightly(End(c, refresh, answer), End(c, refresh, answer).settled[k])
  {
    if k < |c.settled| {
      assert SettledRightly(c, c.settled[k]);
    } else {
      var j := k - |c.settled|;
      assert End(c, refresh, answer).settled[k] == SettleAll(c.failedQueue, refresh, answer)[j];
    }
  }

  lemma EndKeepsOrder(c: Client, refresh: nat, answer: Answer)
    requires EachOnce(c)
    ensures EachOnce(End(c, refresh, answer))
  {
    var after := End(c, refresh, answer);
    assert SettledIds(after.settled) + after.failedQueue == SettledIds(c.settled) + c.failedQueue;
  }

  lemma EndKeepsInv(c: Client, refresh: nat, answer: Answer)
    requires Inv(c) && refresh in c.inFlight
    ensures Inv(End(c, refresh, answer))
  {
    EndKeepsOrder(c, refresh, answer);
    var after := End(c, refresh, answer);
    forall k: nat | k < |after.settled| ensures SettledRightly(after, after.settled[k]) {
      EndSettles(c, refresh, answer, k);
    }
  }

  lemma StepKeepsInv(c: Client, event: Event)
    requires Inv(c)
    ensures Inv(Step(c, event))
  {
    match event
    case ErrorArrives(request, unauthorized, authEndpoint, refreshToken) =>
      if Handled(c, request, unauthorized, authEndpoint) {
        if c.isRefreshing {
          WaitKeepsInv(c, request);
        } else {
          StartKeepsInv(c, request);
          EndKeepsInv(Start(c, request), |c.starters|, Denied("No refresh token"));
        }
      }
    case RefreshEnds(refresh, answer) =>
      if refresh in c.inFlight { EndKeepsInv(c, refresh, answer); }
  }

  /** The client after an interleaving of callbacks. */
  function Run(events: seq<Event>): (c: Client)
    ensures Inv(c)
  {
    if events == [] then Idle()
    else
      var before := Run(events[..|events| - 1]);
      StepKeepsInv(before, events[|events| - 1]);
      Step(before, events[|events| - 1])
  }

  // ── What a reader relies on ──

  /** In every interleaving: at most one refresh is in flight, and nobody waits without one. */
  lemma OneRefreshAtATime(events: seq<Event>)
    ensures |Run(events).inFlight| <= 1
    ensures Run(events).failedQueue != [] ==> |Run(events).inFlight| == 1
    ensures Run(events).isRefreshing <==> Run(events).inFlight != {}
  {
  }

  /** In every interleaving a queued promise is settled at most once, by the refresh it waited on and
      with that refresh's answer, and once nothing is in flight all of them have been. */
  lemma SettledExactlyOnce(events: seq<Event>, w: nat)
    requires w < |Run(events).waiters|
    ensures var c := Run(events);
            && (forall i, j :: 0 <= i < j < |c.settled| ==> c.settled[i].waiter != c.settled[j].waiter)
            && (forall i :: 0 <= i < |c.settled| && c.settled[i].waiter == w ==>
                  c.settled[i].refresh == c.waiters[w].refresh && c.waiters[w].refresh in c.ended
                  && c.settled[i].answer == c.ended[c.waiters[w].refresh])
            && (w in c.failedQueue <==> w >= |c.settled|)
            && (c.inFlight == {} ==> w < |c.settled| && c.settled[w].waiter == w)
  {
    var c := Run(events);
    var ids := SettledIds(c.settled);
    var all := ids + c.failedQueue;
    forall i: nat | i < |c.settled| ensures c.settled[i].waiter == i && SettledRightly(c, c.settled[i]) {
      assert all[i] == ids[i];
    }
    if w >= |c.settled| {
      assert c.failedQueue[w - |c.settled|] == all[w];
    }
    if w in c.failedQueue {
      var k :| 0 <= k < |c.failedQueue| && c.failedQueue[k] == w;
      assert all[|ids| + k] == w;
    }
  }

  /** In every interleaving no request starts two refreshes, so there are at most as many refreshes as
      requests that failed. */
  lemma StartersDiffer(events: seq<Event>, i: nat, j: nat)
    requires i < j < |Run(events).starters|
    ensures Run(events).starters[i] != Run(events).starters[j]
  {
    assert StartsOnce(Run(events));
  }

  // ── What each callback does ──

  /** An unauthorised response, other than of a retried request or of the authentication endpoints. */
  predicate IsServed(c: Client, event: Event) {
    event.ErrorArrives? && event.unauthorized && !event.authEndpoint && event.request !in c.retried
  }

  /** A response that is served waits for the refresh in flight, or else starts one, which is denied at once
      without a refresh token; any other response changes nothing. */
  lemma ArrivalIs(c: Client, event: Event)
    requires Inv(c) && event.ErrorArrives?
    ensures var after, latest := Step(c, event), |c.starters|;
            && (!IsServed(c, event) ==> after == c)
            && (IsServed(c, event) && c.inFlight != {} ==>
                 after == c.(waiters := c.waiters + [Waiter(event.request, latest - 1)],
                             failedQueue := c.failedQueue + [|c.waiters|]))
            && (IsServed(c, event) && c.inFlight == {} ==>
                 && after.starters == c.starters + [event.request] && after.retried == c.retried + {event.request}
                 && after.waiters == c.waiters && after.settled == c.settled && after.failedQueue == []
                 && after.inFlight == (if event.refreshToken then {latest} else {})
                 && after.ended == if event.refreshToken then c.ended else c.ended[latest := Denied("No refresh token")])
  {
    assert c.settled + [] == c.settled;
  }

  /** When the refresh in flight ends, nothing is in flight, its answer is known, and everyone who waited has it,
      in the order they came. */
  lemma EndIs(c: Client, refresh: nat, answer: Answer)
    requires Inv(c) && refresh in c.inFlight
    ensures var after := Step(c, RefreshEnds(refresh, answer));
            && after.inFlight == {} && !after.isRefreshing && after.failedQueue == []
            && after.ended == c.ended[refresh := answer]
            && after.waiters == c.waiters && after.starters == c.starters && after.retried == c.retried
            && |after.settled| == |c.waiters| && c.settled <= after.settled
            && forall k :: |c.settled| <= k < |after.settled| ==> after.settled[k] == Settlement(k, refresh, answer)
  {
    var after, ids := Step(c, RefreshEnds(refresh, answer)), SettledIds(c.settled);
    assert |ids + c.failedQueue| == |c.waiters|;
    forall k | |c.settled| <= k < |after.settled| ensures after.settled[k] == Settlement(k, refresh, answer) {
      assert (ids + c.failedQueue)[k] == c.failedQueue[k - |ids|];
    }
  }

  function ServedIn(events: seq<Event>): nat {
    if events == [] then 0 else
    ServedIn(events[..|events| - 1]) + if IsServed(Run(events[..|events| - 1]), events[|events| - 1]) then 1 else 0
  }

  /** In every interleaving nobody is dropped: every response served has started a refresh or waits for one, or
      was settled by it. */
  lemma {:induction false} NobodyIsDropped(events: seq<Event>)
    ensures |Run(events).starters| + |Run(events).waiters| == ServedIn(events)
    decreases |events|
  {
    if events != [] {
      var before, last := Run(events[..|events| - 1]), events[|events| - 1];
      NobodyIsDropped(events[..|events| - 1]);
      if last.ErrorArrives? {
        ArrivalIs(before, last);
      } else if last.refresh in before.inFlight {
        EndIs(before, last.refresh, last.answer);
      }
    }
  }

  /** The module's variables and its interceptor. */
  class ApiClient {
    var isRefreshing: bool
    var failedQueue: seq<nat>
    var retried: set<Request>
    ghost var starters: seq<Request>
    ghost var inFlight: set<nat>
    ghost var ended: map<nat, Answer>
    var waiters: seq<Waiter>
    var settled: seq<Settlement>
    var refreshes: nat

    ghost function State(): Client
      reads this
    {
      Client(isRefreshing, failedQueue, retried, starters, inFlight, ended, waiters, settled)
    }

    ghost predicate Valid()
      reads this
    {
      Inv(State()) && refreshes == |starters|
    }

    constructor ()
      ensures Valid() && State() == Idle()
    {
      isRefreshing, failedQueue, retried := false, [], {};
      starters, inFlight, ended := [], {}, map[];
      waiters, settled, refreshes := [], [], 0;
    }

    /** Settles every promise of the queue in turn, then empties it. */
    method ProcessQueue(refresh: nat, answer: Answer)
      modifies this`settled, this`failedQueue
      ensures failedQueue == []
      ensures settled == old(settled) + SettleAll(old(failedQueue), refresh, answer)
    {
      for k := 0 to |failedQueue|
        invariant failedQueue == old(failedQueue)
        invariant settled == old(settled) + SettleAll(failedQueue[..k], refresh, answer)
      {
        assert failedQueue[..k + 1][..k] == failedQueue[..k];
        settled := settled + [Settlement(failedQueue[k], refresh, answer)];
      }
      assert failedQueue[..|failedQueue|] == failedQueue;
      failedQueue := [];
    }

    /** The error callback of a response. */
    method OnError(request: Request, unauthorized: bool, authEndpoint: bool, refreshToken: bool)
      requires Valid()
      modifies this
      ensures Valid()
      ensures State() == Step(old(State()), ErrorArrives(request, unauthorized, authEndpoint, refreshToken))
    {
      ghost var before := State();
      if unauthorized && request !in retried && !authEndpoint {
        if isRefreshing {
          failedQueue := failedQueue + [|waiters|];
          waiters := waiters + [Waiter(request, refreshes - 1)];
        } else {
          retried := retried + {request};
          isRefreshing := true;
          starters, inFlight := starters + [request], inFlight + {|starters|};
          refreshes := refreshes + 1;
          if !refreshToken {
            Finish(refreshes - 1, Denied("No refresh token"));
          }
        }
      }
      StepKeepsInv(before, ErrorArrives(request, unauthorized, authEndpoint, refreshToken));
    }

    /** What the end of a refresh does, whether it succeeded or failed. */
    method Finish(refresh: nat, answer: Answer)
      modifies this
      ensures State() == End(old(State()), refresh, answer) && refreshes == old(refreshes)
    {
      ProcessQueue(refresh, answer);
      isRefreshing := false;
      inFlight, ended := inFlight - {refresh}, ended[refresh := answer];
    }

    method OnRefreshEnds(refresh: nat, answer: Answer)
      requires Valid() && refresh in inFlight
      modifies this
      ensures Valid()
      ensures State() == Step(old(State()), RefreshEnds(refresh, answer))
    {
      EndKeepsInv(State(), refresh, answer);
      Finish(refresh, answer);
    }
  }
}
