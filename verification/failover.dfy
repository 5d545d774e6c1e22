/** Endpoint failover of the performance script: worker threads share the current
    endpoint and its generation under a lock, promote past a failed endpoint, and
    re-issue their call. One step per lock-protected block or transport request. */
module Failover {
  import opened Common

  const MAX_ATTEMPTS := 3

  // ----- the attempts of one call on one endpoint -----

  /** What the transport did: a time-out, connection or protocol error; a TLS or name
      lookup error; or an answer whose body may be cut at the cap or not be JSON. */
  datatype Outcome = Transient | Fatal | Answer(status: nat, truncated: bool, json: bool)

  datatype Verdict = Again | NoContent | Payload | StatusError(status: nat) | TransportError

  predicate RetriedStatus(status: nat, attempt: nat) {
    if status == 500 then attempt + 1 < 2 else status in {429, 503} && attempt + 1 < MAX_ATTEMPTS
  }

  function AfterAttempt(attempt: nat, o: Outcome): Verdict {
    match o
    case Transient => if attempt + 1 < MAX_ATTEMPTS then Again else TransportError
    case Fatal => TransportError
    case Answer(status, truncated, json) =>
      if truncated then StatusError(status)
      else if status == 204 then NoContent
      else if 200 <= status < 300 then (if json then Payload else StatusError(status))
      else if RetriedStatus(status, attempt) then Again
      else StatusError(status)
  }

  predicate Promotable(v: Verdict) {
    v == TransportError || v == StatusError(503)
  }

  /** A whole body under a 2xx status that promises one, and it is JSON. */
  predicate IsJsonSuccess(o: Outcome) {
    o.Answer? && 200 <= o.status <= 299 && o.status != 204 && !o.truncated && o.json
  }

  predicate IsNoContent(o: Outcome) {
    o.Answer? && o.status == 204 && !o.truncated
  }

  /** The attempt loop on one endpoint. */
  method TryEndpoint(net: nat -> Outcome) returns (v: Verdict, requests: nat)
    ensures 1 <= requests <= MAX_ATTEMPTS
    ensures forall i :: 0 <= i < requests - 1 ==> AfterAttempt(i, net(i)) == Again
    ensures v == AfterAttempt(requests - 1, net(requests - 1)) != Again
    ensures v == Payload ==> IsJsonSuccess(net(requests - 1))
    ensures v == NoContent ==> IsNoContent(net(requests - 1))
    ensures v == TransportError ==> net(requests - 1) == Fatal || (requests == 3 && net(requests - 1) == Transient)
    ensures v.StatusError? ==> net(requests - 1).Answer? && net(requests - 1).status == v.status
  {
    var attempt := 0;
    while attempt < MAX_ATTEMPTS
      invariant attempt < MAX_ATTEMPTS
      invariant forall i :: 0 <= i < attempt ==> AfterAttempt(i, net(i)) == Again
    {
      v := AfterAttempt(attempt, net(attempt));
      if v != Again {
        return v, attempt + 1;
      }
      attempt := attempt + 1;
    }
    assert false;
  }

  /** How often an endpoint that keeps giving `o` is asked. */
  function RequestsFor(o: Outcome): nat {
    match o
    case Transient => 3
    case Fatal => 1
    case Answer(status, truncated, _) =>
      if truncated then 1 else if status == 429 || status == 503 then 3 else if status == 500 then 2 else 1
  }

  /** The loop's contract decides the number of requests for every steady endpoint. */
  lemma SteadyEndpointRequests(net: nat -> Outcome, o: Outcome, requests: nat)
    requires forall i :: net(i) == o
    requires 1 <= requests <= MAX_ATTEMPTS
    requires forall i :: 0 <= i < requests - 1 ==> AfterAttempt(i, net(i)) == Again
    requires AfterAttempt(requests - 1, net(requests - 1)) != Again
    ensures requests == RequestsFor(o)
  {
    assert requests >= 2 ==> AfterAttempt(0, net(0)) == Again;
    assert requests >= 3 ==> AfterAttempt(1, net(1)) == Again;
    assert requests < 3 ==> AfterAttempt(requests - 1, o) != Again;
  }

  // ----- the shared fields and promotion -----

  /** `n` endpoints, the index pinned by selection, and the two fields under the lock. */
  datatype Shared = Shared(n: nat, pinnedAt: nat, current: nat, generation: nat)

  datatype Promotion = Stale | Advanced | NoneLeft

  function PromotionOf(s: Shared, ep: nat): Promotion {
    if s.current != ep then Stale else if s.current + 1 >= s.n then NoneLeft else Advanced
  }

  function Promoted(s: Shared, ep: nat): Shared {
    if PromotionOf(s, ep) == Advanced then s.(current := s.current + 1, generation := s.generation + 1) else s
  }

  predicate SharedInv(s: Shared) {
    s.pinnedAt <= s.current < s.n && s.generation == s.current - s.pinnedAt
  }

  datatype Probe = Probe(version: Option<string>, syncing: Option<bool>)

  predicate Usable(p: Probe) {
    p.version.Some? && p.version.value != "" && p.syncing == Some(false)
  }

  class Client {
    const n: nat
    var current: nat
    var generation: nat
    var pinned: bool

    constructor (n: nat)
      ensures this.n == n && current == 0 && generation == 0 && !pinned
    {
      this.n := n;
      current, generation, pinned := 0, 0, false;
    }

    function View(pinnedAt: nat): Shared
      reads this
    {
      Shared(n, pinnedAt, current, generation)
    }

    method PromoteFrom(ep: nat) returns (p: Promotion)
      requires current < n
      modifies this
      ensures p == PromotionOf(old(View(0)), ep) && View(0) == Promoted(old(View(0)), ep)
      ensures pinned == old(pinned) && current < n
    {
      if current != ep { return Stale; }
      var next := current + 1;
      if next >= n { return NoneLeft; }
      current, generation := next, generation + 1;
      p := Advanced;
    }

    /** Pin the first endpoint that names a version and is not syncing. */
    method SelectEndpoint(probe: nat -> Probe) returns (found: bool)
      modifies this
      ensures generation == old(generation)
      ensures found <==> exists i :: 0 <= i < n && Usable(probe(i))
      ensures found ==> pinned && current < n && Usable(probe(current))
      ensures found ==> forall i :: 0 <= i < current ==> !Usable(probe(i))
      ensures found && old(generation) == 0 ==> SharedInv(View(current))
      ensures !found ==> pinned == old(pinned)
    {
      for i := 0 to n
        invariant generation == old(generation) && pinned == old(pinned)
        invariant forall j :: 0 <= j < i ==> !Usable(probe(j))
      {
        current := i;
        var p := probe(i);
        if p.version.None? { continue; }
        if p.version.value == "" { continue; }
        if p.syncing.None? { continue; }
        if p.syncing.value { continue; }
        pinned := true;
        return true;
      }
      found := false;
    }
  }

  // ----- worker threads -----

  datatype CallResult = Returned(value: Verdict) | Raised(error: Verdict) | NoBeacon

  /** Where a worker stands in its call. `tried` lists the endpoints the call has used,
      `requests` the transport requests it has made. */
  datatype Worker =
    | Idle
    | Calling(promote: bool, tried: seq<nat>, requests: nat, attempt: nat)
    | Failing(tried: seq<nat>, requests: nat, cause: Verdict)
    | Reprobing(tried: seq<nat>, requests: nat)
    | Reissuing(tried: seq<nat>, requests: nat)
    | OutOfEndpoints(tried: seq<nat>, requests: nat, cause: Verdict)
    | Finished(promote: bool, tried: seq<nat>, requests: nat, result: CallResult)

  predicate Busy(w: Worker) {
    !w.Idle? && !w.Finished?
  }

  function Last(tried: seq<nat>): nat {
    if tried == [] then 0 else tried[|tried| - 1]
  }

  /** One transport request of a calling worker. */
  function Request(w: Worker, o: Outcome): Worker
    requires w.Calling?
  {
    var v := AfterAttempt(w.attempt, o);
    if v == Again then w.(requests := w.requests + 1, attempt := w.attempt + 1)
    else if v.NoContent? || v.Payload? then Finished(w.promote, w.tried, w.requests + 1, Returned(v))
    else if w.promote && Promotable(v) then Failing(w.tried, w.requests + 1, v)
    else Finished(w.promote, w.tried, w.requests + 1, Raised(v))
  }

  function AfterPromotion(w: Worker, p: Promotion): Worker
    requires w.Failing?
  {
    match p
    case Stale => Reissuing(w.tried, w.requests)
    case Advanced => Reprobing(w.tried, w.requests)
    case NoneLeft => OutOfEndpoints(w.tried, w.requests, w.cause)
  }

  function WorkerAfter(s: Shared, w: Worker, o: Outcome): Worker {
    match w
    case Idle => w
    case Calling(_, _, _, _) => Request(w, o)
    case Failing(tried, _, _) => AfterPromotion(w, PromotionOf(s, Last(tried)))
    case Reprobing(tried, requests) => Reissuing(tried, requests)
    case Reissuing(tried, requests) => Calling(true, tried + [s.current], requests, 0)
    case OutOfEndpoints(tried, requests, cause) =>
      Finished(true, tried, requests, if s.generation != 0 then NoBeacon else Raised(cause))
    case Finished(_, _, _, _) => w
  }

  function SharedAfter(s: Shared, w: Worker): Shared {
    if w.Failing? then Promoted(s, Last(w.tried)) else s
  }

  datatype State = State(shared: Shared, workers: seq<Worker>)

  /** `Begin` starts a call on an idle or finished thread; `Step` lets thread `i` take its
      next step, `o` being what the transport answers if that step is a request. */
  datatype Event = Begin(i: nat, promote: bool) | Step(i: nat, o: Outcome)

  function Next(s: State, e: Event): (t: State)
    ensures |t.workers| == |s.workers|
  {
    if |s.workers| <= e.i then s
    else
      var w := s.workers[e.i];
      match e
      case Begin(i, promote) =>
        if Busy(w) then s else s.(workers := s.workers[i := Calling(promote, [s.shared.current], 0, 0)])
      case Step(i, o) =>
        State(SharedAfter(s.shared, w), s.workers[i := WorkerAfter(s.shared, w, o)])
  }

  function Run(s: State, events: seq<Event>): (t: State)
    ensures |t.workers| == |s.workers|
    decreases |events|
  {
    if events == [] then s else Run(Next(s, events[0]), events[1..])
  }

  function Pinned(n: nat, pinnedAt: nat, threads: nat): State {
    State(Shared(n, pinnedAt, pinnedAt, 0), seq(threads, _ => Idle))
  }

  // ----- the invariant -----

  predicate Increasing(tried: seq<nat>) {
    forall j, k :: 0 <= j < k < |tried| ==> tried[j] < tried[k]
  }

  /** The endpoints a call used so far: strictly later each time, none past the current one. */
  predicate Trail(s: Shared, tried: seq<nat>) {
    && tried != [] && Increasing(tried)
    && s.pinnedAt <= tried[0] && Last(tried) <= s.current
  }

  predicate WorkerInv(s: Shared, w: Worker) {
    match w
    case Idle => true
    case Calling(_, tried, requests, attempt) =>
      Trail(s, tried) && attempt < MAX_ATTEMPTS && requests <= 3 * (|tried| - 1) + attempt
    case Failing(tried, requests, cause) =>
      Trail(s, tried) && requests <= 3 * |tried| && Promotable(cause)
    case Reprobing(tried, requests) =>
      Trail(s, tried) && requests <= 3 * |tried| && Last(tried) < s.current
    case Reissuing(tried, requests) =>
      Trail(s, tried) && requests <= 3 * |tried| && Last(tried) < s.current
    case OutOfEndpoints(tried, requests, cause) =>
      Trail(s, tried) && requests <= 3 * |tried| && Last(tried) + 1 == s.n && Promotable(cause)
    case Finished(promote, tried, requests, result) =>
      && Trail(s, tried) && requests <= 3 * |tried|
      && (result.NoBeacon? ==> Last(tried) + 1 == s.n && s.pinnedAt + 1 < s.n)
      && (result.Raised? && promote && Promotable(result.error) ==> s.pinnedAt + 1 == s.n)
  }

  predicate Inv(s: State) {
    && SharedInv(s.shared)
    && forall i :: 0 <= i < |s.workers| ==> WorkerInv(s.shared, s.workers[i])
  }

  /** How the shared fields may change: the current endpoint moves forward only. */
  predicate Forward(s: Shared, t: Shared) {
    t.n == s.n && t.pinnedAt == s.pinnedAt && s.current <= t.current <= s.current + 1
  }

  lemma RequestKeepsInv(s: Shared, w: Worker, o: Outcome)
    requires SharedInv(s) && w.Calling? && WorkerInv(s, w)
    ensures WorkerInv(s, Request(w, o))
  {
  }

  lemma TrailGrows(s: Shared, tried: seq<nat>)
    requires Trail(s, tried) && Last(tried) < s.current
    ensures Trail(s, tried + [s.current])
  {
  }

  lemma WorkerStepKeepsInv(s: Shared, w: Worker, o: Outcome)
    requires SharedInv(s) && WorkerInv(s, w)
    ensures SharedInv(SharedAfter(s, w)) && Forward(s, SharedAfter(s, w))
    ensures WorkerInv(SharedAfter(s, w), WorkerAfter(s, w, o))
  {
    match w
    case Calling(_, _, _, _) => RequestKeepsInv(s, w, o);
    case Reissuing(tried, _) => TrailGrows(s, tried);
    case _ =>
  }

  lemma OtherWorkersKeepInv(s: Shared, t: Shared, w: Worker)
    requires WorkerInv(s, w) && SharedInv(t) && Forward(s, t)
    ensures WorkerInv(t, w)
  {
  }

  lemma NextKeepsInv(s: State, e: Event)
    requires Inv(s)
    ensures Inv(Next(s, e)) && Forward(s.shared, Next(s, e).shared)
  {
    if e.i < |s.workers| && e.Step? {
      var w := s.workers[e.i];
      WorkerStepKeepsInv(s.shared, w, e.o);
      var t := SharedAfter(s.shared, w);
      forall j | 0 <= j < |s.workers|
        ensures WorkerInv(t, Next(s, e).workers[j])
      {
        if j != e.i { OtherWorkersKeepInv(s.shared, t, s.workers[j]); }
      }
    }
  }

  lemma {:induction false} RunKeepsInv(s: State, events: seq<Event>)
    requires Inv(s)
    ensures Inv(Run(s, events))
    ensures s.shared.current <= Run(s, events).shared.current
    ensures Run(s, events).shared.n == s.shared.n && Run(s, events).shared.pinnedAt == s.shared.pinnedAt
    decreases |events|
  {
    if events != [] {
      NextKeepsInv(s, events[0]);
      RunKeepsInv(Next(s, events[0]), events[1..]);
    }
  }

  /** In every interleaving after pinning the current endpoint stays in the list, and
      the generation counts exactly how far it has moved. */
  lemma {:induction false} GenerationCountsAdvances(n: nat, pinnedAt: nat, threads: nat, events: seq<Event>)
    requires pinnedAt < n
    ensures var s := Run(Pinned(n, pinnedAt, threads), events).shared;
            pinnedAt <= s.current < n && s.generation == s.current - pinnedAt
  {
    RunKeepsInv(Pinned(n, pinnedAt, threads), events);
  }

  // ----- concurrent failures collapse -----

  /** How many promotions away from endpoint `ep` happen along a run. */
  function Advances(s: State, events: seq<Event>, ep: nat): nat
    decreases |events|
  {
    if events == [] then 0
    else
      var t := Next(s, events[0]);
      (if s.shared.current == ep && t.shared.current == ep + 1 then 1 else 0) + Advances(t, events[1..], ep)
  }

  /** However many workers fail on one endpoint, it is left exactly once, or not at all. */
  lemma {:induction false} OneAdvancePerEndpoint(s: State, events: seq<Event>, ep: nat)
    requires Inv(s)
    ensures Advances(s, events, ep) == (if s.shared.current <= ep < Run(s, events).shared.current then 1 else 0)
    decreases |events|
  {
    if events != [] {
      var t := Next(s, events[0]);
      NextKeepsInv(s, events[0]);
      RunKeepsInv(t, events[1..]);
      OneAdvancePerEndpoint(t, events[1..], ep);
    }
  }

  // ----- what a call costs -----

  lemma {:induction false} IncreasingReaches(tried: seq<nat>, k: nat)
    requires Increasing(tried) && k < |tried|
    ensures tried[0] + k <= tried[k]
    decreases k
  {
    if k != 0 { IncreasingReaches(tried, k - 1); }
  }

  /** A call begun at endpoint `tried[0]` makes at most three requests per endpoint from
      there on, whatever the other workers do. */
  lemma {:induction false} CallRequestBound(n: nat, pinnedAt: nat, threads: nat, events: seq<Event>, i: nat)
    requires pinnedAt < n && i < threads
    ensures var w := Run(Pinned(n, pinnedAt, threads), events).workers[i];
            !w.Idle? ==> w.tried != [] && Increasing(w.tried) && w.requests <= 3 * (n - w.tried[0])
  {
    var s := Pinned(n, pinnedAt, threads);
    RunKeepsInv(s, events);
    var w := Run(s, events).workers[i];
    assert WorkerInv(Run(s, events).shared, w);
    if !w.Idle? { IncreasingReaches(w.tried, |w.tried| - 1); }
  }

  /** Exhaustion is signalled only from the last endpoint, and only after a promotion;
      a transport error or a 503 escapes a promoting call only when selection had already
      pinned the last endpoint. */
  lemma {:induction false} ExhaustionOnlyAtTheEnd(n: nat, pinnedAt: nat, threads: nat, events: seq<Event>, i: nat)
    requires pinnedAt < n && i < threads
    ensures var w := Run(Pinned(n, pinnedAt, threads), events).workers[i];
            w.Finished? ==>
              && (w.result.NoBeacon? ==> Last(w.tried) == n - 1 && pinnedAt < n - 1)
              && (w.promote && w.result == Raised(TransportError) ==> pinnedAt == n - 1)
              && (w.promote && w.result == Raised(StatusError(503)) ==> pinnedAt == n - 1)
  {
    var s := Pinned(n, pinnedAt, threads);
    RunKeepsInv(s, events);
    assert WorkerInv(Run(s, events).shared, Run(s, events).workers[i]);
  }

  // ----- what one request decides -----

  /** What sends a call with `attempt` tries behind it to the next endpoint: a TLS or name
      error at once, a transient one or a 503 on the third try, a 503 cut short at once. */
  predicate EndpointFails(attempt: nat, o: Outcome) {
    || o == Fatal
    || (o == Transient && attempt == 2)
    || (o.Answer? && o.status == 503 && (o.truncated || attempt == 2))
  }

  predicate AsksAgain(attempt: nat, o: Outcome) {
    || (o == Transient && attempt < 2)
    || (o.Answer? && !o.truncated && (o.status == 429 || o.status == 503) && attempt < 2)
    || (o.Answer? && !o.truncated && o.status == 500 && attempt < 1)
  }

  function FailureOf(o: Outcome): Verdict {
    if o.Answer? then StatusError(o.status) else TransportError
  }

  /** A call begins on the current endpoint with nothing spent; a thread that is in the middle
      of one does not begin another, and no other thread notices. */
  lemma CallsBegin(s: State, i: nat, promote: bool)
    requires i < |s.workers|
    ensures var t := Next(s, Begin(i, promote));
            && t.shared == s.shared && (forall j :: 0 <= j < |s.workers| && j != i ==> t.workers[j] == s.workers[j])
            && (s.workers[i].Idle? || s.workers[i].Finished? ==> t.workers[i] == Calling(promote, [s.shared.current], 0, 0))
            && (!s.workers[i].Idle? && !s.workers[i].Finished? ==> t.workers[i] == s.workers[i])
  {
  }

  /** One request of a call decides it, repeats it, or sends it to the next endpoint; every
      status but 503, and every error outside a promoting call, ends the call where it is. */
  lemma RequestDecides(s: State, i: nat, o: Outcome)
    requires i < |s.workers| && s.workers[i].Calling? && s.workers[i].attempt < 3
    ensures var w, t := s.workers[i], Next(s, Step(i, o)).workers[i];
            t == if AsksAgain(w.attempt, o) then Calling(w.promote, w.tried, w.requests + 1, w.attempt + 1)
                 else if IsJsonSuccess(o) then Finished(w.promote, w.tried, w.requests + 1, Returned(Payload))
                 else if IsNoContent(o) then Finished(w.promote, w.tried, w.requests + 1, Returned(NoContent))
                 else if w.promote && EndpointFails(w.attempt, o) then Failing(w.tried, w.requests + 1, FailureOf(o))
                 else Finished(w.promote, w.tried, w.requests + 1, Raised(FailureOf(o)))
  {
  }

  /** Only an answer ends a call well: a payload is JSON under a 2xx, a missing one a 204. */
  lemma ReturnedMeans(s: State, i: nat, o: Outcome)
    requires i < |s.workers| && Busy(s.workers[i])
    ensures var t := Next(s, Step(i, o)).workers[i];
            && (t.Finished? && t.result == Returned(Payload) ==> s.workers[i].Calling? && IsJsonSuccess(o))
            && (t.Finished? && t.result == Returned(NoContent) ==> s.workers[i].Calling? && IsNoContent(o))
            && (t.Finished? && t.result.Returned? ==> t.result.value in {Payload, NoContent})
            && (t.Finished? ==> t.tried == s.workers[i].tried)
  {
  }

  lemma {:induction false} RunThree(s: State, a: Event, b: Event, c: Event)
    ensures Run(s, [a, b, c]) == Next(Next(Next(s, a), b), c)
  {
    assert [a, b, c][1..] == [b, c] && [b, c][1..] == [c] && [c][1..] == [];
    assert Run(Next(Next(Next(s, a), b), c), []) == Next(Next(Next(s, a), b), c);
    assert Run(Next(Next(s, a), b), [c]) == Next(Next(Next(s, a), b), c);
  }

  /** What a call that fails on the current endpoint does first: promote past it. */
  lemma LeavesEndpoint(s: State, i: nat, o: Outcome, o1: Outcome)
    requires i < |s.workers| && s.workers[i].Calling? && s.workers[i].promote && s.workers[i].attempt < 3
    requires EndpointFails(s.workers[i].attempt, o) && Last(s.workers[i].tried) == s.shared.current
    requires s.shared.current + 1 < s.shared.n
    ensures var w, t := s.workers[i], Next(Next(s, Step(i, o)), Step(i, o1));
            && t.workers[i] == Reprobing(w.tried, w.requests + 1)
            && t.shared == s.shared.(current := s.shared.current + 1, generation := s.shared.generation + 1)
  {
    RequestDecides(s, i, o);
  }

  /** And then: start over on the endpoint that is current by now. */
  lemma StartsOver(s: State, i: nat, o1: Outcome, o2: Outcome)
    requires i < |s.workers| && s.workers[i].Reprobing?
    ensures var w, t := s.workers[i], Next(Next(s, Step(i, o1)), Step(i, o2));
            t.workers[i] == Calling(true, w.tried + [s.shared.current], w.requests, 0) && t.shared == s.shared
  {
  }

  /** Left alone, a promoting call that fails on the current endpoint moves on to the next
      one and starts over there; `o1` to `o3` are never asked for. */
  lemma FailsOver(s: State, i: nat, o: Outcome, o1: Outcome, o2: Outcome, o3: Outcome)
    requires Inv(s) && i < |s.workers| && s.workers[i].Calling? && s.workers[i].promote
    requires EndpointFails(s.workers[i].attempt, o) && Last(s.workers[i].tried) == s.shared.current
    requires s.shared.current + 1 < s.shared.n
    ensures var w, left := s.workers[i], Next(Next(s, Step(i, o)), Step(i, o1));
            var t := Next(Next(left, Step(i, o2)), Step(i, o3));
            && t.workers[i] == Calling(true, w.tried + [s.shared.current + 1], w.requests + 1, 0)
            && t.shared == s.shared.(current := s.shared.current + 1, generation := s.shared.generation + 1)
  {
    assert WorkerInv(s.shared, s.workers[i]);
    LeavesEndpoint(s, i, o, o1);
    StartsOver(Next(Next(s, Step(i, o)), Step(i, o1)), i, o2, o3);
  }

  /** On the last endpoint there is nowhere to go: the call raises its own error if selection
      pinned that endpoint, and reports that no beacon node is left if it was promoted to it. */
  lemma {:induction false} LastEndpointFails(s: State, i: nat, o: Outcome, o1: Outcome, o2: Outcome)
    requires Inv(s) && i < |s.workers| && s.workers[i].Calling? && s.workers[i].promote
    requires EndpointFails(s.workers[i].attempt, o) && Last(s.workers[i].tried) + 1 == s.shared.n
    ensures var w, t := s.workers[i], Run(s, [Step(i, o), Step(i, o1), Step(i, o2)]);
            && t.shared == s.shared
            && t.workers[i] == Finished(true, w.tried, w.requests + 1,
                                        if s.shared.pinnedAt + 1 == s.shared.n then Raised(FailureOf(o)) else NoBeacon)
  {
    RunThree(s, Step(i, o), Step(i, o1), Step(i, o2));
    assert WorkerInv(s.shared, s.workers[i]);
    RequestDecides(s, i, o);
  }

  /** What is left of a call, counted in steps of its own thread. */
  function Rank(n: nat, w: Worker): int {
    match w
    case Idle => 0
    case Calling(_, tried, _, attempt) => 6 * (n - Last(tried)) - attempt
    case Failing(tried, _, _) => 6 * (n - Last(tried)) - 3
    case Reprobing(tried, _) => 6 * (n - Last(tried)) - 4
    case Reissuing(tried, _) => 6 * (n - Last(tried)) - 5
    case OutOfEndpoints(tried, _, _) => 6 * (n - Last(tried)) - 4
    case Finished(_, _, _, _) => 0
  }

  lemma StepSpendsRank(s: Shared, w: Worker, o: Outcome)
    requires SharedInv(s) && WorkerInv(s, w) && Busy(w)
    ensures 0 <= Rank(s.n, WorkerAfter(s, w, o)) < Rank(s.n, w)
  {
  }

  function OwnSteps(events: seq<Event>, i: nat): nat {
    if events == [] then 0
    else (if events[0].Step? && events[0].i == i then 1 else 0) + OwnSteps(events[1..], i)
  }

  predicate NoBegin(events: seq<Event>, i: nat) {
    forall k :: 0 <= k < |events| ==> !(events[k].Begin? && events[k].i == i)
  }

  lemma {:induction false} StepsSpendRank(s: State, events: seq<Event>, i: nat)
    requires Inv(s) && i < |s.workers| && NoBegin(events, i)
    ensures Busy(Run(s, events).workers[i]) ==>
              && Busy(s.workers[i])
              && Rank(s.shared.n, Run(s, events).workers[i]) + OwnSteps(events, i) <= Rank(s.shared.n, s.workers[i])
    decreases |events|
  {
    if events != [] {
      var t := Next(s, events[0]);
      NextKeepsInv(s, events[0]);
      assert NoBegin(events[1..], i);
      StepsSpendRank(t, events[1..], i);
      assert WorkerInv(s.shared, s.workers[i]);
      if events[0].Step? && events[0].i == i && Busy(s.workers[i]) {
        StepSpendsRank(s.shared, s.workers[i], events[0].o);
      }
    }
  }

  /** A thread that takes `6n` steps of its own has finished the call it was in, under
      every interference and every sequence of transport outcomes. */
  lemma {:induction false} CallsTerminate(s: State, events: seq<Event>, i: nat)
    requires Inv(s) && i < |s.workers| && NoBegin(events, i)
    requires 6 * s.shared.n <= OwnSteps(events, i)
    ensures !Busy(Run(s, events).workers[i])
  {
    RunKeepsInv(s, events);
    StepsSpendRank(s, events, i);
    assert WorkerInv(s.shared, s.workers[i]);
    assert WorkerInv(Run(s, events).shared, Run(s, events).workers[i]);
  }
}
