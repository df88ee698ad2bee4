/**
 Requests and their results (`src/network/requests.ts`, `request` and the
 responses in `src/network/socket.ts`, `src/utils/deferred.ts`).

 Between the events below nothing else runs: a request is made; its timer fires;
 a response message arrives; the caller goes on with the result and deletes the
 entry. Request number `k` is the k-th made on the socket.
 */
module Requests {
  import opened Common

  datatype Message = Body(data: bytes) | ErrorMessage(code: nat)
  datatype Result = Success(data: bytes) | Failure(status: nat)

  const TIMED_OUT: Result := Failure(1)

  /** The first half of `LNActiveRequest.resolve`. */
  function Convert(m: Message): Result {
    match m
    case Body(data) => Success(data)
    case ErrorMessage(code) => Failure(code)
  }

  datatype Request = Request(id: nat, result: Option<Result>, timer: bool, deleted: bool)

  /** `store` maps an id to the number of the request whose deferred result and timer it holds. */
  datatype State = State(requests: seq<Request>, store: map<nat, nat>)

  const EMPTY: State := State([], map[])

  datatype Event = Make(id: nat) | Timeout(k: nat) | Response(id: nat, message: Message) | Continue(k: nat)

  /** The first resolution wins; every one cancels the timer. */
  function Resolve(s: State, k: nat, result: Result): State
    requires k < |s.requests|
  {
    var r := s.requests[k];
    s.(requests := s.requests[k := r.(result := if r.result == None then Some(result) else r.result, timer := false)])
  }

  function Step(s: State, e: Event): State {
    match e
    case Make(id) =>
      State(s.requests + [Request(id, None, true, false)], s.store[id := |s.requests|])
    case Timeout(k) =>
      if k < |s.requests| && s.requests[k].timer then Resolve(s, k, TIMED_OUT) else s
    case Response(id, message) =>
      if id in s.store && s.store[id] < |s.requests| then Resolve(s, s.store[id], Convert(message)) else s
    case Continue(k) =>
      if k < |s.requests| && s.requests[k].result.Some? && !s.requests[k].deleted then
        State(s.requests[k := s.requests[k].(deleted := true)], s.store - {s.requests[k].id})
      else s
  }

  function Run(s: State, events: seq<Event>): State
    decreases events
  {
    if events == [] then s else Run(Step(s, events[0]), events[1..])
  }

  // ---------------------------------------------------------------- what always holds

  /**
   A request without a result has a running timer, so it will get one; the store refers to
   requests by their own ids.
   */
  ghost predicate Inv(s: State) {
    (forall k :: 0 <= k < |s.requests| ==> (s.requests[k].result == None <==> s.requests[k].timer)) &&
    (forall k :: 0 <= k < |s.requests| && s.requests[k].deleted ==> s.requests[k].result.Some?) &&
    (forall id :: id in s.store ==> s.store[id] < |s.requests| && s.requests[s.store[id]].id == id &&
                                    !s.requests[s.store[id]].deleted)
  }

  /** A request not yet continued owns the entry of its id. */
  ghost predicate Owns(s: State) {
    forall k :: 0 <= k < |s.requests| && !s.requests[k].deleted ==>
      s.requests[k].id in s.store && s.store[s.requests[k].id] == k
  }

  /** No request takes an id that is still in the store. */
  predicate DistinctLive(s: State, events: seq<Event>)
    decreases events
  {
    events == [] ||
    ((events[0].Make? ==> events[0].id !in s.store) && DistinctLive(Step(s, events[0]), events[1..]))
  }

  lemma {:induction false} StepKeepsInv(s: State, e: Event)
    requires Inv(s)
    ensures Inv(Step(s, e)) && |s.requests| <= |Step(s, e).requests|
    ensures forall k :: 0 <= k < |s.requests| ==>
      Step(s, e).requests[k].id == s.requests[k].id &&
      (s.requests[k].result.Some? ==> Step(s, e).requests[k].result == s.requests[k].result)
  {
  }

  lemma {:induction false} StepKeepsOwns(s: State, e: Event)
    requires Inv(s) && Owns(s) && (e.Make? ==> e.id !in s.store)
    ensures Owns(Step(s, e))
  {
  }

  /** A result never changes, whatever happens later. */
  lemma {:induction false} ResultsStay(s: State, events: seq<Event>, k: nat)
    requires Inv(s) && k < |s.requests| && s.requests[k].result.Some?
    ensures Inv(Run(s, events)) && k < |Run(s, events).requests|
    ensures Run(s, events).requests[k].result == s.requests[k].result
    decreases events
  {
    if events != [] {
      StepKeepsInv(s, events[0]);
      ResultsStay(Step(s, events[0]), events[1..], k);
    }
  }

  /**
   What a pending request with an entry gets: an answer's data as a success, an error
   message's code as a failure, and when its time is over the code 1.
   */
  lemma {:induction false} AnswersAndErrors(s: State, k: nat, data: bytes, code: nat)
    requires k < |s.requests| && s.requests[k].result == None
    requires s.requests[k].id in s.store && s.store[s.requests[k].id] == k
    ensures var id := s.requests[k].id;
            Step(s, Response(id, Body(data))).requests[k].result == Some(Success(data)) &&
            Step(s, Response(id, ErrorMessage(code))).requests[k].result == Some(Failure(code)) &&
            (s.requests[k].timer ==> Step(s, Timeout(k)).requests[k].result == Some(Failure(1)))
  {
  }

  // ---------------------------------------- the result is the first event that concerns the request

  /** What the first of the request's timeout and a response with its id says. */
  function First(events: seq<Event>, id: nat, k: nat): Option<Result>
    decreases events
  {
    if events == [] then None
    else if events[0] == Timeout(k) then Some(TIMED_OUT)
    else if events[0].Response? && events[0].id == id then Some(Convert(events[0].message))
    else First(events[1..], id, k)
  }

  lemma {:induction false} PendingGetsFirst(s: State, events: seq<Event>, k: nat)
    requires Inv(s) && Owns(s) && DistinctLive(s, events)
    requires k < |s.requests| && s.requests[k].result == None
    ensures Inv(Run(s, events)) && k < |Run(s, events).requests|
    ensures Run(s, events).requests[k].result == First(events, s.requests[k].id, k)
    decreases events
  {
    if events != [] {
      var t := Step(s, events[0]);
      StepKeepsInv(s, events[0]);
      StepKeepsOwns(s, events[0]);
      if t.requests[k].result == None {
        PendingGetsFirst(t, events[1..], k);
      } else {
        ResultsStay(t, events[1..], k);
      }
    }
  }

  lemma {:induction false} RunKeepsInv(s: State, events: seq<Event>)
    requires Inv(s) && Owns(s) && DistinctLive(s, events)
    ensures Inv(Run(s, events)) && Owns(Run(s, events))
    decreases events
  {
    if events != [] {
      StepKeepsInv(s, events[0]);
      StepKeepsOwns(s, events[0]);
      RunKeepsInv(Step(s, events[0]), events[1..]);
    }
  }

  lemma {:induction false} RunAppend(s: State, xs: seq<Event>, ys: seq<Event>)
    ensures Run(s, xs + ys) == Run(Run(s, xs), ys)
    ensures DistinctLive(s, xs + ys) <==> DistinctLive(s, xs) && DistinctLive(Run(s, xs), ys)
    decreases xs
  {
    if xs == [] {
      assert xs + ys == ys;
    } else {
      assert (xs + ys)[1..] == xs[1..] + ys;
      RunAppend(Step(s, xs[0]), xs[1..], ys);
    }
  }

  /**
   Over any interleaving with distinct live ids, the request made after `before`
   has exactly the result of the first event behind it that concerns it, and keeps
   its entry in the store until its caller goes on.
   */
  lemma {:induction false} EachGetsFirst(before: seq<Event>, id: nat, behind: seq<Event>)
    requires DistinctLive(EMPTY, before + [Make(id)] + behind)
    ensures var s := Run(EMPTY, before + [Make(id)] + behind);
            var k := |Run(EMPTY, before).requests|;
            k < |s.requests| && s.requests[k].id == id && s.requests[k].result == First(behind, id, k) &&
            (if s.requests[k].deleted then id in s.store ==> s.store[id] != k else id in s.store && s.store[id] == k)
  {
    var made := before + [Make(id)];
    RunAppend(EMPTY, made, behind);
    RunAppend(EMPTY, before, [Make(id)]);
    RunKeepsInv(EMPTY, before);
    var s, k := Run(EMPTY, before), |Run(EMPTY, before).requests|;
    var t := Step(s, Make(id));
    var one := [Make(id)];
    assert one[1..] == [] && Run(s, one) == t;
    StepKeepsInv(s, Make(id));
    StepKeepsOwns(s, Make(id));
    PendingGetsFirst(t, behind, k);
    RunKeepsInv(t, behind);
    IdStays(t, behind, k);
  }

  lemma {:induction false} IdStays(s: State, events: seq<Event>, k: nat)
    requires Inv(s) && k < |s.requests|
    ensures k < |Run(s, events).requests| && Run(s, events).requests[k].id == s.requests[k].id
    decreases events
  {
    if events != [] {
      StepKeepsInv(s, events[0]);
      IdStays(Step(s, events[0]), events[1..], k);
    }
  }

  // ---------------------------------------------------------------- why live ids must be distinct

  predicate MakesNone(events: seq<Event>) {
    forall i :: 0 <= i < |events| ==> !events[i].Make?
  }

  /** A pending request that lost its entry can only time out. */
  lemma {:induction false} DisplacedOnlyTimesOut(s: State, events: seq<Event>, k: nat)
    requires Inv(s) && k < |s.requests| && s.requests[k].result == None
    requires s.requests[k].id in s.store ==> s.store[s.requests[k].id] != k
    ensures Inv(Run(s, events)) && k < |Run(s, events).requests|
    ensures Run(s, events).requests[k].result == if Timeout(k) in events then Some(TIMED_OUT) else None
    decreases events
  {
    if events != [] {
      StepKeepsInv(s, events[0]);
      assert events == [events[0]] + events[1..];
      if events[0] == Timeout(k) {
        ResultsStay(Step(s, events[0]), events[1..], k);
      } else {
        DisplacedOnlyTimesOut(Step(s, events[0]), events[1..], k);
      }
    }
  }

  lemma {:induction false} NoneMade(s: State, events: seq<Event>)
    requires MakesNone(events)
    ensures DistinctLive(s, events)
    decreases events
  {
    if events != [] {
      NoneMade(Step(s, events[0]), events[1..]);
    }
  }

  /** Request `k` has the right result after every continuation without further requests. */
  ghost predicate Served(s: State, k: nat, id: nat) {
    forall events :: MakesNone(events) ==>
      k < |Run(s, events).requests| && Run(s, events).requests[k].result == First(events, id, k)
  }

  /** A new request leaves a pending one its answers if and only if it takes another id. */
  lemma {:induction false} DistinctIdsNeeded(s: State, k: nat, id: nat)
    requires Inv(s) && Owns(s) && k < |s.requests| && s.requests[k].result == None
    ensures Served(Step(s, Make(id)), k, s.requests[k].id) <==> id != s.requests[k].id
  {
    var t, mine := Step(s, Make(id)), s.requests[k].id;
    StepKeepsInv(s, Make(id));
    if id == mine {
      var answer := [Response(mine, Body([]))];
      DisplacedOnlyTimesOut(t, answer, k);
      assert MakesNone(answer) && First(answer, mine, k) == Some(Success([]));
    } else {
      forall events | MakesNone(events)
        ensures k < |Run(t, events).requests| && Run(t, events).requests[k].result == First(events, mine, k)
      {
        OwnerGetsFirst(t, events, k);
      }
    }
  }

  /** As `PendingGetsFirst`, from the one entry that matters. */
  lemma {:induction false} OwnerGetsFirst(s: State, events: seq<Event>, k: nat)
    requires Inv(s) && MakesNone(events) && k < |s.requests| && s.requests[k].result == None
    requires s.requests[k].id in s.store && s.store[s.requests[k].id] == k
    requires forall j :: 0 <= j < |s.requests| && s.requests[j].id == s.requests[k].id && j != k ==>
             s.requests[j].deleted
    ensures Inv(Run(s, events)) && k < |Run(s, events).requests|
    ensures Run(s, events).requests[k].result == First(events, s.requests[k].id, k)
    decreases events
  {
    if events != [] {
      var t := Step(s, events[0]);
      StepKeepsInv(s, events[0]);
      if t.requests[k].result == None {
        OwnerGetsFirst(t, events[1..], k);
      } else {
        ResultsStay(t, events[1..], k);
      }
    }
  }

  // ---------------------------------------------------------------- the objects

  /** Single assignment: the callbacks are dropped with the first resolution. */
  class Deferred {
    var pending: bool
    var value: Option<Result>

    constructor ()
      ensures pending && value == None
    {
      pending, value := true, None;
    }

    method Resolve(v: Result)
      modifies this
      ensures !pending && value == if old(pending) then Some(v) else old(value)
    {
      if !pending {
        return;
      }
      value := Some(v);
      pending := false;
    }
  }

  class Schedule {
    var finished: bool

    constructor ()
      ensures !finished
    {
      finished := false;
    }

    method Cancel()
      modifies this
      ensures finished
    {
      finished := true;
    }
  }

  /** A request shares its deferred result and its timer with the entry of the store. */
  datatype ActiveRequest = ActiveRequest(id: nat, result: Deferred, timeout: Schedule)

  method ResolveRequest(r: ActiveRequest, result: Result)
    modifies r.result, r.timeout
    ensures r.timeout.finished && !r.result.pending
    ensures r.result.value == if old(r.result.pending) then Some(result) else old(r.result.value)
  {
    r.timeout.Cancel();
    r.result.Resolve(result);
  }

  /** The object is in the state of the request. */
  ghost predicate Shows(r: ActiveRequest, q: Request)
    reads r.result, r.timeout
  {
    r.id == q.id && r.result.value == q.result && r.result.pending == (q.result == None) &&
      r.timeout.finished == !q.timer
  }

  /** The objects are different ones, and the store holds those of the requests it has to hold. */
  ghost predicate Refers(store: map<nat, ActiveRequest>, made: seq<ActiveRequest>, s: State) {
    |made| == |s.requests| && DistinctObjects(made) && store.Keys == s.store.Keys &&
    forall id :: id in store ==> s.store[id] < |made| && store[id] == made[s.store[id]]
  }

  ghost predicate DistinctObjects(made: seq<ActiveRequest>) {
    forall i, j :: 0 <= i < j < |made| ==> made[i].result != made[j].result && made[i].timeout != made[j].timeout
  }

  lemma {:induction false} RefersToNew(store: map<nat, ActiveRequest>, made: seq<ActiveRequest>, s: State,
                                       r: ActiveRequest)
    requires Refers(store, made, s)
    requires forall i :: 0 <= i < |made| ==> made[i].result != r.result && made[i].timeout != r.timeout
    ensures Refers(store[r.id := r], made + [r], Step(s, Make(r.id)))
  {
  }

  /** `LNActiveRequests` with the requests made on the socket. */
  class ActiveRequests {
    var store: map<nat, ActiveRequest>
    ghost var made: seq<ActiveRequest>
    ghost var history: State

    ghost function Objects(): set<object>
      reads this
    {
      (set i | 0 <= i < |made| :: made[i].result) + (set i | 0 <= i < |made| :: made[i].timeout)
    }

    /** Object `k` is in the state that the history gives request `k`. */
    ghost predicate Valid()
      reads this, Objects()
    {
      Inv(history) && Refers(store, made, history) &&
      forall i :: 0 <= i < |made| ==> Shows(made[i], history.requests[i])
    }

    constructor ()
      ensures Valid() && history == EMPTY && made == []
    {
      store, made, history := map[], [], EMPTY;
    }

    method Add(id: nat) returns (r: ActiveRequest)
      requires Valid()
      modifies this
      ensures Valid() && history == Step(old(history), Make(id)) && made == old(made) + [r]
      ensures fresh(r.result) && fresh(r.timeout)
    {
      StepKeepsInv(history, Make(id));
      var result := new Deferred();
      var timeout := new Schedule();
      r := ActiveRequest(id, result, timeout);
      RefersToNew(store, made, history, r);
      assert forall i :: 0 <= i < |made| ==> Shows(made[i], history.requests[i]);
      hide Inv, Refers;
      store := store[id := r];
      made := made + [r];
      history := Step(history, Make(id));
    }

    /** The timer of request `k` is due, unless it was cancelled. */
    method TimerFires(ghost k: nat, r: ActiveRequest)
      requires Valid() && k < |made| && r == made[k]
      modifies this`history, r.result, r.timeout
      ensures Valid() && history == Step(old(history), Timeout(k))
    {
      StepKeepsInv(history, Timeout(k));
      if !r.timeout.finished {
        ResolveRequest(r, TIMED_OUT);
      }
      history := Step(history, Timeout(k));
    }

    /** The `RESPONSE` case of `handleIncomingMsg`. */
    method HandleResponse(id: nat, message: Message)
      requires Valid()
      modifies this`history, Objects()
      ensures Valid() && history == Step(old(history), Response(id, message))
    {
      StepKeepsInv(history, Response(id, message));
      if id in store {
        ResolveRequest(store[id], Convert(message));
      }
      history := Step(history, Response(id, message));
    }

    /** The rest of `request` behind its `await`. */
    method Continued(ghost k: nat, r: ActiveRequest) returns (response: Result)
      requires Valid() && k < |made| && r == made[k] && r.result.value.Some? && !history.requests[k].deleted
      modifies this`store, this`history
      ensures Valid() && history == Step(old(history), Continue(k))
      ensures history.requests[k].result == Some(response)
    {
      StepKeepsInv(history, Continue(k));
      response := r.result.value.value;
      store := store - {r.id};
      ghost var next := Step(history, Continue(k));
      assert Shows(r, history.requests[k]);
      assert next.requests == history.requests[k := next.requests[k]] && next.store == history.store - {r.id};
      hide Step, Inv, DistinctObjects;
      history := next;
    }
  }
}
