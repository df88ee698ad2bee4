/**
 The sending side of a socket (`AutoProcessingQueue` in `src/utils/queue.ts`,
 `processPackageSending` and `writeDrained` in `src/network/socket.ts`).

 Writes to the TCP socket accept any number of bytes, possibly none. Between the
 events below nothing else runs: a packet is enqueued; the processing loop resumes
 because the packet it awaited is resolved; the socket has drained.
 */
module Sender {
  import opened Common

  /**
   `enqueued` records every packet in order and `sent` what the socket accepted of each one taken from the queue,
   `wire` the bytes in the order in which they were written; the other fields are the source's.
   */
  datatype State = State(
    enqueued: seq<bytes>,
    waiting: seq<bytes>,
    processing: bool,
    current: Option<bytes>,
    resolved: nat,
    sent: seq<bytes>,
    wire: bytes)

  const IDLE: State := State([], [], false, None, 0, [], [])

  /** The numbers say how many bytes the socket accepts, write by write; more than there are means all. */
  datatype Event = Enqueue(data: bytes, accepts: nat) | Resume(accepts: nat) | Drain(writes: seq<nat>)

  /** `tcpSocket.write(data)`: the bytes accepted now belong to the packet last taken. */
  function Write(s: State, data: bytes, accepts: nat): State
    requires s.sent != []
  {
    var n := Min(accepts, |data|);
    s.(wire := s.wire + data[..n], sent := s.sent[|s.sent| - 1 := s.sent[|s.sent| - 1] + data[..n]])
  }

  /** One turn of the loop in `processAll`: take the front packet and try to write it. */
  function Process(s: State, accepts: nat): State
    requires s.waiting != []
  {
    var data := s.waiting[0];
    var taken := s.(waiting := s.waiting[1..], sent := s.sent + [[]]);
    var written := Write(taken, data, accepts);
    var left := data[Min(accepts, |data|)..];
    if left == [] then written.(resolved := s.resolved + 1, current := None) else written.(current := Some(left))
  }

  /** The loop of `writeDrained`, up to the write that accepts nothing or the last byte. */
  function DrainLoop(s: State, data: bytes, writes: seq<nat>): (State, bytes)
    requires s.sent != []
    decreases writes
  {
    if data == [] || writes == [] || writes[0] == 0 then (s, data)
    else DrainLoop(Write(s, data, writes[0]), data[Min(writes[0], |data|)..], writes[1..])
  }

  function Step(s: State, e: Event): State {
    match e
    case Enqueue(data, accepts) =>
      var queued := s.(enqueued := s.enqueued + [data], waiting := s.waiting + [data]);
      if s.processing then queued else Process(queued.(processing := true), accepts)
    case Resume(accepts) =>
      if !s.processing || s.resolved != |s.sent| then s
      else if s.waiting != [] then Process(s, accepts)
      else s.(processing := false)
    case Drain(writes) =>
      if s.current == None || s.sent == [] then s else
        DrainLoop(s, s.current.value, writes).0.(resolved := s.resolved + 1, current := None)
  }

  function Run(s: State, events: seq<Event>): State
    decreases events
  {
    if events == [] then s else Run(Step(s, events[0]), events[1..])
  }

  // ---------------------------------------------------------------- what always holds

  /**
   Packets are taken one at a time in the order of their enqueueing; the one in
   flight, if any, is the last taken, and what it still lacks is `current`; without
   a running loop nothing waits and nothing is in flight.
   */
  ghost predicate Inv(s: State) {
    |s.sent| <= |s.enqueued| && s.waiting == s.enqueued[|s.sent|..] &&
    s.resolved <= |s.sent| <= s.resolved + 1 &&
    (forall k :: 0 <= k < |s.sent| ==> s.sent[k] <= s.enqueued[k]) &&
    s.wire == Concat(s.sent) &&
    (s.current.Some? <==> s.resolved < |s.sent|) &&
    (s.current.Some? ==> s.processing && s.current.value != [] &&
                         s.sent[s.resolved] + s.current.value == s.enqueued[s.resolved]) &&
    (!s.processing ==> s.waiting == [])
  }

  lemma {:induction false} ConcatLast(xs: seq<bytes>)
    requires xs != []
    ensures Concat(xs) == Concat(xs[..|xs| - 1]) + xs[|xs| - 1]
  {
    var last := xs[|xs| - 1];
    assert xs == xs[..|xs| - 1] + [last];
    ConcatAppend(xs[..|xs| - 1], [last]);
    ConcatOne(last);
  }

  /** A write moves bytes from what the packet in flight lacks to what was sent of it. */
  lemma {:induction false} WriteMoves(s: State, data: bytes, accepts: nat)
    requires s.sent != [] && s.wire == Concat(s.sent)
    ensures var t, k := Write(s, data, accepts), |s.sent| - 1;
            t == s.(wire := t.wire, sent := t.sent) && |t.sent| == |s.sent| && t.sent[..k] == s.sent[..k] &&
            t.wire == Concat(t.sent) && t.sent[k] + data[Min(accepts, |data|)..] == s.sent[k] + data
  {
    var n, k := Min(accepts, |data|), |s.sent| - 1;
    var t := Write(s, data, accepts);
    assert t.sent[..k] == s.sent[..k];
    ConcatLast(s.sent);
    ConcatLast(t.sent);
    assert Concat(s.sent[..k]) + s.sent[k] + data[..n] == Concat(s.sent[..k]) + (s.sent[k] + data[..n]);
    assert data[..n] + data[n..] == data;
    assert s.sent[k] + data[..n] + data[n..] == s.sent[k] + (data[..n] + data[n..]);
  }

  lemma {:induction false} ProcessKeepsInv(s: State, accepts: nat)
    requires |s.sent| < |s.enqueued| && s.waiting == s.enqueued[|s.sent|..] && s.resolved == |s.sent| && s.processing
    requires (forall k :: 0 <= k < |s.sent| ==> s.sent[k] <= s.enqueued[k]) && s.wire == Concat(s.sent)
    ensures Inv(Process(s, accepts))
    ensures var t := Process(s, accepts);
            t.enqueued == s.enqueued && |t.sent| == |s.sent| + 1 && t.sent[..|s.sent|] == s.sent &&
            (t.resolved > s.resolved ==> t.sent[|s.sent|] == s.enqueued[|s.sent|])
  {
    var data, k := s.waiting[0], |s.sent|;
    var taken := s.(waiting := s.waiting[1..], sent := s.sent + [[]]);
    ConcatAppend(s.sent, [[]]);
    var one: seq<bytes> := [[]];
    assert Concat(one) == [] by { assert one[1..] == []; }
    assert taken.wire == Concat(taken.sent);
    WriteMoves(taken, data, accepts);
    var t := Process(s, accepts);
    assert [] + data == data && taken.sent[..k] == s.sent;
    forall j | 0 <= j < |t.sent| ensures t.sent[j] <= t.enqueued[j] {
      if j < k { assert t.sent[..k][j] == s.sent[j]; }
    }
    var left := data[Min(accepts, |data|)..];
    if left == [] { assert t.sent[k] + left == t.sent[k]; }
  }

  lemma {:induction false} DrainKeeps(s: State, data: bytes, writes: seq<nat>)
    requires s.sent != [] && s.wire == Concat(s.sent)
    ensures var (t, left) := DrainLoop(s, data, writes);
            var k := |s.sent| - 1;
            t == s.(wire := t.wire, sent := t.sent) && |t.sent| == |s.sent| && t.sent[..k] == s.sent[..k] &&
            t.wire == Concat(t.sent) && t.sent[k] + left == s.sent[k] + data
    decreases writes
  {
    if !(data == [] || writes == [] || writes[0] == 0) {
      WriteMoves(s, data, writes[0]);
      DrainKeeps(Write(s, data, writes[0]), data[Min(writes[0], |data|)..], writes[1..]);
    }
  }

  /** A drain stalls when a write accepts nothing although bytes are left. */
  predicate Stalls(s: State, e: Event) {
    e.Drain? && s.current.Some? && s.sent != [] && DrainLoop(s, s.current.value, e.writes).1 != []
  }

  /** Every packet whose sender was told so was written to its last byte. */
  ghost predicate Whole(s: State) {
    s.resolved <= |s.sent| <= |s.enqueued| && forall k :: 0 <= k < s.resolved ==> s.sent[k] == s.enqueued[k]
  }

  /** Each event keeps the invariant, and resolves a packet whose bytes are not all written exactly when it stalls. */
  lemma {:induction false} StepKeepsInv(s: State, e: Event)
    requires Inv(s)
    ensures Inv(Step(s, e))
    ensures Whole(Step(s, e)) <==> Whole(s) && !Stalls(s, e)
  {
    match e
    case Enqueue(data, accepts) => EnqueueKeepsInv(s, data, accepts);
    case Resume(accepts) =>
      if s.processing && s.resolved == |s.sent| && s.waiting != [] {
        ProcessKeepsInv(s, accepts);
        WholeSame(s, Process(s, accepts));
      }
    case Drain(writes) => DrainKeepsInv(s, writes);
  }

  lemma {:induction false} EnqueueKeepsInv(s: State, data: bytes, accepts: nat)
    requires Inv(s)
    ensures Inv(Step(s, Enqueue(data, accepts))) && (Whole(Step(s, Enqueue(data, accepts))) <==> Whole(s))
  {
    var queued := s.(enqueued := s.enqueued + [data], waiting := s.waiting + [data]);
    assert queued.waiting == queued.enqueued[|s.sent|..];
    QueuedWhole(s, data);
    if !s.processing {
      ProcessKeepsInv(queued.(processing := true), accepts);
      WholeSame(queued, Process(queued.(processing := true), accepts));
    }
  }

  lemma {:induction false} QueuedWhole(s: State, data: bytes)
    requires s.resolved <= |s.sent| <= |s.enqueued|
    ensures Whole(s.(enqueued := s.enqueued + [data], waiting := s.waiting + [data])) <==> Whole(s)
  {
  }

  /** Taking a packet leaves those before it as they were. */
  lemma {:induction false} WholeSame(s: State, t: State)
    requires s.resolved == |s.sent| < |s.enqueued| && t.enqueued == s.enqueued && |t.sent| == |s.sent| + 1
    requires t.sent[..|s.sent|] == s.sent && s.resolved <= t.resolved <= s.resolved + 1
    requires t.resolved > s.resolved ==> t.sent[|s.sent|] == s.enqueued[|s.sent|]
    ensures Whole(t) <==> Whole(s)
  {
    forall k | 0 <= k < |s.sent| ensures t.sent[k] == s.sent[k] { assert t.sent[..|s.sent|][k] == s.sent[k]; }
  }

  lemma {:induction false} DrainKeepsInv(s: State, writes: seq<nat>)
    requires Inv(s)
    ensures Inv(Step(s, Drain(writes)))
    ensures Whole(Step(s, Drain(writes))) <==> Whole(s) && !Stalls(s, Drain(writes))
  {
    if s.current.Some? {
      var k := s.resolved;
      var (t, left) := DrainLoop(s, s.current.value, writes);
      DrainKeeps(s, s.current.value, writes);
      var r := Step(s, Drain(writes));
      assert r.sent[k] + left == s.enqueued[k];
      forall j | 0 <= j < k ensures r.sent[j] == s.sent[j] { assert r.sent[..k][j] == s.sent[..k][j]; }
      if left == [] {
        assert r.sent[k] + [] == r.sent[k];
      } else {
        assert |r.sent[k]| < |s.enqueued[k]|;
      }
    }
  }

  // ---------------------------------------------------------------- runs

  predicate SomeStall(s: State, events: seq<Event>)
    decreases events
  {
    events != [] && (Stalls(s, events[0]) || SomeStall(Step(s, events[0]), events[1..]))
  }

  lemma {:induction false} RunKeepsInv(s: State, events: seq<Event>)
    requires Inv(s)
    ensures Inv(Run(s, events))
    ensures Whole(Run(s, events)) <==> Whole(s) && !SomeStall(s, events)
    decreases events
  {
    if events != [] {
      StepKeepsInv(s, events[0]);
      RunKeepsInv(Step(s, events[0]), events[1..]);
    }
  }

  lemma {:induction false} ConcatPrefix(sent: seq<bytes>, enqueued: seq<bytes>, resolved: nat)
    requires resolved <= |sent| <= resolved + 1 && |sent| <= |enqueued|
    requires forall k :: 0 <= k < |sent| ==> sent[k] <= enqueued[k]
    requires forall k :: 0 <= k < resolved ==> sent[k] == enqueued[k]
    ensures Concat(sent) <= Concat(enqueued)
  {
    if sent != [] {
      if resolved == 0 {
        assert sent[1..] == [];
        assert sent[0] + [] == sent[0];
      } else {
        ConcatPrefix(sent[1..], enqueued[1..], resolved - 1);
        assert Concat(sent)[..|sent[0]|] == sent[0];
      }
    }
  }

  /**
   Over any sequence of events from an idle sender: packets go out one at a time and
   in order, no wake-up is lost, and all resolved packets were written in full if
   and only if no drain met a write that accepts nothing. Then the wire carries a
   prefix of the enqueued packets' bytes.
   */
  lemma {:induction false} SendsInOrder(events: seq<Event>)
    ensures var s := Run(IDLE, events);
            Inv(s) && (Whole(s) <==> !SomeStall(IDLE, events)) &&
            (!s.processing ==> s.waiting == [] && s.resolved == |s.enqueued|) &&
            (!SomeStall(IDLE, events) ==> s.wire <= Concat(s.enqueued))
  {
    RunKeepsInv(IDLE, events);
    var s := Run(IDLE, events);
    if Whole(s) {
      ConcatPrefix(s.sent, s.enqueued, s.resolved);
    }
  }

  // ---------------------------------------------------------------- the loop ends

  /** The loop behind an `await`, or the drain of the packet in flight: an event that will come. */
  predicate Due(s: State, e: Event) {
    (e.Resume? && s.processing && s.resolved == |s.sent|) || (e.Drain? && s.current.Some?)
  }

  /** An upper bound on the events that a sender still needs to become idle. */
  function Rank(s: State): nat {
    2 * |s.waiting| + (if s.processing then 1 else 0) + (if s.current.Some? then 1 else 0)
  }

  lemma {:induction false} DueLowersRank(s: State, e: Event)
    requires Inv(s) && !e.Enqueue?
    ensures Rank(Step(s, e)) + (if Due(s, e) then 1 else 0) <= Rank(s)
  {
    match e
    case Resume(_) =>
    case Drain(writes) =>
      if s.current.Some? {
        DrainKeeps(s, s.current.value, writes);
        hide DrainLoop;
      }
  }

  function CountDue(s: State, events: seq<Event>): nat
    decreases events
  {
    if events == [] then 0
    else (if Due(s, events[0]) then 1 else 0) + CountDue(Step(s, events[0]), events[1..])
  }

  lemma {:induction false} DueIsBounded(s: State, events: seq<Event>)
    requires Inv(s) && forall i :: 0 <= i < |events| ==> !events[i].Enqueue?
    ensures CountDue(s, events) + Rank(Run(s, events)) <= Rank(s)
    decreases events
  {
    if events != [] {
      DueLowersRank(s, events[0]);
      StepKeepsInv(s, events[0]);
      hide Inv, Step, Rank, Due;
      DueIsBounded(Step(s, events[0]), events[1..]);
    }
  }

  /**
   No deadlock and no livelock: a sender that is not idle has an event due, and at most two
   more due events than twice the waiting packets leave it idle, with every packet resolved.
   */
  lemma {:induction false} SenderBecomesIdle(before: seq<Event>, more: seq<Event>)
    requires forall i :: 0 <= i < |more| ==> !more[i].Enqueue?
    ensures var s := Run(IDLE, before);
            (s.processing ==> Due(s, Resume(0)) || Due(s, Drain([]))) &&
            (CountDue(s, more) >= 2 * |s.waiting| + 2 ==>
              !Run(s, more).processing && Run(s, more).resolved == |Run(s, more).enqueued|)
  {
    var s := Run(IDLE, before);
    RunKeepsInv(IDLE, before);
    DueIsBounded(s, more);
    RunKeepsInv(s, more);
    hide Run, CountDue;
  }

  /** A drain that accepts nothing still resolves the packet: its sender takes it for sent, and not a byte was. */
  lemma {:induction false} StalledDrainLosesPacket(data: bytes)
    requires data != []
    ensures var s := Run(IDLE, [Enqueue(data, 0), Drain([])]);
            s.resolved == 1 && s.current == None && s.wire == [] && !Whole(s)
  {
    var events := [Enqueue(data, 0), Drain([])];
    var rest := events[1..];
    assert rest[1..] == [];
    assert data[0..] == data;
    var one: seq<bytes> := [[]];
    assert Step(IDLE, events[0]).sent == one;
    var s := Step(Step(IDLE, events[0]), rest[0]);
    assert Run(Step(IDLE, events[0]), rest) == s;
    assert s.sent[0] == [] && s.enqueued[0] == data;
  }

  // ---------------------------------------------------------------- the object

  /** The sending fields of `PeerSocket` with its `AutoProcessingQueue`; `written` is what its TCP socket accepted. */
  class SendingQueue {
    var queue: seq<bytes>
    var processing: bool
    var currentSendProcess: Option<bytes>
    var written: bytes
    ghost var history: State

    ghost predicate Valid()
      reads this
    {
      Inv(history) && queue == history.waiting && processing == history.processing &&
      currentSendProcess == history.current && written == history.wire
    }

    constructor ()
      ensures Valid() && history == IDLE
    {
      queue, processing, currentSendProcess, written := [], false, None, [];
      history := IDLE;
    }

    /** `tcpSocket.write`: accepts a number of bytes that the environment chooses. */
    method TcpWrite(data: bytes, accepts: nat) returns (n: nat)
      modifies this`written
      ensures n == Min(accepts, |data|) && written == old(written) + data[..n]
    {
      n := Min(accepts, |data|);
      written := written + data[..n];
    }

    /** `processPackageSending`: whatever is not accepted at once stays in flight. */
    method ProcessPackageSending(data: bytes, accepts: nat)
      modifies this`currentSendProcess, this`written
      ensures written == old(written) + data[..Min(accepts, |data|)]
      ensures currentSendProcess == (if |data| <= accepts then None else Some(data[accepts..]))
    {
      var left := data;
      var n := TcpWrite(left, accepts);
      if n > 0 {
        left := left[n..];
      }
      currentSendProcess := if left == [] then None else Some(left);
    }

    method Enqueue(data: bytes, accepts: nat)
      requires Valid()
      modifies this
      ensures Valid() && history == Step(old(history), Event.Enqueue(data, accepts))
    {
      StepKeepsInv(history, Event.Enqueue(data, accepts));
      queue := queue + [data];
      if !processing {
        processing := true;
        var front := queue[0];
        queue := queue[1..];
        ProcessPackageSending(front, accepts);
      }
      history := Step(history, Event.Enqueue(data, accepts));
    }

    /** The awaited packet is resolved: the loop of `processAll` goes on. */
    method Resume(accepts: nat)
      requires Valid() && processing && history.resolved == |history.sent|
      modifies this
      ensures Valid() && history == Step(old(history), Event.Resume(accepts))
    {
      StepKeepsInv(history, Event.Resume(accepts));
      if queue != [] {
        var front := queue[0];
        queue := queue[1..];
        ProcessPackageSending(front, accepts);
      } else {
        processing := false;
      }
      history := Step(history, Event.Resume(accepts));
    }

    method WriteDrained(writes: seq<nat>)
      requires Valid()
      modifies this
      ensures Valid() && history == Step(old(history), Drain(writes))
    {
      StepKeepsInv(history, Drain(writes));
      if currentSendProcess == None {
        return;
      }
      DrainKeeps(history, history.current.value, writes);
      ghost var before, s := history, history;
      var left := currentSendProcess.value;
      var i := 0;
      while left != [] && i < |writes|
        invariant i <= |writes| && s.sent != [] && written == s.wire
        invariant DrainLoop(before, before.current.value, writes) == DrainLoop(s, left, writes[i..])
        invariant history == before && queue == before.waiting && processing == before.processing
      {
        var n := TcpWrite(left, writes[i]);
        if n == 0 {
          assert left[0..] == left;
          break;
        }
        s := Write(s, left, writes[i]);
        left := left[n..];
        i := i + 1;
      }
      currentSendProcess := None;
      history := Step(history, Drain(writes));
    }
  }
}
