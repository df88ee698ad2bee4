/**
 The two ends of a connection together: what a sender puts on the wire
 (`sendingQueue` in `src/network/socket.ts`) and what a receiver makes of it
 (`receiveData` there), whatever the writes accept and wherever the stream is cut.
 */
module Transport {
  import opened Common
  import Framing
  import Sender

  /** The messages that `send` does not drop: those of at most the largest packet size. */
  function Accepted(messages: seq<bytes>): (packets: seq<bytes>)
    ensures Framing.Sendable(packets)
  {
    if messages == [] then []
    else if Framing.Frame(messages[0]) == None then Accepted(messages[1..])
    else [messages[0]] + Accepted(messages[1..])
  }

  /** What `send` enqueues, message by message. */
  function Frames(messages: seq<bytes>): seq<bytes> {
    if messages == [] then []
    else
      match Framing.Frame(messages[0])
      case None => Frames(messages[1..])
      case Some(frame) => [frame] + Frames(messages[1..])
  }

  /** The frames of any messages are the wire of those that are not too large. */
  lemma {:induction false} FramesOnTheWire(messages: seq<bytes>)
    ensures Concat(Frames(messages)) == Framing.Wire(Accepted(messages))
  {
    if messages != [] {
      FramesOnTheWire(messages[1..]);
      if Framing.Frame(messages[0]).Some? {
        assert Frames(messages)[1..] == Frames(messages[1..]) && Accepted(messages)[1..] == Accepted(messages[1..]);
      }
    }
  }

  lemma {:induction false} ReceiveExtends(s: Framing.Receiver, chunk: bytes, fuel: nat)
    ensures Framing.Receive(s, chunk, fuel).Some? ==> s.handled <= Framing.Receive(s, chunk, fuel).value.handled
    decreases fuel
  {
    if fuel > 0 {
      var t := Framing.TakeHeader(s, chunk);
      if t.size <= |t.buffer| && !t.opening {
        var next := t.(handled := t.handled + [t.buffer[..t.size]], buffer := [], size := 0);
        ReceiveExtends(next, t.buffer[t.size..], fuel - 1);
      }
    }
  }

  lemma {:induction false} ReceiveAllAppend(s: Framing.Receiver, chunks: seq<bytes>, last: bytes, fuel: nat)
    ensures var first := Framing.ReceiveAll(s, chunks, fuel);
            Framing.ReceiveAll(s, chunks + [last], fuel) ==
              if first == None then None else Framing.Receive(first.value, last, fuel)
    decreases chunks
  {
    if chunks == [] {
      assert chunks + [last] == [last];
      var one := [last];
      assert one[1..] == [];
    } else {
      assert (chunks + [last])[1..] == chunks[1..] + [last];
      match Framing.Receive(s, chunks[0], fuel)
      case None =>
      case Some(t) => ReceiveAllAppend(t, chunks[1..], last, fuel);
    }
  }

  lemma {:induction false} CutsHeaderAppend(packets: seq<bytes>, len: nat, chunks: seq<bytes>, last: bytes)
    ensures Framing.CutsHeader(packets, len, chunks + [last]) <==>
            Framing.CutsHeader(packets, len, chunks) ||
            Framing.InsideHeader(packets, len + |Concat(chunks)| + |last|)
    decreases chunks
  {
    if chunks == [] {
      var one := [last];
      assert chunks + one == one && one[1..] == [];
    } else {
      assert (chunks + [last])[1..] == chunks[1..] + [last];
      CutsHeaderAppend(packets, len + |chunks[0]|, chunks[1..], last);
    }
  }

  /** From a part of the wire, a ready socket has handed over a part of the packets, in order and none twice. */
  lemma {:induction false} PartOfTheWire(packets: seq<bytes>, chunks: seq<bytes>) returns (t: Framing.Receiver)
    requires Framing.Sendable(packets) && Concat(chunks) <= Framing.Wire(packets)
    requires (forall i :: 0 <= i < |chunks| ==> chunks[i] != []) && !Framing.CutsHeader(packets, 0, chunks)
    ensures Framing.ReceiveAll(Framing.READY_SOCKET, chunks, |packets| + 1) == Some(t)
    ensures t.handled <= packets
    ensures Concat(chunks) == Framing.Wire(packets) ==> t.handled == packets && t.buffer == []
  {
    var wire, len := Framing.Wire(packets), |Concat(chunks)|;
    var last, fuel := wire[len..], |packets| + 1;
    var all := if last == [] then chunks else chunks + [last];
    assert wire == Concat(chunks) + last;
    assert wire[0..] == wire;
    ConcatAppend(chunks, [last]);
    ConcatOne(last);
    CutsHeaderAppend(packets, 0, chunks, last);
    Framing.CutEverything(packets);
    hide Framing.Receive, Framing.ReceiveAll, Framing.CutsHeader, Framing.Wire, Concat, Framing.Cut;
    Framing.ManyChunks(Framing.READY_SOCKET, packets, 0, all, fuel);
    ReceiveAllAppend(Framing.READY_SOCKET, chunks, last, fuel);
    t := Framing.ReceiveAll(Framing.READY_SOCKET, chunks, fuel).value;
    ReceiveExtends(t, last, fuel);
    assert [] + packets == packets;
  }

  /**
   End to end: whatever was sent and whatever happened at the sender, if no drain
   stalled, then the packets that the receiver has been handed are a prefix of the
   messages that are not too large, and all of them once the sender is idle and
   everything written has arrived. `chunks` is what has arrived so far, cut anywhere
   but inside a header.
   */
  lemma {:induction false} Delivered(messages: seq<bytes>, events: seq<Sender.Event>, chunks: seq<bytes>)
    returns (t: Framing.Receiver)
    requires Sender.Run(Sender.IDLE, events).enqueued == Frames(messages) && !Sender.SomeStall(Sender.IDLE, events)
    requires Concat(chunks) <= Sender.Run(Sender.IDLE, events).wire
    requires (forall i :: 0 <= i < |chunks| ==> chunks[i] != []) && !Framing.CutsHeader(Accepted(messages), 0, chunks)
    ensures Framing.ReceiveAll(Framing.READY_SOCKET, chunks, |messages| + 1) == Some(t) &&
            t.handled <= Accepted(messages)
    ensures !Sender.Run(Sender.IDLE, events).processing && Concat(chunks) == Sender.Run(Sender.IDLE, events).wire ==>
              t.handled == Accepted(messages)
  {
    var s, packets := Sender.Run(Sender.IDLE, events), Accepted(messages);
    Sender.SendsInOrder(events);
    FramesOnTheWire(messages);
    if !s.processing {
      assert s.sent == s.enqueued;
    }
    hide Sender.Run, Concat, Sender.SomeStall;
    t := PartOfTheWire(packets, chunks);
    AcceptedIsFewer(messages);
    Framing.MoreFuelForAll(Framing.READY_SOCKET, chunks, |packets| + 1, |messages| - |packets|);
  }

  lemma {:induction false} AcceptedIsFewer(messages: seq<bytes>)
    ensures |Accepted(messages)| <= |messages|
  {
    if messages != [] {
      AcceptedIsFewer(messages[1..]);
    }
  }
}
