/**
 Packets on a TCP stream (`src/network/packets.ts`, `receiveData` in
 `src/network/socket.ts`): length-prefixed frames that arrive in arbitrary
 chunks and are put together again.

 `receiveData` calls itself with what follows a complete packet. The model bounds
 that recursion by `fuel`; `None` means that the bound was reached, so a call
 that ends with no fuel at all never returns.
 */
module Framing {
  import opened Common

  const MAX_BYTE_SIZE: nat := 1024 * 1024 * 1024

  /** `LNDataPaket.create(data)?.encodeToHex()`. */
  function Frame(data: bytes): Option<bytes> {
    if |data| > MAX_BYTE_SIZE then None else Some(FromInt(|data|, 4) + data)
  }

  /** A packet of more than 2^30 bytes is refused; any other goes behind its length. */
  lemma {:induction false} FrameSizes(data: bytes)
    ensures Frame(data) == None <==> |data| > 0x4000_0000
    ensures Frame(data).Some? ==>
              |Frame(data).value| == 4 + |data| && Frame(data).value[4..] == data &&
                ToInt(Frame(data).value[..4]) == |data|
  {
    if |data| <= MAX_BYTE_SIZE {
      assert MAX_BYTE_SIZE < Pow(256, 4);
      ToIntFromInt(|data|, 4);
      assert (FromInt(|data|, 4) + data)[..4] == FromInt(|data|, 4);
    }
  }

  predicate Sendable(packets: seq<bytes>) {
    forall i :: 0 <= i < |packets| ==> |packets[i]| <= MAX_BYTE_SIZE
  }

  /** The bytes on the wire. */
  function Wire(packets: seq<bytes>): bytes {
    if packets == [] then [] else FromInt(|packets[0]|, 4) + packets[0] + Wire(packets[1..])
  }

  /**
   The receiving side: `queue` is `recvQueue` while the socket is opening, `handled` what went
   to the message handler.
   */
  datatype Receiver = Receiver(opening: bool, buffer: bytes, size: nat, queue: seq<bytes>, handled: seq<bytes>)

  const READY_SOCKET: Receiver := Receiver(false, [], 0, [], [])

  /** The first `if` of `receiveData`: with no size known and four bytes there, they are the size. */
  function TakeHeader(s: Receiver, chunk: bytes): Receiver {
    var buffer := s.buffer + chunk;
    if s.size == 0 && |buffer| >= 4 then s.(size := ToInt(buffer[..4]), buffer := buffer[4..])
    else s.(buffer := buffer)
  }

  function Receive(s: Receiver, chunk: bytes, fuel: nat): Option<Receiver>
    decreases fuel
  {
    if fuel == 0 then None else
      var t := TakeHeader(s, chunk);
      if t.size > |t.buffer| then Some(t)
      else
        var complete := t.buffer[..t.size];
        if t.opening then Some(t.(queue := t.queue + [complete]))
        else
          var remaining := t.buffer[t.size..];
          var next := t.(handled := t.handled + [complete], buffer := [], size := 0);
          if remaining == [] then Some(next) else Receive(next, remaining, fuel - 1)
  }

  function ReceiveAll(s: Receiver, chunks: seq<bytes>, fuel: nat): Option<Receiver>
    decreases chunks
  {
    if chunks == [] then Some(s) else
      match Receive(s, chunks[0], fuel)
      case None => None
      case Some(t) => ReceiveAll(t, chunks[1..], fuel)
  }

  // ---------------------------------------------------------------- where a stream is cut

  /** Of the first `len` bytes on the wire: how many packets are complete, and how many bytes follow them. */
  function Cut(packets: seq<bytes>, len: nat): (nat, nat) {
    if packets == [] || len < 4 + |packets[0]| then (0, len) else
      var (n, rest) := Cut(packets[1..], len - 4 - |packets[0]|);
      (n + 1, rest)
  }

  /** A cut after `len` bytes falls strictly inside a header. */
  predicate InsideHeader(packets: seq<bytes>, len: nat) {
    1 <= Cut(packets, len).1 <= 3
  }

  /** Some chunk ends strictly inside a header; `len` bytes came before the chunks. */
  predicate CutsHeader(packets: seq<bytes>, len: nat, chunks: seq<bytes>)
    decreases chunks
  {
    chunks != [] &&
    (InsideHeader(packets, len + |chunks[0]|) || CutsHeader(packets, len + |chunks[0]|, chunks[1..]))
  }

  /**
   A ready socket that has seen the first `len` bytes of the packets: nothing, or a header and a
   part of the packet.
   */
  ghost predicate Awaits(s: Receiver, packets: seq<bytes>, len: nat) {
    !s.opening &&
    if len == 0 then s.buffer == [] && s.size == 0
    else packets != [] && 4 <= len < 4 + |packets[0]| && s.size == |packets[0]| && s.buffer == packets[0][..len - 4]
  }

  lemma {:induction false} CutBounds(packets: seq<bytes>, len: nat)
    requires len <= |Wire(packets)|
    ensures Cut(packets, len).0 <= |packets|
    ensures Cut(packets, len).0 == |packets| ==> Cut(packets, len).1 == 0 && len == |Wire(packets)|
    ensures Cut(packets, len).0 < |packets| ==> Cut(packets, len).1 < 4 + |packets[Cut(packets, len).0]|
  {
    if packets != [] && len >= 4 + |packets[0]| {
      CutBounds(packets[1..], len - 4 - |packets[0]|);
    }
  }

  // ---------------------------------------------------------------- one chunk

  /** One to three bytes and no size: the call repeats itself, with the same bytes in the same state. */
  lemma {:induction false} StuckForEver(s: Receiver, chunk: bytes, fuel: nat)
    requires !s.opening && s.buffer == [] && s.size == 0 && 1 <= |chunk| <= 3
    ensures Receive(s, chunk, fuel) == None
    decreases fuel
  {
    if fuel > 0 {
      assert s.buffer + chunk == chunk;
      StuckForEver(s.(handled := s.handled + [[]]), chunk, fuel - 1);
    }
  }

  lemma {:induction false} HeaderRead(s: Receiver, packet: bytes, chunk: bytes)
    requires s.buffer == [] && s.size == 0 && |packet| <= MAX_BYTE_SIZE && |chunk| >= 4
    requires chunk[..4] == FromInt(|packet|, 4)
    ensures TakeHeader(s, chunk) == s.(size := |packet|, buffer := chunk[4..])
  {
    assert s.buffer + chunk == chunk;
    assert MAX_BYTE_SIZE < Pow(256, 4);
    ToIntFromInt(|packet|, 4);
  }

  /** With the current packet's size known, its missing bytes complete it. */
  lemma {:induction false} PacketTaken(s: Receiver, packets: seq<bytes>, len: nat, chunk: bytes)
    requires Sendable(packets) && packets != [] && Awaits(s, packets, len) && chunk != []
    requires len + |chunk| <= |Wire(packets)| && chunk == Wire(packets)[len..len + |chunk|]
    requires len + |chunk| >= 4
    ensures var t := TakeHeader(s, chunk);
            t == s.(size := |packets[0]|, buffer := Wire(packets)[4..len + |chunk|])
  {
    var wire, header := Wire(packets), FromInt(|packets[0]|, 4);
    assert wire[..4] == header;
    if len == 0 {
      assert chunk[..4] == header;
      HeaderRead(s, packets[0], chunk);
      assert chunk[4..] == wire[4..|chunk|];
    } else {
      assert wire[4..len] == packets[0][..len - 4];
      assert s.buffer + chunk == wire[4..len + |chunk|];
    }
  }

  /**
   What a chunk leads to that ends after `upTo` bytes: inside a header the call never returns; elsewhere, with
   enough fuel, exactly the packets completed are handed over, and the socket awaits the rest.
   */
  ghost predicate ChunkOutcome(s: Receiver, packets: seq<bytes>, upTo: nat, fuel: nat, r: Option<Receiver>) {
    if InsideHeader(packets, upTo) then r == None
    else fuel > |packets| ==>
      var (n, rest) := Cut(packets, upTo);
      n <= |packets| && r.Some? && Awaits(r.value, packets[n..], rest) &&
      r.value.handled == s.handled + packets[..n] && r.value.queue == s.queue
  }

  lemma {:induction false} OneChunk(s: Receiver, packets: seq<bytes>, len: nat, chunk: bytes, fuel: nat)
    requires Sendable(packets) && Awaits(s, packets, len) && chunk != []
    requires len + |chunk| <= |Wire(packets)| && chunk == Wire(packets)[len..len + |chunk|]
    ensures ChunkOutcome(s, packets, len + |chunk|, fuel, Receive(s, chunk, fuel))
    decreases |packets|, 1
  {
    var upTo := len + |chunk|;
    hide TakeHeader, Wire, ChunkOutcome, Sendable;
    CutBounds(packets, upTo);
    if upTo < 4 {
      StuckForEver(s, chunk, fuel);
      InsideFirstHeader(s, packets, upTo, fuel);
    } else {
      PacketTaken(s, packets, len, chunk);
      if upTo < 4 + |packets[0]| {
        PacketIncomplete(s, packets, len, chunk, fuel);
      } else if fuel > 0 {
        PacketComplete(s, packets, len, chunk, fuel);
      } else {
        NoFuel(s, packets, upTo);
      }
    }
  }

  lemma {:induction false} NoFuel(s: Receiver, packets: seq<bytes>, upTo: nat)
    ensures ChunkOutcome(s, packets, upTo, 0, None)
  {
  }

  lemma {:induction false} InsideFirstHeader(s: Receiver, packets: seq<bytes>, upTo: nat, fuel: nat)
    requires 1 <= upTo < 4
    ensures ChunkOutcome(s, packets, upTo, fuel, None)
  {
  }

  lemma {:induction false} PacketIncomplete(s: Receiver, packets: seq<bytes>, len: nat, chunk: bytes, fuel: nat)
    requires packets != [] && !s.opening && 4 <= len + |chunk| < 4 + |packets[0]| && len + |chunk| <= |Wire(packets)|
    requires var t := TakeHeader(s, chunk);
             t.size == |packets[0]| && !t.opening && t.handled == s.handled && t.queue == s.queue &&
             t.buffer == Wire(packets)[4..len + |chunk|]
    ensures ChunkOutcome(s, packets, len + |chunk|, fuel, Receive(s, chunk, fuel))
  {
    hide TakeHeader;
    assert Wire(packets)[4..len + |chunk|] == packets[0][..len + |chunk| - 4];
    assert packets[0..] == packets && s.handled + packets[..0] == s.handled;
  }

  lemma {:induction false} HandedOver(s: Receiver, chunk: bytes, fuel: nat, packet: bytes, remaining: bytes)
    requires !s.opening && fuel > 0 && TakeHeader(s, chunk).size == |packet|
    requires TakeHeader(s, chunk) == s.(size := |packet|, buffer := TakeHeader(s, chunk).buffer)
    requires |packet| <= |TakeHeader(s, chunk).buffer|
    requires TakeHeader(s, chunk).buffer[..|packet|] == packet && TakeHeader(s, chunk).buffer[|packet|..] == remaining
    ensures var next := s.(handled := s.handled + [packet], buffer := [], size := 0);
            Receive(s, chunk, fuel) == if remaining == [] then Some(next) else Receive(next, remaining, fuel - 1)
  {
    hide TakeHeader;
  }

  lemma {:induction false} PacketComplete(s: Receiver, packets: seq<bytes>, len: nat, chunk: bytes, fuel: nat)
    requires Sendable(packets) && packets != [] && !s.opening && fuel > 0
    requires 4 + |packets[0]| <= len + |chunk| <= |Wire(packets)|
    requires var t := TakeHeader(s, chunk);
             t == s.(size := |packets[0]|, buffer := Wire(packets)[4..len + |chunk|])
    ensures ChunkOutcome(s, packets, len + |chunk|, fuel, Receive(s, chunk, fuel))
    decreases |packets|, 0
  {
    var first, tail, upTo := packets[0], packets[1..], len + |chunk|;
    var next, left := s.(handled := s.handled + [first], buffer := [], size := 0), upTo - 4 - |first|;
    WireSplit(packets, upTo);
    SendableTail(packets);
    NothingSeen(next, tail);
    var remaining := Wire(tail)[0..left];
    HandedOver(s, chunk, fuel, first, remaining);
    hide Awaits, TakeHeader, Wire, ChunkOutcome, Sendable, Receive;
    if left == 0 {
      NothingMore(next, tail, fuel - 1);
      OutcomeShift(s, next, packets, upTo, fuel, Some(next));
    } else {
      OneChunk(next, tail, 0, remaining, fuel - 1);
      OutcomeShift(s, next, packets, upTo, fuel, Receive(next, remaining, fuel - 1));
    }
  }

  lemma {:induction false} OutcomeShift(s: Receiver, next: Receiver, packets: seq<bytes>, upTo: nat, fuel: nat,
                                        r: Option<Receiver>)
    requires packets != [] && upTo >= 4 + |packets[0]| && fuel > 0
    requires next.handled == s.handled + [packets[0]] && next.queue == s.queue
    requires ChunkOutcome(next, packets[1..], upTo - 4 - |packets[0]|, fuel - 1, r)
    ensures ChunkOutcome(s, packets, upTo, fuel, r)
  {
    hide Awaits;
    var (n, rest) := Cut(packets[1..], upTo - 4 - |packets[0]|);
    if n <= |packets[1..]| {
      assert packets[n + 1..] == packets[1..][n..] && packets[..n + 1] == [packets[0]] + packets[1..][..n];
      assert s.handled + packets[..n + 1] == next.handled + packets[1..][..n];
    }
  }

  lemma {:induction false} SendableTail(packets: seq<bytes>)
    requires Sendable(packets) && packets != []
    ensures Sendable(packets[1..])
  {
  }

  lemma {:induction false} NothingSeen(s: Receiver, packets: seq<bytes>)
    requires !s.opening && s.buffer == [] && s.size == 0
    ensures Awaits(s, packets, 0)
  {
  }

  lemma {:induction false} WireSplit(packets: seq<bytes>, upTo: nat)
    requires packets != [] && 4 + |packets[0]| <= upTo <= |Wire(packets)|
    ensures var body, left := Wire(packets)[4..upTo], upTo - 4 - |packets[0]|;
            left <= |Wire(packets[1..])| && body[..|packets[0]|] == packets[0] &&
            body[|packets[0]|..] == Wire(packets[1..])[0..left]
  {
    var wire := Wire(packets);
    assert wire[4..4 + |packets[0]|] == packets[0] && wire[4 + |packets[0]|..] == Wire(packets[1..]);
  }

  lemma {:induction false} NothingMore(s: Receiver, packets: seq<bytes>, fuel: nat)
    requires Awaits(s, packets, 0)
    ensures ChunkOutcome(s, packets, 0, fuel, Some(s))
  {
    CutNothing(packets);
    assert s.handled + packets[..0] == s.handled && packets[0..] == packets;
  }

  lemma {:induction false} CutNothing(packets: seq<bytes>)
    ensures Cut(packets, 0) == (0, 0)
  {
  }

  // ---------------------------------------------------------------- whole streams

  /** Packets that are complete already do not matter for later cuts. */
  lemma {:induction false} CutShift(packets: seq<bytes>, a: nat, more: nat)
    ensures var (n, rest) := Cut(packets, a);
            n <= |packets| &&
            Cut(packets, a + more) == (n + Cut(packets[n..], rest + more).0, Cut(packets[n..], rest + more).1)
  {
    if packets == [] || a < 4 + |packets[0]| {
      assert packets[0..] == packets;
    } else {
      CutShift(packets[1..], a - 4 - |packets[0]|, more);
      var (n, _) := Cut(packets[1..], a - 4 - |packets[0]|);
      assert packets[n + 1..] == packets[1..][n..];
    }
  }

  lemma {:induction false} CutsHeaderShift(packets: seq<bytes>, a: nat, more: nat, chunks: seq<bytes>)
    ensures var (n, rest) := Cut(packets, a);
            n <= |packets| && CutsHeader(packets, a + more, chunks) == CutsHeader(packets[n..], rest + more, chunks)
    decreases chunks
  {
    CutShift(packets, a, more);
    if chunks != [] {
      CutShift(packets, a, more + |chunks[0]|);
      CutsHeaderShift(packets, a, more + |chunks[0]|, chunks[1..]);
    }
  }

  lemma {:induction false} WireShift(packets: seq<bytes>, a: nat)
    requires a <= |Wire(packets)|
    ensures var (n, rest) := Cut(packets, a);
            n <= |packets| && rest <= |Wire(packets[n..])| && Wire(packets)[a..] == Wire(packets[n..])[rest..]
  {
    if packets == [] || a < 4 + |packets[0]| {
      assert packets[0..] == packets;
    } else {
      var left := a - 4 - |packets[0]|;
      WireShift(packets[1..], left);
      assert Wire(packets)[a..] == Wire(packets[1..])[left..];
      var (n, _) := Cut(packets[1..], left);
      assert packets[n + 1..] == packets[1..][n..];
    }
  }

  /** The packets still to come, from any moment on. */
  lemma {:induction false} ManyChunks(s: Receiver, packets: seq<bytes>, len: nat, chunks: seq<bytes>, fuel: nat)
    requires Sendable(packets) && Awaits(s, packets, len) && len <= |Wire(packets)|
    requires Concat(chunks) == Wire(packets)[len..] && forall i :: 0 <= i < |chunks| ==> chunks[i] != []
    ensures CutsHeader(packets, len, chunks) ==> ReceiveAll(s, chunks, fuel) == None
    ensures !CutsHeader(packets, len, chunks) && fuel > |packets| ==>
              ReceiveAll(s, chunks, fuel) == Some(s.(handled := s.handled + packets, buffer := [], size := 0))
    decreases chunks, 0
  {
    if chunks == [] {
      NothingLeft(s, packets, len);
    } else {
      var chunk, upTo := chunks[0], len + |chunks[0]|;
      FirstChunk(packets, len, chunks);
      OneChunk(s, packets, len, chunk, fuel);
      hide Awaits, InsideHeader, Wire, Receive;
      if !InsideHeader(packets, upTo) && Receive(s, chunk, fuel).Some? {
        OneChunk(s, packets, len, chunk, fuel + |packets| + 1);
        MoreFuel(s, chunk, fuel, |packets| + 1);
        RestOfChunks(s, packets, upTo, chunks[1..], fuel, Receive(s, chunk, fuel).value);
      }
    }
  }

  lemma {:induction false} RestOfChunks(s: Receiver, packets: seq<bytes>, upTo: nat, chunks: seq<bytes>, fuel: nat,
                                        t: Receiver)
    requires Sendable(packets) && upTo <= |Wire(packets)| && Concat(chunks) == Wire(packets)[upTo..]
    requires forall i :: 0 <= i < |chunks| ==> chunks[i] != []
    requires !InsideHeader(packets, upTo) && ChunkOutcome(s, packets, upTo, |packets| + 1, Some(t))
    ensures CutsHeader(packets, upTo, chunks) ==> ReceiveAll(t, chunks, fuel) == None
    ensures !CutsHeader(packets, upTo, chunks) && fuel > |packets| ==>
              ReceiveAll(t, chunks, fuel) == Some(t.(handled := s.handled + packets, buffer := [], size := 0))
    ensures t.queue == s.queue && t.opening == false
    decreases chunks, 1
  {
    var n, rest := AfterOutcome(s, packets, upTo, chunks, t);
    hide Awaits, InsideHeader, Wire, Concat, ReceiveAll, CutsHeader, ChunkOutcome, Sendable;
    ManyChunks(t, packets[n..], rest, chunks, fuel);
    Rejoined(s.handled, packets, n);
  }

  lemma {:induction false} Rejoined(handled: seq<bytes>, packets: seq<bytes>, n: nat)
    requires n <= |packets|
    ensures handled + packets[..n] + packets[n..] == handled + packets && |packets[n..]| <= |packets|
  {
    assert packets[..n] + packets[n..] == packets;
  }

  lemma {:induction false} AfterOutcome(s: Receiver, packets: seq<bytes>, upTo: nat, chunks: seq<bytes>, t: Receiver)
    returns (n: nat, rest: nat)
    requires Sendable(packets) && upTo <= |Wire(packets)| && Concat(chunks) == Wire(packets)[upTo..]
    requires !InsideHeader(packets, upTo) && ChunkOutcome(s, packets, upTo, |packets| + 1, Some(t))
    ensures n <= |packets| && Sendable(packets[n..]) && rest <= |Wire(packets[n..])|
    ensures Awaits(t, packets[n..], rest) && t.handled == s.handled + packets[..n] && t.queue == s.queue && !t.opening
    ensures Concat(chunks) == Wire(packets[n..])[rest..]
    ensures CutsHeader(packets, upTo, chunks) == CutsHeader(packets[n..], rest, chunks)
  {
    hide CutsHeader, Concat, InsideHeader, Wire;
    n, rest := Cut(packets, upTo).0, Cut(packets, upTo).1;
    WireShift(packets, upTo);
    CutsHeaderShift(packets, upTo, 0, chunks);
  }

  lemma {:induction false} NothingLeft(s: Receiver, packets: seq<bytes>, len: nat)
    requires Awaits(s, packets, len) && len <= |Wire(packets)| && Wire(packets)[len..] == []
    ensures packets == [] && s == s.(handled := s.handled + packets, buffer := [], size := 0)
  {
    assert s.handled + [] == s.handled;
  }

  lemma {:induction false} FirstChunk(packets: seq<bytes>, len: nat, chunks: seq<bytes>)
    requires chunks != [] && len <= |Wire(packets)| && Concat(chunks) == Wire(packets)[len..]
    ensures len + |chunks[0]| <= |Wire(packets)| && chunks[0] == Wire(packets)[len..len + |chunks[0]|]
    ensures Concat(chunks[1..]) == Wire(packets)[len + |chunks[0]|..]
  {
    assert Concat(chunks)[..|chunks[0]|] == chunks[0];
    assert Concat(chunks)[|chunks[0]|..] == Concat(chunks[1..]);
  }

  /** A call that ends does not depend on how much fuel was left. */
  lemma {:induction false} MoreFuel(s: Receiver, chunk: bytes, fuel: nat, more: nat)
    requires Receive(s, chunk, fuel).Some?
    ensures Receive(s, chunk, fuel + more) == Receive(s, chunk, fuel)
    decreases fuel
  {
    var t := TakeHeader(s, chunk);
    if t.size <= |t.buffer| && !t.opening && t.buffer[t.size..] != [] {
      var next := t.(handled := t.handled + [t.buffer[..t.size]], buffer := [], size := 0);
      MoreFuel(next, t.buffer[t.size..], fuel - 1, more);
    }
  }

  lemma {:induction false} MoreFuelForAll(s: Receiver, chunks: seq<bytes>, fuel: nat, more: nat)
    requires ReceiveAll(s, chunks, fuel).Some?
    ensures ReceiveAll(s, chunks, fuel + more) == ReceiveAll(s, chunks, fuel)
    decreases chunks
  {
    if chunks != [] {
      MoreFuel(s, chunks[0], fuel, more);
      MoreFuelForAll(Receive(s, chunks[0], fuel).value, chunks[1..], fuel, more);
    }
  }

  /**
   Chunking independence, with its exact condition. However the wire is split into
   non-empty chunks, a ready socket takes them all in if and only if no chunk ends
   strictly inside a header; it has then handed over exactly the packets, in order.
   */
  lemma {:induction false} ChunkingIndependence(packets: seq<bytes>, chunks: seq<bytes>)
    requires Sendable(packets) && Concat(chunks) == Wire(packets) && forall i :: 0 <= i < |chunks| ==> chunks[i] != []
    ensures (exists fuel: nat :: ReceiveAll(READY_SOCKET, chunks, fuel).Some?) <==> !CutsHeader(packets, 0, chunks)
    ensures forall fuel: nat :: ReceiveAll(READY_SOCKET, chunks, fuel).Some? ==>
              ReceiveAll(READY_SOCKET, chunks, fuel) == Some(READY_SOCKET.(handled := packets))
  {
    assert Wire(packets)[0..] == Wire(packets);
    assert [] + packets == packets;
    ManyChunks(READY_SOCKET, packets, 0, chunks, |packets| + 1);
    forall fuel: nat | ReceiveAll(READY_SOCKET, chunks, fuel).Some?
      ensures !CutsHeader(packets, 0, chunks)
      ensures ReceiveAll(READY_SOCKET, chunks, fuel) == Some(READY_SOCKET.(handled := packets))
    {
      ManyChunks(READY_SOCKET, packets, 0, chunks, fuel);
      MoreFuelForAll(READY_SOCKET, chunks, fuel, |packets| + 1);
      ManyChunks(READY_SOCKET, packets, 0, chunks, fuel + |packets| + 1);
    }
  }

  // ---------------------------------------------------------------- while the socket is opening

  function Copies(packet: bytes, n: nat): seq<bytes> {
    if n == 0 then [] else Copies(packet, n - 1) + [packet]
  }

  /** The `READY` setter: what was queued is handled. */
  function BecomeReady(s: Receiver): Receiver {
    if s.opening then s.(opening := false, handled := s.handled + s.queue, queue := []) else s
  }

  /**
   An opening socket keeps its first complete packet in the buffer: every further
   chunk queues that packet again, and no later packet is ever queued.
   */
  lemma {:induction false} OpeningRequeues(s: Receiver, packet: bytes, extra: bytes, chunks: seq<bytes>, fuel: nat)
    requires s.opening && packet != [] && s.size == |packet| && s.buffer == packet + extra && fuel > 0
    ensures ReceiveAll(s, chunks, fuel) ==
            Some(s.(buffer := s.buffer + Concat(chunks), queue := s.queue + Copies(packet, |chunks|)))
    decreases |chunks|
  {
    if chunks == [] {
      assert s.buffer + [] == s.buffer && s.queue + [] == s.queue;
    } else {
      var t := s.(buffer := s.buffer + chunks[0], queue := s.queue + [packet]);
      assert s.buffer + chunks[0] == packet + (extra + chunks[0]);
      assert (s.buffer + chunks[0])[..|packet|] == packet;
      assert Receive(s, chunks[0], fuel) == Some(t);
      OpeningRequeues(t, packet, extra + chunks[0], chunks[1..], fuel);
      assert s.buffer + chunks[0] + Concat(chunks[1..]) == s.buffer + Concat(chunks);
      CopiesCons(packet, |chunks|);
      assert s.queue + [packet] + Copies(packet, |chunks| - 1) == s.queue + ([packet] + Copies(packet, |chunks| - 1));
    }
  }

  lemma {:induction false} CopiesCons(packet: bytes, n: nat)
    requires n > 0
    ensures Copies(packet, n) == [packet] + Copies(packet, n - 1)
  {
    if n > 1 {
      CopiesCons(packet, n - 1);
      assert [packet] + Copies(packet, n - 2) + [packet] == [packet] + (Copies(packet, n - 2) + [packet]);
    }
  }

  /**
   When a packet was completed while the socket was opening, it is handed over once
   for each chunk from then on, and once more with the first chunk after the socket
   is ready; only after that do the following packets come.
   */
  lemma {:induction false} OpeningRepeats(packet: bytes, extra: bytes, chunks: seq<bytes>, last: bytes,
                                          rest: seq<bytes>, fuel: nat)
    requires packet != [] && Sendable(rest) && extra + Concat(chunks) + last == Wire(rest) && fuel > |rest| + 1
    ensures var first := Receiver(true, packet + extra, |packet|, [packet], []);
            var afterwards := ReceiveAll(first, chunks, fuel);
            afterwards.Some? &&
            Receive(BecomeReady(afterwards.value), last, fuel) ==
              Some(READY_SOCKET.(handled := Copies(packet, |chunks| + 2) + rest))
  {
    var first := Receiver(true, packet + extra, |packet|, [packet], []);
    OpeningRequeues(first, packet, extra, chunks, fuel);
    var afterwards := ReceiveAll(first, chunks, fuel).value;
    CopiesCons(packet, |chunks| + 1);
    var ready := BecomeReady(afterwards);
    CopiesSnoc(packet, |chunks| + 1);
    hide Receive, ReceiveAll, Copies, Wire, Concat;
    Regrouped(packet, extra, Concat(chunks), last);
    assert ready.handled == Copies(packet, |chunks| + 1) by { Prepended(Copies(packet, |chunks| + 1)); }
    HeldPacketFirst(ready, packet, last, rest, fuel);
  }

  lemma {:induction false} Regrouped(a: bytes, b: bytes, c: bytes, d: bytes)
    ensures a + b + c + d == a + (b + c + d)
  {
  }

  lemma {:induction false} Prepended(packets: seq<bytes>)
    ensures [] + packets == packets
  {
  }

  lemma {:induction false} CopiesSnoc(packet: bytes, n: nat)
    ensures Copies(packet, n + 1) == Copies(packet, n) + [packet]
  {
  }

  /** A ready socket that still holds a complete packet hands it over with the next chunk, and then what follows. */
  lemma {:induction false} HeldPacketFirst(s: Receiver, packet: bytes, chunk: bytes, rest: seq<bytes>, fuel: nat)
    requires !s.opening && packet != [] && s.size == |packet| && Sendable(rest) && fuel > |rest| + 1
    requires s.buffer + chunk == packet + Wire(rest)
    ensures Receive(s, chunk, fuel) == Some(s.(handled := s.handled + [packet] + rest, buffer := [], size := 0))
  {
    var all := s.buffer + chunk;
    assert all[..|packet|] == packet && all[|packet|..] == Wire(rest);
    var next := s.(handled := s.handled + [packet], buffer := [], size := 0);
    if rest == [] {
      assert next.handled + [] == next.handled;
    } else {
      assert Wire(rest)[0..|Wire(rest)|] == Wire(rest);
      OneChunk(next, rest, 0, Wire(rest), fuel - 1);
      CutEverything(rest);
      assert rest[..|rest|] == rest && rest[|rest|..] == [];
    }
  }

  lemma {:induction false} CutEverything(packets: seq<bytes>)
    ensures Cut(packets, |Wire(packets)|) == (|packets|, 0)
  {
    if packets != [] {
      CutEverything(packets[1..]);
    }
  }

  // ---------------------------------------------------------------- the socket

  /** The receiving fields of `PeerSocket`; `handled` records the calls of `handleIncomingMsg`. */
  class PeerSocket {
    var opening: bool
    var recvBuffer: bytes
    var recvBufferPackageSize: nat
    var recvQueue: seq<bytes>
    var handled: seq<bytes>

    ghost function State(): Receiver
      reads this
    {
      Receiver(opening, recvBuffer, recvBufferPackageSize, recvQueue, handled)
    }

    constructor ()
      ensures State() == Receiver(true, [], 0, [], [])
    {
      opening, recvBuffer, recvBufferPackageSize, recvQueue, handled := true, [], 0, [], [];
    }

    method SetReady()
      modifies this
      ensures State() == BecomeReady(old(State()))
    {
      if opening {
        var i := 0;
        while i < |recvQueue|
          invariant i <= |recvQueue| && recvQueue == old(recvQueue) && handled == old(handled) + recvQueue[..i]
          invariant recvBuffer == old(recvBuffer) && recvBufferPackageSize == old(recvBufferPackageSize)
        {
          handled := handled + [recvQueue[i]];
          i := i + 1;
        }
        assert recvQueue[..i] == recvQueue;
        recvQueue := [];
        opening := false;
      }
    }

    /** `receiveData`; the result says whether the call ended within `fuel` recursive calls. */
    method ReceiveData(rawChunk: bytes, fuel: nat) returns (ended: bool)
      modifies this
      ensures ended == Receive(old(State()), rawChunk, fuel).Some?
      ensures ended ==> State() == Receive(old(State()), rawChunk, fuel).value
      decreases fuel
    {
      if fuel == 0 {
        return false;
      }
      recvBuffer := recvBuffer + rawChunk;
      if recvBufferPackageSize == 0 && |recvBuffer| >= 4 {
        recvBufferPackageSize := ToInt(recvBuffer[..4]);
        recvBuffer := recvBuffer[4..];
      }
      if recvBufferPackageSize <= |recvBuffer| {
        var completeData := recvBuffer[..recvBufferPackageSize];
        if opening {
          recvQueue := recvQueue + [completeData];
          return true;
        }
        handled := handled + [completeData];
        var remaining := recvBuffer[recvBufferPackageSize..];
        recvBuffer := [];
        recvBufferPackageSize := 0;
        if remaining != [] {
          ended := ReceiveData(remaining, fuel - 1);
          return;
        }
      }
      ended := true;
    }
  }
}
