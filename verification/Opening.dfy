/**
 What arrives while a socket is opening (`receiveData` and the `state` setter in
 `src/network/socket.ts`): such a socket queues complete packets but does not reset
 its buffer. The exact condition under which every packet is still handed over once
 and in order, for every packet list and every split of the wire into chunks before
 and behind the moment the socket becomes ready.
 */
module Opening {
  import opened Common
  import opened Framing

  const OPENING_SOCKET: Receiver := Receiver(true, [], 0, [], [])

  /** Some chunks while opening, then `READY`, then the other chunks. */
  function Connect(before: seq<bytes>, behind: seq<bytes>, fuel: nat): Option<Receiver> {
    match ReceiveAll(OPENING_SOCKET, before, fuel)
    case None => None
    case Some(t) => ReceiveAll(BecomeReady(t), behind, fuel)
  }

  /**
   The condition on the cuts while opening; `len` bytes of the packets came before.
   Every chunk has to bring the whole header of the next packet. An empty packet is
   then used up; a non-empty one must not be complete before the socket is ready.
   */
  predicate OpeningFits(packets: seq<bytes>, len: nat, before: seq<bytes>)
    decreases before
  {
    before == [] ||
    (packets != [] &&
     var upTo := len + |before[0]|;
     upTo >= 4 &&
     if packets[0] == [] then OpeningFits(packets[1..], upTo - 4, before[1..])
     else upTo < 4 + |packets[0]| && OpeningFits(packets, upTo, before[1..]))
  }

  /**
   When the first packet is not empty: the first chunk brings its whole header, and all of them
   do not complete it.
   */
  lemma {:induction false} OpeningFitsFirst(packets: seq<bytes>, len: nat, before: seq<bytes>)
    requires packets != [] && packets[0] != []
    ensures OpeningFits(packets, len, before) <==>
            before == [] || (len + |before[0]| >= 4 && len + |Concat(before)| < 4 + |packets[0]|)
    decreases before
  {
    if before != [] {
      OpeningFitsFirst(packets, len + |before[0]|, before[1..]);
    }
  }

  // ---------------------------------------------------------------- one chunk while opening

  /**
   The socket has consumed no byte of `packets` but perhaps a header, and buffers the rest of
   the first `len` bytes.
   */
  ghost predicate Buffers(s: Receiver, packets: seq<bytes>, len: nat) {
    len <= |Wire(packets)| &&
    ((s.size == 0 && s.buffer == Wire(packets)[..len]) ||
     (packets != [] && packets[0] != [] && len >= 4 && s.size == |packets[0]| && s.buffer == Wire(packets)[4..len]))
  }

  /** What a chunk that ends after `upTo` bytes adds to the queue, and the packets and bytes still buffered then. */
  function Queued(packets: seq<bytes>, upTo: nat): (seq<bytes>, seq<bytes>, nat) {
    if packets == [] || upTo < 4 then ([[]], packets, upTo)
    else if packets[0] == [] then ([[]], packets[1..], upTo - 4)
    else (if upTo >= 4 + |packets[0]| then [packets[0]] else [], packets, upTo)
  }

  lemma {:induction false} HeaderTaken(s: Receiver, packets: seq<bytes>, len: nat, chunk: bytes)
    requires Sendable(packets) && packets != [] && Buffers(s, packets, len) && len + |chunk| >= 4
    requires len + |chunk| <= |Wire(packets)| && chunk == Wire(packets)[len..len + |chunk|]
    ensures TakeHeader(s, chunk) == s.(size := |packets[0]|, buffer := Wire(packets)[4..len + |chunk|])
  {
    var wire, upTo := Wire(packets), len + |chunk|;
    if s.size == 0 {
      assert s.buffer + chunk == wire[..upTo];
      assert wire[..4] == FromInt(|packets[0]|, 4);
      assert wire[..upTo][..4] == wire[..4] && wire[..upTo][4..] == wire[4..upTo];
      assert MAX_BYTE_SIZE < Pow(256, 4);
      ToIntFromInt(|packets[0]|, 4);
    } else {
      assert s.buffer + chunk == wire[4..upTo];
    }
  }

  lemma {:induction false} NoWire(packets: seq<bytes>)
    ensures packets == [] ==> Wire(packets) == []
  {
  }

  lemma {:induction false} WireOfFirst(packets: seq<bytes>)
    requires packets != []
    ensures |Wire(packets)| >= 4 + |packets[0]| && Wire(packets)[4..4 + |packets[0]|] == packets[0]
    ensures Wire(packets)[4 + |packets[0]|..] == Wire(packets[1..])
  {
  }

  lemma {:induction false} ChunkWhileOpening(s: Receiver, packets: seq<bytes>, len: nat, chunk: bytes, fuel: nat)
    returns (t: Receiver)
    requires Sendable(packets) && s.opening && Buffers(s, packets, len) && chunk != [] && fuel > 0
    requires len + |chunk| <= |Wire(packets)| && chunk == Wire(packets)[len..len + |chunk|]
    ensures Receive(s, chunk, fuel) == Some(t)
    ensures var (added, rest, left) := Queued(packets, len + |chunk|);
            t == s.(size := t.size, buffer := t.buffer, queue := s.queue + added) && Buffers(t, rest, left)
  {
    var upTo, wire := len + |chunk|, Wire(packets);
    t := Receive(s, chunk, fuel).value;
    if upTo < 4 {
      assert s.buffer + chunk == wire[..upTo];
      assert wire[..upTo][..0] == [];
    } else {
      WireOfFirst(packets);
      HeaderTaken(s, packets, len, chunk);
      hide TakeHeader, Wire;
      var body := wire[4..upTo];
      assert s.queue + [] == s.queue;
      if packets[0] == [] {
        assert body[..0] == [];
        assert body == Wire(packets[1..])[..upTo - 4];
      } else if upTo >= 4 + |packets[0]| {
        assert body[..|packets[0]|] == packets[0];
      }
    }
  }

  // ---------------------------------------------------------------- all chunks while opening

  /** What the chunks before `READY` leave buffered and have queued. */
  ghost predicate OpeningOutcome(s: Receiver, packets: seq<bytes>, len: nat, before: seq<bytes>, t: Receiver,
                                 added: seq<bytes>, rest: seq<bytes>, left: nat)
  {
    t == s.(size := t.size, buffer := t.buffer, queue := s.queue + added) && Buffers(t, rest, left) && Sendable(rest) &&
    SameWire(packets, len + |Concat(before)|, rest, left) && Balance(packets, len, before, added, rest, left) &&
    (OpeningFits(packets, len, before) ==> SameCuts(packets, len + |Concat(before)|, rest, left))
  }

  ghost predicate SameWire(packets: seq<bytes>, len: nat, rest: seq<bytes>, left: nat) {
    len <= |Wire(packets)| && left <= |Wire(rest)| && Wire(rest)[left..] == Wire(packets)[len..]
  }

  ghost predicate SameCuts(packets: seq<bytes>, len: nat, rest: seq<bytes>, left: nat) {
    forall behind :: CutsHeader(packets, len, behind) == CutsHeader(rest, left, behind)
  }

  /** If the cuts fit, each packet is queued or still there; if not, some packet is counted twice. */
  ghost predicate Balance(packets: seq<bytes>, len: nat, before: seq<bytes>, added: seq<bytes>, rest: seq<bytes>,
                          left: nat) {
    |rest| <= |packets| && (before == [] ==> added == [] && rest == packets && left == len) &&
    if OpeningFits(packets, len, before) then
      added + rest == packets &&
      (|rest| == |packets| - |before| || (rest != [] && left < 4 + |rest[0]|)) &&
      (before != [] && packets != [] && packets[0] != [] ==> rest == packets && left < 4 + |packets[0]|)
    else |added| + |rest| > |packets|
  }

  lemma {:induction false} ChunksWhileOpening(s: Receiver, packets: seq<bytes>, len: nat, before: seq<bytes>, fuel: nat)
    returns (t: Receiver, added: seq<bytes>, rest: seq<bytes>, left: nat)
    requires Sendable(packets) && s.opening && Buffers(s, packets, len) && fuel > 0
    requires Concat(before) <= Wire(packets)[len..] && forall i :: 0 <= i < |before| ==> before[i] != []
    ensures ReceiveAll(s, before, fuel) == Some(t) && OpeningOutcome(s, packets, len, before, t, added, rest, left)
    decreases before
  {
    if before == [] {
      t, added, rest, left := s, [], packets, len;
      assert s.queue + [] == s.queue && [] + packets == packets;
    } else {
      var chunk := before[0];
      PrefixOneLess(Wire(packets), len, before);
      var mid := ChunkWhileOpening(s, packets, len, chunk, fuel);
      var (first, packets', len') := Queued(packets, len + |chunk|);
      QueuedWire(packets, len + |chunk|);
      NoWire(packets);
      assert packets != [];
      hide Buffers, Wire, Receive, OpeningFits, SameCuts, Balance;
      var more: seq<bytes>;
      t, more, rest, left := ChunksWhileOpening(mid, packets', len', before[1..], fuel);
      added := first + more;
      OutcomeOneMore(s, packets, len, before, mid, t, more, rest, left);
    }
  }

  lemma {:induction false} PrefixOneLess(wire: bytes, len: nat, before: seq<bytes>)
    requires before != [] && len <= |wire| && Concat(before) <= wire[len..]
    ensures var upTo := len + |before[0]|;
            upTo <= |wire| && before[0] == wire[len..upTo] && Concat(before[1..]) <= wire[upTo..]
  {
    var all, chunk := Concat(before), before[0];
    assert all[..|chunk|] == chunk && all[|chunk|..] == Concat(before[1..]);
    assert wire[len..][..|all|] == all && wire[len..][..|chunk|] == chunk;
    assert wire[len + |chunk|..][..|all| - |chunk|] == wire[len..][..|all|][|chunk|..];
  }

  lemma {:induction false} QueuedWire(packets: seq<bytes>, upTo: nat)
    requires Sendable(packets) && upTo <= |Wire(packets)|
    ensures var (first, rest, left) := Queued(packets, upTo);
            Sendable(rest) && left <= |Wire(rest)| && Wire(rest)[left..] == Wire(packets)[upTo..]
  {
    if packets != [] {
      WireOfFirst(packets);
    }
  }

  lemma {:induction false} OutcomeOneMore(s: Receiver, packets: seq<bytes>, len: nat, before: seq<bytes>, mid: Receiver,
                                          t: Receiver, more: seq<bytes>, rest: seq<bytes>, left: nat)
    requires before != [] && packets != [] && len + |Concat(before)| <= |Wire(packets)|
    requires var (first, packets', len') := Queued(packets, len + |before[0]|);
             mid == s.(size := mid.size, buffer := mid.buffer, queue := s.queue + first) &&
             OpeningOutcome(mid, packets', len', before[1..], t, more, rest, left)
    ensures OpeningOutcome(s, packets, len, before, t, Queued(packets, len + |before[0]|).0 + more, rest, left)
  {
    hide Buffers, Sendable, Wire, Balance, OpeningFits, SameCuts, SameWire;
    var upTo, tail := len + |before[0]|, before[1..];
    var (first, packets', len') := Queued(packets, upTo);
    assert len + |Concat(before)| == upTo + |Concat(tail)|;
    BalanceOneMore(packets, len, before, more, rest, left);
    SameWireOneMore(packets, upTo, |Concat(tail)|, rest, left);
    FitsOneLess(packets, len, before);
    if OpeningFits(packets, len, before) {
      SameCutsOneMore(packets, upTo, |Concat(tail)|, rest, left);
    }
    hide Queued, Concat;
    assert s.queue + (first + more) == s.queue + first + more;
    assert t == s.(size := t.size, buffer := t.buffer, queue := s.queue + (first + more));
  }

  lemma {:induction false} SameWireOneMore(packets: seq<bytes>, upTo: nat, more: nat, rest: seq<bytes>, left: nat)
    requires packets != [] && upTo + more <= |Wire(packets)|
    requires var (first, packets', len') := Queued(packets, upTo); SameWire(packets', len' + more, rest, left)
    ensures SameWire(packets, upTo + more, rest, left)
  {
    QueuedSuffix(packets, upTo, more);
    hide Wire;
  }

  lemma {:induction false} SameCutsOneMore(packets: seq<bytes>, upTo: nat, more: nat, rest: seq<bytes>, left: nat)
    requires packets != [] && upTo >= 4
    requires var (first, packets', len') := Queued(packets, upTo); SameCuts(packets', len' + more, rest, left)
    ensures SameCuts(packets, upTo + more, rest, left)
  {
    hide CutsHeader;
    forall behind ensures CutsHeader(packets, upTo + more, behind) == CutsHeader(rest, left, behind) {
      QueuedCuts(packets, upTo, more, behind);
    }
  }

  lemma {:induction false} FitsOneLess(packets: seq<bytes>, len: nat, before: seq<bytes>)
    requires before != [] && packets != []
    ensures var (first, packets', len') := Queued(packets, len + |before[0]|);
            (OpeningFits(packets, len, before) ==>
              len + |before[0]| >= 4 && first + packets' == packets && OpeningFits(packets', len', before[1..])) &&
            |first| + |packets'| >= |packets| &&
            (|first| + |packets'| == |packets| && OpeningFits(packets', len', before[1..]) ==>
              OpeningFits(packets, len, before))
  {
  }

  lemma {:induction false} BalanceOneMore(packets: seq<bytes>, len: nat, before: seq<bytes>, more: seq<bytes>,
                                          rest: seq<bytes>, left: nat)
    requires before != [] && packets != []
    requires var (first, packets', len') := Queued(packets, len + |before[0]|);
             Balance(packets', len', before[1..], more, rest, left)
    ensures Balance(packets, len, before, Queued(packets, len + |before[0]|).0 + more, rest, left)
  {
    var (first, packets', len') := Queued(packets, len + |before[0]|);
    FitsOneLess(packets, len, before);
    assert first + (more + rest) == (first + more) + rest;
  }

  lemma {:induction false} QueuedSuffix(packets: seq<bytes>, upTo: nat, more: nat)
    requires packets != [] && upTo + more <= |Wire(packets)|
    ensures var (first, rest, left) := Queued(packets, upTo);
            left + more <= |Wire(rest)| && Wire(rest)[left + more..] == Wire(packets)[upTo + more..]
  {
    WireOfFirst(packets);
    hide Wire;
    if upTo >= 4 && packets[0] == [] {
      assert Wire(packets)[4..][upTo - 4 + more..] == Wire(packets)[upTo + more..];
    }
  }

  lemma {:induction false} QueuedCuts(packets: seq<bytes>, upTo: nat, more: nat, behind: seq<bytes>)
    requires packets != [] && upTo >= 4
    ensures var (first, rest, left) := Queued(packets, upTo);
            CutsHeader(packets, upTo + more, behind) == CutsHeader(rest, left + more, behind)
  {
    if packets[0] == [] {
      CutsHeaderShift(packets, 4, upTo - 4 + more, behind);
      assert Cut(packets, 4) == (1, 0) by { CutNothing(packets[1..]); }
    }
  }

  // ---------------------------------------------------------------- behind READY

  lemma {:induction false} SameHeader(s: Receiver, packets: seq<bytes>, len: nat, chunk: bytes)
    requires Sendable(packets) && packets != [] && !s.opening && Buffers(s, packets, len)
    requires len + |chunk| <= |Wire(packets)| && chunk == Wire(packets)[len..len + |chunk|]
    ensures TakeHeader(s, chunk) == TakeHeader(s.(buffer := [], size := 0), Wire(packets)[..len + |chunk|])
  {
    var wire, upTo, clean := Wire(packets), len + |chunk|, s.(buffer := [], size := 0);
    if upTo < 4 {
      assert s.buffer + chunk == wire[..upTo] && [] + wire[..upTo] == wire[..upTo];
    } else {
      HeaderTaken(s, packets, len, chunk);
      assert wire[..0] == [] && wire[..upTo] == wire[0..upTo];
      hide TakeHeader;
      HeaderTaken(clean, packets, 0, wire[..upTo]);
    }
  }

  /** A ready socket with buffered bytes takes the next chunk like a fresh one takes both together. */
  lemma {:induction false} BufferedLikeFresh(s: Receiver, packets: seq<bytes>, len: nat, chunk: bytes, fuel: nat)
    requires Sendable(packets) && !s.opening && Buffers(s, packets, len) && chunk != []
    requires len + |chunk| <= |Wire(packets)| && chunk == Wire(packets)[len..len + |chunk|]
    ensures Receive(s, chunk, fuel) == Receive(s.(buffer := [], size := 0), Wire(packets)[..len + |chunk|], fuel)
  {
    NoWire(packets);
    hide Wire, TakeHeader;
    SameHeader(s, packets, len, chunk);
  }

  lemma {:induction false} ChunksBehindReady(s: Receiver, packets: seq<bytes>, len: nat, behind: seq<bytes>, fuel: nat)
    requires Sendable(packets) && !s.opening && Buffers(s, packets, len)
    requires Concat(behind) == Wire(packets)[len..] && forall i :: 0 <= i < |behind| ==> behind[i] != []
    ensures behind == [] ==>
              ReceiveAll(s, behind, fuel) == Some(s) && ((s.buffer == [] && s.size == 0) <==> packets == [])
    ensures behind != [] && CutsHeader(packets, len, behind) ==> ReceiveAll(s, behind, fuel) == None
    ensures behind != [] && !CutsHeader(packets, len, behind) && fuel > |packets| ==>
              ReceiveAll(s, behind, fuel) == Some(s.(handled := s.handled + packets, buffer := [], size := 0))
  {
    if behind == [] {
      if packets != [] { WireOfFirst(packets); }
    } else {
      var chunk, upTo, clean := behind[0], len + |behind[0]|, s.(buffer := [], size := 0);
      FirstChunk(packets, len, behind);
      BufferedLikeFresh(s, packets, len, chunk, fuel);
      hide Wire, Buffers, Receive, Sendable;
      var joined := [Wire(packets)[..upTo]] + behind[1..];
      assert joined[1..] == behind[1..] && joined[0] == Wire(packets)[..upTo];
      assert Concat(joined) == Wire(packets) == Wire(packets)[0..];
      assert Awaits(clean, packets, 0);
      ManyChunks(clean, packets, 0, joined, fuel);
    }
  }

  // ---------------------------------------------------------------- both together

  lemma {:induction false} ConcatSplit(before: seq<bytes>, behind: seq<bytes>, wire: bytes)
    requires Concat(before) + Concat(behind) == wire
    ensures |Concat(before)| <= |wire| && Concat(before) <= wire[0..] && wire[|Concat(before)|..] == Concat(behind)
  {
  }

  /**
   The exact condition for a connection that is opening: every packet is handed over
   exactly once and in order, and nothing stays buffered, if and only if the cuts
   fit while opening, no later chunk ends inside a header, and, should nothing
   come behind `READY`, every chunk brought one empty packet.
   */
  lemma {:induction false} OpeningIff(packets: seq<bytes>, before: seq<bytes>, behind: seq<bytes>)
    requires Sendable(packets) && Concat(before) + Concat(behind) == Wire(packets)
    requires (forall i :: 0 <= i < |before| ==> before[i] != []) && forall i :: 0 <= i < |behind| ==> behind[i] != []
    ensures (exists fuel: nat :: Connect(before, behind, fuel) == Some(READY_SOCKET.(handled := packets))) <==>
            OpeningFits(packets, 0, before) && !CutsHeader(packets, |Concat(before)|, behind) &&
            (behind == [] ==> |before| == |packets|)
  {
    ConcatSplit(before, behind, Wire(packets));
    assert Buffers(OPENING_SOCKET, packets, 0);
    if OpeningFits(packets, 0, before) && !CutsHeader(packets, |Concat(before)|, behind) &&
       (behind == [] ==> |before| == |packets|) {
      Delivers(packets, before, behind);
    }
    forall fuel: nat | Connect(before, behind, fuel) == Some(READY_SOCKET.(handled := packets))
      ensures OpeningFits(packets, 0, before) && !CutsHeader(packets, |Concat(before)|, behind)
      ensures behind == [] ==> |before| == |packets|
    {
      DeliversOnly(packets, before, behind, fuel);
    }
  }

  /** How the socket stands when it becomes ready. */
  lemma {:induction false} AtReady(packets: seq<bytes>, before: seq<bytes>, behind: seq<bytes>, fuel: nat)
    returns (t: Receiver, added: seq<bytes>, rest: seq<bytes>, left: nat)
    requires Sendable(packets) && Concat(before) + Concat(behind) == Wire(packets) && fuel > 0
    requires forall i :: 0 <= i < |before| ==> before[i] != []
    ensures ReceiveAll(OPENING_SOCKET, before, fuel) == Some(t)
    ensures OpeningOutcome(OPENING_SOCKET, packets, 0, before, t, added, rest, left)
    ensures BecomeReady(t) == READY_SOCKET.(handled := added, buffer := t.buffer, size := t.size)
    ensures Sendable(rest) && Buffers(BecomeReady(t), rest, left) && Concat(behind) == Wire(rest)[left..]
  {
    ConcatSplit(before, behind, Wire(packets));
    assert Buffers(OPENING_SOCKET, packets, 0);
    t, added, rest, left := ChunksWhileOpening(OPENING_SOCKET, packets, 0, before, fuel);
    assert [] + added == added;
  }

  lemma {:induction false} Delivers(packets: seq<bytes>, before: seq<bytes>, behind: seq<bytes>)
    requires Sendable(packets) && Concat(before) + Concat(behind) == Wire(packets)
    requires (forall i :: 0 <= i < |before| ==> before[i] != []) && forall i :: 0 <= i < |behind| ==> behind[i] != []
    requires OpeningFits(packets, 0, before) && !CutsHeader(packets, |Concat(before)|, behind)
    requires behind == [] ==> |before| == |packets|
    ensures Connect(before, behind, |packets| + 1) == Some(READY_SOCKET.(handled := packets))
  {
    var t, added, rest, left := AtReady(packets, before, behind, |packets| + 1);
    hide Wire, Buffers, OpeningFits, CutsHeader;
    ChunksBehindReady(BecomeReady(t), rest, left, behind, |packets| + 1);
    if behind == [] {
      NothingBehind(rest, left);
      assert added + [] == added;
    }
  }

  lemma {:induction false} NothingBehind(rest: seq<bytes>, left: nat)
    requires left <= |Wire(rest)| && Wire(rest)[left..] == []
    ensures rest != [] ==> left >= 4 + |rest[0]|
  {
    if rest != [] { WireOfFirst(rest); }
  }

  lemma {:induction false} DeliversOnly(packets: seq<bytes>, before: seq<bytes>, behind: seq<bytes>, fuel: nat)
    requires Sendable(packets) && Concat(before) + Concat(behind) == Wire(packets)
    requires (forall i :: 0 <= i < |before| ==> before[i] != []) && forall i :: 0 <= i < |behind| ==> behind[i] != []
    requires Connect(before, behind, fuel) == Some(READY_SOCKET.(handled := packets))
    ensures OpeningFits(packets, 0, before) && !CutsHeader(packets, |Concat(before)|, behind)
    ensures behind == [] ==> |before| == |packets|
  {
    var enough := |packets| + |before| + |behind| + 1;
    ConnectMoreFuel(before, behind, fuel, enough);
    var t, added, rest, left := AtReady(packets, before, behind, fuel + enough);
    hide Wire, Buffers, OpeningFits, CutsHeader, ReceiveAll;
    ChunksBehindReady(BecomeReady(t), rest, left, behind, fuel + enough);
    if behind == [] {
      NothingBehind(rest, left);
      assert added + [] == added;
      CutsNothing(packets, |Concat(before)|);
    }
  }

  lemma {:induction false} CutsNothing(packets: seq<bytes>, len: nat)
    ensures !CutsHeader(packets, len, [])
  {
  }

  lemma {:induction false} ConnectMoreFuel(before: seq<bytes>, behind: seq<bytes>, fuel: nat, more: nat)
    requires Connect(before, behind, fuel).Some?
    ensures Connect(before, behind, fuel + more) == Connect(before, behind, fuel)
  {
    MoreFuelForAll(OPENING_SOCKET, before, fuel, more);
    MoreFuelForAll(BecomeReady(ReceiveAll(OPENING_SOCKET, before, fuel).value), behind, fuel, more);
  }

  /**
   No packet need be complete: one to three bytes of a header while opening hand over an empty
   packet that was never sent.
   */
  lemma {:induction false} CutHeaderWhileOpening(packet: bytes, k: nat)
    requires packet != [] && |packet| <= MAX_BYTE_SIZE && 1 <= k <= 3
    ensures var wire := Wire([packet]);
            Connect([wire[..k]], [wire[k..]], 2) == Some(READY_SOCKET.(handled := [[], packet]))
  {
    var packets := [packet];
    var wire := Wire(packets);
    var before, behind := [wire[..k]], [wire[k..]];
    WireOfFirst(packets);
    ConcatOne(wire[..k]);
    ConcatOne(wire[k..]);
    var t := ChunkWhileOpening(OPENING_SOCKET, packets, 0, before[0], 2);
    assert before[1..] == [];
    assert ReceiveAll(OPENING_SOCKET, before, 2) == Some(t);
    CutEverything(packets);
    assert behind[1..] == [];
    assert !CutsHeader(packets, k, behind);
    assert BecomeReady(t).handled == [[]] &&
           BecomeReady(t) == READY_SOCKET.(handled := [[]], buffer := t.buffer, size := t.size);
    hide Wire, Receive, ReceiveAll, CutsHeader;
    ChunksBehindReady(BecomeReady(t), packets, k, behind, 2);
    assert [[]] + [packet] == [[], packet];
  }
}
