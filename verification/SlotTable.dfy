/**
 The table of slots (`startNewSlot`, `endSlot` and `forceFinishAndDeleteSlot` in
 `src/pos/index.ts`, `create` in `src/pos/slot.ts`).

 A slot in creation first waits for the slot before it, then for the choice of its
 minter. Entry number `k` belongs to the `k`-th call of `startNewSlot`.
 */
module SlotTable {
  import opened Common
  import Slot

  datatype Phase = AwaitPrevious | Selecting | Live(slot: Slot.State)

  /** `previous` is the entry that the table held for the index before when this one was made. */
  datatype Entry = Entry(index: nat, previous: Option<nat>, phase: Phase)

  datatype State = State(entries: seq<Entry>, slots: map<nat, nat>)

  const EMPTY: State := State([], map[])

  datatype Event =
    | StartNew(index: nat)
    | PreviousFinished(k: nat)
    | Selected(k: nat)
    | InSlot(k: nat, event: Slot.Event)
    | ForceFinishAndDelete(k: nat)
    | EndSlot(index: nat)

  /** `index.sub(1)` on a `Uint64`. */
  function Previous(index: nat): nat {
    if index == 0 then TWO_TO_THE_64 - 1 else index - 1
  }

  predicate Finished(s: State, k: nat) {
    k < |s.entries| && s.entries[k].phase.Live? && s.entries[k].phase.slot.finished
  }

  predicate Ready(s: State, k: nat) {
    k < |s.entries| && s.entries[k].phase == AwaitPrevious &&
    (s.entries[k].previous.Some? ==> Finished(s, s.entries[k].previous.value))
  }

  /** The event is one that the slots themselves will bring about. */
  predicate Due(s: State, e: Event) {
    match e
    case PreviousFinished(k) => Ready(s, k)
    case Selected(k) => k < |s.entries| && s.entries[k].phase == Selecting
    case InSlot(k, event) => k < |s.entries| && s.entries[k].phase.Live? && Slot.Due(s.entries[k].phase.slot, event)
    case _ => false
  }

  function WithPhase(s: State, k: nat, phase: Phase): State
    requires k < |s.entries|
  {
    s.(entries := s.entries[k := s.entries[k].(phase := phase)])
  }

  function Step(s: State, e: Event): State {
    match e
    case StartNew(index) =>
      var p := Previous(index);
      var entry := Entry(index, if p in s.slots then Some(s.slots[p]) else None, AwaitPrevious);
      State(s.entries + [entry], s.slots[index := |s.entries|])
    case PreviousFinished(k) => if Ready(s, k) then WithPhase(s, k, Selecting) else s
    case Selected(k) =>
      if k < |s.entries| && s.entries[k].phase == Selecting then WithPhase(s, k, Live(Slot.FRESH)) else s
    case InSlot(k, event) =>
      if k < |s.entries| && s.entries[k].phase.Live? then
        WithPhase(s, k, Live(Slot.Step(s.entries[k].phase.slot, event)))
      else s
    case ForceFinishAndDelete(k) =>
      if k < |s.entries| && s.entries[k].phase.Live? then
        var t := WithPhase(s, k, Live(Slot.Step(s.entries[k].phase.slot, Slot.ForceFinish)));
        t.(slots := t.slots - {s.entries[k].index})
      else s
    case EndSlot(index) => s.(slots := s.slots - {index})
  }

  function Run(s: State, events: seq<Event>): State
    decreases events
  {
    if events == [] then s else Run(Step(s, events[0]), events[1..])
  }

  // ---------------------------------------------------------------- what always holds

  /** The slot before is finished, and unless it was cut short its block is through. */
  ghost predicate Done(s: State, k: nat) {
    Finished(s, k) && (!s.entries[k].phase.slot.cut ==> s.entries[k].phase.slot.stage == Slot.Ended)
  }

  ghost predicate GoodEntry(s: State, k: nat)
    requires k < |s.entries|
  {
    var entry := s.entries[k];
    (entry.phase.Live? ==> Slot.Inv(entry.phase.slot)) &&
    (entry.previous.Some? ==>
      entry.previous.value < k && s.entries[entry.previous.value].index == Previous(entry.index) &&
      (entry.phase != AwaitPrevious ==> Finished(s, entry.previous.value)))
  }

  ghost predicate Inv(s: State) {
    (forall k :: 0 <= k < |s.entries| ==> GoodEntry(s, k)) &&
    (forall index :: index in s.slots ==> s.slots[index] < |s.entries| && s.entries[s.slots[index]].index == index)
  }

  /** Entries keep their index and the slot they wait for, and stay finished. */
  ghost predicate Later(s: State, t: State) {
    |s.entries| <= |t.entries| &&
    (forall k :: 0 <= k < |s.entries| ==>
      t.entries[k].index == s.entries[k].index && t.entries[k].previous == s.entries[k].previous) &&
    (forall k :: 0 <= k < |s.entries| && Finished(s, k) ==> Finished(t, k))
  }

  lemma {:induction false} PhaseKeepsInv(s: State, k: nat, phase: Phase)
    requires Inv(s) && k < |s.entries| && (phase.Live? ==> Slot.Inv(phase.slot))
    requires phase != AwaitPrevious
    requires s.entries[k].phase == AwaitPrevious ==> Ready(s, k)
    requires Finished(s, k) ==> phase.Live? && phase.slot.finished
    ensures Inv(WithPhase(s, k, phase)) && Later(s, WithPhase(s, k, phase))
  {
    hide Slot.Inv;
    var t := WithPhase(s, k, phase);
    forall j | 0 <= j < |t.entries| ensures GoodEntry(t, j) {
      assert GoodEntry(s, j);
    }
  }

  lemma {:induction false} StepKeepsInv(s: State, e: Event)
    requires Inv(s)
    ensures Inv(Step(s, e)) && Later(s, Step(s, e))
  {
    match e
    case StartNew(index) =>
      var t := Step(s, e);
      forall j | 0 <= j < |t.entries| ensures GoodEntry(t, j) {
        if j < |s.entries| { assert GoodEntry(s, j); }
      }
    case PreviousFinished(k) => if Ready(s, k) { PhaseKeepsInv(s, k, Selecting); }
    case Selected(k) =>
      if k < |s.entries| && s.entries[k].phase == Selecting { PhaseKeepsInv(s, k, Live(Slot.FRESH)); }
    case InSlot(k, event) => SlotStepKeepsInv(s, k, event);
    case ForceFinishAndDelete(k) => SlotStepKeepsInv(s, k, Slot.ForceFinish); DeleteKeepsInv(s, e);
    case EndSlot(index) => DeleteKeepsInv(s, e);
  }

  lemma {:induction false} SlotStepKeepsInv(s: State, k: nat, event: Slot.Event)
    requires Inv(s)
    ensures Inv(Step(s, InSlot(k, event))) && Later(s, Step(s, InSlot(k, event)))
  {
    if k < |s.entries| && s.entries[k].phase.Live? {
      assert GoodEntry(s, k);
      var slot := s.entries[k].phase.slot;
      Slot.StepKeepsInv(slot, event);
      PhaseKeepsInv(s, k, Live(Slot.Step(slot, event)));
    }
  }

  lemma {:induction false} DeleteKeepsInv(s: State, e: Event)
    requires e.EndSlot? || (e.ForceFinishAndDelete? && Inv(Step(s, InSlot(e.k, Slot.ForceFinish))) &&
                            Later(s, Step(s, InSlot(e.k, Slot.ForceFinish))))
    requires Inv(s)
    ensures Inv(Step(s, e)) && Later(s, Step(s, e))
  {
    var t := if e.EndSlot? then s else Step(s, InSlot(e.k, Slot.ForceFinish));
    assert Step(s, e).entries == t.entries;
    forall j | 0 <= j < |t.entries| ensures GoodEntry(Step(s, e), j) {
      assert GoodEntry(t, j);
    }
  }

  lemma {:induction false} RunKeepsInv(s: State, events: seq<Event>)
    requires Inv(s)
    ensures Inv(Run(s, events)) && Later(s, Run(s, events))
    decreases events
  {
    if events != [] {
      StepKeepsInv(s, events[0]);
      RunKeepsInv(Step(s, events[0]), events[1..]);
      hide GoodEntry, Step;
    }
  }

  lemma {:induction false} RunAppend(s: State, xs: seq<Event>, ys: seq<Event>)
    ensures Run(s, xs + ys) == Run(Run(s, xs), ys)
    decreases xs
  {
    if xs == [] {
      assert xs + ys == ys;
    } else {
      assert (xs + ys)[1..] == xs[1..] + ys;
      RunAppend(Step(s, xs[0]), xs[1..], ys);
    }
  }

  /**
   Over all interleavings: if the table held a slot for the index before when this
   one was started, then the minter of this one is selected only behind the finish of
   that slot, and, unless that slot was cut short, behind all work on its block.
   */
  lemma {:induction false} SelectedBehindPrevious(before: seq<Event>, index: nat, behind: seq<Event>)
    ensures var s, t := Run(EMPTY, before), Run(EMPTY, before + [StartNew(index)] + behind);
            var k, p := |s.entries|, if index == 0 then 0xFFFF_FFFF_FFFF_FFFF else index - 1;
            k < |t.entries| && t.entries[k].index == index &&
            (p in s.slots && t.entries[k].phase != AwaitPrevious ==>
              s.slots[p] < k && t.entries[s.slots[p]].index == p && Done(t, s.slots[p]))
  {
    var start := [StartNew(index)];
    RunAppend(EMPTY, before + start, behind);
    RunAppend(EMPTY, before, start);
    RunKeepsInv(EMPTY, before);
    var s := Run(EMPTY, before);
    assert Run(s, start) == Step(s, StartNew(index)) by { assert start[1..] == []; }
    StepKeepsInv(s, StartNew(index));
    RunKeepsInv(Step(s, StartNew(index)), behind);
    var t, k := Run(EMPTY, before + start + behind), |s.entries|;
    assert GoodEntry(t, k);
    if Previous(index) in s.slots {
      assert GoodEntry(t, s.slots[Previous(index)]);
    }
  }

  // ---------------------------------------------------------------- every slot is reached

  /** The lowest unfinished entry always has an event due. */
  lemma {:induction false} LowestIsDue(s: State, k: nat) returns (e: Event)
    requires Inv(s) && k < |s.entries| && !Finished(s, k)
    requires forall j :: 0 <= j < k ==> Finished(s, j)
    ensures Due(s, e)
  {
    assert GoodEntry(s, k);
    match s.entries[k].phase
    case AwaitPrevious => e := PreviousFinished(k);
    case Selecting => e := Selected(k);
    case Live(slot) => e := InSlot(k, Slot.Pending(slot));
  }

  /** No deadlock: while some slot is unfinished, some event is due. */
  lemma {:induction false} NoDeadlock(events: seq<Event>, k: nat)
    requires k < |Run(EMPTY, events).entries| && !Finished(Run(EMPTY, events), k)
    ensures exists e :: Due(Run(EMPTY, events), e)
  {
    RunKeepsInv(EMPTY, events);
    var s := Run(EMPTY, events);
    var j := 0;
    while Finished(s, j)
      invariant j <= k && forall i :: 0 <= i < j ==> Finished(s, i)
      decreases k - j
    {
      j := j + 1;
    }
    var e := LowestIsDue(s, j);
  }

  function EntryRank(entry: Entry): nat {
    match entry.phase
    case AwaitPrevious => 13
    case Selecting => 12
    case Live(slot) => Slot.Rank(slot)
  }

  function Rank(entries: seq<Entry>): nat {
    if entries == [] then 0 else Rank(entries[..|entries| - 1]) + EntryRank(entries[|entries| - 1])
  }

  lemma {:induction false} RankUpdate(entries: seq<Entry>, k: nat, entry: Entry)
    requires k < |entries|
    ensures Rank(entries[k := entry]) == Rank(entries) - EntryRank(entries[k]) + EntryRank(entry)
  {
    var n := |entries| - 1;
    if k == n {
      assert entries[k := entry][..n] == entries[..n];
    } else {
      assert entries[k := entry][..n] == entries[..n][k := entry];
      RankUpdate(entries[..n], k, entry);
    }
  }

  /** What an event from outside can add to the work left. */
  function Added(e: Event): nat {
    match e
    case StartNew(_) => 13
    case ForceFinishAndDelete(_) => 1
    case InSlot(_, event) => if event.ForceFinish? then 1 else 0
    case _ => 0
  }

  /** Every event that is due uses up some of a finite amount of work: the slots started are all finished in the end. */
  lemma {:induction false} DueLowersRank(s: State, e: Event)
    requires Inv(s)
    ensures Rank(Step(s, e).entries) + (if Due(s, e) then 1 else 0) <= Rank(s.entries) + Added(e)
  {
    match e
    case StartNew(index) =>
      var t := Step(s, e);
      assert t.entries[..|t.entries| - 1] == s.entries;
    case PreviousFinished(k) => if Ready(s, k) { RankUpdate(s.entries, k, s.entries[k].(phase := Selecting)); }
    case Selected(k) =>
      if Due(s, e) { RankUpdate(s.entries, k, s.entries[k].(phase := Live(Slot.FRESH))); }
    case InSlot(k, event) => SlotLowersRank(s, k, event);
    case ForceFinishAndDelete(k) => SlotLowersRank(s, k, Slot.ForceFinish);
    case EndSlot(_) =>
  }

  lemma {:induction false} SlotLowersRank(s: State, k: nat, event: Slot.Event)
    requires Inv(s)
    ensures Rank(Step(s, InSlot(k, event)).entries) + (if Due(s, InSlot(k, event)) then 1 else 0)
         <= Rank(s.entries) + Added(InSlot(k, event))
  {
    if k < |s.entries| && s.entries[k].phase.Live? {
      assert GoodEntry(s, k);
      var slot := s.entries[k].phase.slot;
      Slot.DueLowersRank(slot, event);
      RankUpdate(s.entries, k, s.entries[k].(phase := Live(Slot.Step(slot, event))));
    }
  }

  function CountDue(s: State, events: seq<Event>): nat
    decreases events
  {
    if events == [] then 0
    else (if Due(s, events[0]) then 1 else 0) + CountDue(Step(s, events[0]), events[1..])
  }

  function SumAdded(events: seq<Event>): nat {
    if events == [] then 0 else Added(events[0]) + SumAdded(events[1..])
  }

  lemma {:induction false} DueIsBounded(s: State, events: seq<Event>)
    requires Inv(s)
    ensures CountDue(s, events) + Rank(Run(s, events).entries) <= Rank(s.entries) + SumAdded(events)
    decreases events
  {
    if events != [] {
      DueLowersRank(s, events[0]);
      StepKeepsInv(s, events[0]);
      DueIsBounded(Step(s, events[0]), events[1..]);
    }
  }

  /** After as many due events as the events from outside have asked for, every slot started is finished. */
  lemma {:induction false} EverySlotIsFinished(events: seq<Event>, k: nat)
    requires k < |Run(EMPTY, events).entries| && CountDue(EMPTY, events) >= SumAdded(events)
    ensures Finished(Run(EMPTY, events), k)
  {
    RunKeepsInv(EMPTY, events);
    DueIsBounded(EMPTY, events);
    var s := Run(EMPTY, events);
    if !Finished(s, k) {
      NoDeadlock(events, k);
      var e :| Due(s, e);
      DueLowersRank(s, e);
    }
  }

  // ---------------------------------------------------------------- the object

  /** The table of `POS`; `entries` holds the slots behind its promises. */
  class Slots {
    var entries: seq<Entry>
    var slots: map<nat, nat>

    ghost function Value(): State
      reads this
    {
      State(entries, slots)
    }

    constructor ()
      ensures Value() == EMPTY && Inv(Value())
    {
      entries, slots := [], map[];
    }

    method GetSlot(index: nat) returns (r: Option<nat>)
      requires Inv(Value())
      ensures r == None <==> index !in slots
      ensures r.Some? ==> r.value == slots[index] < |entries| && entries[r.value].index == index
    {
      r := if index in slots then Some(slots[index]) else None;
    }

    method StartNewSlot(index: nat)
      requires Inv(Value())
      modifies this
      ensures Inv(Value()) && Value() == Step(old(Value()), StartNew(index))
    {
      StepKeepsInv(Value(), StartNew(index));
      var previous := GetSlot(Previous(index));
      slots := slots[index := |entries|];
      entries := entries + [Entry(index, previous, AwaitPrevious)];
    }

    method EndSlotAt(index: nat)
      requires Inv(Value())
      modifies this
      ensures Inv(Value()) && Value() == Step(old(Value()), EndSlot(index))
    {
      StepKeepsInv(Value(), EndSlot(index));
      slots := slots - {index};
    }

    /** `forceFinishAndDeleteSlot` behind its `await`, for the slot that its `getSlot` gave. */
    method ForceFinishAndDeleteSlot(k: nat)
      requires Inv(Value()) && k < |entries| && entries[k].phase.Live?
      modifies this
      ensures Inv(Value()) && Value() == Step(old(Value()), ForceFinishAndDelete(k))
    {
      ghost var before := Value();
      StepKeepsInv(before, ForceFinishAndDelete(k));
      entries := entries[k := entries[k].(phase := Live(Slot.Step(entries[k].phase.slot, Slot.ForceFinish)))];
      slots := slots - {entries[k].index};
      assert Value() == Step(before, ForceFinishAndDelete(k));
    }
  }
}
