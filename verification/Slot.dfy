/**
 The life of one slot (`src/pos/slot.ts`, `src/utils/executionCheckpoint.ts`) and
 the table of slots (`src/pos/index.ts`).

 Every `await` and every timer is an event; between two events nothing else runs.
 A checkpoint with code resolves one step behind its `pass`, as its code is awaited.
 */
module Slot {
  import opened Common
  import opened Models

  /** Where `onSlotStart` is: behind its timer, in `createNewBlock`, behind the own `processBlock`, returned. */
  datatype Start = Scheduled | Minting | Minted | Begun

  /** Where the call of `processBlock` that took its block is. */
  datatype Stage = Idle | AwaitQueue | AwaitStart | Verifying | Executing | Ended

  /**
   `passes` counts the calls of `slot_finished.pass` still to resolve; `executed` records the calls of `executeBlock`
   and `cut` whether the slot was finished by its timeout or by force.
   */
  datatype State = State(
    block: Option<Block>,
    stage: Stage,
    start: Start,
    started: bool,
    timeout: bool,
    passes: nat,
    finished: bool,
    executed: seq<Block>,
    cut: bool)

  const FRESH: State := State(None, Idle, Scheduled, false, true, 0, false, [], false)

  datatype Event =
    | StartTimer(own: bool)
    | OwnBlock(block: Block)
    | MintReturns
    | BlockTimeout
    | Receive(block: Block)
    | QueueEmpty
    | StartPassed
    | Verified(valid: bool)
    | Executed
    | ForceFinish
    | FinishResolves

  /** `slot_finished.pass()` up to its `await`. */
  function Pass(s: State): State {
    s.(started := true, timeout := false, passes := s.passes + 1)
  }

  /** `processBlock` up to its first `await`. */
  function Take(s: State, block: Block): State {
    if s.finished then s
    else if s.block.Some? then s.(timeout := false)
    else s.(timeout := false, block := Some(block), stage := AwaitQueue)
  }

  /** The event is one that the slot itself will bring about. */
  predicate Due(s: State, e: Event) {
    match e
    case StartTimer(_) => s.start == Scheduled
    case OwnBlock(_) => s.start == Minting
    case MintReturns => s.start == Minted
    case BlockTimeout => s.timeout
    case QueueEmpty => s.stage == AwaitQueue
    case StartPassed => s.stage == AwaitStart && s.started
    case Verified(_) => s.stage == Verifying
    case Executed => s.stage == Executing
    case FinishResolves => s.passes > 0
    case Receive(_) => false
    case ForceFinish => false
  }

  function Step(s: State, e: Event): State {
    if e.Receive? then Take(s, e.block)
    else if e.ForceFinish? then Pass(s).(cut := true)
    else if Due(s, e) then DueStep(s, e)
    else s
  }

  function DueStep(s: State, e: Event): State
    requires Due(s, e)
  {
    match e
    case StartTimer(own) =>
      if s.finished then s.(start := Begun)
      else if own then s.(start := Minting)
      else s.(start := Begun, started := true)
    case OwnBlock(block) => Take(s, block).(start := Minted)
    case MintReturns => s.(start := Begun, started := true)
    case BlockTimeout => if s.finished then s.(timeout := false) else Pass(s).(cut := true)
    case QueueEmpty => s.(stage := AwaitStart)
    case StartPassed => s.(stage := Verifying)
    case Verified(valid) =>
      if valid && s.block.Some? then s.(stage := Executing, executed := s.executed + [s.block.value])
      else Pass(s).(stage := Ended)
    case Executed => Pass(s).(stage := Ended)
    case FinishResolves => s.(passes := s.passes - 1, finished := true)
  }

  function Run(s: State, events: seq<Event>): State
    decreases events
  {
    if events == [] then s else Run(Step(s, events[0]), events[1..])
  }

  // ---------------------------------------------------------------- what always holds

  predicate Running(s: State) {
    s.stage != Idle && s.stage != Ended
  }

  ghost predicate Inv(s: State) {
    (s.stage == Idle <==> s.block == None) &&
    (s.executed == [] ||
     (s.block.Some? && s.executed == [s.block.value] && (s.stage == Executing || s.stage == Ended))) &&
    (s.stage == Verifying || s.stage == Executing || s.finished || s.passes > 0 ==> s.started) &&
    (s.timeout ==> s.block == None && s.passes == 0 && !s.finished) &&
    (s.start == Begun ==> s.started) &&
    (s.finished || s.passes > 0 || s.timeout || Running(s)) &&
    ((s.finished || s.passes > 0) && !s.cut ==> s.stage == Ended)
  }

  /** What no event takes back, and what none does once the slot is finished. */
  ghost predicate Later(s: State, t: State) {
    (s.block.Some? ==> t.block == s.block) && (s.finished ==> t.finished && t.block == s.block) &&
    (s.started ==> t.started) && s.executed <= t.executed && (s.cut ==> t.cut)
  }

  lemma {:induction false} StepKeepsInv(s: State, e: Event)
    requires Inv(s)
    ensures Inv(Step(s, e)) && Later(s, Step(s, e))
  {
  }

  lemma {:induction false} RunKeepsInv(s: State, events: seq<Event>)
    requires Inv(s)
    ensures Inv(Run(s, events)) && Later(s, Run(s, events))
    decreases events
  {
    if events != [] {
      StepKeepsInv(s, events[0]);
      RunKeepsInv(Step(s, events[0]), events[1..]);
    }
  }

  lemma {:induction false} RunAppend(s: State, xs: seq<Event>, ys: seq<Event>)
    ensures Run(s, xs + ys) == Run(Run(s, xs), ys)
    decreases xs
  {
    if xs == [] {
      assert xs + ys == ys;
    } else {
      assert (xs + ys)[1..] == xs[1..] + ys;
      RunAppend(Step(s, xs[0]), xs[1..], ys);
    }
  }

  /**
   Over all interleavings: at most one block is executed, it is the one taken, and
   never before the slot has started; once the slot is finished no block is taken.
   */
  lemma {:induction false} OneBlockPerSlot(events: seq<Event>, more: seq<Event>)
    ensures var s, t := Run(FRESH, events), Run(FRESH, events + more);
            |t.executed| <= 1 && (t.executed != [] ==> t.started && t.block == Some(t.executed[0])) &&
            (s.block.Some? ==> t.block == s.block) && (s.finished ==> t.finished && t.block == s.block)
  {
    RunAppend(FRESH, events, more);
    RunKeepsInv(FRESH, events);
    RunKeepsInv(Run(FRESH, events), more);
  }

  /** The start of an execution finds the slot started. */
  lemma {:induction false} ExecutesAfterStart(events: seq<Event>, e: Event)
    ensures var s := Run(FRESH, events);
            Step(s, e).executed != s.executed ==>
              s.started && s.executed == [] && s.block.Some? && Step(s, e).executed == [s.block.value]
  {
    RunKeepsInv(FRESH, events);
  }

  /** A finish that is neither a timeout nor forced comes behind the whole work on the slot's block. */
  lemma {:induction false} FinishIsLast(events: seq<Event>)
    requires forall i :: 0 <= i < |events| ==> !events[i].BlockTimeout? && !events[i].ForceFinish?
    ensures var s := Run(FRESH, events); s.finished ==> s.stage == Ended && !s.cut
  {
    RunKeepsInv(FRESH, events);
    NeverCut(FRESH, events);
  }

  lemma {:induction false} NeverCut(s: State, events: seq<Event>)
    requires !s.cut && forall i :: 0 <= i < |events| ==> !events[i].BlockTimeout? && !events[i].ForceFinish?
    ensures !Run(s, events).cut
    decreases events
  {
    if events != [] {
      NeverCut(Step(s, events[0]), events[1..]);
    }
  }

  // ---------------------------------------------------------------- only verified blocks are executed

  /** Event number `i` is due in its place in the run and is this one. */
  predicate Happens(events: seq<Event>, i: nat, e: Event)
    requires i < |events|
  {
    events[i] == e && Due(Run(FRESH, events[..i]), e)
  }

  lemma {:induction false} LastEvent(events: seq<Event>)
    requires events != []
    ensures var n := |events| - 1; Run(FRESH, events) == Step(Run(FRESH, events[..n]), events[n])
  {
    var n := |events| - 1;
    var one := [events[n]];
    assert events == events[..n] + one && one[1..] == [];
    RunAppend(FRESH, events[..n], one);
  }

  lemma {:induction false} HappensInFront(events: seq<Event>, e: Event)
    requires events != []
    ensures var n := |events| - 1;
            (exists i :: 0 <= i < |events| && Happens(events, i, e)) <==>
            Happens(events, n, e) || exists i :: 0 <= i < n && Happens(events[..n], i, e)
  {
    hide Run, Due;
    var n := |events| - 1;
    var front := events[..n];
    forall i | 0 <= i < n ensures front[..i] == events[..i] { }
    if i :| 0 <= i < n && Happens(front, i, e) {
      assert Happens(events, i, e);
    }
    if i :| 0 <= i < |events| && Happens(events, i, e) && i < n {
      assert Happens(front, i, e);
    }
  }

  /**
   Over all interleavings: the slot's block is executed if and only if its verification has
   returned and was successful.
   */
  lemma {:induction false} ExecutesOnlyVerified(events: seq<Event>)
    ensures Run(FRESH, events).executed != [] <==> exists i :: 0 <= i < |events| && Happens(events, i, Verified(true))
    decreases |events|
  {
    if events != [] {
      var n := |events| - 1;
      ExecutesOnlyVerified(events[..n]);
      LastEvent(events);
      RunKeepsInv(FRESH, events[..n]);
      HappensInFront(events, Verified(true));
      hide Run;
      ExecutionStep(Run(FRESH, events[..n]), events[n]);
    }
  }

  lemma {:induction false} ExecutionStep(s: State, e: Event)
    requires Inv(s)
    ensures Step(s, e).executed == if e == Verified(true) && Due(s, e) then [s.block.value] else s.executed
    ensures e == Verified(true) && Due(s, e) ==> s.block.Some? && s.executed == []
  {
  }

  /** A failed verification executes nothing, now or later, and passes the slot's finish. */
  lemma {:induction false} FailedIsNeverExecuted(events: seq<Event>, more: seq<Event>)
    requires Due(Run(FRESH, events), Verified(false))
    ensures var s := Step(Run(FRESH, events), Verified(false));
            s.executed == [] && s.passes == Run(FRESH, events).passes + 1 && Step(s, FinishResolves).finished &&
            Run(s, more).executed == []
  {
    RunKeepsInv(FRESH, events);
    StepKeepsInv(Run(FRESH, events), Verified(false));
    EndedExecutesNothing(Step(Run(FRESH, events), Verified(false)), more);
  }

  lemma {:induction false} EndedExecutesNothing(s: State, more: seq<Event>)
    requires Inv(s) && s.stage == Ended
    ensures Run(s, more).executed == s.executed
    decreases more
  {
    if more != [] {
      StepKeepsInv(s, more[0]);
      EndedExecutesNothing(Step(s, more[0]), more[1..]);
    }
  }

  // ---------------------------------------------------------------- when a slot starts

  /** The event starts the slot: its start timer or the end of its minting, or a finish that is passed. */
  predicate Starts(s: State, e: Event) {
    e.ForceFinish? ||
    (Due(s, e) &&
      ((e.StartTimer? && !e.own && !s.finished) || e.MintReturns? || (e.BlockTimeout? && !s.finished) ||
       e == Verified(false) || e.Executed?))
  }

  lemma {:induction false} StartStep(s: State, e: Event)
    requires Inv(s)
    ensures Step(s, e).started <==> s.started || Starts(s, e)
  {
  }

  predicate StartsAt(events: seq<Event>, i: nat)
    requires i < |events|
  {
    Starts(Run(FRESH, events[..i]), events[i])
  }

  lemma {:induction false} StartsInFront(events: seq<Event>)
    requires events != []
    ensures var n := |events| - 1;
            (exists i :: 0 <= i < |events| && StartsAt(events, i)) <==>
            StartsAt(events, n) || exists i :: 0 <= i < n && StartsAt(events[..n], i)
  {
    hide Run, Starts;
    var n := |events| - 1;
    var front := events[..n];
    forall i | 0 <= i < n ensures front[..i] == events[..i] { }
    if i :| 0 <= i < n && StartsAt(front, i) {
      assert StartsAt(events, i);
    }
    if i :| 0 <= i < |events| && StartsAt(events, i) && i < n {
      assert StartsAt(front, i);
    }
  }

  /** Over all interleavings: a slot has started if and only if one of these events came; it does not begin started. */
  lemma {:induction false} StartedIff(events: seq<Event>)
    ensures Run(FRESH, events).started <==> exists i :: 0 <= i < |events| && StartsAt(events, i)
    decreases |events|
  {
    if events != [] {
      var n := |events| - 1;
      StartedIff(events[..n]);
      LastEvent(events);
      RunKeepsInv(FRESH, events[..n]);
      StartStep(Run(FRESH, events[..n]), events[n]);
      StartsInFront(events);
    }
  }

  // ---------------------------------------------------------------- only own slots are minted

  /** The slot is past its start timer; or this was the one of an own, unfinished slot. */
  lemma {:induction false} StartTimerDecides(s: State, own: bool)
    requires s.start == Scheduled
    ensures var t := Step(s, StartTimer(own));
            (t.start == Minting <==> own && !s.finished) && t.start != Scheduled &&
            (!own && !s.finished ==> t.started && t.start == Begun) && (s.finished ==> t == s.(start := Begun))
  {
  }

  /** Over all interleavings: an own block comes only to a slot of the own minter that was unfinished at its start. */
  lemma {:induction false} MintsOnlyOwnSlots(events: seq<Event>)
    ensures Run(FRESH, events).start == Minting || Run(FRESH, events).start == Minted ==>
              exists i :: 0 <= i < |events| && Happens(events, i, StartTimer(true)) && !Run(FRESH, events[..i]).finished
    decreases |events|
  {
    if events != [] {
      var n := |events| - 1;
      MintsOnlyOwnSlots(events[..n]);
      LastEvent(events);
      var s, e := Run(FRESH, events[..n]), events[n];
      StartMoves(s, e);
      hide Run, Due;
      if i :| 0 <= i < n && Happens(events[..n], i, StartTimer(true)) && !Run(FRESH, events[..n][..i]).finished {
        assert events[..n][..i] == events[..i];
        assert Happens(events, i, StartTimer(true));
      }
      if e == StartTimer(true) && s.start == Scheduled && !s.finished {
        assert Happens(events, n, StartTimer(true)) by { TimerIsDue(s); }
      }
    }
  }

  lemma {:induction false} TimerIsDue(s: State)
    requires s.start == Scheduled
    ensures Due(s, StartTimer(true))
  {
  }

  lemma {:induction false} StartMoves(s: State, e: Event)
    ensures var t := Step(s, e);
            (t.start == Minting ==>
              s.start == Minting || (e == StartTimer(true) && s.start == Scheduled && !s.finished)) &&
            (t.start == Minted ==> s.start == Minted || s.start == Minting)
  {
  }

  // ---------------------------------------------------------------- blocks that outlive the finish

  /** A block is taken, and its verification has not returned. */
  predicate Unverified(s: State) {
    s.stage == AwaitQueue || s.stage == AwaitStart || s.stage == Verifying
  }

  /** The events that take the slot's block on to its execution. */
  function ToExecution(s: State): seq<Event> {
    match s.stage
    case AwaitQueue => [QueueEmpty, StartPassed, Verified(true)]
    case AwaitStart => [StartPassed, Verified(true)]
    case Verifying => [Verified(true)]
    case _ => []
  }

  lemma {:induction false} UnverifiedCanExecute(s: State)
    requires Inv(s) && s.started && Unverified(s)
    ensures Run(s, ToExecution(s)).executed == [s.block.value]
  {
    var es := ToExecution(s);
    match s.stage
    case AwaitQueue => Unroll3(s, es);
    case AwaitStart => Unroll2(s, es);
    case Verifying => assert es[1..] == [];
  }

  lemma {:induction false} NothingLeftToExecute(s: State, more: seq<Event>)
    requires Inv(s) && s.finished && !Unverified(s)
    ensures Run(s, more).executed == s.executed
    decreases more
  {
    if more != [] {
      StepKeepsInv(s, more[0]);
      NothingLeftToExecute(Step(s, more[0]), more[1..]);
    }
  }

  /**
   The finish is the end of a slot's work on the chain, with its exact condition:
   behind it a block can still be executed if and only if one was taken whose
   verification had not returned.
   */
  lemma {:induction false} ExecutesBehindFinishIff(events: seq<Event>)
    requires Run(FRESH, events).finished
    ensures var s := Run(FRESH, events);
            (exists more :: Run(s, more).executed != s.executed) <==> Unverified(s)
  {
    var s := Run(FRESH, events);
    RunKeepsInv(FRESH, events);
    if Unverified(s) {
      UnverifiedCanExecute(s);
      assert Run(s, ToExecution(s)).executed != s.executed;
    }
    forall more | !Unverified(s) ensures Run(s, more).executed == s.executed {
      NothingLeftToExecute(s, more);
    }
  }

  /** The finish was passed, whether it has resolved or not, and a block is still unverified. */
  predicate Late(s: State) {
    Unverified(s) && (s.finished || s.passes > 0)
  }

  /** The event brings the slot its block. */
  predicate Takes(s: State, e: Event) {
    (e.Receive? || (e.OwnBlock? && Due(s, e))) && !s.finished && s.block == None
  }

  /** A forced finish while the block is unverified, or a block that comes between a finish and its resolution. */
  predicate MakesLate(s: State, e: Event) {
    (e.ForceFinish? && Unverified(s)) || (Takes(s, e) && s.passes > 0)
  }

  lemma {:induction false} LateStep(s: State, e: Event)
    requires Inv(s)
    ensures Late(Step(s, e)) <==> MakesLate(s, e) || (Late(s) && !(e.Verified? && Due(s, e)))
  {
  }

  /** Event `i` makes the slot late, and no verification returns behind it. */
  predicate LateSince(events: seq<Event>, i: nat)
    requires i < |events|
  {
    MakesLate(Run(FRESH, events[..i]), events[i]) &&
    forall j :: i < j < |events| ==> !(events[j].Verified? && Due(Run(FRESH, events[..j]), events[j]))
  }

  /**
   Over all interleavings, the two kinds of events that make a slot late are the only ones, and
   only a returned verification ends it.
   */
  lemma {:induction false} LateIff(events: seq<Event>)
    ensures Late(Run(FRESH, events)) <==> exists i :: 0 <= i < |events| && LateSince(events, i)
    decreases |events|
  {
    if events != [] {
      var n := |events| - 1;
      var front, last := events[..n], events[n];
      var s := Run(FRESH, front);
      var one := [last];
      assert events == front + one && one[1..] == [];
      RunAppend(FRESH, front, one);
      RunKeepsInv(FRESH, front);
      LateIff(front);
      LateStep(s, last);
      forall i | 0 <= i <= n ensures i < n ==> front[..i] == events[..i] { }
      LateSinceStep(events);
    }
  }

  /**
   The same condition on the events of the run: behind the finish a block can still be
   executed if and only if the slot was finished by force while its block was
   unverified, or got its block between a finish and its resolution, and no
   verification has returned since.
   */
  lemma {:induction false} OutlivesFinishIff(events: seq<Event>)
    requires Run(FRESH, events).finished
    ensures (exists more :: Run(Run(FRESH, events), more).executed != Run(FRESH, events).executed) <==>
            exists i :: 0 <= i < |events| && LateSince(events, i)
  {
    ExecutesBehindFinishIff(events);
    hide Run, LateSince;
    LateIff(events);
  }

  lemma {:induction false} LateSinceStep(events: seq<Event>)
    requires events != []
    ensures var n := |events| - 1;
            (exists i :: 0 <= i < |events| && LateSince(events, i)) <==>
            MakesLate(Run(FRESH, events[..n]), events[n]) ||
            ((exists i :: 0 <= i < n && LateSince(events[..n], i)) &&
             !(events[n].Verified? && Due(Run(FRESH, events[..n]), events[n])))
  {
    hide Run, MakesLate, Due;
    var n := |events| - 1;
    var front := events[..n];
    forall i | 0 <= i < n ensures front[..i] == events[..i] { }
    if i :| 0 <= i < |events| && LateSince(events, i) {
      if i < n { assert LateSince(front, i); }
    }
    if MakesLate(Run(FRESH, front), events[n]) {
      assert LateSince(events, n);
    }
    if i :| 0 <= i < n && LateSince(front, i) && !(events[n].Verified? && Due(Run(FRESH, front), events[n])) {
      assert LateSince(events, i);
    }
  }

  /** A forced finish does not stop a block already taken: its execution can begin behind the finish. */
  lemma {:induction false} ForcedFinishIsNotLast(block: Block)
    ensures var s := Run(FRESH, [StartTimer(false), Receive(block), ForceFinish, FinishResolves]);
            s.finished && s.executed == [] && Run(s, [QueueEmpty, StartPassed, Verified(true)]).executed == [block]
  {
    var first := [StartTimer(false), Receive(block), ForceFinish, FinishResolves];
    Unroll4(FRESH, first);
    var s := Run(FRESH, first);
    var rest := [QueueEmpty, StartPassed, Verified(true)];
    Unroll3(s, rest);
  }

  /**
   In the event model this does not take a forced finish: a block that comes before a
   timeout's finish has resolved is executed behind it. The timer of the code runs with an
   empty job queue, so that there nothing comes in between.
   */
  lemma {:induction false} TimeoutIsNotLast(block: Block)
    ensures var s := Run(FRESH, [StartTimer(false), BlockTimeout, Receive(block), FinishResolves]);
            s.finished && s.executed == [] && Run(s, [QueueEmpty, StartPassed, Verified(true)]).executed == [block]
  {
    Unroll4(FRESH, [StartTimer(false), BlockTimeout, Receive(block), FinishResolves]);
    var s := Run(FRESH, [StartTimer(false), BlockTimeout, Receive(block), FinishResolves]);
    Unroll3(s, [QueueEmpty, StartPassed, Verified(true)]);
  }

  lemma {:induction false} Unroll2(s: State, es: seq<Event>)
    requires |es| == 2
    ensures Run(s, es) == Step(Step(s, es[0]), es[1])
  {
    var one := es[1..];
    assert Run(Step(s, es[0]), one) == Step(Step(s, es[0]), one[0]) by { assert one[1..] == []; }
  }

  lemma {:induction false} Unroll3(s: State, es: seq<Event>)
    requires |es| == 3
    ensures Run(s, es) == Step(Step(Step(s, es[0]), es[1]), es[2])
  {
    var two := es[1..];
    var one := two[1..];
    assert Run(Step(Step(s, es[0]), es[1]), one) ==
           Step(Step(Step(s, es[0]), es[1]), one[0]) by { assert one[1..] == []; }
    assert Run(Step(s, es[0]), two) == Run(Step(Step(s, es[0]), es[1]), one);
  }

  lemma {:induction false} Unroll4(s: State, es: seq<Event>)
    requires |es| == 4
    ensures Run(s, es) == Step(Step(Step(Step(s, es[0]), es[1]), es[2]), es[3])
  {
    Unroll3(Step(s, es[0]), es[1..]);
  }

  // ---------------------------------------------------------------- every slot finishes

  /** An upper bound on the events the slot can still bring about by itself. */
  function Rank(s: State): nat {
    (match s.start case Scheduled => 3 case Minting => 2 case Minted => 1 case Begun => 0) +
    (match s.stage
     case Idle => 6 case AwaitQueue => 5 case AwaitStart => 4 case Verifying => 3 case Executing => 2 case Ended => 0) +
    (if s.timeout then 2 else 0) + s.passes
  }

  lemma {:induction false} DueLowersRank(s: State, e: Event)
    requires Inv(s)
    ensures Rank(Step(s, e)) + (if Due(s, e) then 1 else 0) <= Rank(s) + (if e.ForceFinish? then 1 else 0)
  {
  }

  /** An unfinished slot always has a timer or a running `processBlock` that goes on: the event named here is due. */
  function Pending(s: State): (e: Event)
    requires Inv(s) && !s.finished
    ensures Due(s, e)
  {
    if s.passes > 0 then FinishResolves
    else if s.timeout then BlockTimeout
    else if s.stage == AwaitQueue then QueueEmpty
    else if s.stage == Verifying then Verified(false)
    else if s.stage == Executing then Executed
    else if s.started then StartPassed
    else if s.start == Scheduled then StartTimer(false)
    else if s.start == Minting then OwnBlock(s.block.value)
    else MintReturns
  }

  function CountDue(s: State, events: seq<Event>): nat
    decreases events
  {
    if events == [] then 0
    else (if Due(s, events[0]) then 1 else 0) + CountDue(Step(s, events[0]), events[1..])
  }

  function CountForced(events: seq<Event>): nat {
    if events == [] then 0 else (if events[0].ForceFinish? then 1 else 0) + CountForced(events[1..])
  }

  lemma {:induction false} NothingForced(events: seq<Event>)
    requires forall i :: 0 <= i < |events| ==> !events[i].ForceFinish?
    ensures CountForced(events) == 0
  {
    if events != [] {
      NothingForced(events[1..]);
    }
  }

  lemma {:induction false} DueIsBounded(s: State, events: seq<Event>)
    requires Inv(s)
    ensures CountDue(s, events) + Rank(Run(s, events)) <= Rank(s) + CountForced(events)
    decreases events
  {
    if events != [] {
      DueLowersRank(s, events[0]);
      StepKeepsInv(s, events[0]);
      DueIsBounded(Step(s, events[0]), events[1..]);
    }
  }

  /**
   No deadlock and no livelock: in every reachable state an unfinished slot has an
   event due, and eleven due events (and one for each forced finish) always suffice.
   */
  lemma {:induction false} EverySlotFinishes(events: seq<Event>)
    ensures var s := Run(FRESH, events);
            (!s.finished ==> exists e :: Due(s, e)) &&
            (CountDue(FRESH, events) >= 11 + CountForced(events) ==> s.finished) &&
            ((forall i :: 0 <= i < |events| ==> !events[i].ForceFinish?) && CountDue(FRESH, events) >= 11 ==>
              s.finished)
  {
    var s := Run(FRESH, events);
    RunKeepsInv(FRESH, events);
    DueIsBounded(FRESH, events);
    if forall i :: 0 <= i < |events| ==> !events[i].ForceFinish? { NothingForced(events); }
    if !s.finished {
      DueLowersRank(s, Pending(s));
    }
  }

  // ---------------------------------------------------------------- the object

  /** The fields of a slot; `start` and `stage` say at which `await` its two asynchronous methods are. */
  class SlotObject {
    var block: Option<Block>
    var stage: Stage
    var start: Start
    var started: bool
    var timeout: bool
    var passes: nat
    var finished: bool
    ghost var executed: seq<Block>
    ghost var cut: bool

    ghost function Value(): State
      reads this
    {
      State(block, stage, start, started, timeout, passes, finished, executed, cut)
    }

    constructor ()
      ensures Value() == FRESH
    {
      block, stage, start, started, timeout, passes, finished := None, Idle, Scheduled, false, true, 0, false;
      executed, cut := [], false;
    }

    method PassFinished()
      modifies this`started, this`timeout, this`passes
      ensures Value() == Pass(old(Value()))
    {
      started := true;
      timeout := false;
      passes := passes + 1;
    }

    method PassResolves()
      requires Inv(Value()) && passes > 0
      modifies this
      ensures Inv(Value()) && Value() == Step(old(Value()), FinishResolves)
    {
      passes := passes - 1;
      finished := true;
    }

    method OnSlotStart(own: bool)
      requires Inv(Value()) && start == Scheduled
      modifies this
      ensures Inv(Value()) && Value() == Step(old(Value()), StartTimer(own))
    {
      if finished {
        start := Begun;
        return;
      }
      if own {
        start := Minting;
        return;
      }
      start := Begun;
      started := true;
    }

    /** `mint` behind `createNewBlock`. */
    method Mint(newBlock: Block)
      requires Inv(Value()) && start == Minting
      modifies this
      ensures Inv(Value()) && Value() == Step(old(Value()), OwnBlock(newBlock))
    {
      ProcessBlock(newBlock);
      start := Minted;
    }

    method OnMintReturns()
      requires Inv(Value()) && start == Minted
      modifies this
      ensures Inv(Value()) && Value() == Step(old(Value()), MintReturns)
    {
      start := Begun;
      started := true;
    }

    method OnBlockNotMinted()
      requires Inv(Value()) && timeout
      modifies this
      ensures Inv(Value()) && Value() == Step(old(Value()), BlockTimeout)
    {
      timeout := false;
      if finished {
        return;
      }
      PassFinished();
      cut := true;
    }

    method ProcessBlock(newBlock: Block)
      requires Inv(Value())
      modifies this
      ensures Inv(Value()) && Value() == Step(old(Value()), Receive(newBlock))
    {
      if finished {
        return;
      }
      timeout := false;
      if block.Some? {
        return;
      }
      block := Some(newBlock);
      stage := AwaitQueue;
    }

    /** `processBlock` behind each of its awaits in turn. */
    method ProcessBlockGoesOn(valid: bool)
      requires Inv(Value()) && Running(Value()) && (stage == AwaitStart ==> started)
      modifies this
      ensures Inv(Value())
      ensures Value() == Step(old(Value()), match old(stage)
                                            case AwaitQueue => QueueEmpty
                                            case AwaitStart => StartPassed
                                            case Verifying => Verified(valid)
                                            case _ => Event.Executed)
    {
      match stage
      case AwaitQueue => stage := AwaitStart;
      case AwaitStart => stage := Verifying;
      case Verifying =>
        if valid {
          executed := executed + [block.value];
          stage := Executing;
        } else {
          PassFinished();
          stage := Ended;
        }
      case Executing =>
        PassFinished();
        stage := Ended;
    }

    method ForceToFinish()
      requires Inv(Value())
      modifies this
      ensures Inv(Value()) && Value() == Step(old(Value()), ForceFinish)
    {
      PassFinished();
      cut := true;
    }
  }
}
