/**
 Forks off forks with `copyChain` as it is written. Its path arguments
 (`src/storage/utils.ts:49-51`) name no chain's directory, so the copy throws, and
 `createFork` with it, before anything has changed
 (`src/storage/blockchain.ts:44-46`, `src/pos/execution.ts:17-20`). Everywhere
 else in this model the parent's directory is copied, as the name says.
 */
module AsWritten {
  import opened Common
  import opened Models
  import opened Wallets
  import opened BlockTree
  import opened ChainRuns
  import opened Conservation
  import opened Snapshots
  import opened ReforkSafety

  /** The submission has to copy a fork. */
  predicate Copies(crypto: Crypto, s: State, b: Block) {
    match VerifyBlock(crypto, s, b)
    case Rejected(_) => false
    case Matching(target, parent) => target != parent && parent != Main
  }

  /** One submission: a fork off a fork fails and leaves the state alone. */
  ghost predicate NextAsWritten(crypto: Crypto, s: State, b: Block, s': State) {
    if Copies(crypto, s, b) then s' == s else Next(crypto, s, b, s')
  }

  /** The copy that fails loses nothing; otherwise the exact condition is the one with the copy. */
  lemma {:induction false} AsWrittenSafeIff(crypto: Crypto, s: State, b: Block, s': State)
    requires Inv(s) && NextAsWritten(crypto, s, b, s')
    ensures Inv(s') && Grows(s, s') <==> Copies(crypto, s, b) || SafeToSubmit(crypto, s, b)
  {
    hide Inv, Grows, Next, SafeToSubmit, Copies;
    if Copies(crypto, s, b) {
      GrowsItself(s);
    } else {
      NextSafeIff(crypto, s, b, s');
    }
  }

  /** The states of a node to which any blocks were handed one after the other. */
  ghost predicate SubmissionsAsWritten(crypto: Crypto, states: seq<State>, submitted: seq<Block>) {
    |states| == |submitted| + 1 &&
    forall k :: 0 <= k < |submitted| ==> NextAsWritten(crypto, states[k], submitted[k], states[k + 1])
  }

  /** The fork holds its base block and what came on top of it. */
  ghost predicate FromBase(s: State, c: ChainId)
    requires c in s.info
  {
    s.info[c].base.index > 0 && forall i :: i in BlocksOf(s, c) ==> s.info[c].base.index <= i
  }

  /** Every fork branches off main itself. */
  ghost predicate NoForkOffFork(s: State) {
    forall c :: c in s.info && c != Main ==> FromBase(s, c)
  }

  /** Off main, a chain gains no block but the submitted one. */
  lemma {:induction false} OnlyThisBlock(crypto: Crypto, s: State, b: Block, target: ChainId, parent: ChainId)
    requires target != parent ==> CanFork(s, parent, b)
    requires target == parent || parent == Main
    ensures BlocksOf(ExecuteTree(crypto, s, target, parent, b), target).Keys <= BlocksOf(s, target).Keys + {b.index}
  {
    hide StateHash, Repeat, RollbackRange, Interval;
  }

  lemma {:induction false} TreeKeepsOffMain(crypto: Crypto, s: State, b: Block, target: ChainId, parent: ChainId)
    requires Tracked(s) && MatchBlock(s, b) == Matching(target, parent) && (target != parent ==> CanFork(s, parent, b))
    requires (target == parent || parent == Main) && OwnIndex(s, b) && NoForkOffFork(s)
    ensures NoForkOffFork(ExecuteTree(crypto, s, target, parent, b))
  {
    VerdictOnTracked(s, b);
    ExecuteTreeInfo(crypto, s, b, target, parent);
    TreeFrame(crypto, s, b, target, parent);
    OnlyThisBlock(crypto, s, b, target, parent);
    hide ExecuteTree, CanFork, MatchBlock, Tracked, Reforks, BlocksOf;
    var e := ExecuteTree(crypto, s, target, parent, b);
    if target != Main {
      BaseIsLowest(s, e, b, target);
    }
    forall c | c in e.info && c != Main && c != target ensures FromBase(e, c) {
      assert FromBase(s, c);
    }
  }

  lemma {:induction false} BaseIsLowest(s: State, e: State, b: Block, c: ChainId)
    requires c in e.info && b.index > 0 && BlocksOf(e, c).Keys <= BlocksOf(s, c).Keys + {b.index}
    requires if c in s.info then e.info[c].base == s.info[c].base && FromBase(s, c) else e.info[c].base == b
    requires c !in s.info ==> BlocksOf(s, c) == map[]
    requires c in s.info ==> HoldsPrevious(s, c, b) || s.info[c].base.index == b.index
    ensures FromBase(e, c)
  {
  }

  lemma {:induction false} NextKeepsOffMain(crypto: Crypto, s: State, b: Block, s': State)
    requires Tracked(s) && NextAsWritten(crypto, s, b, s') && OwnIndex(s, b) && NoForkOffFork(s)
    ensures NoForkOffFork(s')
  {
    if !Copies(crypto, s, b) {
      NextCases(crypto, s, b, s');
      NextTree(crypto, s, b, s');
      hide Tracked, MatchBlock, OwnIndex, Next, NextAsWritten, ExecuteTree, NoForkOffFork, CanFork;
      match VerifyBlock(crypto, s, b)
      case Rejected(_) =>
      case Matching(target, parent) =>
        TreeKeepsOffMain(crypto, s, b, target, parent);
        OffMainIgnoresWallets(ExecuteTree(crypto, s, target, parent, b), s');
    }
  }

  lemma {:induction false} NextTree(crypto: Crypto, s: State, b: Block, s': State)
    requires Next(crypto, s, b, s')
    ensures match VerifyBlock(crypto, s, b)
            case Rejected(_) => true
            case Matching(target, parent) =>
              (target != parent ==> CanFork(s, parent, b)) &&
              var executed := ExecuteTree(crypto, s, target, parent, b); s'.(wallets := executed.wallets) == executed
  {
    hide ExecuteTree, VerifyBlock, CanFork, WalletOutcome;
  }

  lemma {:induction false} OffMainIgnoresWallets(s: State, s': State)
    requires s'.(wallets := s.wallets) == s && NoForkOffFork(s)
    ensures NoForkOffFork(s')
  {
    forall c | c in s'.info && c != Main ensures FromBase(s', c) {
      assert FromBase(s, c) && BlocksOf(s', c) == BlocksOf(s, c);
    }
  }

  /**
   The snapshot theorem for the code as it is written: no fork ever branches off a fork,
   so in every state that submissions of any blocks reach every open fork shows, for every
   address, the wallet main had just before its block at the fork's base index.
   */
  lemma {:induction false} EveryForkIsSnapshot(crypto: Crypto, initial: WalletDb, states: seq<State>,
                                               submitted: seq<Block>,
                                               k: nat)
    requires SubmissionsAsWritten(crypto, states, submitted) && k < |states|
    requires states[0] == Fresh(initial) && Total(initial) < TWO_TO_THE_64
    requires forall j :: 0 <= j < |submitted| ==> GoodStep(states[j], submitted[j]) && OwnIndex(states[j], submitted[j])
    ensures SnapshotInv(initial, states[k]) && NoForkOffFork(states[k])
    ensures forall c :: c in states[k].info && c != Main ==> OffMain(states[k], c) && IsSnapshot(initial, states[k], c)
    decreases k
  {
    if k == 0 {
      FreshSnapshotInv(initial);
    } else {
      hide Next, GoodStep, OwnIndex, Total, Copies, SnapshotInv, NoForkOffFork, Fresh, OffMain, IsSnapshot;
      EveryForkIsSnapshot(crypto, initial, states, submitted, k - 1);
      var s, b, s' := states[k - 1], submitted[k - 1], states[k];
      assert NextAsWritten(crypto, s, b, s') && GoodStep(s, b) && OwnIndex(s, b);
      hide SubmissionsAsWritten, Tracked;
      TrackedOf(initial, s);
      NextKeepsOffMain(crypto, s, b, s');
      if !Copies(crypto, s, b) {
        NextKeepsSnapshots(crypto, initial, s, b, s');
      }
      SnapshotsOfAll(initial, s');
    }
  }

  lemma {:induction false} SnapshotsOfAll(initial: WalletDb, s: State)
    requires SnapshotInv(initial, s) && NoForkOffFork(s)
    ensures forall c :: c in s.info && c != Main ==> OffMain(s, c) && IsSnapshot(initial, s, c)
  {
    hide Tracked, History, Total, IsSnapshot;
    forall c | c in s.info && c != Main ensures OffMain(s, c) {
      assert FromBase(s, c);
    }
  }
}
