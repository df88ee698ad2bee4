/**
 A reachable submission that breaks the block tree: the base block of a fork that
 has outgrown its parent chain is handed in once more
 (`src/storage/chainstate.ts:239-243`).
 */
module Reforking {
  import opened Common
  import opened Models
  import opened Wallets
  import opened BlockTree
  import opened ChainRuns
  import ReforkSafety

  lemma {:induction false} NoTransactions(before: Stores, b: Block, forks: seq<ChainId>)
    requires b.transactions == []
    ensures WalletOutcome(before, b, forks, before)
  {
    var tasks := TasksOf(b.transactions);
    var end := RunAll(Init(before, tasks), tasks, forks, []);
    assert Complete(end) && end.stores == before;
  }

  lemma {:induction false} Accepted(crypto: Crypto, s: State, b: Block, target: ChainId, parent: ChainId)
    requires MatchBlock(s, b) == Matching(target, parent) && BlockHash(crypto, b) == b.hash && b.transactions == []
    requires target != parent ==> CanFork(s, parent, b)
    ensures Next(crypto, s, b, ExecuteTree(crypto, s, target, parent, b))
  {
    hide MatchBlock, BlockHash, ExecuteTree, CanFork, WalletOutcome;
    var executed := ExecuteTree(crypto, s, target, parent, b);
    NoTransactions(executed.wallets, b, ForksOf(executed.order));
  }

  /** Main holds a genesis block and one more; a fork from the genesis has two. */
  datatype Blocks = Blocks(genesis: Block, onMain: Block, base: Block, above: Block)

  ghost predicate Good(crypto: Crypto, bs: Blocks) {
    bs.genesis.index == 0 && bs.onMain.index == bs.base.index == 1 && bs.above.index == 2 &&
    bs.onMain.previousHash == bs.base.previousHash == bs.genesis.hash && bs.above.previousHash == bs.base.hash &&
    bs.onMain.hash != bs.base.hash &&
    (forall b :: b in [bs.genesis, bs.onMain, bs.base, bs.above] ==>
      BlockHash(crypto, b) == b.hash && b.transactions == [])
  }

  ghost predicate OnlyMain(s: State, blocks: map<nat, Block>, latest: Block) {
    s.order == [Main] && s.info.Keys == {Main} && Id(s.info[Main]) == Main && s.info[Main].latestBlock == latest &&
    s.blocks == map[Main := blocks] && s.wallets.Keys == {Main}
  }

  ghost predicate WithFork(s: State, main: map<nat, Block>, latest: Block, c: ChainId, own: map<nat, Block>,
                           top: Block) {
    c != Main && s.order == [Main, c] && s.info.Keys == {Main, c} && Id(s.info[Main]) == Main && Id(s.info[c]) == c &&
    s.info[Main].latestBlock == latest && s.info[c].latestBlock == top &&
    s.blocks == map[Main := main, c := own] && s.wallets.Keys == {Main, c}
  }

  lemma {:induction false} First(crypto: Crypto, bs: Blocks) returns (s: State)
    requires Good(crypto, bs)
    ensures Next(crypto, Fresh(map[]), bs.genesis, s) && !Reforks(Fresh(map[]), bs.genesis)
    ensures OnlyMain(s, map[0 := bs.genesis], bs.genesis)
  {
    hide BlockHash, StateHash, Repeat;
    Accepted(crypto, Fresh(map[]), bs.genesis, Main, Main);
    s := ExecuteTree(crypto, Fresh(map[]), Main, Main, bs.genesis);
  }

  lemma {:induction false} Second(crypto: Crypto, bs: Blocks, s: State) returns (s': State)
    requires Good(crypto, bs) && OnlyMain(s, map[0 := bs.genesis], bs.genesis)
    ensures Next(crypto, s, bs.onMain, s') && !Reforks(s, bs.onMain)
    ensures OnlyMain(s', map[0 := bs.genesis, 1 := bs.onMain], bs.onMain)
  {
    hide BlockHash, ExecuteTree;
    assert MatchBlock(s, bs.onMain) == Matching(Main, Main);
    Accepted(crypto, s, bs.onMain, Main, Main);
    s' := ExecuteTree(crypto, s, Main, Main, bs.onMain);
    ChildShape(crypto, s, bs.onMain, Main);
    assert WithBlock(s.blocks[Main], bs.onMain) == map[0 := bs.genesis, 1 := bs.onMain];
  }

  lemma {:induction false} Third(crypto: Crypto, bs: Blocks, s: State) returns (s': State)
    requires Good(crypto, bs) && OnlyMain(s, map[0 := bs.genesis, 1 := bs.onMain], bs.onMain)
    ensures Next(crypto, s, bs.base, s') && !Reforks(s, bs.base)
    ensures WithFork(s', map[0 := bs.genesis, 1 := bs.onMain], bs.onMain, Fork(bs.base.hash),
                     map[1 := bs.base], bs.base)
  {
    hide BlockHash, ExecuteTree, RollbackRange, Interval;
    var c := Fork(bs.base.hash);
    assert MatchBlock(s, bs.base) == Matching(c, Main) && CanFork(s, Main, bs.base);
    Accepted(crypto, s, bs.base, c, Main);
    s' := ExecuteTree(crypto, s, c, Main, bs.base);
    ForkShape(crypto, s, bs.base, c, Main);
    assert WithBlock(map[] - Interval(1, 1), bs.base) == map[1 := bs.base];
  }

  lemma {:induction false} Fourth(crypto: Crypto, bs: Blocks, s: State) returns (s': State)
    requires Good(crypto, bs)
    requires WithFork(s, map[0 := bs.genesis, 1 := bs.onMain], bs.onMain, Fork(bs.base.hash),
                      map[1 := bs.base], bs.base)
    ensures Next(crypto, s, bs.above, s') && !Reforks(s, bs.above)
    ensures WithFork(s', map[0 := bs.genesis, 1 := bs.onMain], bs.onMain, Fork(bs.base.hash),
                     map[1 := bs.base, 2 := bs.above], bs.above)
  {
    hide BlockHash, ExecuteTree;
    var c := Fork(bs.base.hash);
    assert s.order[1..] == [c] && [c][1..] == [];
    assert !HoldsPrevious(s, Main, bs.above) && HoldsPrevious(s, c, bs.above);
    assert FindParent(s, s.order[1..], bs.above) == Some(c);
    assert FindParent(s, s.order, bs.above) == Some(c);
    assert MatchBlock(s, bs.above) == Matching(c, c);
    Accepted(crypto, s, bs.above, c, c);
    s' := ExecuteTree(crypto, s, c, c, bs.above);
    ChildShape(crypto, s, bs.above, c);
    assert WithBlock(s.blocks[c], bs.above) == map[1 := bs.base, 2 := bs.above];
  }

  lemma {:induction false} FirstFour(crypto: Crypto, bs: Blocks) returns (states: seq<State>)
    requires Good(crypto, bs)
    ensures IsRun(crypto, states, [bs.genesis, bs.onMain, bs.base, bs.above]) && states[0] == Fresh(map[])
    ensures WithFork(states[4], map[0 := bs.genesis, 1 := bs.onMain], bs.onMain, Fork(bs.base.hash),
                     map[1 := bs.base, 2 := bs.above], bs.above)
  {
    hide Next, Reforks, WithFork, OnlyMain, Good, Fresh, IsRun;
    var s1 := First(crypto, bs);
    var s2 := Second(crypto, bs, s1);
    var s3 := Third(crypto, bs, s2);
    var s4 := Fourth(crypto, bs, s3);
    states := [Fresh(map[]), s1, s2, s3, s4];
    FourSteps(crypto, states, [bs.genesis, bs.onMain, bs.base, bs.above]);
  }

  lemma {:induction false} BaseAgain(crypto: Crypto, bs: Blocks, s: State) returns (s': State)
    requires Good(crypto, bs) && Inv(s)
    requires WithFork(s, map[0 := bs.genesis, 1 := bs.onMain], bs.onMain, Fork(bs.base.hash),
                      map[1 := bs.base, 2 := bs.above], bs.above)
    ensures Reforks(s, bs.base) && Next(crypto, s, bs.base, s')
    ensures !LatestIsTop(s', Fork(bs.base.hash)) && GetBlock(s', Fork(bs.base.hash), 2) == Some(bs.above)
    ensures Fork(bs.base.hash) in s'.info && s'.info[Fork(bs.base.hash)].latestBlock == bs.base
  {
    hide Inv, Next, Reforks, MatchBlock, ExecuteTree, BlockHash, CanFork, LatestIsTop, GetBlock;
    var c := Fork(bs.base.hash);
    MatchesAgain(bs, s);
    AboveIsLeft(crypto, bs, s);
    Accepted(crypto, s, bs.base, c, Main);
    ReforkKeepsTopIff(crypto, s, bs.base, c, Main);
    s' := ExecuteTree(crypto, s, c, Main, bs.base);
  }

  /**
   Four good submissions, and the fork's base block again: it is accepted, and then
   the fork's latest block is no longer its top block. The block above is left
   behind, although it is not in the chainstate any more.
   */
  lemma {:induction false} ReforkBreaksTree(crypto: Crypto, bs: Blocks) returns (states: seq<State>, s': State)
    requires Good(crypto, bs)
    ensures IsRun(crypto, states, [bs.genesis, bs.onMain, bs.base, bs.above]) && states[0] == Fresh(map[])
    ensures Inv(states[4]) && Reforks(states[4], bs.base) && Next(crypto, states[4], bs.base, s')
    ensures !LatestIsTop(s', Fork(bs.base.hash)) && GetBlock(s', Fork(bs.base.hash), 2) == Some(bs.above)
    ensures Fork(bs.base.hash) in s'.info && s'.info[Fork(bs.base.hash)].latestBlock == bs.base
  {
    states := FirstFour(crypto, bs);
    FreshInv(map[]);
    hide Inv, Next, Reforks, WithFork, LatestIsTop, GetBlock, Fresh, Good;
    RunsAreSafe(crypto, states, [bs.genesis, bs.onMain, bs.base, bs.above], 4, 4);
    s' := BaseAgain(crypto, bs, states[4]);
  }

  lemma {:induction false} FourSteps(crypto: Crypto, states: seq<State>, submitted: seq<Block>)
    requires |states| == 5 && |submitted| == 4
    requires Next(crypto, states[0], submitted[0], states[1]) && !Reforks(states[0], submitted[0])
    requires Next(crypto, states[1], submitted[1], states[2]) && !Reforks(states[1], submitted[1])
    requires Next(crypto, states[2], submitted[2], states[3]) && !Reforks(states[2], submitted[2])
    requires Next(crypto, states[3], submitted[3], states[4]) && !Reforks(states[3], submitted[3])
    ensures IsRun(crypto, states, submitted)
  {
    hide Next, Reforks;
  }

  lemma {:induction false} MatchesAgain(bs: Blocks, s: State)
    requires bs.base.index == 1 && bs.genesis.hash == bs.base.previousHash && bs.onMain.hash != bs.base.hash
    requires WithFork(s, map[0 := bs.genesis, 1 := bs.onMain], bs.onMain, Fork(bs.base.hash),
                      map[1 := bs.base, 2 := bs.above], bs.above)
    ensures MatchBlock(s, bs.base) == Matching(Fork(bs.base.hash), Main) && Reforks(s, bs.base)
  {
  }

  lemma {:induction false} AboveIsLeft(crypto: Crypto, bs: Blocks, s: State)
    requires bs.base.index == bs.onMain.index == 1
    requires WithFork(s, map[0 := bs.genesis, 1 := bs.onMain], bs.onMain, Fork(bs.base.hash),
                      map[1 := bs.base, 2 := bs.above], bs.above)
    ensures CanFork(s, Main, bs.base)
    ensures var s', c := ExecuteTree(crypto, s, Fork(bs.base.hash), Main, bs.base), Fork(bs.base.hash);
            GetBlock(s', c, 2) == Some(bs.above) && c in s'.info && s'.info[c].latestBlock == bs.base
  {
    hide ExecuteTree;
    ReforkShape(crypto, s, bs.base, Fork(bs.base.hash), Main);
  }

  // ---------------------------------------------------------------- a fork that its parent has caught up with

  lemma {:induction false} MainCatchesUp(crypto: Crypto, bs: Blocks, next: Block, s: State) returns (s': State)
    requires Good(crypto, bs) && next.index == 2 && next.previousHash == bs.onMain.hash
    requires BlockHash(crypto, next) == next.hash && next.transactions == []
    requires WithFork(s, map[0 := bs.genesis, 1 := bs.onMain], bs.onMain, Fork(bs.base.hash),
                      map[1 := bs.base, 2 := bs.above], bs.above)
    ensures Next(crypto, s, next, s') && !Reforks(s, next)
    ensures WithFork(s', map[0 := bs.genesis, 1 := bs.onMain, 2 := next], next, Fork(bs.base.hash),
                     map[1 := bs.base, 2 := bs.above], bs.above)
  {
    hide BlockHash, ExecuteTree;
    assert HoldsPrevious(s, Main, next);
    assert MatchBlock(s, next) == Matching(Main, Main);
    Accepted(crypto, s, next, Main, Main);
    s' := ExecuteTree(crypto, s, Main, Main, next);
    ChildShape(crypto, s, next, Main);
    assert WithBlock(s.blocks[Main], next) == map[0 := bs.genesis, 1 := bs.onMain, 2 := next];
  }

  lemma {:induction false} MatchesCaughtUp(bs: Blocks, next: Block, s: State)
    requires bs.base.index == 1 && bs.genesis.hash == bs.base.previousHash && bs.onMain.hash != bs.base.hash
    requires next.index == 2 && bs.above.index == 2
    requires WithFork(s, map[0 := bs.genesis, 1 := bs.onMain, 2 := next], next, Fork(bs.base.hash),
                      map[1 := bs.base, 2 := bs.above], bs.above)
    ensures MatchBlock(s, bs.base) == Matching(Fork(bs.base.hash), Main) && Reforks(s, bs.base)
    ensures bs.base.index < s.info[Fork(bs.base.hash)].latestBlock.index <= s.info[Main].latestBlock.index
  {
  }

  /**
   With one more block on main the same submission loses a block instead: the fork's
   latest block is its top block, and the block it had above its base is gone.
   */
  lemma {:induction false} ReforkLosesBlock(crypto: Crypto, bs: Blocks, next: Block) returns (states: seq<State>,
                                            s': State)
    requires Good(crypto, bs) && next.index == 2 && next.previousHash == bs.onMain.hash
    requires BlockHash(crypto, next) == next.hash && next.transactions == []
    ensures IsRun(crypto, states, [bs.genesis, bs.onMain, bs.base, bs.above, next]) && states[0] == Fresh(map[])
    ensures Inv(states[5]) && Reforks(states[5], bs.base) && Next(crypto, states[5], bs.base, s')
    ensures GetBlock(states[5], Fork(bs.base.hash), 2) == Some(bs.above)
    ensures LatestIsTop(s', Fork(bs.base.hash)) && GetBlock(s', Fork(bs.base.hash), 2) == None && !Grows(states[5], s')
  {
    FreshInv(map[]);
    hide Inv, Next, Reforks, WithFork, LatestIsTop, GetBlock, Fresh, BlockHash, Grows, Good, IsRun;
    states := FirstFive(crypto, bs, next);
    RunsAreSafe(crypto, states, [bs.genesis, bs.onMain, bs.base, bs.above, next], 5, 5);
    s' := BaseAgainLater(crypto, bs, next, states[5]);
  }

  lemma {:induction false} FirstFive(crypto: Crypto, bs: Blocks, next: Block) returns (states: seq<State>)
    requires Good(crypto, bs) && next.index == 2 && next.previousHash == bs.onMain.hash
    requires BlockHash(crypto, next) == next.hash && next.transactions == []
    ensures |states| == 6 && IsRun(crypto, states, [bs.genesis, bs.onMain, bs.base, bs.above, next])
    ensures states[0] == Fresh(map[])
    ensures WithFork(states[5], map[0 := bs.genesis, 1 := bs.onMain, 2 := next], next, Fork(bs.base.hash),
                     map[1 := bs.base, 2 := bs.above], bs.above)
  {
    var four := FirstFour(crypto, bs);
    assert |four| == 5;
    hide Next, Reforks, WithFork, Fresh, BlockHash, Good, IsRun;
    var s5 := MainCatchesUp(crypto, bs, next, four[4]);
    var submitted := [bs.genesis, bs.onMain, bs.base, bs.above];
    OneMore(crypto, four, submitted, next, s5);
    FourAndOne(bs.genesis, bs.onMain, bs.base, bs.above, next);
    hide Good;
    states := four + [s5];
    Appended(four, s5);
  }

  lemma {:induction false} FourAndOne(a: Block, b: Block, c: Block, d: Block, e: Block)
    ensures [a, b, c, d] + [e] == [a, b, c, d, e]
  {
  }

  lemma {:induction false} Appended(states: seq<State>, s: State)
    requires states != []
    ensures (states + [s])[|states|] == s && (states + [s])[0] == states[0]
  {
  }

  lemma {:induction false} BaseAgainLater(crypto: Crypto, bs: Blocks, next: Block, s: State) returns (s': State)
    requires Good(crypto, bs) && Inv(s) && next.index == 2
    requires WithFork(s, map[0 := bs.genesis, 1 := bs.onMain, 2 := next], next, Fork(bs.base.hash),
                      map[1 := bs.base, 2 := bs.above], bs.above)
    ensures Reforks(s, bs.base) && Next(crypto, s, bs.base, s') && GetBlock(s, Fork(bs.base.hash), 2) == Some(bs.above)
    ensures LatestIsTop(s', Fork(bs.base.hash)) && GetBlock(s', Fork(bs.base.hash), 2) == None && !Grows(s, s')
  {
    var c := Fork(bs.base.hash);
    MatchesCaughtUp(bs, next, s);
    GoodBase(crypto, bs);
    assert GetBlock(s, c, 2) == Some(bs.above) && s.info[c].latestBlock.index == 2;
    hide Inv, Next, Reforks, WithFork, LatestIsTop, GetBlock, MatchBlock, ExecuteTree, BlockHash, Grows, CanFork, Good;
    ReforkSafety.ReforkDropsBlocks(crypto, s, bs.base, c, Main);
    Accepted(crypto, s, bs.base, c, Main);
    s' := ExecuteTree(crypto, s, c, Main, bs.base);
  }

  lemma {:induction false} GoodBase(crypto: Crypto, bs: Blocks)
    requires Good(crypto, bs)
    ensures BlockHash(crypto, bs.base) == bs.base.hash && bs.base.transactions == []
  {
  }

  lemma {:induction false} OneMore(crypto: Crypto, states: seq<State>, submitted: seq<Block>, b: Block, s: State)
    requires IsRun(crypto, states, submitted) && Next(crypto, states[|submitted|], b, s) &&
             !Reforks(states[|submitted|], b)
    ensures IsRun(crypto, states + [s], submitted + [b])
  {
    hide Next, Reforks;
  }
}
