/**
 Start-up synchronisation (`src/network/chain-sync.ts`): a node whose main chain
 is a prefix of its peer's downloads the rest in pages of 512 blocks and executes
 each block like any other.
 */
module ChainSync {
  import opened Common
  import opened Models
  import opened Wallets
  import opened BlockTree
  import ChainRuns
  import Blockchain

  /** How many blocks a peer serves at most, and how many are asked for at once. */
  const PAGE: nat := 512

  // ---------------------------------------------------------------- the peer

  /** The peer's main chain: indices in order, each block linked to the one before. */
  ghost predicate IsMainChain(peer: seq<Block>) {
    (forall i :: 0 <= i < |peer| ==> peer[i].index == i) &&
    forall i, j :: 0 <= i && j == i + 1 < |peer| ==> peer[j].previousHash == peer[i].hash
  }

  /** The blocks of `peer` from `start` on, at most `count` of them. */
  function Page(peer: seq<Block>, start: nat, count: nat): (page: seq<Block>)
    ensures |page| == if start <= |peer| then Min(count, |peer| - start) else 0
    ensures forall i :: 0 <= i < |page| ==> page[i] == peer[start + i]
  {
    if start <= |peer| then peer[start..Min(|peer|, start + count)] else []
  }

  /** The block file of the peer holds exactly its main chain. */
  ghost predicate Stores(main: map<nat, Block>, peer: seq<Block>) {
    (forall i: nat :: i in main <==> i < |peer|) && forall i: nat :: i < |peer| ==> main[i] == peer[i]
  }

  /** `GetBlocksMsg.Handler.receive` of a synchronized peer; `None` is an error response. */
  method ServeBlocks(main: map<nat, Block>, startingIndex: nat, count: nat, ghost peer: seq<Block>)
    returns (response: Option<seq<Block>>)
    requires Stores(main, peer)
    ensures response == if count > 512 then None else Some(Page(peer, startingIndex, count))
  {
    if count > PAGE {
      return None;
    }
    var blocks: seq<Block> := [];
    var index := startingIndex;
    while index < startingIndex + count
      invariant startingIndex <= index <= startingIndex + count && |blocks| == index - startingIndex
      invariant index > startingIndex ==> index <= |peer|
      invariant forall i :: 0 <= i < |blocks| ==> blocks[i] == peer[startingIndex + i]
    {
      if index !in main {
        break;
      }
      blocks := blocks + [main[index]];
      index := index + 1;
    }
    assert blocks == Page(peer, startingIndex, count);
    response := Some(blocks);
  }

  // ---------------------------------------------------------------- the local chain as a prefix

  /** No forks, and main is the first `n` blocks of the peer's. */
  ghost predicate Holds(s: State, peer: seq<Block>, n: nat) {
    Inv(s) && n <= |peer| && s.order == (if n == 0 then [] else [Main]) && Stores(BlocksOf(s, Main), peer[..n])
  }

  /**
   From block `n` on, each block of the peer passes its minter and transaction checks when its turn comes,
   whatever order the wallet tasks of the blocks before it took.
   */
  ghost predicate PassesInTurn(crypto: Crypto, minterAt: uint64 -> Address, stores: Wallets.Stores, peer: seq<Block>,
                               n: nat)
    decreases |peer| - n
  {
    n < |peer| ==>
      peer[n].minter == minterAt(peer[n].slotIndex) && BlockHash(crypto, peer[n]) == peer[n].hash &&
      TransactionsValid(crypto, DbOf(stores, Main), peer[n].transactions) &&
      forall after :: WalletOutcome(stores, peer[n], [], after) ==> PassesInTurn(crypto, minterAt, after, peer, n + 1)
  }

  /** Main is the first `n` blocks of the peer's, and the others will pass. */
  ghost predicate Synced(crypto: Crypto, minterAt: uint64 -> Address, s: State, peer: seq<Block>, n: nat) {
    IsMainChain(peer) && Holds(s, peer, n) && PassesInTurn(crypto, minterAt, s.wallets, peer, n)
  }

  /** A block that is held already is rejected as such. */
  lemma {:induction false} HeldIsRejected(s: State, peer: seq<Block>, n: nat, i: nat)
    requires Holds(s, peer, n) && IsMainChain(peer) && i < n
    ensures MatchBlock(s, peer[i]) == Rejected(12533)
  {
    hide Linked;
    var b := peer[i];
    assert s.order == [Main] && s.order[0] in s.info && Id(s.info[Main]) == Main;
    assert peer[..n][i] == b;
    if i > 0 {
      assert peer[..n][i - 1] == peer[i - 1];
      assert HoldsPrevious(s, Main, b);
    }
  }

  /** The next block of the peer is accepted as the next block of main. */
  lemma {:induction false} NextIsAccepted(s: State, peer: seq<Block>, n: nat)
    requires Holds(s, peer, n) && IsMainChain(peer) && n < |peer|
    ensures MatchBlock(s, peer[n]) == Matching(Main, Main) && !Reforks(s, peer[n])
  {
    hide Linked;
    if n > 0 {
      assert s.order == [Main] && s.order[0] in s.info && Id(s.info[Main]) == Main;
      assert peer[..n][n - 1] == peer[n - 1];
      assert HoldsPrevious(s, Main, peer[n]);
    } else {
      assert s.info == map[];
    }
  }

  /** Executing it makes the prefix one block longer; main's wallets are an outcome of its tasks. */
  lemma {:induction false} PrefixGrows(crypto: Crypto, s: State, peer: seq<Block>, n: nat, s': State)
    requires Holds(s, peer, n) && IsMainChain(peer) && n < |peer| && Next(crypto, s, peer[n], s')
    requires BlockHash(crypto, peer[n]) == peer[n].hash
    requires TransactionsValid(crypto, DbOf(s.wallets, Main), peer[n].transactions)
    ensures Holds(s', peer, n + 1) && WalletOutcome(s.wallets, peer[n], [], s'.wallets)
    ensures VerifyBlock(crypto, s, peer[n]) == Matching(Main, Main)
  {
    NextIsAccepted(s, peer, n);
    hide MatchBlock, BlockHash, TransactionsValid, WalletOutcome, ExecuteTree, Next, VerifyBlock, Reforks, Inv;
    NextStaysGood(crypto, s, peer, n, s');
    PrefixShape(crypto, s, peer, n);
    NextOnMain(crypto, s, peer[n], s');
    ForksOfMain();
  }

  lemma {:induction false} NextStaysGood(crypto: Crypto, s: State, peer: seq<Block>, n: nat, s': State)
    requires Holds(s, peer, n) && IsMainChain(peer) && n < |peer| && Next(crypto, s, peer[n], s')
    ensures Inv(s')
  {
    NextIsAccepted(s, peer, n);
    hide Inv, Next;
    ChainRuns.NextKeepsInv(crypto, s, peer[n], s');
  }

  lemma {:induction false} ForksOfMain()
    ensures ForksOf([Main]) == []
  {
    ForksOfEmpty();
    ForksOfStep([Main]);
    assert [Main][1..] == [];
  }

  lemma {:induction false} NextOnMain(crypto: Crypto, s: State, b: Block, s': State)
    requires MatchBlock(s, b) == Matching(Main, Main) && BlockHash(crypto, b) == b.hash
    requires TransactionsValid(crypto, DbOf(s.wallets, Main), b.transactions) && Next(crypto, s, b, s')
    ensures var e := ExecuteTree(crypto, s, Main, Main, b);
            VerifyBlock(crypto, s, b) == Matching(Main, Main) && s' == e.(wallets := s'.wallets) &&
            WalletOutcome(e.wallets, b, ForksOf(e.order), s'.wallets)
  {
    hide MatchBlock, BlockHash, TransactionsValid, WalletOutcome, ExecuteTree;
  }

  lemma {:induction false} PrefixShape(crypto: Crypto, s: State, peer: seq<Block>, n: nat)
    requires Holds(s, peer, n) && IsMainChain(peer) && n < |peer|
    ensures var e := ExecuteTree(crypto, s, Main, Main, peer[n]);
            e.order == [Main] && e.wallets == s.wallets && Main in s.wallets && Stores(BlocksOf(e, Main), peer[..n + 1])
  {
    hide StateHash, Repeat, Linked;
    assert forall i :: 0 <= i < n ==> peer[..n][i] == peer[..n + 1][i];
    assert s.order != [] ==> s.order[0] in s.info;
    assert s.order == [] ==> s.info == map[];
  }

  lemma {:induction false} OutcomeOnMain(before: Wallets.Stores, b: Block, after: Wallets.Stores)
    requires Main in before && WalletOutcome(before, b, [], after) && ConflictFree(TasksOf(b.transactions))
    ensures DbOf(after, Main) == MainRun(DbOf(before, Main), TasksOf(b.transactions))
  {
    hide RunAll, ConflictFree;
    var tasks := TasksOf(b.transactions);
    var schedule :| var end := RunAll(Init(before, tasks), tasks, [], schedule);
                    Complete(end) && end.stores == after;
    InterleavingsAgree(before, tasks, [], schedule);
    MainRunIsMain(before, [], tasks);
  }

  /**
   Each block passes with the wallets that executing the blocks before it sequentially leads to,
   and is conflict-free.
   */
  ghost predicate PassesSequentially(crypto: Crypto, minterAt: uint64 -> Address, db: WalletDb, peer: seq<Block>,
                                     n: nat)
    decreases |peer| - n
  {
    n < |peer| ==>
      peer[n].minter == minterAt(peer[n].slotIndex) && BlockHash(crypto, peer[n]) == peer[n].hash &&
      TransactionsValid(crypto, db, peer[n].transactions) && ConflictFree(TasksOf(peer[n].transactions)) &&
      PassesSequentially(crypto, minterAt, MainRun(db, TasksOf(peer[n].transactions)), peer, n + 1)
  }

  /** For conflict-free blocks it is enough to check the sequential run. */
  lemma {:induction false} SequentialPasses(crypto: Crypto, minterAt: uint64 -> Address, stores: Wallets.Stores,
                                            peer: seq<Block>, n: nat)
    requires Main in stores && PassesSequentially(crypto, minterAt, stores[Main], peer, n)
    ensures PassesInTurn(crypto, minterAt, stores, peer, n)
    decreases |peer| - n
  {
    if n < |peer| {
      hide WalletOutcome, MainRun, ConflictFree, TransactionsValid, BlockHash;
      forall after | WalletOutcome(stores, peer[n], [], after)
        ensures PassesInTurn(crypto, minterAt, after, peer, n + 1)
      {
        OutcomeOnMain(stores, peer[n], after);
        ChainRuns.OutcomeKeepsKeys(stores, peer[n], [], after);
        SequentialPasses(crypto, minterAt, after, peer, n + 1);
      }
    }
  }

  // ---------------------------------------------------------------- processing

  /** `Slot.processPastSlot`: the minter of the slot must match, then the block is verified and executed. */
  method ProcessPastSlot(node: Blockchain.Node, minterAt: uint64 -> Address, b: Block) returns (processed: bool)
    requires Inv(node.State())
    modifies node
    ensures b.minter != minterAt(b.slotIndex) ==> !processed && node.State() == old(node.State())
    ensures b.minter == minterAt(b.slotIndex) ==>
              Next(node.crypto, old(node.State()), b, node.State()) &&
              processed == VerifyBlock(node.crypto, old(node.State()), b).Matching?
  {
    if b.minter != minterAt(b.slotIndex) {
      return false;
    }
    var m := node.SubmitBlock(b);
    processed := m.Matching?;
  }

  /** One block of a page: a held one changes nothing, the next one is executed. */
  method SyncBlock(node: Blockchain.Node,
                   minterAt: uint64 -> Address, b: Block, ghost peer: seq<Block>, ghost n: nat, ghost i: nat)
    returns (processed: bool)
    requires Synced(node.crypto, minterAt, node.State(), peer, n) && i <= n && i < |peer| && b == peer[i]
    modifies node
    ensures Synced(node.crypto, minterAt, node.State(), peer, Max(n, i + 1)) && processed == (i == n)
  {
    hide Holds, PassesInTurn, Next, VerifyBlock, IsMainChain;
    ghost var before := node.State();
    HoldsInv(before, peer, n);
    processed := ProcessPastSlot(node, minterAt, b);
    OneBlock(node.crypto, minterAt, before, peer, n, i, node.State(), processed);
  }

  /** Consecutive blocks that overlap what is held: held ones change nothing, the others are executed. */
  method ExecuteBlocks(node: Blockchain.Node, minterAt: uint64 -> Address, blocks: seq<Block>,
                       ghost peer: seq<Block>, ghost start: nat, ghost held: nat)
    returns (processed: nat)
    requires Synced(node.crypto, minterAt, node.State(), peer, held) && start <= held
    requires start + |blocks| <= |peer| && blocks == peer[start..start + |blocks|]
    modifies node
    ensures Synced(node.crypto, minterAt, node.State(), peer, Max(held, start + |blocks|))
    ensures processed == Max(held, start + |blocks|) - held
  {
    hide Synced;
    processed := 0;
    for i := 0 to |blocks|
      invariant Synced(node.crypto, minterAt, node.State(), peer, Max(held, start + i))
      invariant processed == Max(held, start + i) - held
    {
      var ok := SyncBlock(node, minterAt, blocks[i], peer, Max(held, start + i), start + i);
      if ok {
        processed := processed + 1;
      }
    }
  }

  lemma {:induction false} HoldsInv(s: State, peer: seq<Block>, n: nat)
    requires Holds(s, peer, n)
    ensures Inv(s) && n <= |peer|
  {
  }

  lemma {:induction false} OneBlock(crypto: Crypto, minterAt: uint64 -> Address, s: State, peer: seq<Block>, n: nat,
                                    i: nat, s': State, ok: bool)
    requires IsMainChain(peer) && Holds(s, peer, n) && i <= n && i < |peer|
    requires PassesInTurn(crypto, minterAt, s.wallets, peer, n)
    requires peer[i].minter != minterAt(peer[i].slotIndex) ==> !ok && s' == s
    requires peer[i].minter == minterAt(peer[i].slotIndex) ==>
               Next(crypto, s, peer[i], s') && ok == VerifyBlock(crypto, s, peer[i]).Matching?
    ensures Holds(s', peer, Max(n, i + 1)) && ok == (i == n)
    ensures PassesInTurn(crypto, minterAt, s'.wallets, peer, Max(n, i + 1))
  {
    hide Holds, IsMainChain, PassesInTurn;
    if i < n {
      HeldIsRejected(s, peer, n, i);
      if peer[i].minter == minterAt(peer[i].slotIndex) {
        RejectedStays(crypto, s, peer[i], s');
      }
      hide Next, VerifyBlock, MatchBlock;
    } else {
      hide Holds, IsMainChain, Next, VerifyBlock, BlockHash, TransactionsValid, WalletOutcome, PassesInTurn;
      NextPasses(crypto, minterAt, s.wallets, peer, n);
      PrefixGrows(crypto, s, peer, n, s');
      RestPasses(crypto, minterAt, s.wallets, peer, n, s'.wallets);
    }
  }

  lemma {:induction false} RejectedStays(crypto: Crypto, s: State, b: Block, s': State)
    requires MatchBlock(s, b).Rejected? && Next(crypto, s, b, s')
    ensures VerifyBlock(crypto, s, b).Rejected? && s' == s
  {
    hide MatchBlock, ExecuteTree, WalletOutcome, BlockHash, TransactionsValid, CanFork;
  }

  lemma {:induction false} NextPasses(crypto: Crypto, minterAt: uint64 -> Address, stores: Stores, peer: seq<Block>,
                                      n: nat)
    requires n < |peer| && PassesInTurn(crypto, minterAt, stores, peer, n)
    ensures peer[n].minter == minterAt(peer[n].slotIndex) && BlockHash(crypto, peer[n]) == peer[n].hash
    ensures TransactionsValid(crypto, DbOf(stores, Main), peer[n].transactions)
  {
    hide BlockHash, TransactionsValid, WalletOutcome;
  }

  lemma {:induction false} RestPasses(crypto: Crypto, minterAt: uint64 -> Address, stores: Stores, peer: seq<Block>,
                                      n: nat, stores': Stores)
    requires n < |peer| && PassesInTurn(crypto, minterAt, stores, peer, n)
    requires WalletOutcome(stores, peer[n], [], stores')
    ensures PassesInTurn(crypto, minterAt, stores', peer, n + 1)
  {
    hide BlockHash, TransactionsValid, WalletOutcome;
  }

  /**
   `syncBlocks`: pages from `sinceIndex` on, until one is short or the peer gives no answer. The
   peer serves `served` blocks.
   */
  method SyncBlocks(node: Blockchain.Node, minterAt: uint64 -> Address, peerMain: map<nat, Block>,
                    sinceIndex: nat, answered: nat, ghost peer: seq<Block>, ghost served: nat, ghost held: nat)
    returns (received: nat, processed: nat)
    requires served <= |peer| && Stores(peerMain, peer[..served])
    requires Synced(node.crypto, minterAt, node.State(), peer, held) && sinceIndex <= held && sinceIndex <= served
    modifies node
    ensures var reached := Min(served, sinceIndex + 512 * answered);
            Synced(node.crypto, minterAt, node.State(), peer, Max(held, reached)) &&
            received == reached - sinceIndex && processed == Max(held, reached) - held
  {
    hide Synced, Stores;
    var current, requests := sinceIndex, 0;
    received, processed := 0, 0;
    while true
      invariant requests <= answered && current == sinceIndex + PAGE * requests && current <= served
      invariant Synced(node.crypto, minterAt, node.State(), peer, Max(held, current))
      invariant received == current - sinceIndex && processed == Max(held, current) - held
      decreases served - current
    {
      if requests == answered {
        return;
      }
      var response := ServeBlocks(peerMain, current, PAGE, peer[..served]);
      var blocks := response.value;
      assert blocks == peer[current..current + |blocks|];
      received := received + |blocks|;
      var count := ExecuteBlocks(node, minterAt, blocks, peer, current, Max(held, current));
      processed := processed + count;
      if |blocks| < PAGE {
        assert current + |blocks| == served;
        return;
      }
      requests := requests + 1;
      current := current + PAGE;
    }
  }

  /** The blocks that were broadcast meanwhile are taken from the queue one by one. */
  method DrainQueue(node: Blockchain.Node, minterAt: uint64 -> Address, queue: seq<Block>,
                    ghost peer: seq<Block>, ghost from: nat, ghost held: nat)
    returns (processed: nat)
    requires Synced(node.crypto, minterAt, node.State(), peer, held) && from <= held
    requires from + |queue| <= |peer| && queue == peer[from..from + |queue|]
    modifies node
    ensures Synced(node.crypto, minterAt, node.State(), peer, Max(held, from + |queue|))
    ensures processed == Max(held, from + |queue|) - held
  {
    hide Synced;
    processed := 0;
    var waiting := queue;
    ghost var i := 0;
    while waiting != []
      invariant i <= |queue| && waiting == queue[i..]
      invariant Synced(node.crypto, minterAt, node.State(), peer, Max(held, from + i))
      invariant processed == Max(held, from + i) - held
    {
      var b := waiting[0];
      waiting := waiting[1..];
      var ok := SyncBlock(node, minterAt, b, peer, Max(held, from + i), from + i);
      if ok {
        processed := processed + 1;
      }
      i := i + 1;
    }
  }

  /**
   `syncChain`. `peer` is the peer's main chain when the sync is over. The peer serves its
   first `served` blocks, answers the first `answered` requests, and has broadcast the
   blocks in `queue`, number `from` and on, meanwhile. Paging ends, and local main is
   then the peer's main up to the last block received or queued. Held blocks are
   received once more and rejected, every other one is executed.
   */
  method SyncChain(node: Blockchain.Node, minterAt: uint64 -> Address, peerMain: map<nat, Block>, answered: nat,
                   queue: seq<Block>, ghost peer: seq<Block>, ghost served: nat, ghost from: nat, ghost held: nat)
    returns (received: nat, processed: nat)
    requires held <= served <= |peer| && Stores(peerMain, peer[..served])
    requires Synced(node.crypto, minterAt, node.State(), peer, held)
    requires from + |queue| <= |peer| && queue == peer[from..from + |queue|]
    requires from <= Max(held, Min(served, (if held == 0 then 0 else held - 1) + 512 * answered))
    modifies node
    ensures var since := if held == 0 then 0 else held - 1;
            var reached := Min(served, since + 512 * answered);
            var end := Max(Max(held, reached), from + |queue|);
            Synced(node.crypto, minterAt, node.State(), peer, end) && Holds(node.State(), peer, end) &&
            received == reached - since && processed == end - held
    ensures 512 * answered > |peer| && (served == |peer| || from + |queue| == |peer|) ==>
            Holds(node.State(), peer, |peer|)
  {
    hide Synced, Stores, Holds;
    SyncedIsHeld(node.crypto, minterAt, node.State(), peer, held);
    LatestIndex(node.State(), peer, held);
    var sinceIndex: nat := if Main in node.info then node.info[Main].latestBlock.index else 0;
    received, processed := SyncBlocks(node, minterAt, peerMain, sinceIndex, answered, peer, served, held);
    ghost var reached := Max(held, Min(served, sinceIndex + PAGE * answered));
    var more := DrainQueue(node, minterAt, queue, peer, from, reached);
    processed := processed + more;
    SyncedIsHeld(node.crypto, minterAt, node.State(), peer, Max(reached, from + |queue|));
  }

  lemma {:induction false} SyncedIsHeld(crypto: Crypto, minterAt: uint64 -> Address, s: State, peer: seq<Block>, n: nat)
    requires Synced(crypto, minterAt, s, peer, n)
    ensures Holds(s, peer, n) && n <= |peer|
  {
  }

  lemma {:induction false} LatestIndex(s: State, peer: seq<Block>, held: nat)
    requires Holds(s, peer, held)
    ensures (Main in s.info) == (held > 0)
    ensures held > 0 ==> s.info[Main].latestBlock.index == held - 1
  {
    assert Main in s.order <==> Main in s.info.Keys;
    if held > 0 {
      assert s.order[0] == Main;
      var lo := ChainRuns.Bottom(s, Main);
      var m, top := BlocksOf(s, Main), s.info[Main].latestBlock.index;
      assert |peer[..held]| == held && top in m && held - 1 in m;
    }
  }
}
