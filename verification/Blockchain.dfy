/**
 The node's chains as the source holds them: one object whose fields are updated
 in place, with the loops of `src/storage/chainstate.ts`, `blockchain.ts`,
 `wallets.ts` and `src/verification/index.ts`. Each method is proved against the
 specification functions of `BlockTree` and `Wallets`.
 */
module Blockchain {
  import opened Common
  import opened Models
  import opened Wallets
  import Tree = BlockTree
  import ChainRuns
  import ReforkSafety

  class Node {
    const crypto: Crypto
    var order: seq<ChainId>
    var info: map<ChainId, ForkChainstate>
    var blocks: map<ChainId, map<nat, Block>>
    var wallets: Stores

    ghost function State(): Tree.State
      reads this
    {
      Tree.State(order, info, blocks, wallets)
    }

    constructor (crypto: Crypto, initial: WalletDb)
      ensures State() == Tree.Fresh(initial) && this.crypto == crypto
    {
      this.crypto := crypto;
      order, info, blocks, wallets := [], map[], map[Main := map[]], map[Main := initial];
    }

    // -------------------------------------------------------------- verification

    method IsBlockChainStateMatching(b: Block) returns (m: Tree.Match)
      requires forall c :: c in order ==> c in info
      ensures m == Tree.MatchBlock(State(), b)
    {
      if b.index == 0 {
        return if Main in info then Tree.Rejected(12533) else Tree.Matching(Main, Main);
      }
      var parent: Option<ChainId> := None;
      var k := 0;
      while k < |order|
        invariant k <= |order| && parent == None
        invariant Tree.FindParent(State(), order, b) == Tree.FindParent(State(), order[k..], b)
      {
        var id := Id(info[order[k]]);
        if id in blocks && b.index - 1 in blocks[id] && blocks[id][b.index - 1].hash == b.previousHash {
          parent := Some(id);
          break;
        }
        k := k + 1;
      }
      if parent == None {
        return Tree.Rejected(12532);
      }
      var p := parent.value;
      if b.index in blocks[p] {
        return if blocks[p][b.index].hash == b.hash then Tree.Rejected(12533) else Tree.Matching(Fork(b.hash), p);
      }
      m := Tree.Matching(p, p);
    }

    method VerifyBlock(b: Block) returns (m: Tree.Match)
      requires forall c :: c in order ==> c in info
      ensures m == Tree.VerifyBlock(crypto, State(), b)
    {
      m := IsBlockChainStateMatching(b);
      if m.Rejected? {
        return;
      }
      if BlockHash(crypto, b) != b.hash {
        return Tree.Rejected(12504);
      }
      var db := DbOf(wallets, Main);
      for i := 0 to |b.transactions|
        invariant forall j :: 0 <= j < i ==> Tree.VerifyTransaction(crypto, db, b.transactions[j]) == 12000
      {
        if Tree.VerifyTransaction(crypto, db, b.transactions[i]) != 12000 {
          return Tree.Rejected(12520);
        }
      }
    }

    // -------------------------------------------------------------- forks

    method CreateFork(target: ChainId, parent: ChainId, base: Block)
      requires target != parent && Tree.CanFork(State(), parent, base)
      requires 0 < base.index <= info[parent].latestBlock.index
      modifies this`blocks, this`wallets
      ensures State() == Tree.CreateFork(old(State()), target, parent, base)
    {
      var own := if target in blocks then blocks[target] else map[];
      var parentBlocks := if parent in blocks then blocks[parent] else map[];
      var parentWallets := DbOf(wallets, parent);
      var kept := Tree.Inherited(own, parent, parentBlocks);
      var forkWallets := Tree.Inherited(DbOf(wallets, target), parent, parentWallets);
      kept, forkWallets :=
        RollBack(parentBlocks, parentWallets, kept, forkWallets, info[parent].latestBlock.index, base.index);
      blocks := blocks[target := kept];
      wallets := wallets[target := forkWallets];
    }

    /**
     The loop of `createFork`. It counts down to the base index, which is positive, so the index does not
     underflow, and every block it asks for is there.
     */
    static method RollBack(parentBlocks: map<nat, Block>, parentWallets: WalletDb, inherited: map<nat, Block>,
                           copied: WalletDb, top: nat, base: nat)
      returns (kept: map<nat, Block>, forkWallets: WalletDb)
      requires 0 < base <= top && Tree.HasRange(parentBlocks, base, top)
      ensures kept == inherited - Tree.Interval(base, top)
      ensures forkWallets == Tree.RollbackRange(parentBlocks, parentWallets, copied, top, base)
    {
      hide Tree.Interval;
      kept, forkWallets := inherited, copied;
      var blockIndex := top;
      assert kept == inherited - Tree.Interval(top + 1, top);
      while blockIndex >= base
        invariant base - 1 <= blockIndex <= top
        invariant kept == inherited - Tree.Interval(blockIndex + 1, top)
        invariant Tree.RollbackRange(parentBlocks, parentWallets, forkWallets, blockIndex, base) ==
                  Tree.RollbackRange(parentBlocks, parentWallets, copied, top, base)
      {
        forkWallets := RollbackBlock(parentWallets, forkWallets, parentBlocks[blockIndex].transactions);
        DeletedToo(inherited, blockIndex, top);
        kept := kept - {blockIndex};
        blockIndex := blockIndex - 1;
      }
    }

    static method RollbackBlock(parent: WalletDb, fork: WalletDb, txs: seq<Transaction>) returns (r: WalletDb)
      ensures r == Tree.RollbackTransactions(parent, fork, txs)
    {
      r := fork;
      for i := 0 to |txs|
        invariant Tree.RollbackTransactions(parent, fork, txs) == Tree.RollbackTransactions(parent, r, txs[i..])
      {
        var senderWallet := new WalletObject(Get(parent, txs[i].senderAddress));
        var recipientWallet := new WalletObject(Get(parent, txs[i].recipientAddress));
        senderWallet.Adjust(-1);
        senderWallet.Add(txs[i].amount);
        recipientWallet.SubtractIfPossible(txs[i].amount);
        r := r[txs[i].senderAddress := senderWallet.Value()];
        r := r[txs[i].recipientAddress := recipientWallet.Value()];
      }
    }

    // -------------------------------------------------------------- wallets

    /** `addMoneyToWallet` or `subtractMoneyFromWallet` on main, when no other task interrupts it. */
    method RunTask(t: Task)
      requires Main in wallets && Main in blocks
      modifies this`wallets
      ensures wallets == ApplyTask(old(wallets), Tree.ForksOf(order), t)
    {
      ghost var before, read := wallets, Get(wallets[Main], t.address);
      var wallet := new WalletObject(Get(wallets[Main], t.address));
      var k := 0;
      Tree.ForksOfEmpty();
      while k < |order|
        invariant k <= |order| && wallet.Value() == read
        invariant OfferAll(wallets, Tree.ForksOf(order[k..]), t.address, read) ==
                  OfferAll(before, Tree.ForksOf(order), t.address, read)
        modifies this`wallets
      {
        Tree.ForksOfStep(order[k..]);
        assert order[k..][1..] == order[k + 1..];
        ghost var rest := Tree.ForksOf(order[k + 1..]);
        assert ([order[k]] + rest)[1..] == rest && [] + rest == rest;
        if order[k] != Main {
          var db := DbOf(wallets, order[k]);
          if t.address !in db {
            wallets := wallets[order[k] := db[t.address := wallet.Value()]];
          }
        }
        k := k + 1;
      }
      match t {
        case Debit(_, amount) =>
          wallet.Adjust(1);
          wallet.SubtractIfPossible(amount);
        case Credit(_, amount) =>
          wallet.Add(amount);
      }
      wallets := wallets[Main := DbOf(wallets, Main)[t.address := wallet.Value()]];
    }

    /** `adjustWalletsByBlock`: all tasks are started, and an arbitrary scheduler runs them to completion. */
    method AdjustWalletsByBlock(b: Block)
      modifies this`wallets
      ensures Tree.WalletOutcome(old(wallets), b, Tree.ForksOf(order), wallets)
    {
      var tasks, forks := TasksOf(b.transactions), Tree.ForksOf(order);
      var cfg := Init(wallets, tasks);
      ghost var schedule: seq<Event> := [];
      ghost var start := cfg;
      while !Complete(cfg)
        invariant |cfg.pcs| == |tasks| && cfg == RunAll(start, tasks, forks, schedule)
        decreases Remaining(cfg.pcs, |forks|) + |cfg.pending|
      {
        var someTask := exists i :: 0 <= i < |cfg.pcs| && cfg.pcs[i] != Finished;
        var e: Event;
        var landNow: bool := *;
        if cfg.pending != {} && (!someTask || landNow) {
          var p :| p in cfg.pending;
          e := Land(p);
        } else {
          var i: nat :| i < |cfg.pcs| && cfg.pcs[i] != Finished;
          e := Run(i);
        }
        Progress(cfg, tasks, forks, e);
        RunAppend(start, tasks, forks, schedule, [e]);
        schedule := schedule + [e];
        cfg := Step(cfg, tasks, forks, e);
      }
      wallets := cfg.stores;
    }

    // -------------------------------------------------------------- execution

    method UpdateChainStateByBlock(chainId: ChainId, parentChain: ChainId, b: Block)
      modifies this`order, this`info
      ensures State() == Tree.UpdateChainState(crypto, old(State()), chainId, parentChain, b)
    {
      var chain: ForkChainstate;
      if chainId !in info {
        chain := ForkChainstate([], if parentChain in info then info[parentChain].base.hash else Repeat(0, 32), b, b);
        order := order + [chainId];
      } else {
        chain := info[chainId].(latestBlock := b);
      }
      info := info[chainId := chain.(stateHash := StateHash(crypto, chain.parentChain, chain.base, chain.latestBlock))];
    }

    method AddBlock(c: ChainId, b: Block)
      modifies this`blocks
      ensures State() == Tree.AddBlock(old(State()), c, b)
    {
      var own := if c in blocks then blocks[c] else map[];
      if b.index !in own {
        blocks := blocks[c := own[b.index := b]];
      }
    }

    /** `executeBlock`, given a successful verification of the block. */
    method ExecuteBlock(b: Block, target: ChainId, parent: ChainId) returns (forked: bool)
      requires Tree.VerifyBlock(crypto, State(), b) == Tree.Matching(target, parent)
      requires target != parent ==> Tree.CanFork(State(), parent, b) && 0 < b.index <= info[parent].latestBlock.index
      modifies this`order, this`info, this`blocks, this`wallets
      ensures Tree.Next(crypto, old(State()), b, State()) && forked == (target != parent)
    {
      forked := false;
      if target != parent {
        CreateFork(target, parent, b);
        forked := true;
      }
      AddBlock(target, b);
      UpdateChainStateByBlock(target, parent, b);
      assert State() == Tree.ExecuteTree(crypto, old(State()), target, parent, b);
      if target == Main {
        AdjustWalletsByBlock(b);
      }
    }

    /** A received block: verified, and executed if it is valid. */
    method SubmitBlock(b: Block) returns (m: Tree.Match)
      requires Tree.Inv(State())
      modifies this`order, this`info, this`blocks, this`wallets
      ensures m == Tree.VerifyBlock(crypto, old(State()), b)
      ensures Tree.Next(crypto, old(State()), b, State())
      ensures Tree.Inv(State()) && ChainRuns.Grows(old(State()), State()) <==>
              ReforkSafety.SafeToSubmit(crypto, old(State()), b)
    {
      ghost var before := State();
      assert forall c :: c in order ==> c in info;
      m := VerifyBlock(b);
      if m.Matching? {
        ForkIsPossible(before, b, m.target, m.parent);
        var _ := ExecuteBlock(b, m.target, m.parent);
      }
      hide Tree.Inv, Tree.VerifyBlock, ChainRuns.Grows, ReforkSafety.SafeToSubmit;
      ReforkSafety.NextSafeIff(crypto, before, b, State());
    }
  }

  lemma {:induction false} DeletedToo(blocks: map<nat, Block>, lo: nat, hi: int)
    requires lo <= hi
    ensures blocks - Tree.Interval(lo + 1, hi) - {lo} == blocks - Tree.Interval(lo, hi)
  {
    hide Tree.Interval;
  }

  lemma {:induction false} ForkIsPossible(s: Tree.State, b: Block, target: ChainId, parent: ChainId)
    requires Tree.Inv(s) && Tree.MatchBlock(s, b) == Tree.Matching(target, parent)
    ensures target != parent ==> Tree.CanFork(s, parent, b) && 0 < b.index <= s.info[parent].latestBlock.index
  {
    Tree.MatchBlockMeaning(s, b);
  }

  // ---------------------------------------------------------------- the scheduler terminates

  /** The most events that a task can still take, offers that land included. */
  function StepsLeft(pc: Pc, forks: nat): nat {
    match pc
    case Start => 2 * forks + 2
    case Copying(k, _) => if k < forks then 2 * (forks - k) + 1 else 1
    case Finished => 0
  }

  function Remaining(pcs: seq<Pc>, forks: nat): nat {
    if pcs == [] then 0 else StepsLeft(pcs[0], forks) + Remaining(pcs[1..], forks)
  }

  lemma {:induction false} RemainingUpdate(pcs: seq<Pc>, forks: nat, i: nat, pc: Pc)
    requires i < |pcs|
    ensures Remaining(pcs[i := pc], forks) == Remaining(pcs, forks) - StepsLeft(pcs[i], forks) + StepsLeft(pc, forks)
  {
    if i > 0 {
      RemainingUpdate(pcs[1..], forks, i - 1, pc);
      assert pcs[i := pc][1..] == pcs[1..][i - 1 := pc];
    } else {
      assert pcs[i := pc][1..] == pcs[1..];
    }
  }

  lemma {:induction false} Progress(cfg: Config, tasks: seq<Task>, forks: seq<ChainId>, e: Event)
    requires |cfg.pcs| == |tasks|
    requires match e
             case Land(p) => p in cfg.pending
             case Run(i) => i < |tasks| && cfg.pcs[i] != Finished
    ensures var next := Step(cfg, tasks, forks, e);
            Remaining(next.pcs, |forks|) + |next.pending| < Remaining(cfg.pcs, |forks|) + |cfg.pending|
  {
    var next := Step(cfg, tasks, forks, e);
    if e.Run? {
      RemainingUpdate(cfg.pcs, |forks|, e.task, next.pcs[e.task]);
    }
  }
}
