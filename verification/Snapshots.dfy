/**
 Forks as snapshots of the ledger. A fork off main reads its own stored wallet,
 or else main's current one. Over every run this is the wallet main had just
 before it executed the block the fork competes with: the rollback in
 `createFork` restores what later blocks of main had changed by then, and the
 first-touch copies in the wallet tasks preserve what they change afterwards.
 */
module Snapshots {
  import opened Common
  import opened Models
  import opened Wallets
  import opened BlockTree
  import opened ChainRuns
  import opened Conservation

  /** The wallet of `a` on fork `c`: the fork's own if it has one, else main's. */
  function View(stores: Stores, c: ChainId, a: Address): Wallet {
    if a in DbOf(stores, c) then DbOf(stores, c)[a] else Get(DbOf(stores, Main), a)
  }

  /** Main's wallets just before block `k` is executed, when the node started with the wallets `initial`. */
  ghost function WalletsBefore(initial: WalletDb, main: map<nat, Block>, k: nat): WalletDb
    requires HasRange(main, 0, k - 1)
  {
    if k == 0 then initial else MainRun(WalletsBefore(initial, main, k - 1), TasksOf(main[k - 1].transactions))
  }

  /** The tasks of main's blocks `lo .. hi - 1`. */
  ghost function RangeTasks(main: map<nat, Block>, lo: nat, hi: nat): seq<Task>
    requires HasRange(main, lo, hi - 1)
    decreases hi
  {
    if hi <= lo then [] else RangeTasks(main, lo, hi - 1) + TasksOf(main[hi - 1].transactions)
  }

  lemma {:induction false} WalletsBeforeRange(initial: WalletDb, main: map<nat, Block>, lo: nat, hi: nat)
    requires HasRange(main, 0, hi - 1) && lo <= hi
    ensures WalletsBefore(initial, main, hi) == MainRun(WalletsBefore(initial, main, lo), RangeTasks(main, lo, hi))
    decreases hi
  {
    if lo < hi {
      WalletsBeforeRange(initial, main, lo, hi - 1);
      MainRunAppend(WalletsBefore(initial, main, lo), RangeTasks(main, lo, hi - 1), TasksOf(main[hi - 1].transactions));
    }
  }

  lemma {:induction false} WalletsBeforeFrame(initial: WalletDb, main: map<nat, Block>, main': map<nat, Block>, k: nat)
    requires HasRange(main, 0, k - 1) && Extends(main, main')
    ensures HasRange(main', 0, k - 1) && WalletsBefore(initial, main', k) == WalletsBefore(initial, main, k)
  {
    if k > 0 {
      WalletsBeforeFrame(initial, main, main', k - 1);
    }
  }

  // ---------------------------------------------------------------- blocks that main has executed

  /** No balance overflows when it is credited. */
  predicate Fits(db: WalletDb, txs: seq<Transaction>) {
    forall i :: 0 <= i < |txs| ==> Get(db, txs[i].recipientAddress).balance + txs[i].amount < TWO_TO_THE_64
  }

  ghost predicate BlockOk(db: WalletDb, b: Block) {
    DistinctTasks(TasksOf(b.transactions)) && Covered(db, b.transactions) && Fits(db, b.transactions)
  }

  /** The next free index of main. */
  function MainHeight(s: State): nat {
    if Main in s.info then s.info[Main].latestBlock.index + 1 else 0
  }

  /** Each of main's blocks could be executed in full when its turn came. */
  ghost predicate History(initial: WalletDb, main: map<nat, Block>, height: nat) {
    HasRange(main, 0, height - 1) && forall k: nat :: k < height ==> BlockOk(WalletsBefore(initial, main, k), main[k])
  }

  /** A fork that branches off main itself: its base block is its lowest. */
  predicate OffMain(s: State, c: ChainId) {
    c != Main && c in s.info && s.info[c].base.index > 0 && GetBlock(s, c, s.info[c].base.index - 1) == None
  }

  /** The fork shows main's wallets as they were just before main's block at the fork's base index. */
  ghost predicate IsSnapshot(initial: WalletDb, s: State, c: ChainId)
    requires OffMain(s, c)
  {
    var k := s.info[c].base.index;
    HasRange(BlocksOf(s, Main), 0, k - 1) &&
    forall a: Address :: View(s.wallets, c, a) == Get(WalletsBefore(initial, BlocksOf(s, Main), k), a)
  }

  /**
   What every submission keeps, a harmful re-fork included: the dictionary is in order,
   each chain has its block file and its database, and main's blocks reach from genesis to
   its latest one.
   */
  ghost predicate Tracked(s: State) {
    Filed(s) && Opened(s) &&
    (Main !in s.info ==> s.blocks[Main] == map[]) &&
    (Main in s.info ==> LinkedFrom(BlocksOf(s, Main), BlocksOf(s, Main), Main, s.info[Main], 0))
  }

  ghost predicate Opened(s: State) {
    s.blocks.Keys == s.info.Keys + {Main} && s.wallets.Keys == s.info.Keys + {Main}
  }

  ghost predicate SnapshotInv(initial: WalletDb, s: State) {
    Tracked(s) && Total(DbOf(s.wallets, Main)) == Total(initial) &&
    History(initial, BlocksOf(s, Main), MainHeight(s)) &&
    DbOf(s.wallets, Main) == WalletsBefore(initial, BlocksOf(s, Main), MainHeight(s)) &&
    forall c :: OffMain(s, c) ==> IsSnapshot(initial, s, c)
  }

  // ---------------------------------------------------------------- rollback

  /** Undoing the transaction from the parent's wallets gives the wallets of `target`. */
  ghost predicate Restores(parent: WalletDb, target: WalletDb, tx: Transaction) {
    AddMoney(AdjustNonce(Get(parent, tx.senderAddress), -1), tx.amount) == Get(target, tx.senderAddress) &&
    SubtractMoneyIfPossible(Get(parent, tx.recipientAddress), tx.amount) == Get(target, tx.recipientAddress)
  }

  ghost predicate AgreesWith(db: WalletDb, target: WalletDb) {
    forall a :: a in db ==> db[a] == Get(target, a)
  }

  lemma {:induction false} RollbackTransactionsRestores(parent: WalletDb, fork: WalletDb, txs: seq<Transaction>,
                                                        target: WalletDb)
    requires AgreesWith(fork, target) && forall i :: 0 <= i < |txs| ==> Restores(parent, target, txs[i])
    ensures var r := RollbackTransactions(parent, fork, txs);
            AgreesWith(r, target) && fork.Keys <= r.Keys &&
            forall i :: 0 <= i < |txs| ==> txs[i].senderAddress in r && txs[i].recipientAddress in r
    decreases txs
  {
    if txs != [] {
      assert Restores(parent, target, txs[0]);
      var next := RollbackTransaction(parent, fork, txs[0]);
      RollbackTransactionsRestores(parent, next, txs[1..], target);
      var r := RollbackTransactions(parent, next, txs[1..]);
      forall i | 0 <= i < |txs|
        ensures txs[i].senderAddress in r && txs[i].recipientAddress in r
      {
        if i > 0 { assert txs[1..][i - 1] == txs[i]; }
      }
    }
  }

  lemma {:induction false} RollbackRangeRestores(blocks: map<nat, Block>, parent: WalletDb, fork: WalletDb, hi: int,
                                                 lo: nat, target: WalletDb)
    requires HasRange(blocks, lo, hi) && AgreesWith(fork, target)
    requires forall k: nat, i :: lo <= k <= hi && 0 <= i < |blocks[k].transactions| ==>
               Restores(parent, target, blocks[k].transactions[i])
    ensures var r := RollbackRange(blocks, parent, fork, hi, lo);
            AgreesWith(r, target) && fork.Keys <= r.Keys &&
            forall k: nat, i :: lo <= k <= hi && 0 <= i < |blocks[k].transactions| ==>
              blocks[k].transactions[i].senderAddress in r && blocks[k].transactions[i].recipientAddress in r
    decreases hi - lo
  {
    if hi >= lo {
      RollbackTransactionsRestores(parent, fork, blocks[hi].transactions, target);
      var next := RollbackTransactions(parent, fork, blocks[hi].transactions);
      RollbackRangeRestores(blocks, parent, next, hi - 1, lo, target);
    }
  }

  lemma {:induction false} UndoDebit(w: Wallet, a: Address, amount: uint64)
    requires w.balance >= amount
    ensures AddMoney(AdjustNonce(Effect(Debit(a, amount), w), -1), amount) == w
  {
  }

  lemma {:induction false} UndoCredit(w: Wallet, a: Address, amount: uint64)
    requires w.balance + amount < TWO_TO_THE_64
    ensures SubtractMoneyIfPossible(Effect(Credit(a, amount), w), amount) == w
  {
  }

  /** Where the tasks of block `k` stand among those of the range. */
  lemma {:induction false} RangeTasksAt(main: map<nat, Block>, lo: nat, hi: nat, k: nat)
    returns (offset: nat)
    requires HasRange(main, lo, hi - 1) && lo <= k < hi
    ensures offset == |RangeTasks(main, lo, k)|
    ensures offset + |TasksOf(main[k].transactions)| <= |RangeTasks(main, lo, hi)|
    ensures forall j :: 0 <= j < offset ==> RangeTasks(main, lo, hi)[j] == RangeTasks(main, lo, k)[j]
    ensures forall j :: 0 <= j < |TasksOf(main[k].transactions)| ==>
              RangeTasks(main, lo, hi)[offset + j] == TasksOf(main[k].transactions)[j]
    decreases hi
  {
    offset := |RangeTasks(main, lo, k)|;
    var front, last := RangeTasks(main, lo, hi - 1), TasksOf(main[hi - 1].transactions);
    assert RangeTasks(main, lo, hi) == front + last;
    hide RangeTasks, TasksOf;
    if k < hi - 1 {
      var _ := RangeTasksAt(main, lo, hi - 1, k);
    }
  }

  /** An address of block `k` occurs in no earlier block of a range with distinct addresses. */
  lemma {:induction false} UntouchedEarlier(main: map<nat, Block>, lo: nat, hi: nat, k: nat, j: nat)
    requires HasRange(main, lo, hi - 1) && lo <= k < hi && DistinctTasks(RangeTasks(main, lo, hi))
    requires j < |TasksOf(main[k].transactions)|
    ensures DistinctTasks(RangeTasks(main, lo, k))
    ensures !Touched(RangeTasks(main, lo, k), TasksOf(main[k].transactions)[j].address)
    ensures TasksOf(main[k].transactions)[j] in RangeTasks(main, lo, hi)
  {
    var offset := RangeTasksAt(main, lo, hi, k);
    var all, early, t := RangeTasks(main, lo, hi), RangeTasks(main, lo, k), TasksOf(main[k].transactions)[j];
    assert all[offset + j] == t;
    forall i | 0 <= i < |early|
      ensures early[i].address != t.address
    {
      assert all[i] == early[i];
    }
    forall i, i' | 0 <= i < i' < |early|
      ensures early[i].address != early[i'].address
    {
      assert all[i] == early[i] && all[i'] == early[i'];
    }
  }

  /** Undoing any transaction of the range from main's current wallets gives the wallets from before the range. */
  lemma {:induction false} RangeRestores(initial: WalletDb, main: map<nat, Block>, lo: nat, hi: nat, k: nat, i: nat)
    requires History(initial, main, hi) && lo <= k < hi
    requires DistinctTasks(RangeTasks(main, lo, hi)) && i < |main[k].transactions|
    ensures Restores(WalletsBefore(initial, main, hi), WalletsBefore(initial, main, lo), main[k].transactions[i])
  {
    hide MainRun, Effect, AddMoney, AdjustNonce, SubtractMoneyIfPossible, TasksOf, RangeTasks, WalletsBefore,
         DistinctTasks;
    var start, mid := WalletsBefore(initial, main, lo), WalletsBefore(initial, main, k);
    var now := WalletsBefore(initial, main, hi);
    var tx := main[k].transactions[i];
    TasksOfAt(main[k].transactions, i);
    UntouchedEarlier(main, lo, hi, k, 2 * i);
    UntouchedEarlier(main, lo, hi, k, 2 * i + 1);
    WalletsBeforeRange(initial, main, lo, k);
    MainRunDistinct(start, RangeTasks(main, lo, k));
    WalletsBeforeRange(initial, main, lo, hi);
    MainRunDistinct(start, RangeTasks(main, lo, hi));
    assert BlockOk(mid, main[k]);
    assert SameAt(start, mid, tx.senderAddress) && SameAt(start, mid, tx.recipientAddress);
    UndoDebit(Get(start, tx.senderAddress), tx.senderAddress, tx.amount);
    UndoCredit(Get(start, tx.recipientAddress), tx.recipientAddress, tx.amount);
  }

  /** A task of the range belongs to the sender or the recipient of a transaction of one of its blocks. */
  lemma {:induction false} RangeTaskOrigin(main: map<nat, Block>, lo: nat, hi: nat, j: nat)
    returns (k: nat, i: nat)
    requires HasRange(main, lo, hi - 1) && j < |RangeTasks(main, lo, hi)|
    ensures lo <= k < hi && i < |main[k].transactions|
    ensures RangeTasks(main, lo, hi)[j].address == main[k].transactions[i].senderAddress ||
            RangeTasks(main, lo, hi)[j].address == main[k].transactions[i].recipientAddress
    decreases hi
  {
    var before := |RangeTasks(main, lo, hi - 1)|;
    if j < before {
      k, i := RangeTaskOrigin(main, lo, hi - 1, j);
    } else {
      k, i := hi - 1, (j - before) / 2;
      TasksOfAt(main[hi - 1].transactions, i);
    }
  }

  /** A wallet that no transaction of the range names is the same before and after it. */
  lemma {:induction false} UntouchedByRange(initial: WalletDb, main: map<nat, Block>, lo: nat, hi: nat, a: Address)
    requires lo <= hi && HasRange(main, 0, hi - 1) && DistinctTasks(RangeTasks(main, lo, hi))
    requires forall k: nat, i :: lo <= k <= hi - 1 && 0 <= i < |main[k].transactions| ==>
               main[k].transactions[i].senderAddress != a && main[k].transactions[i].recipientAddress != a
    ensures SameAt(WalletsBefore(initial, main, lo), WalletsBefore(initial, main, hi), a)
  {
    hide MainRun, DistinctTasks;
    forall j | 0 <= j < |RangeTasks(main, lo, hi)|
      ensures RangeTasks(main, lo, hi)[j].address != a
    {
      var k, i := RangeTaskOrigin(main, lo, hi, j);
    }
    WalletsBeforeRange(initial, main, lo, hi);
    MainRunDistinct(WalletsBefore(initial, main, lo), RangeTasks(main, lo, hi));
  }

  /**
   Rolled back from main's current wallets, a fork shows the wallets from before the range,
   whether it is new or held some of those wallets already.
   */
  lemma {:induction false} RollbackIsSnapshot(initial: WalletDb, main: map<nat, Block>, lo: nat, hi: nat,
                                              own: WalletDb, a: Address)
    requires lo <= hi && History(initial, main, hi) && DistinctTasks(RangeTasks(main, lo, hi))
    requires AgreesWith(own, WalletsBefore(initial, main, lo))
    ensures var now := WalletsBefore(initial, main, hi);
            var fork := RollbackRange(main, now, own, hi - 1, lo);
            (if a in fork then fork[a] else Get(now, a)) == Get(WalletsBefore(initial, main, lo), a)
  {
    hide Restores, WalletsBefore, DistinctTasks, RangeTasks, RollbackRange, BlockOk;
    var start, now := WalletsBefore(initial, main, lo), WalletsBefore(initial, main, hi);
    forall k: nat, i: nat | lo <= k <= hi - 1 && 0 <= i < |main[k].transactions|
      ensures Restores(now, start, main[k].transactions[i])
    {
      RangeRestores(initial, main, lo, hi, k, i);
    }
    RollbackRangeRestores(main, now, own, hi - 1, lo, start);
    if a !in RollbackRange(main, now, own, hi - 1, lo) {
      UntouchedByRange(initial, main, lo, hi, a);
    }
  }

  // ---------------------------------------------------------------- first-touch copies

  /** However a block's tasks race, no fork sees any of them. */
  lemma {:induction false} ViewsStay(before: Stores, tasks: seq<Task>, forks: seq<ChainId>, schedule: seq<Event>,
                                     c: ChainId, a: Address)
    requires Proper(before, forks) && ConflictFree(tasks) && c in forks
    requires Complete(RunAll(Init(before, tasks), tasks, forks, schedule))
    ensures View(RunAll(Init(before, tasks), tasks, forks, schedule).stores, c, a) == View(before, c, a)
  {
    hide RunAll, ConflictFree;
    var end := RunAll(Init(before, tasks), tasks, forks, schedule);
    MidBlockInit(before, tasks, forks);
    MidBlockAlways(before, tasks, forks, Init(before, tasks), schedule);
    ViewAfter(before, tasks, forks, end, c, a);
  }

  lemma {:induction false} ViewAfter(before: Stores, tasks: seq<Task>, forks: seq<ChainId>, end: Config, c: ChainId,
                                     a: Address)
    requires Proper(before, forks) && c in forks && |end.pcs| == |tasks|
    requires MidBlock(before, tasks, forks, end) && Complete(end)
    ensures View(end.stores, c, a) == View(before, c, a)
  {
    var j :| 0 <= j < |forks| && forks[j] == c;
    assert ForkProgress(before[Main], before[c], end.stores[c], a, tasks);
    if a !in before[c] {
      if Touched(tasks, a) {
        var i :| 0 <= i < |tasks| && tasks[i].address == a;
        assert Passed(end.pcs[i], j);
      } else {
        assert SameAt(before[Main], end.stores[Main], a);
      }
    }
  }

  // ---------------------------------------------------------------- the invariant over runs

  /**
   What the snapshot property asks of the submitted blocks: main's blocks have
   pairwise distinct addresses, and so have the blocks of main that a new fork
   rolls back, taken together.
   */
  ghost predicate GoodStep(s: State, b: Block) {
    match MatchBlock(s, b)
    case Rejected(_) => true
    case Matching(target, parent) =>
      (target == Main ==> DistinctTasks(TasksOf(b.transactions))) &&
      (target != parent && parent == Main ==>
        HasRange(BlocksOf(s, Main), b.index, MainHeight(s) - 1) &&
        DistinctTasks(RangeTasks(BlocksOf(s, Main), b.index, MainHeight(s))))
  }

  /** An existing fork is started anew only by a block at the index of its base, whose hash it has. */
  ghost predicate OwnIndex(s: State, b: Block) {
    match MatchBlock(s, b)
    case Rejected(_) => true
    case Matching(target, parent) => Reforks(s, b) ==> s.info[target].base.index == b.index
  }

  /** The forks of `e` are those of `s`, with the same records and blocks. */
  ghost predicate SameForks(s: State, e: State) {
    (forall c :: c != Main ==> (c in e.info <==> c in s.info)) &&
    (forall c :: c != Main ==> BlocksOf(e, c) == BlocksOf(s, c)) &&
    forall c :: c != Main && c in s.info && c in e.info ==> e.info[c] == s.info[c]
  }

  /** Everything but the target chain stays as it is. */
  lemma {:induction false} TreeFrame(crypto: Crypto, s: State, b: Block, target: ChainId, parent: ChainId)
    requires target != parent ==> CanFork(s, parent, b)
    ensures var e := ExecuteTree(crypto, s, target, parent, b);
            e.blocks.Keys == s.blocks.Keys + {target} && e.info.Keys == s.info.Keys + {target} &&
            e.wallets.Keys == s.wallets.Keys + (if target == parent then {} else {target}) &&
            (target == parent ==> e.wallets == s.wallets) &&
            forall d :: d != target ==>
              BlocksOf(e, d) == BlocksOf(s, d) && DbOf(e.wallets, d) == DbOf(s.wallets, d) &&
              (d in e.info <==> d in s.info) && (d in s.info ==> e.info[d] == s.info[d])
  {
    hide ExecuteTree, CanFork;
    TreeUpdates(crypto, s, b, target, parent);
  }

  /** Below the block, the target keeps what it has and gets what is copied. */
  lemma {:induction false} BelowBlock(crypto: Crypto, s: State, b: Block, target: ChainId, parent: ChainId, i: nat)
    requires target != parent ==> CanFork(s, parent, b)
    requires i < b.index
    requires GetBlock(s, target, i).Some? || (target != parent && parent != Main && GetBlock(s, parent, i).Some?)
    ensures GetBlock(ExecuteTree(crypto, s, target, parent, b), target, i).Some?
  {
    hide StateHash, Repeat, RollbackRange;
  }

  /** A verdict on a tracked state. */
  lemma {:induction false} VerdictOnTracked(s: State, b: Block)
    requires Tracked(s) && MatchBlock(s, b).Matching?
    ensures var Matching(target, parent) := MatchBlock(s, b);
            (target == Main ==> parent == Main && b.index == MainHeight(s) && b.index !in BlocksOf(s, Main)) &&
            (target == Main && b.index > 0 ==> Main in s.info && HoldsPrevious(s, Main, b)) &&
            (b.index == 0 ==> s.info == map[] && target == Main) &&
            (target != Main ==> Main in s.info && parent in s.info && HoldsPrevious(s, parent, b)) &&
            (target == parent != Main ==> target in s.info) &&
            (target != parent ==> target != Main && (Reforks(s, b) <==> target in s.info)) &&
            (target != parent && parent == Main ==> b.index < MainHeight(s))
  {
    VerdictOnFiled(s, b);
    OrderIsEmpty(s);
    hide Id, OrderOk;
  }

  lemma {:induction false} OpenedGoesOn(s: State, e: State, target: ChainId, parent: ChainId)
    requires Opened(s) && (target == parent ==> target in s.info || target == Main)
    requires e.blocks.Keys == s.blocks.Keys + {target} && e.info.Keys == s.info.Keys + {target}
    requires e.wallets.Keys == s.wallets.Keys + (if target == parent then {} else {target})
    ensures Opened(e)
  {
  }

  lemma {:induction false} MainGoesOn(s: State, e: State)
    requires Tracked(s) && Filed(e) && Opened(e) && Main in s.info && Main in e.info
    requires BlocksOf(e, Main) == BlocksOf(s, Main) && e.info[Main] == s.info[Main]
    ensures Tracked(e)
  {
    hide LinkedFrom, Filed, Opened;
  }

  lemma {:induction false} MainIsTracked(e: State)
    requires Filed(e) && Opened(e) && Main in e.info
    requires LinkedFrom(BlocksOf(e, Main), BlocksOf(e, Main), Main, e.info[Main], 0)
    ensures Tracked(e)
  {
    hide LinkedFrom, Filed, Opened;
  }

  /** Executing any accepted block keeps this. */
  lemma {:induction false} TreeTracked(crypto: Crypto, s: State, b: Block, target: ChainId, parent: ChainId)
    requires Tracked(s) && MatchBlock(s, b) == Matching(target, parent) && (target != parent ==> CanFork(s, parent, b))
    requires Filed(ExecuteTree(crypto, s, target, parent, b))
    ensures Tracked(ExecuteTree(crypto, s, target, parent, b))
  {
    VerdictOnTracked(s, b);
    TreeFrame(crypto, s, b, target, parent);
    TrackedIsOpened(s);
    var e := ExecuteTree(crypto, s, target, parent, b);
    hide ExecuteTree, CanFork, MatchBlock, Filed, Reforks, LinkedFrom, HoldsPrevious, GetBlock, Tracked, Opened,
         OrderOk;
    OpenedGoesOn(s, e, target, parent);
    if target == Main {
      MainTracked(crypto, s, b);
      MainIsTracked(e);
    } else {
      MainGoesOn(s, e);
    }
  }

  lemma {:induction false} MainTracked(crypto: Crypto, s: State, b: Block)
    requires Tracked(s) && b.index == MainHeight(s) && b.index !in BlocksOf(s, Main)
    requires b.index > 0 ==> Main in s.info && HoldsPrevious(s, Main, b)
    requires b.index == 0 ==> s.info == map[]
    ensures var e := ExecuteTree(crypto, s, Main, Main, b);
            Main in e.info && LinkedFrom(BlocksOf(e, Main), BlocksOf(e, Main), Main, e.info[Main], 0)
  {
    var e := ExecuteTree(crypto, s, Main, Main, b);
    hide ExecuteTree, LinkedFrom, Filed;
    if b.index == 0 {
      GenesisShape(crypto, s, b);
      GenesisLinked(e.info[Main], b);
    } else {
      MainChildShape(crypto, s, b);
      ChildShape(crypto, s, b, Main);
      MainChildLinked(BlocksOf(s, Main), BlocksOf(e, Main), s.info[Main], e.info[Main], b);
    }
  }

  lemma {:induction false} GenesisLinked(chain: ForkChainstate, b: Block)
    requires b.index == 0 && chain.base == chain.latestBlock == b
    ensures LinkedFrom(map[0 := b], map[0 := b], Main, chain, 0)
  {
  }

  lemma {:induction false} MainChildLinked(main: map<nat, Block>, main': map<nat, Block>, chain: ForkChainstate,
                                           chain': ForkChainstate, b: Block)
    requires LinkedFrom(main, main, Main, chain, 0) && main' == WithBlock(main, b)
    requires b.index == chain.latestBlock.index + 1 && main[chain.latestBlock.index].hash == b.previousHash
    requires chain'.base == chain.base && chain'.latestBlock == b
    ensures LinkedFrom(main', main', Main, chain', 0)
  {
  }

  lemma {:induction false} WalletsUntracked(s: State, s': State)
    requires Tracked(s) && s' == s.(wallets := s'.wallets) && s'.wallets.Keys == s.wallets.Keys
    ensures Tracked(s')
  {
    hide LinkedFrom, OrderOk;
  }

  /** A block for main goes on top of main and leaves the forks alone until its tasks run. */
  lemma {:induction false} MainShape(crypto: Crypto, s: State, b: Block)
    requires Tracked(s) && MatchBlock(s, b) == Matching(Main, Main)
    ensures b.index == MainHeight(s) && b.index !in BlocksOf(s, Main)
    ensures var e := ExecuteTree(crypto, s, Main, Main, b);
            e.wallets == s.wallets && BlocksOf(e, Main) == WithBlock(BlocksOf(s, Main), b) &&
            MainHeight(e) == MainHeight(s) + 1 && SameForks(s, e)
  {
    VerdictOnTracked(s, b);
    hide MatchBlock, ExecuteTree, SameForks, WithBlock, LinkedFrom;
    if b.index == 0 {
      GenesisShape(crypto, s, b);
    } else {
      MainChildShape(crypto, s, b);
    }
  }

  lemma {:induction false} MainChildShape(crypto: Crypto, s: State, b: Block)
    requires Main in s.info && Main in s.blocks && b.index !in s.blocks[Main]
    ensures var e := ExecuteTree(crypto, s, Main, Main, b);
            e.wallets == s.wallets && BlocksOf(e, Main) == WithBlock(BlocksOf(s, Main), b) &&
            MainHeight(e) == b.index + 1 && SameForks(s, e)
  {
    hide ExecuteTree, WithBlock;
    ChildShape(crypto, s, b, Main);
  }

  lemma {:induction false} ForksListed(s: State)
    requires Filed(s) && Opened(s)
    ensures Proper(s.wallets, ForksOf(s.order))
    ensures forall c :: c in s.info && c != Main ==> c in ForksOf(s.order)
  {
  }

  lemma {:induction false} GenesisShape(crypto: Crypto, s: State, b: Block)
    requires s.info == map[] && Main in s.blocks && s.blocks[Main] == map[] && b.index == 0
    ensures var e := ExecuteTree(crypto, s, Main, Main, b);
            e.wallets == s.wallets && BlocksOf(e, Main) == WithBlock(BlocksOf(s, Main), b) &&
            MainHeight(e) == 1 && SameForks(s, e)
  {
    hide StateHash, Repeat;
  }

  lemma {:induction false} ValidBlockOk(crypto: Crypto, db: WalletDb, b: Block)
    requires TransactionsValid(crypto, db, b.transactions) && DistinctTasks(TasksOf(b.transactions))
    requires Total(db) < TWO_TO_THE_64
    ensures BlockOk(db, b)
  {
    hide Total, DistinctTasks, TransactionHash, TasksOf;
    forall i | 0 <= i < |b.transactions|
      ensures Get(db, b.transactions[i].senderAddress).balance >= b.transactions[i].amount
      ensures Get(db, b.transactions[i].recipientAddress).balance + b.transactions[i].amount < TWO_TO_THE_64
    {
      assert VerifyTransaction(crypto, db, b.transactions[i]) == 12000;
      SenderIsNotRecipient(b.transactions, i);
      PaymentsFit(db, b.transactions[i]);
    }
  }

  /** A block on main: its own history goes on, and every fork still shows what it showed. */
  lemma {:induction false} MainStepKeepsSnapshots(crypto: Crypto, initial: WalletDb, s: State, b: Block, s': State)
    requires SnapshotInv(initial, s) && Total(initial) < TWO_TO_THE_64
    requires VerifyBlock(crypto, s, b) == Matching(Main, Main) && Next(crypto, s, b, s') && Filed(s')
    requires DistinctTasks(TasksOf(b.transactions))
    ensures SnapshotInv(initial, s')
  {
    hide Tracked, Filed, Next, VerifyBlock, SameForks, Total, DistinctTasks, WalletOutcome, History, ForksOf,
         TransactionsValid, WalletsBefore, TasksOf, IsSnapshot, Proper, WithBlock, BlocksOf, MainHeight;
    MainStepShape(crypto, s, b, s');
    MainIsOpen(s);
    MainWalletsGoOn(crypto, initial, BlocksOf(s, Main), MainHeight(s), s.wallets, b, ForksOf(s'.order), s'.wallets);
    SnapshotsGoOn(initial, s, b, s', ForksOf(s'.order));
  }

  lemma {:induction false} MainStepShape(crypto: Crypto, s: State, b: Block, s': State)
    requires Tracked(s) && Filed(s')
    requires VerifyBlock(crypto, s, b) == Matching(Main, Main) && Next(crypto, s, b, s')
    ensures b.index == MainHeight(s) && MainHeight(s) !in BlocksOf(s, Main) && MainHeight(s') == MainHeight(s) + 1
    ensures BlocksOf(s', Main) == WithBlock(BlocksOf(s, Main), b) && SameForks(s, s') && Tracked(s')
    ensures TransactionsValid(crypto, DbOf(s.wallets, Main), b.transactions)
    ensures Proper(s.wallets, ForksOf(s'.order)) && WalletOutcome(s.wallets, b, ForksOf(s'.order), s'.wallets)
    ensures forall c :: c in s.info && c != Main ==> c in ForksOf(s'.order)
  {
    hide Filed, Opened, Tracked, ExecuteTree, WalletOutcome, BlockHash, ForksOf, TransactionsValid, WithBlock,
         MatchBlock, Proper, LinkedFrom, OrderOk;
    MainShape(crypto, s, b);
    var e := ExecuteTree(crypto, s, Main, Main, b);
    FiledIgnoresWallets(s', e);
    TreeTracked(crypto, s, b, Main, Main);
    TrackedIsOpened(e);
    ForksAreChains(e.order, e.info.Keys);
    OutcomeKeepsKeys(e.wallets, b, ForksOf(e.order), s'.wallets) by { MainIsOpen(s); TrackedIsOpened(e); }
    WalletsUntracked(e, s');
    ForksListed(e) by { TrackedIsOpened(e); }
  }

  lemma {:induction false} TrackedIsOpened(s: State)
    requires Tracked(s)
    ensures Filed(s) && Opened(s) && OrderOk(s.order, s.info.Keys)
    ensures forall c :: c in s.info ==> c in s.wallets && c in s.blocks
  {
    hide LinkedFrom, OrderOk;
  }

  lemma {:induction false} FiledIgnoresWallets(s: State, s': State)
    requires Filed(s) && s.(wallets := s'.wallets) == s'
    ensures Filed(s')
  {
    hide OrderOk;
  }

  lemma {:induction false} MainWalletsGoOn(crypto: Crypto, initial: WalletDb, main: map<nat, Block>, height: nat,
                                           before: Stores, b: Block, forks: seq<ChainId>, after: Stores)
    requires Proper(before, forks) && WalletOutcome(before, b, forks, after)
    requires History(initial, main, height) && before[Main] == WalletsBefore(initial, main, height)
    requires Total(before[Main]) == Total(initial) < TWO_TO_THE_64
    requires b.index == height && height !in main
    requires TransactionsValid(crypto, before[Main], b.transactions) && DistinctTasks(TasksOf(b.transactions))
    ensures Main in after && Total(after[Main]) == Total(initial)
    ensures History(initial, WithBlock(main, b), height + 1) && Extends(main, WithBlock(main, b))
    ensures after[Main] == WalletsBefore(initial, WithBlock(main, b), height + 1)
  {
    hide Total, DistinctTasks, WalletOutcome, TransactionsValid, TasksOf, MainRun, BlockOk, WalletsBefore;
    VerifiedBlockConserves(crypto, before, b, forks, after);
    ValidBlockOk(crypto, before[Main], b);
    HistoryGoesOn(initial, main, WithBlock(main, b), height, b);
  }

  lemma {:induction false} SnapshotsGoOn(initial: WalletDb, s: State, b: Block, s': State, forks: seq<ChainId>)
    requires forall c :: OffMain(s, c) ==> IsSnapshot(initial, s, c)
    requires SameForks(s, s') && Extends(BlocksOf(s, Main), BlocksOf(s', Main))
    requires Proper(s.wallets, forks) && WalletOutcome(s.wallets, b, forks, s'.wallets)
    requires DistinctTasks(TasksOf(b.transactions))
    requires forall c :: c in s.info && c != Main ==> c in forks
    ensures forall c :: OffMain(s', c) ==> IsSnapshot(initial, s', c)
  {
    hide Total, DistinctTasks, WalletOutcome, WalletsBefore, TasksOf, History, View;
    forall c | OffMain(s', c)
      ensures IsSnapshot(initial, s', c)
    {
      assert OffMain(s, c);
      OutcomeKeepsViews(s.wallets, b, forks, s'.wallets, c);
      WalletsBeforeFrame(initial, BlocksOf(s, Main), BlocksOf(s', Main), s.info[c].base.index);
    }
  }

  lemma {:induction false} MainIsOpen(s: State)
    requires Tracked(s)
    ensures Main in s.wallets && Main in s.blocks
  {
    hide Filed, LinkedFrom;
  }

  lemma {:induction false} WalletsBeforeNext(initial: WalletDb, main: map<nat, Block>, k: nat)
    requires HasRange(main, 0, k)
    ensures WalletsBefore(initial, main, k + 1) ==
            MainRun(WalletsBefore(initial, main, k), TasksOf(main[k].transactions))
  {
  }

  lemma {:induction false} HistoryGoesOn(initial: WalletDb, main: map<nat, Block>, main': map<nat, Block>,
                                         height: nat, b: Block)
    requires History(initial, main, height) && height == b.index && main' == WithBlock(main, b) && height !in main
    requires BlockOk(WalletsBefore(initial, main, height), b)
    ensures History(initial, main', height + 1) && Extends(main, main')
    ensures WalletsBefore(initial, main', height + 1) ==
            MainRun(WalletsBefore(initial, main, height), TasksOf(b.transactions))
  {
    hide BlockOk, WalletsBefore;
    WalletsBeforeNext(initial, main', height);
    forall k: nat | k <= height
      ensures WalletsBefore(initial, main', k) == WalletsBefore(initial, main, k)
    {
      WalletsBeforeFrame(initial, main, main', k);
    }
  }

  lemma {:induction false} OutcomeKeepsViews(before: Stores, b: Block, forks: seq<ChainId>, after: Stores, c: ChainId)
    requires Proper(before, forks) && WalletOutcome(before, b, forks, after) && c in forks
    requires DistinctTasks(TasksOf(b.transactions))
    ensures forall a: Address :: View(after, c, a) == View(before, c, a)
  {
    hide RunAll, Proper;
    var tasks := TasksOf(b.transactions);
    var schedule :| var end := RunAll(Init(before, tasks), tasks, forks, schedule);
                    Complete(end) && end.stores == after;
    DistinctIsConflictFree(tasks);
    forall a: Address
      ensures View(after, c, a) == View(before, c, a)
    {
      ViewsStay(before, tasks, forks, schedule, c, a);
    }
  }

  /** A step that leaves main alone: each fork off main is as before, or new and a snapshot already. */
  lemma {:induction false} QuietStepKeepsSnapshots(initial: WalletDb, s: State, s': State)
    requires SnapshotInv(initial, s) && Tracked(s')
    requires BlocksOf(s', Main) == BlocksOf(s, Main) && MainHeight(s') == MainHeight(s)
    requires DbOf(s'.wallets, Main) == DbOf(s.wallets, Main)
    requires forall c :: OffMain(s', c) ==> IsSnapshot(initial, s', c) || SameFork(s, s', c)
    ensures SnapshotInv(initial, s')
  {
    hide Tracked, History, WalletsBefore, Total;
    forall c | OffMain(s', c) && SameFork(s, s', c)
      ensures IsSnapshot(initial, s', c)
    {
      assert IsSnapshot(initial, s, c);
      forall a: Address ensures View(s'.wallets, c, a) == View(s.wallets, c, a) { }
    }
  }

  ghost predicate SameFork(s: State, s': State, c: ChainId)
    requires OffMain(s', c)
  {
    OffMain(s, c) && s'.info[c].base == s.info[c].base && DbOf(s'.wallets, c) == DbOf(s.wallets, c)
  }

  /** A fork that is started off main, for the first time or anew, is a snapshot. */
  lemma {:induction false} StartedIsSnapshot(crypto: Crypto, initial: WalletDb, s: State, b: Block, c: ChainId)
    requires SnapshotInv(initial, s) && c != Main && Main in s.info && CanFork(s, Main, b) && b.index < MainHeight(s)
    requires DistinctTasks(RangeTasks(BlocksOf(s, Main), b.index, MainHeight(s)))
    requires c in s.info ==> OffMain(s, c) && s.info[c].base.index == b.index
    requires var e := ExecuteTree(crypto, s, c, Main, b); OffMain(e, c) && e.info[c].base.index == b.index
    ensures IsSnapshot(initial, ExecuteTree(crypto, s, c, Main, b), c)
  {
    hide ExecuteTree, RollbackRange, WalletsBefore, DistinctTasks, RangeTasks, Tracked, Total, CanFork, Inherited,
         History;
    ForkedWallets(crypto, s, b, c, Main);
    NothingInherited(DbOf(s.wallets, c), DbOf(s.wallets, Main));
    TreeFrame(crypto, s, b, c, Main);
    var e, own := ExecuteTree(crypto, s, c, Main, b), DbOf(s.wallets, c);
    var main := BlocksOf(s, Main);
    OwnWalletsAgree(initial, s, b, c);
    HeightHasRange(initial, main, b.index, MainHeight(s));
    forall a: Address
      ensures View(e.wallets, c, a) == Get(WalletsBefore(initial, main, b.index), a)
    {
      RollbackIsSnapshot(initial, main, b.index, MainHeight(s), own, a);
    }
  }

  lemma {:induction false} NothingInherited(own: WalletDb, main: WalletDb)
    ensures Inherited(own, Main, main) == own
  {
  }

  lemma {:induction false} HeightHasRange(initial: WalletDb, main: map<nat, Block>, k: nat, height: nat)
    requires History(initial, main, height) && k <= height
    ensures HasRange(main, 0, k - 1) && HasRange(main, k, height - 1)
  {
    hide BlockOk;
  }

  lemma {:induction false} OwnWalletsAgree(initial: WalletDb, s: State, b: Block, c: ChainId)
    requires SnapshotInv(initial, s) && c != Main && b.index < MainHeight(s)
    requires c in s.info ==> OffMain(s, c) && s.info[c].base.index == b.index
    ensures AgreesWith(DbOf(s.wallets, c), WalletsBefore(initial, BlocksOf(s, Main), b.index))
  {
    hide WalletsBefore, Filed, LinkedFrom, Total;
    if c in s.info {
      assert IsSnapshot(initial, s, c);
      forall a | a in DbOf(s.wallets, c) ensures DbOf(s.wallets, c)[a] == View(s.wallets, c, a) { }
    }
  }

  /** A block for a fork: on top of it, or as the start of a fork, new or existing. */
  lemma {:induction false} ForkStepKeepsSnapshots(crypto: Crypto, initial: WalletDb, s: State, b: Block,
                                                  target: ChainId, parent: ChainId)
    requires SnapshotInv(initial, s) && MatchBlock(s, b) == Matching(target, parent) && target != Main
    requires (target != parent ==> CanFork(s, parent, b)) && GoodStep(s, b) && OwnIndex(s, b)
    requires Filed(ExecuteTree(crypto, s, target, parent, b))
    ensures SnapshotInv(initial, ExecuteTree(crypto, s, target, parent, b))
  {
    hide SnapshotInv, Tracked, Filed, Reforks, ExecuteTree, CanFork, DistinctTasks, RangeTasks, History, IsSnapshot,
         Total;
    TrackedOf(initial, s);
    VerdictOnTracked(s, b);
    hide MatchBlock;
    TreeTracked(crypto, s, b, target, parent);
    TreeFrame(crypto, s, b, target, parent);
    var e := ExecuteTree(crypto, s, target, parent, b);
    forall d | OffMain(e, d)
      ensures IsSnapshot(initial, e, d) || SameFork(s, e, d)
    {
      if d == target {
        TargetIsSnapshot(crypto, initial, s, b, target, parent);
      }
    }
    QuietStepKeepsSnapshots(initial, s, e);
  }

  lemma {:induction false} TargetIsSnapshot(crypto: Crypto, initial: WalletDb, s: State, b: Block,
                                            target: ChainId, parent: ChainId)
    requires SnapshotInv(initial, s) && MatchBlock(s, b) == Matching(target, parent) && target != Main
    requires (target != parent ==> CanFork(s, parent, b)) && GoodStep(s, b) && OwnIndex(s, b)
    requires OffMain(ExecuteTree(crypto, s, target, parent, b), target)
    ensures var e := ExecuteTree(crypto, s, target, parent, b); IsSnapshot(initial, e, target) || SameFork(s, e, target)
  {
    hide SnapshotInv, Tracked, Filed, Reforks, ExecuteTree, CanFork, DistinctTasks, RangeTasks, History, IsSnapshot,
         Total;
    TrackedOf(initial, s);
    VerdictOnTracked(s, b);
    hide MatchBlock;
    ExecuteTreeInfo(crypto, s, b, target, parent);
    var e := ExecuteTree(crypto, s, target, parent, b);
    var below: nat := e.info[target].base.index - 1;
    if target == parent {
      if GetBlock(s, target, below).Some? { KeepsBlocks(crypto, s, b, target, below); }
      TreeFrame(crypto, s, b, target, parent);
    } else {
      if GetBlock(s, target, below).Some? || parent != Main { BelowBlock(crypto, s, b, target, parent, below); }
      StartedIsSnapshot(crypto, initial, s, b, target);
    }
  }

  lemma {:induction false} KeepsBlocks(crypto: Crypto, s: State, b: Block, c: ChainId, i: nat)
    requires GetBlock(s, c, i).Some?
    ensures GetBlock(ExecuteTree(crypto, s, c, c, b), c, i).Some?
  {
    hide StateHash, Repeat;
  }

  lemma {:induction false} TrackedOf(initial: WalletDb, s: State)
    requires SnapshotInv(initial, s)
    ensures Tracked(s)
  {
    hide Tracked, Total, History;
  }

  /** One submission of any block keeps what is tracked. */
  lemma {:induction false} NextTracked(crypto: Crypto, s: State, b: Block, s': State)
    requires Tracked(s) && Next(crypto, s, b, s')
    ensures Tracked(s')
  {
    assert Filed(s) by { TrackedIsOpened(s); }
    NextFiled(crypto, s, b, s');
    NextCases(crypto, s, b, s');
    hide Tracked, Filed, VerifyBlock, Next, ExecuteTree, MatchBlock, CanFork;
    match VerifyBlock(crypto, s, b)
    case Rejected(_) =>
    case Matching(target, parent) =>
      if target == Main {
        MainStepShape(crypto, s, b, s');
      } else {
        TreeTracked(crypto, s, b, target, parent);
      }
  }

  /** Every submission keeps all snapshots, if its addresses are distinct. */
  lemma {:induction false} NextKeepsSnapshots(crypto: Crypto, initial: WalletDb, s: State, b: Block, s': State)
    requires SnapshotInv(initial, s) && Total(initial) < TWO_TO_THE_64
    requires Next(crypto, s, b, s') && GoodStep(s, b) && OwnIndex(s, b)
    ensures SnapshotInv(initial, s')
  {
    hide SnapshotInv, Tracked, Filed, Total, VerifyBlock, DistinctTasks, RangeTasks, TasksOf, HasRange, OwnIndex;
    TrackedOf(initial, s);
    assert Filed(s) by { TrackedIsOpened(s); }
    NextFiled(crypto, s, b, s');
    hide Next;
    NextCases(crypto, s, b, s');
    match VerifyBlock(crypto, s, b)
    case Rejected(_) =>
    case Matching(target, parent) =>
      if target == Main {
        MainStepKeepsSnapshots(crypto, initial, s, b, s');
      } else {
        ForkStepKeepsSnapshots(crypto, initial, s, b, target, parent);
      }
  }

  lemma {:induction false} NextCases(crypto: Crypto, s: State, b: Block, s': State)
    requires Next(crypto, s, b, s')
    ensures match VerifyBlock(crypto, s, b)
            case Rejected(_) => s' == s
            case Matching(target, parent) =>
              MatchBlock(s, b) == Matching(target, parent) && (target == Main ==> parent == Main) &&
              (target != parent ==> CanFork(s, parent, b)) &&
              (target != Main ==> s' == ExecuteTree(crypto, s, target, parent, b))
  {
    hide ExecuteTree, MatchBlock, CanFork, TransactionsValid, BlockHash, WalletOutcome;
    if VerifyBlock(crypto, s, b).Matching? {
      TargetMainIsParent(s, b, VerifyBlock(crypto, s, b).target, VerifyBlock(crypto, s, b).parent);
    }
  }

  lemma {:induction false} TargetMainIsParent(s: State, b: Block, target: ChainId, parent: ChainId)
    requires MatchBlock(s, b) == Matching(target, parent)
    ensures target == Main ==> parent == Main
  {
  }

  lemma {:induction false} FreshSnapshotInv(initial: WalletDb)
    ensures SnapshotInv(initial, Fresh(initial))
  {
  }

  /**
   The fork snapshot theorem. In every state that submissions of any blocks reach from an
   empty node, harmful re-forks among them, each fork off main shows, for every address,
   the wallet main had just before its block at the fork's base index.
   */
  lemma {:induction false} ForksAreSnapshots(crypto: Crypto, initial: WalletDb, states: seq<State>,
                                             submitted: seq<Block>,
                                             k: nat)
    requires Submissions(crypto, states, submitted) && k < |states|
    requires states[0] == Fresh(initial) && Total(initial) < TWO_TO_THE_64
    requires forall j :: 0 <= j < |submitted| ==> GoodStep(states[j], submitted[j]) && OwnIndex(states[j], submitted[j])
    ensures SnapshotInv(initial, states[k])
    ensures forall c :: OffMain(states[k], c) ==> IsSnapshot(initial, states[k], c)
  {
    hide Tracked, Next, GoodStep, OwnIndex, Total, Fresh, IsSnapshot;
    if k == 0 {
      FreshSnapshotInv(initial);
    } else {
      ForksAreSnapshots(crypto, initial, states, submitted, k - 1);
      NextKeepsSnapshots(crypto, initial, states[k - 1], submitted[k - 1], states[k]);
    }
  }

  // ---------------------------------------------------------------- forks off forks

  /**
   A fork off a fork copies its parent's wallets and then undoes transactions that
   were never applied to them (only main's blocks are). So, with distinct
   addresses, its wallets read like the parent's exactly when no transaction is
   rolled back.
   */
  lemma {:induction false} ForkOffForkIff(blocks: map<nat, Block>, parent: WalletDb, hi: nat, lo: nat)
    requires HasRange(blocks, lo, hi) && DistinctTasks(RangeTasks(blocks, lo, hi + 1))
    ensures (forall a: Address :: Get(RollbackRange(blocks, parent, parent, hi, lo), a) == Get(parent, a)) <==>
            forall k: nat :: lo <= k <= hi ==> blocks[k].transactions == []
  {
    if forall k: nat :: lo <= k <= hi ==> blocks[k].transactions == [] {
      NothingToRollBack(blocks, parent, parent, hi, lo);
    } else {
      var k: nat :| lo <= k <= hi && blocks[k].transactions != [];
      SenderRolledBack(blocks, parent, hi, lo, k, 0);
      assert Get(RollbackRange(blocks, parent, parent, hi, lo), blocks[k].transactions[0].senderAddress) !=
             Get(parent, blocks[k].transactions[0].senderAddress);
    }
  }

  /** The wallet `w` of `a` is what undoing `tx` writes. */
  predicate Undone(parent: WalletDb, tx: Transaction, a: Address, w: Wallet) {
    (tx.senderAddress == a && w == AddMoney(AdjustNonce(Get(parent, a), -1), tx.amount)) ||
    (tx.recipientAddress == a && w == SubtractMoneyIfPossible(Get(parent, a), tx.amount))
  }

  /** The last transaction of a block that names `a` decides its wallet. */
  lemma {:induction false} RollbackTransactionsWitness(parent: WalletDb, fork: WalletDb, txs: seq<Transaction>,
                                                       a: Address)
    returns (i: int)
    ensures var r := RollbackTransactions(parent, fork, txs);
            if i < 0 then SameAt(fork, r, a) && forall j :: 0 <= j < |txs| ==> txs[j].senderAddress != a
            else i < |txs| && a in r && Undone(parent, txs[i], a, r[a])
    decreases txs
  {
    if txs == [] {
      i := -1;
    } else {
      var next := RollbackTransaction(parent, fork, txs[0]);
      i := RollbackTransactionsWitness(parent, next, txs[1..], a);
      if i >= 0 {
        i := i + 1;
      } else if txs[0].senderAddress == a || txs[0].recipientAddress == a {
        assert Undone(parent, txs[0], a, next[a]);
        i := 0;
      } else {
        forall j | 0 <= j < |txs| ensures txs[j].senderAddress != a { if j > 0 { assert txs[1..][j - 1] == txs[j]; } }
      }
    }
  }

  lemma {:induction false} RollbackRangeWitness(blocks: map<nat, Block>, parent: WalletDb, fork: WalletDb, hi: int,
                                                lo: nat, a: Address)
    returns (k: int, i: int)
    requires HasRange(blocks, lo, hi)
    ensures var r := RollbackRange(blocks, parent, fork, hi, lo);
            if k < 0 then
              SameAt(fork, r, a) &&
              forall l: nat, j :: lo <= l <= hi && 0 <= j < |blocks[l].transactions| ==>
                blocks[l].transactions[j].senderAddress != a
            else
              lo <= k <= hi && 0 <= i < |blocks[k].transactions| && a in r &&
              Undone(parent, blocks[k].transactions[i], a, r[a])
    decreases hi - lo
  {
    k, i := -1, -1;
    if hi >= lo {
      var next := RollbackTransactions(parent, fork, blocks[hi].transactions);
      k, i := RollbackRangeWitness(blocks, parent, next, hi - 1, lo, a);
      if k < 0 {
        i := RollbackTransactionsWitness(parent, fork, blocks[hi].transactions, a);
        if i >= 0 { k := hi; }
      }
    }
  }

  /** With distinct addresses, the sender of a rolled-back transaction loses one from its nonce. */
  lemma {:induction false} SenderRolledBack(blocks: map<nat, Block>, parent: WalletDb, hi: nat, lo: nat, k: nat, i: nat)
    requires HasRange(blocks, lo, hi) && DistinctTasks(RangeTasks(blocks, lo, hi + 1))
    requires lo <= k <= hi && i < |blocks[k].transactions|
    ensures var sender := blocks[k].transactions[i].senderAddress;
            Get(RollbackRange(blocks, parent, parent, hi, lo), sender).nonce != Get(parent, sender).nonce
  {
    hide RollbackRange, RangeTasks, TasksOf, DistinctTasks;
    var sender := blocks[k].transactions[i].senderAddress;
    var k', i' := RollbackRangeWitness(blocks, parent, parent, hi, lo, sender);
    assert k' >= 0;
    TasksOfAt(blocks[k].transactions, i);
    UntouchedEarlier(blocks, lo, hi + 1, k, 2 * i);
    TasksOfAt(blocks[k'].transactions, i');
    UntouchedEarlier(blocks, lo, hi + 1, k', 2 * i' + 1);
    SameAddressSameTask(RangeTasks(blocks, lo, hi + 1), TasksOf(blocks[k].transactions)[2 * i],
                        TasksOf(blocks[k'].transactions)[2 * i' + 1]);
  }

  lemma {:induction false} SameAddressSameTask(tasks: seq<Task>, t: Task, u: Task)
    requires DistinctTasks(tasks) && t in tasks && u in tasks
    ensures t.address == u.address ==> t == u
  {
    var i :| 0 <= i < |tasks| && tasks[i] == t;
    var j :| 0 <= j < |tasks| && tasks[j] == u;
  }

  lemma {:induction false} NothingToRollBack(blocks: map<nat, Block>, parent: WalletDb, fork: WalletDb, hi: int,
                                             lo: nat)
    requires HasRange(blocks, lo, hi) && forall k: nat :: lo <= k <= hi ==> blocks[k].transactions == []
    ensures RollbackRange(blocks, parent, fork, hi, lo) == fork
    decreases hi - lo
  {
    if hi >= lo {
      NothingToRollBack(blocks, parent, fork, hi - 1, lo);
    }
  }

  // ---------------------------------------------------------------- repeated senders

  /** Whatever is rolled back, the nonce of an address goes back by one step at most. */
  lemma {:induction false} RollbackNonce(blocks: map<nat, Block>, parent: WalletDb, hi: int, lo: nat, a: Address)
    requires HasRange(blocks, lo, hi)
    ensures var r, now := RollbackRange(blocks, parent, map[], hi, lo), Get(parent, a).nonce;
            var rolled := if a in r then r[a].nonce else now;
            rolled == now || rolled == (now - 1) % TWO_TO_THE_64
  {
    hide RollbackRange;
    var k, i := RollbackRangeWitness(blocks, parent, map[], hi, lo, a);
  }

  /**
   Each rollback starts from the parent's stored wallets, so an address that sent
   more than once in the range does not get its old nonce back: the fork shows at
   most one step less. Distinct senders are necessary.
   */
  lemma {:induction false} RepeatedSenderNotRestored(initial: WalletDb, main: map<nat, Block>, lo: nat, hi: nat,
                                                     a: Address)
    requires lo <= hi && HasRange(main, 0, hi - 1)
    requires 2 <= Debits(RangeTasks(main, lo, hi), a) < TWO_TO_THE_64
    ensures var now := WalletsBefore(initial, main, hi);
            var fork := RollbackRange(main, now, map[], hi - 1, lo);
            (if a in fork then fork[a] else Get(now, a)).nonce != Get(WalletsBefore(initial, main, lo), a).nonce
  {
    hide RollbackRange, WalletsBefore, RangeTasks, Debits;
    var start, now := WalletsBefore(initial, main, lo), WalletsBefore(initial, main, hi);
    WalletsBeforeRange(initial, main, lo, hi);
    MainRunCounts(start, RangeTasks(main, lo, hi), a);
    RollbackNonce(main, now, hi - 1, lo, a);
    NonceApart(Get(start, a).nonce, Debits(RangeTasks(main, lo, hi), a));
  }

  lemma {:induction false} NonceApart(n: uint64, d: nat)
    requires 2 <= d < TWO_TO_THE_64
    ensures (n + d) % TWO_TO_THE_64 != n && ((n + d) % TWO_TO_THE_64 - 1) % TWO_TO_THE_64 != n
  {
  }
}
