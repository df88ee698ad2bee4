/**
 Where a block belongs and what accepting it does to the chains
 (`src/storage/chainstate.ts`, `src/storage/blockchain.ts`,
 `src/verification/index.ts`, `src/pos/execution.ts`).
 */
module BlockTree {
  import opened Common
  import opened Models
  import opened Wallets

  /**
   `order` lists the keys of the chainstate dictionary as they were inserted, `info` is that dictionary;
   `blocks` and `wallets` are the block files and the wallet database of every open chain.
   */
  datatype State = State(
    order: seq<ChainId>,
    info: map<ChainId, ForkChainstate>,
    blocks: map<ChainId, map<nat, Block>>,
    wallets: Stores)

  /** A node that has no block yet; main is open and may hold any wallets. */
  function Fresh(initial: WalletDb): State {
    State([], map[], map[Main := map[]], map[Main := initial])
  }

  function BlocksOf(s: State, c: ChainId): map<nat, Block> {
    if c in s.blocks then s.blocks[c] else map[]
  }

  function GetBlock(s: State, c: ChainId, i: nat): Option<Block> {
    if i in BlocksOf(s, c) then Some(BlocksOf(s, c)[i]) else None
  }

  // ---------------------------------------------------------------- verification

  datatype Match = Rejected(code: nat) | Matching(target: ChainId, parent: ChainId)

  /** The chain stores, just below `b`, the block that `b` names as its predecessor. */
  predicate HoldsPrevious(s: State, c: ChainId, b: Block) {
    b.index > 0 && GetBlock(s, c, b.index - 1).Some? && GetBlock(s, c, b.index - 1).value.hash == b.previousHash
  }

  /** The chain loop of `isBlockChainStateMatching`: the first chain that holds the previous block. */
  function FindParent(s: State, order: seq<ChainId>, b: Block): Option<ChainId> {
    if order == [] then None else
      var id := if order[0] in s.info then Id(s.info[order[0]]) else order[0];
      if HoldsPrevious(s, id, b) then Some(id) else FindParent(s, order[1..], b)
  }

  function MatchBlock(s: State, b: Block): Match {
    if b.index == 0 then
      if Main in s.info then Rejected(12533) else Matching(Main, Main)
    else
      match FindParent(s, s.order, b)
      case None => Rejected(12532)
      case Some(parent) =>
        match GetBlock(s, parent, b.index)
        case None => Matching(parent, parent)
        case Some(other) => if other.hash == b.hash then Rejected(12533) else Matching(Fork(b.hash), parent)
  }

  function VerifyTransaction(crypto: Crypto, db: WalletDb, tx: Transaction): nat {
    if tx.txid != TransactionHash(crypto, tx) then 12504
    else if Get(db, tx.senderAddress).nonce != tx.nonce then 12508
    else if Get(db, tx.senderAddress).balance < tx.amount then 12524
    else 12000
  }

  predicate TransactionsValid(crypto: Crypto, db: WalletDb, txs: seq<Transaction>) {
    forall i :: 0 <= i < |txs| ==> VerifyTransaction(crypto, db, txs[i]) == 12000
  }

  /** `verifyBlock`; transactions are always verified against main's wallets. */
  function VerifyBlock(crypto: Crypto, s: State, b: Block): Match {
    var m := MatchBlock(s, b);
    if m.Rejected? then m
    else if BlockHash(crypto, b) != b.hash then Rejected(12504)
    else if !TransactionsValid(crypto, DbOf(s.wallets, Main), b.transactions) then Rejected(12520)
    else m
  }

  // ---------------------------------------------------------------- execution

  /** One transaction of the rollback in `createFork`: both wallets are read from the parent and stored in the fork. */
  function RollbackTransaction(parent: WalletDb, fork: WalletDb, tx: Transaction): WalletDb {
    var sender := AddMoney(AdjustNonce(Get(parent, tx.senderAddress), -1), tx.amount);
    var recipient := SubtractMoneyIfPossible(Get(parent, tx.recipientAddress), tx.amount);
    fork[tx.senderAddress := sender][tx.recipientAddress := recipient]
  }

  function RollbackTransactions(parent: WalletDb, fork: WalletDb, txs: seq<Transaction>): WalletDb
    decreases txs
  {
    if txs == [] then fork else RollbackTransactions(parent, RollbackTransaction(parent, fork, txs[0]), txs[1..])
  }

  /** The blocks `lo .. hi` are all stored. */
  predicate HasRange(blocks: map<nat, Block>, lo: int, hi: int) {
    forall i: nat :: lo <= i <= hi ==> i in blocks
  }

  /** The rollback loop, from block `hi` down to block `lo`. */
  function RollbackRange(blocks: map<nat, Block>, parent: WalletDb, fork: WalletDb, hi: int, lo: nat): WalletDb
    requires HasRange(blocks, lo, hi)
    decreases hi - lo
  {
    if hi < lo then fork else
      RollbackRange(blocks, parent, RollbackTransactions(parent, fork, blocks[hi].transactions), hi - 1, lo)
  }

  function Interval(lo: nat, hi: int): (r: set<nat>)
    ensures forall i: nat :: i in r <==> lo <= i <= hi
    decreases hi - lo
  {
    if hi < lo then {} else Interval(lo, hi - 1) + {hi}
  }

  predicate CanFork(s: State, parent: ChainId, base: Block) {
    parent in s.info && HasRange(BlocksOf(s, parent), base.index, s.info[parent].latestBlock.index)
  }

  /** What the new chain's directory holds before the rollback: `copyChain` copies every parent but main. */
  function Inherited<K, V>(own: map<K, V>, parentId: ChainId, parent: map<K, V>): map<K, V> {
    if parentId == Main then own else own + parent
  }

  function CreateFork(s: State, target: ChainId, parent: ChainId, base: Block): State
    requires CanFork(s, parent, base)
  {
    var top := s.info[parent].latestBlock.index;
    var kept := Inherited(BlocksOf(s, target), parent, BlocksOf(s, parent)) - Interval(base.index, top);
    var copied := Inherited(DbOf(s.wallets, target), parent, DbOf(s.wallets, parent));
    s.(blocks := s.blocks[target := kept],
       wallets := s.wallets[target :=
         RollbackRange(BlocksOf(s, parent), DbOf(s.wallets, parent), copied, top, base.index)])
  }

  function WithBlock(blocks: map<nat, Block>, b: Block): map<nat, Block> {
    blocks[b.index := b]
  }

  /** `BlockDB.add`: a stored block is not overwritten. */
  function AddBlock(s: State, c: ChainId, b: Block): State {
    if b.index in BlocksOf(s, c) then s else s.(blocks := s.blocks[c := WithBlock(BlocksOf(s, c), b)])
  }

  function UpdateChainState(crypto: Crypto, s: State, c: ChainId, parent: ChainId, b: Block): State {
    var chain :=
      if c in s.info then s.info[c].(latestBlock := b)
      else ForkChainstate([], if parent in s.info then s.info[parent].base.hash else Repeat(0, 32), b, b);
    var hashed := chain.(stateHash := StateHash(crypto, chain.parentChain, chain.base, chain.latestBlock));
    s.(order := if c in s.info then s.order else s.order + [c], info := s.info[c := hashed])
  }

  /** `executeBlock` up to the wallet adjustment. */
  function ExecuteTree(crypto: Crypto, s: State, target: ChainId, parent: ChainId, b: Block): State
    requires target != parent ==> CanFork(s, parent, b)
  {
    var forked := if target != parent then CreateFork(s, target, parent, b) else s;
    UpdateChainState(crypto, AddBlock(forked, target, b), target, parent, b)
  }

  function ForksOf(order: seq<ChainId>): (forks: seq<ChainId>)
    ensures Main !in forks
    ensures forall c :: c in forks <==> c in order && c != Main
  {
    if order == [] then [] else (if order[0] == Main then [] else [order[0]]) + ForksOf(order[1..])
  }

  lemma {:induction false} ForksOfEmpty()
    ensures ForksOf([]) == []
  {
  }

  lemma {:induction false} ForksOfStep(order: seq<ChainId>)
    requires order != []
    ensures ForksOf(order) == (if order[0] == Main then [] else [order[0]]) + ForksOf(order[1..])
  {
  }

  /** Some complete interleaving of the block's wallet tasks ends in `after`. */
  ghost predicate WalletOutcome(before: Stores, b: Block, forks: seq<ChainId>, after: Stores) {
    var tasks := TasksOf(b.transactions);
    exists schedule ::
      var end := RunAll(Init(before, tasks), tasks, forks, schedule);
      Complete(end) && end.stores == after
  }

  /** Submitting block `b` in state `s` may lead to `s'`. */
  ghost predicate Next(crypto: Crypto, s: State, b: Block, s': State) {
    match VerifyBlock(crypto, s, b)
    case Rejected(_) => s' == s
    case Matching(target, parent) =>
      (target != parent ==> CanFork(s, parent, b)) &&
      var executed := ExecuteTree(crypto, s, target, parent, b);
      s'.(wallets := executed.wallets) == executed &&
      if target == Main then WalletOutcome(executed.wallets, b, ForksOf(executed.order), s'.wallets)
      else s'.wallets == executed.wallets
  }

  // ---------------------------------------------------------------- the invariant

  /**
   The blocks `m` of chain `c` are those of the indices `lo` to the latest block's, hash-linked, with the base
   among them; the lowest is main's genesis or continues a block of main.
   */
  ghost predicate LinkedFrom(m: map<nat, Block>, main: map<nat, Block>, c: ChainId, chain: ForkChainstate, lo: nat) {
    var top, base := chain.latestBlock, chain.base;
    (forall i: nat :: i in m <==> lo <= i <= top.index) &&
    (forall i: nat :: i in m ==> m[i].index == i) &&
    lo <= base.index <= top.index && m[top.index] == top && m[base.index] == base &&
    (forall i: nat, j: nat :: i in m && j in m && j == i + 1 ==> m[j].previousHash == m[i].hash) &&
    Rooted(main, c, m[lo])
  }

  ghost predicate Rooted(main: map<nat, Block>, c: ChainId, b: Block) {
    if c == Main then b.index == 0
    else b.index > 0 && b.index - 1 in main && main[b.index - 1].hash == b.previousHash
  }

  ghost predicate Linked(s: State, c: ChainId)
    requires c in s.info
  {
    exists lo: nat :: LinkedFrom(BlocksOf(s, c), BlocksOf(s, Main), c, s.info[c], lo)
  }

  /** The order lists every chain of the dictionary once, main first. */
  ghost predicate OrderOk(order: seq<ChainId>, chains: set<ChainId>) {
    (forall i, j :: 0 <= i < j < |order| ==> order[i] != order[j]) &&
    (forall c :: c in order <==> c in chains) &&
    (order != [] ==> order[0] == Main)
  }

  ghost predicate ChainsOk(s: State) {
    forall c :: c in s.info ==> Id(s.info[c]) == c && Linked(s, c)
  }

  ghost predicate Inv(s: State) {
    OrderOk(s.order, s.info.Keys) &&
    (forall c :: c in s.blocks <==> c in s.info || c == Main) &&
    (forall c :: c in s.wallets <==> c in s.info || c == Main) &&
    (Main !in s.info ==> s.blocks[Main] == map[]) &&
    ChainsOk(s)
  }

  /** The submission takes the "new fork" branch although its target chain exists already. */
  predicate Reforks(s: State, b: Block) {
    match MatchBlock(s, b)
    case Rejected(_) => false
    case Matching(target, parent) => target in s.info && GetBlock(s, parent, b.index).Some?
  }

  lemma {:induction false} FindParentCorrect(s: State, order: seq<ChainId>, b: Block)
    requires forall c :: c in order ==> c in s.info && Id(s.info[c]) == c
    ensures match FindParent(s, order, b)
            case None => forall c :: c in order ==> !HoldsPrevious(s, c, b)
            case Some(p) => exists k :: 0 <= k < |order| && order[k] == p && HoldsPrevious(s, p, b) &&
                              forall j :: 0 <= j < k ==> !HoldsPrevious(s, order[j], b)
  {
    if order != [] {
      FindParentCorrect(s, order[1..], b);
      if !HoldsPrevious(s, order[0], b) && FindParent(s, order[1..], b).Some? {
        var p := FindParent(s, order[1..], b).value;
        var k :| 0 <= k < |order[1..]| && order[1..][k] == p && HoldsPrevious(s, p, b) &&
                 forall j :: 0 <= j < k ==> !HoldsPrevious(s, order[1..][j], b);
        assert order[k + 1] == p;
        forall j | 0 <= j < k + 1 ensures !HoldsPrevious(s, order[j], b) {
          if j > 0 { assert order[1..][j - 1] == order[j]; }
        }
      }
    }
  }

  /** As a child on top of the parent, or as a new fork beside a block of the parent. */
  ghost predicate Placed(s: State, b: Block, target: ChainId, parent: ChainId)
    requires parent in s.info
  {
    match GetBlock(s, parent, b.index)
    case None => target == parent && s.info[parent].latestBlock.index == b.index - 1
    case Some(other) =>
      target == Fork(b.hash) && other.hash != b.hash && b.index <= s.info[parent].latestBlock.index
  }

  /** What each verdict on a block says about the chains. */
  lemma {:induction false} MatchBlockMeaning(s: State, b: Block)
    requires Inv(s)
    ensures match MatchBlock(s, b)
      case Rejected(code) =>
        (code == 12532 && b.index > 0 && forall c :: c in s.info ==> !HoldsPrevious(s, c, b)) ||
        (code == 12533 && (if b.index == 0 then s.order != [] else
          exists c :: c in s.info && HoldsPrevious(s, c, b) &&
                      GetBlock(s, c, b.index).Some? && GetBlock(s, c, b.index).value.hash == b.hash))
      case Matching(target, parent) =>
        if b.index == 0 then s.order == [] && target == parent == Main
        else parent in s.info && HoldsPrevious(s, parent, b) && CanFork(s, parent, b) && Placed(s, b, target, parent)
  {
    hide Linked, CanFork;
    if b.index == 0 {
      assert s.order == [] <==> Main !in s.info by { if s.order != [] { assert s.order[0] in s.order; } }
    } else {
      FindParentCorrect(s, s.order, b);
      var p := FindParent(s, s.order, b);
      if p.Some? {
        assert p.value in s.order && Linked(s, p.value);
        ParentSlot(s, p.value, b);
      } else {
        assert forall c :: c in s.info ==> c in s.order;
      }
    }
  }

  /** Above a stored previous block lies a stored block, unless the previous block is the latest. */
  lemma {:induction false} ParentSlot(s: State, c: ChainId, b: Block)
    requires c in s.info && Linked(s, c) && HoldsPrevious(s, c, b)
    ensures CanFork(s, c, b)
    ensures match GetBlock(s, c, b.index)
            case None => s.info[c].latestBlock.index == b.index - 1
            case Some(_) => b.index <= s.info[c].latestBlock.index
  {
    var lo: nat :| LinkedFrom(BlocksOf(s, c), BlocksOf(s, Main), c, s.info[c], lo);
  }

  /** A block is accepted as a child, as the genesis, or as the start of a fork that is not there yet. */
  lemma {:induction false} AcceptedKeepsInv(crypto: Crypto, s: State, b: Block, target: ChainId, parent: ChainId)
    requires Inv(s) && MatchBlock(s, b) == Matching(target, parent) && !Reforks(s, b)
    ensures target != parent ==> CanFork(s, parent, b)
    ensures Inv(ExecuteTree(crypto, s, target, parent, b))
  {
    MatchBlockMeaning(s, b);
    if b.index == 0 {
      GenesisKeepsInv(crypto, s, b);
    } else if GetBlock(s, parent, b.index) == None {
      ChildKeepsInv(crypto, s, b, target);
    } else {
      ForkKeepsInv(crypto, s, b, target, parent);
    }
  }

  /** Main keeps its blocks; it may gain some. */
  predicate Extends(blocks: map<nat, Block>, blocks': map<nat, Block>) {
    forall i :: i in blocks ==> i in blocks' && blocks'[i] == blocks[i]
  }

  lemma {:induction false} ExtendedInv(s: State, s': State, c: ChainId)
    requires Inv(s) && c in s'.info && s'.info == s.info[c := s'.info[c]] && Id(s'.info[c]) == c
    requires s'.order == if c in s.info then s.order else s.order + [c]
    requires c in s'.blocks && s'.blocks == s.blocks[c := s'.blocks[c]]
    requires s'.wallets.Keys == s.wallets.Keys + {c}
    requires Main in s'.info && Linked(s', c)
    requires Extends(BlocksOf(s, Main), BlocksOf(s', Main))
    ensures Inv(s')
  {
    hide OrderOk, ChainsOk, Linked, Extends, BlocksOf;
    ExtendedChains(s, s', c);
    ExtendedOrder(s.order, s.info.Keys, c);
    assert s'.info.Keys == s.info.Keys + {c};
  }

  lemma {:induction false} ExtendedChains(s: State, s': State, c: ChainId)
    requires ChainsOk(s) && c in s'.info && s'.info == s.info[c := s'.info[c]] && Id(s'.info[c]) == c
    requires c in s'.blocks && s'.blocks == s.blocks[c := s'.blocks[c]]
    requires Linked(s', c)
    requires Extends(BlocksOf(s, Main), BlocksOf(s', Main))
    ensures ChainsOk(s')
  {
    hide Linked, Extends;
    forall d | d in s'.info && d != c
      ensures Id(s'.info[d]) == d && Linked(s', d)
    {
      LinkedStays(s, s', d);
    }
  }

  lemma {:induction false} LinkedStays(s: State, s': State, d: ChainId)
    requires d in s.info && d in s'.info && s'.info[d] == s.info[d] && BlocksOf(s', d) == BlocksOf(s, d)
    requires Linked(s, d) && Extends(BlocksOf(s, Main), BlocksOf(s', Main))
    ensures Linked(s', d)
  {
    var lo: nat :| LinkedFrom(BlocksOf(s, d), BlocksOf(s, Main), d, s.info[d], lo);
    assert LinkedFrom(BlocksOf(s', d), BlocksOf(s', Main), d, s'.info[d], lo);
  }

  lemma {:induction false} ExtendedOrder(order: seq<ChainId>, chains: set<ChainId>, c: ChainId)
    requires OrderOk(order, chains) && Main in chains + {c}
    ensures OrderOk(if c in chains then order else order + [c], chains + {c})
  {
    if c !in chains {
      assert c !in order;
      if order == [] {
        assert Main !in order;
      }
    } else {
      assert chains + {c} == chains;
    }
  }

  lemma {:induction false} ChildLinked(m: map<nat, Block>, main: map<nat, Block>, main': map<nat, Block>, c: ChainId,
                    chain: ForkChainstate, chain': ForkChainstate, lo: nat, b: Block)
    requires LinkedFrom(m, main, c, chain, lo) && Extends(main, main')
    requires b.index > 0 && chain.latestBlock.index == b.index - 1 && m[b.index - 1].hash == b.previousHash
    requires chain'.base == chain.base && chain'.latestBlock == b
    ensures LinkedFrom(m[b.index := b], main', c, chain', lo)
  {
  }

  /** What a child changes: one block and the latest block of its chain. */
  lemma {:induction false} ChildShape(crypto: Crypto, s: State, b: Block, c: ChainId)
    requires c in s.info && c in s.blocks && b.index !in s.blocks[c]
    ensures var s' := ExecuteTree(crypto, s, c, c, b);
            s'.order == s.order && s'.info == s.info[c := s'.info[c]] &&
            s'.info[c].base == s.info[c].base && s'.info[c].latestBlock == b &&
            s'.blocks == s.blocks[c := WithBlock(s.blocks[c], b)] && s'.wallets == s.wallets
  {
    hide StateHash;
  }

  lemma {:induction false} ChildKeepsInv(crypto: Crypto, s: State, b: Block, c: ChainId)
    requires Inv(s)
    requires b.index > 0 && c in s.info && HoldsPrevious(s, c, b) && s.info[c].latestBlock.index == b.index - 1
    ensures Inv(ExecuteTree(crypto, s, c, c, b))
  {
    hide LinkedFrom, OrderOk, ExecuteTree;
    var s' := ExecuteTree(crypto, s, c, c, b);
    var m, main := BlocksOf(s, c), BlocksOf(s, Main);
    assert Linked(s, c);
    var lo: nat :| LinkedFrom(m, main, c, s.info[c], lo);
    TopIsLast(m, main, c, s.info[c], lo, b.index);
    ChildShape(crypto, s, b, c);
    assert Extends(main, BlocksOf(s', Main));
    ChildLinked(m, main, BlocksOf(s', Main), c, s.info[c], s'.info[c], lo, b);
    assert LinkedFrom(BlocksOf(s', c), BlocksOf(s', Main), c, s'.info[c], lo);
    assert Linked(s', c);
    MainOpens(s);
    ExtendedInv(s, s', c);
  }

  lemma {:induction false} TopIsLast(m: map<nat, Block>, main: map<nat, Block>, c: ChainId, chain: ForkChainstate,
                                     lo: nat, i: nat)
    requires LinkedFrom(m, main, c, chain, lo) && i > chain.latestBlock.index
    ensures i !in m
  {
  }

  lemma {:induction false} GenesisKeepsInv(crypto: Crypto, s: State, b: Block)
    requires Inv(s) && b.index == 0 && s.order == []
    ensures Inv(ExecuteTree(crypto, s, Main, Main, b))
  {
    hide StateHash, Repeat;
    var s' := ExecuteTree(crypto, s, Main, Main, b);
    assert BlocksOf(s, Main) == map[];
    assert BlocksOf(s', Main) == map[0 := b];
    assert LinkedFrom(map[0 := b], map[0 := b], Main, s'.info[Main], 0);
    assert s.info == map[];
    assert Linked(s', Main);
    ExtendedInv(s, s', Main);
  }

  lemma {:induction false} ForkLinked(own: map<nat, Block>, main: map<nat, Block>, parent: ChainId,
                                      chain: ForkChainstate,
                   chain': ForkChainstate, lo: nat, b: Block)
    requires LinkedFrom(own, main, parent, chain, lo) && (parent == Main ==> own == main)
    requires 0 < b.index <= chain.latestBlock.index && b.index - 1 in own && own[b.index - 1].hash == b.previousHash
    requires chain'.base == b && chain'.latestBlock == b
    ensures var kept := (if parent == Main then map[] else own) - Interval(b.index, chain.latestBlock.index);
            LinkedFrom(kept[b.index := b], main, Fork(b.hash), chain', if parent == Main then b.index else lo)
  {
  }

  /** What a fresh fork changes: its own entry in each of the four parts of the state, and nothing else. */
  lemma {:induction false} ForkShape(crypto: Crypto, s: State, b: Block, c: ChainId, parent: ChainId)
    requires CanFork(s, parent, b) && c != parent && c !in s.info && c !in s.blocks && c !in s.wallets
    ensures var s' := ExecuteTree(crypto, s, c, parent, b);
            var kept := (if parent == Main then map[] else BlocksOf(s, parent)) -
                        Interval(b.index, s.info[parent].latestBlock.index);
            var copied := if parent == Main then map[] else DbOf(s.wallets, parent);
            s'.order == s.order + [c] && c in s'.info && s'.info == s.info[c := s'.info[c]] &&
            s'.info[c].base == b && s'.info[c].latestBlock == b &&
            (b.index <= s.info[parent].latestBlock.index ==> s'.blocks == s.blocks[c := WithBlock(kept, b)]) &&
            s'.wallets == s.wallets[c := RollbackRange(BlocksOf(s, parent), DbOf(s.wallets, parent), copied,
                                                       s.info[parent].latestBlock.index, b.index)]
  {
    ExecuteTreeInfo(crypto, s, b, c, parent);
    TreeUpdates(crypto, s, b, c, parent);
    if b.index <= s.info[parent].latestBlock.index { ForkedBlocks(crypto, s, b, c, parent); }
    ForkedWallets(crypto, s, b, c, parent);
    InheritedByNew(parent, BlocksOf(s, parent));
    InheritedByNew(parent, DbOf(s.wallets, parent));
    hide ExecuteTree, RollbackRange, Interval, Inherited, WithBlock, CanFork;
  }

  lemma {:induction false} InheritedByNew<K, V>(parentId: ChainId, parent: map<K, V>)
    ensures Inherited(map[], parentId, parent) == if parentId == Main then map[] else parent
  {
    assert map[] + parent == parent;
  }

  /** The maps of a state change at the target chain only. */
  lemma {:induction false} TreeUpdates(crypto: Crypto, s: State, b: Block, target: ChainId, parent: ChainId)
    requires target != parent ==> CanFork(s, parent, b)
    ensures var e := ExecuteTree(crypto, s, target, parent, b);
            target in e.blocks && e.blocks == s.blocks[target := e.blocks[target]] &&
            target in e.info && e.info == s.info[target := e.info[target]] &&
            if target == parent then e.wallets == s.wallets
            else target in e.wallets && e.wallets == s.wallets[target := e.wallets[target]]
  {
    hide StateHash, Repeat, RollbackRange, Interval, Inherited, CanFork;
  }

  /** What executing a block does to the dictionary. */
  lemma {:induction false} ExecuteTreeInfo(crypto: Crypto, s: State, b: Block, target: ChainId, parent: ChainId)
    requires target != parent ==> CanFork(s, parent, b)
    ensures var s' := ExecuteTree(crypto, s, target, parent, b);
            s'.order == (if target in s.info then s.order else s.order + [target]) &&
            target in s'.info && s'.info == s.info[target := s'.info[target]] && s'.info[target].latestBlock == b &&
            s'.info[target].stateHash ==
              StateHash(crypto, s'.info[target].parentChain, s'.info[target].base, b) &&
            if target in s.info then
              s'.info[target].base == s.info[target].base && s'.info[target].parentChain == s.info[target].parentChain
            else
              s'.info[target].base == b &&
              s'.info[target].parentChain == if parent in s.info then s.info[parent].base.hash else Repeat(0, 32)
  {
    hide StateHash, Repeat, RollbackRange, Interval, Inherited;
  }

  lemma {:induction false} ForkedBlocks(crypto: Crypto, s: State, b: Block, c: ChainId, parent: ChainId)
    requires c != parent && CanFork(s, parent, b) && b.index <= s.info[parent].latestBlock.index
    ensures BlocksOf(ExecuteTree(crypto, s, c, parent, b), c) ==
            WithBlock(Inherited(BlocksOf(s, c), parent, BlocksOf(s, parent)) -
                      Interval(b.index, s.info[parent].latestBlock.index), b)
  {
    hide StateHash, Repeat, RollbackRange, Inherited;
  }

  lemma {:induction false} ForkedWallets(crypto: Crypto, s: State, b: Block, c: ChainId, parent: ChainId)
    requires c != parent && CanFork(s, parent, b)
    ensures DbOf(ExecuteTree(crypto, s, c, parent, b).wallets, c) ==
            RollbackRange(BlocksOf(s, parent), DbOf(s.wallets, parent),
                          Inherited(DbOf(s.wallets, c), parent, DbOf(s.wallets, parent)),
                          s.info[parent].latestBlock.index, b.index)
  {
    hide StateHash, Repeat, RollbackRange, Interval, Inherited;
  }

  lemma {:induction false} ForkKeepsInv(crypto: Crypto, s: State, b: Block, c: ChainId, parent: ChainId)
    requires Inv(s) && parent in s.info && c == Fork(b.hash) && c !in s.info
    requires HoldsPrevious(s, parent, b) && CanFork(s, parent, b) && b.index <= s.info[parent].latestBlock.index
    ensures Inv(ExecuteTree(crypto, s, c, parent, b))
  {
    hide RollbackRange, LinkedFrom, OrderOk, ExecuteTree;
    var s' := ExecuteTree(crypto, s, c, parent, b);
    var own, main := BlocksOf(s, parent), BlocksOf(s, Main);
    assert Linked(s, parent);
    var lo: nat :| LinkedFrom(own, main, parent, s.info[parent], lo);
    ForkShape(crypto, s, b, c, parent);
    ForkLinked(own, main, parent, s.info[parent], s'.info[c], lo, b);
    assert BlocksOf(s', Main) == main;
    assert LinkedFrom(BlocksOf(s', c), main, c, s'.info[c], if parent == Main then b.index else lo);
    assert Linked(s', c);
    MainOpens(s);
    ExtendedInv(s, s', c);
  }

  /** Any chain at all means that main has its genesis. */
  lemma {:induction false} MainOpens(s: State)
    requires Inv(s) && s.info != map[]
    ensures Main in s.info
  {
    var c :| c in s.info;
    assert c in s.order;
    assert s.order[0] in s.order;
  }
}
