/**
 What every run of block submissions keeps: the invariant of the block tree,
 ancestry down to the genesis block, append-only chains, and a chainstate file
 that can be loaded again. Also the one submission that breaks the tree.
 */
module ChainRuns {
  import opened Common
  import opened Models
  import opened Wallets
  import opened BlockTree

  // ---------------------------------------------------------------- one step

  /** Every chain keeps every block it has. */
  predicate Grows(s: State, s': State) {
    forall c :: c in s.blocks ==> c in s'.blocks && Extends(s.blocks[c], s'.blocks[c])
  }

  /** Wallet tasks, however they race, neither open nor close a wallet database. */
  lemma {:induction false} RunAllKeepsKeys(cfg: Config, tasks: seq<Task>, forks: seq<ChainId>, schedule: seq<Event>)
    requires |cfg.pcs| == |tasks| && Main in cfg.stores
    requires forall c :: c in forks ==> c in cfg.stores
    requires forall p :: p in cfg.pending ==> p.chain in cfg.stores
    ensures RunAll(cfg, tasks, forks, schedule).stores.Keys == cfg.stores.Keys
    decreases schedule
  {
    if schedule != [] {
      var next := Step(cfg, tasks, forks, schedule[0]);
      assert next.stores.Keys == cfg.stores.Keys;
      RunAllKeepsKeys(next, tasks, forks, schedule[1..]);
    }
  }

  lemma {:induction false} OutcomeKeepsKeys(before: Stores, b: Block, forks: seq<ChainId>, after: Stores)
    requires Main in before && forall c :: c in forks ==> c in before
    requires WalletOutcome(before, b, forks, after)
    ensures after.Keys == before.Keys
  {
    var tasks := TasksOf(b.transactions);
    var schedule :| var end := RunAll(Init(before, tasks), tasks, forks, schedule);
                    Complete(end) && end.stores == after;
    RunAllKeepsKeys(Init(before, tasks), tasks, forks, schedule);
  }

  lemma {:induction false} ForksAreChains(order: seq<ChainId>, chains: set<ChainId>)
    requires OrderOk(order, chains)
    ensures forall c :: c in ForksOf(order) ==> c in chains
  {
  }

  lemma {:induction false} WalletsDoNotMatter(s: State, s': State)
    requires Inv(s) && s' == s.(wallets := s'.wallets) && s'.wallets.Keys == s.wallets.Keys
    ensures Inv(s')
  {
    hide LinkedFrom, OrderOk;
    forall c | c in s'.info
      ensures Id(s'.info[c]) == c && Linked(s', c)
    {
      assert Linked(s, c);
      LinkedStays(s, s', c);
    }
  }

  /** A submission that starts no existing fork anew keeps the invariant and every stored block. */
  lemma {:induction false} NextKeepsInv(crypto: Crypto, s: State, b: Block, s': State)
    requires Inv(s) && Next(crypto, s, b, s') && !Reforks(s, b)
    ensures Inv(s') && Grows(s, s')
  {
    hide ChainsOk, OrderOk, ExecuteTree, CanFork, MatchBlock, TransactionsValid, BlockHash, WalletOutcome, Reforks,
         Extends;
    match VerifyBlock(crypto, s, b)
    case Rejected(_) => GrowsItself(s);
    case Matching(target, parent) =>
      var executed := ExecuteTree(crypto, s, target, parent, b);
      AcceptedKeepsInv(crypto, s, b, target, parent);
      AcceptedGrows(crypto, s, b, target, parent);
      if target == Main {
        ForksAreChains(executed.order, executed.info.Keys);
        OutcomeKeepsKeys(executed.wallets, b, ForksOf(executed.order), s'.wallets);
      }
      WalletsDoNotMatter(executed, s');
  }

  /** An accepted block is stored in its chain, and nothing stored before is lost or replaced. */
  lemma {:induction false} AcceptedGrows(crypto: Crypto, s: State, b: Block, target: ChainId, parent: ChainId)
    requires Inv(s) && MatchBlock(s, b) == Matching(target, parent) && !Reforks(s, b)
    requires target != parent ==> CanFork(s, parent, b)
    ensures Grows(s, ExecuteTree(crypto, s, target, parent, b))
    ensures GetBlock(ExecuteTree(crypto, s, target, parent, b), target, b.index) == Some(b)
  {
    MatchBlockMeaning(s, b);
    hide MatchBlock, ExecuteTree, CanFork, Grows, OrderOk, Linked;
    if b.index == 0 {
      GenesisGrows(crypto, s, b);
    } else if GetBlock(s, parent, b.index) == None {
      ChildGrows(crypto, s, b, target);
    } else {
      assert target != parent by { assert Id(s.info[parent]) == parent; }
      ForkGrows(crypto, s, b, target, parent);
    }
  }

  lemma {:induction false} ChildGrows(crypto: Crypto, s: State, b: Block, c: ChainId)
    requires c in s.info && c in s.blocks && GetBlock(s, c, b.index) == None
    ensures Grows(s, ExecuteTree(crypto, s, c, c, b))
    ensures GetBlock(ExecuteTree(crypto, s, c, c, b), c, b.index) == Some(b)
  {
    hide ExecuteTree;
    ChildShape(crypto, s, b, c);
  }

  lemma {:induction false} ForkGrows(crypto: Crypto, s: State, b: Block, c: ChainId, parent: ChainId)
    requires CanFork(s, parent, b) && c != parent && c !in s.info && c !in s.blocks && c !in s.wallets
    requires b.index <= s.info[parent].latestBlock.index
    ensures Grows(s, ExecuteTree(crypto, s, c, parent, b))
    ensures GetBlock(ExecuteTree(crypto, s, c, parent, b), c, b.index) == Some(b)
  {
    hide ExecuteTree, RollbackRange, Interval;
    ForkShape(crypto, s, b, c, parent);
  }

  lemma {:induction false} GenesisGrows(crypto: Crypto, s: State, b: Block)
    requires Inv(s) && b.index == 0 && s.order == []
    ensures Grows(s, ExecuteTree(crypto, s, Main, Main, b))
    ensures GetBlock(ExecuteTree(crypto, s, Main, Main, b), Main, 0) == Some(b)
  {
    hide StateHash, Repeat, Linked;
    assert s.info == map[];
  }

  /** The chain's blocks include one with this hash. */
  ghost predicate StoresHash(s: State, hash: Hash) {
    exists c, i :: c in s.info && i in BlocksOf(s, c) && BlocksOf(s, c)[i].hash == hash
  }

  lemma {:induction false} BaseIsStored(s: State, c: ChainId)
    requires Inv(s) && c in s.info
    ensures Id(s.info[c]) == c && StoresHash(s, s.info[c].base.hash)
  {
    var lo := Bottom(s, c);
    BaseInChain(s, c, lo);
    assert BlocksOf(s, c)[s.info[c].base.index].hash == s.info[c].base.hash;
  }

  lemma {:induction false} BaseInChain(s: State, c: ChainId, lo: nat)
    requires c in s.info && LinkedFrom(BlocksOf(s, c), BlocksOf(s, Main), c, s.info[c], lo)
    ensures GetBlock(s, c, s.info[c].base.index) == Some(s.info[c].base)
  {
  }

  /** A block whose hash no stored block has never starts an existing fork anew. */
  lemma {:induction false} FreshHashesDoNotRefork(s: State, b: Block)
    requires Inv(s) && !StoresHash(s, b.hash)
    ensures !Reforks(s, b)
  {
    hide StoresHash, Linked;
    if Reforks(s, b) {
      MatchBlockMeaning(s, b);
      BaseIsStored(s, MatchBlock(s, b).target);
    }
  }

  // ---------------------------------------------------------------- the dictionary

  /** The dictionary lists every chain once, main first, under the id derived from its base. */
  ghost predicate Filed(s: State) {
    OrderOk(s.order, s.info.Keys) && forall c :: c in s.info ==> Id(s.info[c]) == c
  }

  lemma {:induction false} OrderIsEmpty(s: State)
    requires Filed(s)
    ensures s.order == [] <==> s.info == map[]
    ensures Main !in s.info ==> s.order == []
  {
    hide Id;
    assert forall i :: 0 <= i < |s.order| ==> s.order[i] in s.info;
    assert forall c :: c in s.info ==> c in s.order;
  }

  /** What a verdict says about the dictionary alone. */
  lemma {:induction false} VerdictOnFiled(s: State, b: Block)
    requires Filed(s) && MatchBlock(s, b).Matching?
    ensures var Matching(target, parent) := MatchBlock(s, b);
            if b.index == 0 then s.order == [] && target == parent == Main
            else parent in s.info && HoldsPrevious(s, parent, b) &&
                 if GetBlock(s, parent, b.index) == None then target == parent else target == Fork(b.hash)
  {
    OrderIsEmpty(s);
    if b.index > 0 {
      FindParentCorrect(s, s.order, b);
    }
  }

  lemma {:induction false} OrderGains(order: seq<ChainId>, chains: set<ChainId>, c: ChainId)
    requires OrderOk(order, chains) && c !in chains && (order == [] ==> c == Main)
    ensures OrderOk(order + [c], chains + {c})
  {
  }

  lemma {:induction false} TreeFiled(crypto: Crypto, s: State, b: Block, target: ChainId, parent: ChainId)
    requires Filed(s) && MatchBlock(s, b) == Matching(target, parent) && (target != parent ==> CanFork(s, parent, b))
    ensures Filed(ExecuteTree(crypto, s, target, parent, b))
  {
    VerdictOnFiled(s, b);
    ExecuteTreeInfo(crypto, s, b, target, parent);
    OrderIsEmpty(s);
    hide ExecuteTree, CanFork, MatchBlock, Filed, HoldsPrevious, GetBlock;
    FiledGains(s, ExecuteTree(crypto, s, target, parent, b), b, target);
  }

  /** One submission of any block, a harmful re-fork included, keeps the dictionary in order. */
  lemma {:induction false} NextFiled(crypto: Crypto, s: State, b: Block, s': State)
    requires Filed(s) && Next(crypto, s, b, s')
    ensures Filed(s')
  {
    hide ExecuteTree, CanFork, MatchBlock, TransactionsValid, BlockHash, WalletOutcome, OrderOk;
    match VerifyBlock(crypto, s, b)
    case Rejected(_) =>
    case Matching(target, parent) =>
      TreeFiled(crypto, s, b, target, parent);
  }

  lemma {:induction false} FiledGains(s: State, s': State, b: Block, c: ChainId)
    requires Filed(s) && c in s'.info && s'.info == s.info[c := s'.info[c]]
    requires s'.order == if c in s.info then s.order else s.order + [c]
    requires c in s.info ==> s'.info[c].base == s.info[c].base
    requires c !in s.info ==> s'.info[c].base == b && (c == if b.index == 0 then Main else Fork(b.hash))
    requires s.order == [] ==> c == Main
    ensures Filed(s')
  {
    hide OrderOk;
    if c in s.info {
      assert s'.info.Keys == s.info.Keys;
    } else {
      OrderGains(s.order, s.info.Keys, c);
      assert s'.info.Keys == s.info.Keys + {c};
    }
  }

  // ---------------------------------------------------------------- runs

  /** The states of a node to which any blocks were handed one after the other. */
  ghost predicate Submissions(crypto: Crypto, states: seq<State>, submitted: seq<Block>) {
    |states| == |submitted| + 1 &&
    forall k :: 0 <= k < |submitted| ==> Next(crypto, states[k], submitted[k], states[k + 1])
  }

  lemma {:induction false} RunsAreFiled(crypto: Crypto, states: seq<State>, submitted: seq<Block>, k: nat)
    requires Submissions(crypto, states, submitted) && Filed(states[0]) && k < |states|
    ensures Filed(states[k])
  {
    hide Filed, Next;
    if k > 0 {
      RunsAreFiled(crypto, states, submitted, k - 1);
      NextFiled(crypto, states[k - 1], submitted[k - 1], states[k]);
    }
  }

  /** `states` are the states of a node to which the blocks of `submitted` were handed one after the other. */
  ghost predicate IsRun(crypto: Crypto, states: seq<State>, submitted: seq<Block>) {
    |states| == |submitted| + 1 &&
    forall k :: 0 <= k < |submitted| ==>
      Next(crypto, states[k], submitted[k], states[k + 1]) && !Reforks(states[k], submitted[k])
  }

  /** Safety over whole runs: the invariant always holds, and no chain ever loses or changes a block. */
  lemma {:induction false} RunsAreSafe(crypto: Crypto, states: seq<State>, submitted: seq<Block>, i: nat, j: nat)
    requires IsRun(crypto, states, submitted) && Inv(states[0]) && i <= j < |states|
    ensures Inv(states[i]) && Inv(states[j]) && Grows(states[i], states[j])
    decreases j
  {
    hide Inv, Grows, Next, Reforks;
    if i < j {
      RunsAreSafe(crypto, states, submitted, i, j - 1);
      NextKeepsInv(crypto, states[j - 1], submitted[j - 1], states[j]);
      GrowsOn(states[i], states[j - 1], states[j]);
    } else {
      if j > 0 {
        RunsAreSafe(crypto, states, submitted, j - 1, j - 1);
        NextKeepsInv(crypto, states[j - 1], submitted[j - 1], states[j]);
      }
      GrowsItself(states[j]);
    }
  }

  lemma {:induction false} GrowsItself(s: State)
    ensures Grows(s, s)
  {
  }

  lemma {:induction false} GrowsOn(s: State, s': State, s'': State)
    requires Grows(s, s') && Grows(s', s'')
    ensures Grows(s, s'')
  {
  }

  lemma {:induction false} FreshInv(initial: WalletDb)
    ensures Inv(Fresh(initial))
  {
  }

  // ---------------------------------------------------------------- ancestry

  /** The block at index `i` as chain `c` sees it: its own, or below its lowest block main's. */
  function SeenFrom(s: State, c: ChainId, i: nat): Option<Block> {
    if GetBlock(s, c, i).Some? then GetBlock(s, c, i) else GetBlock(s, Main, i)
  }

  /** `path[k]` is the block at index `k`, each one's previous hash is the hash of the one before. */
  ghost predicate IsAncestry(s: State, c: ChainId, path: seq<Block>) {
    path != [] && Main in s.info && path[0] == s.info[Main].base &&
    (forall k :: 0 <= k < |path| ==> SeenFrom(s, c, k) == Some(path[k]) && path[k].index == k) &&
    (forall k, l :: 0 <= k && l == k + 1 < |path| ==> path[l].previousHash == path[k].hash)
  }

  lemma {:induction false} MainAncestry(s: State, i: nat) returns (path: seq<Block>)
    requires Inv(s) && Main in s.info && i <= s.info[Main].latestBlock.index
    ensures IsAncestry(s, Main, path) && |path| == i + 1 && GetBlock(s, Main, i) == Some(path[i])
  {
    hide Inv, LinkedFrom, IsAncestry;
    var m := BlocksOf(s, Main);
    var lo := Bottom(s, Main);
    MainStartsAtZero(m, s.info[Main], lo);
    path := OwnBlocks(m, m, Main, s.info[Main], lo, i);
    AncestryOnMain(s, path);
  }

  lemma {:induction false} AncestryOnMain(s: State, path: seq<Block>)
    requires Main in s.info && path != [] && path[0] == s.info[Main].base
    requires forall k :: 0 <= k < |path| ==>
               k in BlocksOf(s, Main) && path[k] == BlocksOf(s, Main)[k] && path[k].index == k
    requires forall k, l :: 0 <= k && l == k + 1 < |path| ==> path[l].previousHash == path[k].hash
    ensures IsAncestry(s, Main, path)
  {
  }

  lemma {:induction false} MainStartsAtZero(m: map<nat, Block>, chain: ForkChainstate, lo: nat)
    requires LinkedFrom(m, m, Main, chain, lo) && Id(chain) == Main
    ensures lo == 0 && m[0] == chain.base
  {
  }

  /** The blocks of a chain from its lowest up to index `i`. */
  lemma {:induction false} OwnBlocks(m: map<nat, Block>, main: map<nat, Block>, c: ChainId, chain: ForkChainstate,
                                     lo: nat, i: nat)
    returns (own: seq<Block>)
    requires LinkedFrom(m, main, c, chain, lo) && lo <= i <= chain.latestBlock.index
    ensures |own| == i + 1 - lo
    ensures forall j :: lo <= j <= i ==> j in m && m[j].index == j
    ensures forall k :: 0 <= k < |own| ==> own[k] == m[lo + k]
    ensures forall k, l :: 0 <= k && l == k + 1 < |own| ==> own[l].previousHash == own[k].hash
  {
    own := seq(i + 1 - lo, k requires 0 <= k < i + 1 - lo => m[lo + k]);
    forall k, l | 0 <= k && l == k + 1 < |own|
      ensures own[l].previousHash == own[k].hash
    {
      assert lo + k in m && lo + l in m;
    }
  }

  /** Every stored block has a chain of ancestors, crossing from its fork to main at most once, down to genesis. */
  lemma {:induction false} Ancestry(s: State, c: ChainId, i: nat) returns (path: seq<Block>)
    requires Inv(s) && c in s.info && i in BlocksOf(s, c)
    ensures IsAncestry(s, c, path) && |path| == i + 1 && path[i] == BlocksOf(s, c)[i]
  {
    hide Inv, IsAncestry, LinkedFrom;
    MainOpens(s);
    var m, main := BlocksOf(s, c), BlocksOf(s, Main);
    var lo := Bottom(s, c);
    var zero := Bottom(s, Main);
    BottomOnMain(s, m, main, c, lo, zero);
    if c == Main {
      path := MainAncestry(s, i);
    } else {
      var below := MainAncestry(s, lo - 1);
      var own := OwnBlocks(m, main, c, s.info[c], lo, i);
      path := below + own;
      AncestryJoins(s, c, m, below, own, lo);
    }
  }

  /** Where a chain starts. */
  lemma {:induction false} Bottom(s: State, c: ChainId) returns (lo: nat)
    requires Inv(s) && c in s.info
    ensures Id(s.info[c]) == c && LinkedFrom(BlocksOf(s, c), BlocksOf(s, Main), c, s.info[c], lo)
  {
    hide OrderOk, LinkedFrom;
    assert Linked(s, c);
    lo :| LinkedFrom(BlocksOf(s, c), BlocksOf(s, Main), c, s.info[c], lo);
  }

  lemma {:induction false} BottomOnMain(s: State, m: map<nat, Block>, main: map<nat, Block>, c: ChainId, lo: nat,
                                        zero: nat)
    requires c in s.info && LinkedFrom(m, main, c, s.info[c], lo)
    requires Main in s.info && LinkedFrom(main, main, Main, s.info[Main], zero)
    ensures forall i :: i in m <==> lo <= i <= s.info[c].latestBlock.index
    ensures c != Main ==> lo > 0 && lo - 1 <= s.info[Main].latestBlock.index && lo - 1 in main &&
                          main[lo - 1].hash == m[lo].previousHash
  {
  }

  lemma {:induction false} AncestryJoins(s: State, c: ChainId, m: map<nat, Block>, below: seq<Block>, own: seq<Block>,
                                         lo: nat)
    requires IsAncestry(s, Main, below) && |below| == lo && own != [] && m == BlocksOf(s, c)
    requires forall k: nat :: k < lo ==> k !in m
    requires forall j :: lo <= j < lo + |own| ==> j in m && m[j].index == j
    requires forall k :: 0 <= k < |own| ==> own[k] == m[lo + k]
    requires forall k, l :: 0 <= k && l == k + 1 < |own| ==> own[l].previousHash == own[k].hash
    requires own[0].previousHash == below[lo - 1].hash
    ensures IsAncestry(s, c, below + own)
  {
    var path := below + own;
    forall k | 0 <= k < |path|
      ensures SeenFrom(s, c, k) == Some(path[k]) && path[k].index == k
    {
      if k < lo {
        assert SeenFrom(s, Main, k) == Some(below[k]);
      } else {
        assert path[k] == own[k - lo];
      }
    }
    forall k, l | 0 <= k && l == k + 1 < |path|
      ensures path[l].previousHash == path[k].hash
    {
      if l >= lo {
        assert path[l] == own[l - lo];
        if k >= lo { assert path[k] == own[k - lo]; }
      }
    }
  }

  // ---------------------------------------------------------------- the submission that breaks the tree

  /** The latest block of a chain is stored, and no block lies above it. */
  predicate LatestIsTop(s: State, c: ChainId) {
    c in s.info && GetBlock(s, c, s.info[c].latestBlock.index) == Some(s.info[c].latestBlock) &&
    forall i :: i in BlocksOf(s, c) ==> i <= s.info[c].latestBlock.index
  }

  /**
   Handing in the base block of an existing fork again keeps "the latest block is
   the top block" exactly when the fork does not reach above its parent chain.
   */
  lemma {:induction false} ReforkKeepsTopIff(crypto: Crypto, s: State, b: Block, target: ChainId, parent: ChainId)
    requires Inv(s) && MatchBlock(s, b) == Matching(target, parent) && Reforks(s, b)
    ensures target != parent ==> CanFork(s, parent, b)
    ensures LatestIsTop(ExecuteTree(crypto, s, target, parent, b), target) <==>
            target != parent && s.info[target].latestBlock.index <= s.info[parent].latestBlock.index
  {
    MatchBlockMeaning(s, b);
    assert Linked(s, target) && Linked(s, parent);
    hide MatchBlock, ChainsOk, OrderOk, Linked, ExecuteTree, CanFork;
    if target == parent {
      CollisionChild(crypto, s, b, target);
    } else {
      ReforkTop(crypto, s, b, target, parent);
    }
  }

  /** A block whose hash names its own parent chain would take the slot of a stored block, which `add` refuses. */
  lemma {:induction false} CollisionChild(crypto: Crypto, s: State, b: Block, c: ChainId)
    requires c in s.info && GetBlock(s, c, b.index).Some? && GetBlock(s, c, b.index).value.hash != b.hash
    ensures !LatestIsTop(ExecuteTree(crypto, s, c, c, b), c)
  {
    hide StateHash;
  }

  lemma {:induction false} ReforkTop(crypto: Crypto, s: State, b: Block, target: ChainId, parent: ChainId)
    requires CanFork(s, parent, b) && target in s.info && target != parent && Linked(s, target) && Linked(s, parent)
    requires b.index <= s.info[parent].latestBlock.index
    ensures LatestIsTop(ExecuteTree(crypto, s, target, parent, b), target) <==>
            s.info[target].latestBlock.index <= s.info[parent].latestBlock.index
  {
    var m, own := BlocksOf(s, target), BlocksOf(s, parent);
    var top, parentTop := s.info[target].latestBlock.index, s.info[parent].latestBlock.index;
    hide Linked, ExecuteTree, Interval, Inherited, WithBlock;
    NothingAboveTop(s, target);
    NothingAboveTop(s, parent);
    ReforkShape(crypto, s, b, target, parent);
    TopAfterRefork(m, own, parent, b, top, parentTop);
  }

  lemma {:induction false} NothingAboveTop(s: State, c: ChainId)
    requires c in s.info && Linked(s, c)
    ensures s.info[c].latestBlock.index in BlocksOf(s, c)
    ensures forall i :: i in BlocksOf(s, c) ==> i <= s.info[c].latestBlock.index
  {
    var lo: nat :| LinkedFrom(BlocksOf(s, c), BlocksOf(s, Main), c, s.info[c], lo);
  }

  lemma {:induction false} TopAfterRefork(m: map<nat, Block>, own: map<nat, Block>, parent: ChainId, b: Block,
                                          top: nat, parentTop: nat)
    requires (forall i :: i in m ==> i <= top) && top in m && (forall i :: i in own ==> i <= parentTop)
    requires b.index <= parentTop
    ensures var m' := WithBlock(Inherited(m, parent, own) - Interval(b.index, parentTop), b);
            b.index in m' && m'[b.index] == b && ((forall i :: i in m' ==> i <= b.index) <==> top <= parentTop)
  {
    var m' := WithBlock(Inherited(m, parent, own) - Interval(b.index, parentTop), b);
    if top > parentTop {
      assert top in m';
    }
  }

  lemma {:induction false} ReforkShape(crypto: Crypto, s: State, b: Block, target: ChainId, parent: ChainId)
    requires CanFork(s, parent, b) && target in s.info && target != parent
    requires b.index <= s.info[parent].latestBlock.index
    ensures var s' := ExecuteTree(crypto, s, target, parent, b);
            target in s'.info && s'.info[target].latestBlock == b &&
            BlocksOf(s', target) == WithBlock(Inherited(BlocksOf(s, target), parent, BlocksOf(s, parent)) -
                                              Interval(b.index, s.info[parent].latestBlock.index), b)
  {
    hide StateHash, RollbackRange, Inherited;
  }
}
