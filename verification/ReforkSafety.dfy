/**
 When a submission that starts an existing fork anew does no harm: the exact
 condition under which it keeps the block tree and every stored block
 (`src/storage/chainstate.ts:239-243`, `src/storage/blockchain.ts:40-72`).
 */
module ReforkSafety {
  import opened Common
  import opened Models
  import opened Wallets
  import opened BlockTree
  import opened ChainRuns

  /** The block that lies just above the fork's latest one when the fork is started anew with `b`. */
  function Successor(own: map<nat, Block>, parent: ChainId, latest: Block, b: Block): Option<Block> {
    if latest.index + 1 == b.index then Some(b)
    else if parent != Main && latest.index + 1 in own then Some(own[latest.index + 1])
    else None
  }

  /** The condition on the fork's blocks `m`, its latest one, and the parent's blocks `own`. */
  predicate Harmless(m: map<nat, Block>, latest: Block, own: map<nat, Block>, parent: ChainId, b: Block) {
    latest.index <= b.index &&
    (latest.index == b.index ==> latest == b) &&
    (latest.index < b.index ==>
      var next := Successor(own, parent, latest, b);
      next.Some? && next.value.previousHash == latest.hash) &&
    (parent != Main ==> forall i :: i in m && i in own && i < b.index ==> own[i] == m[i])
  }

  /**
   The fork holds nothing above the submitted block and at its index nothing but that
   block; if it ends below, its latest block has a successor; and a parent fork, whose
   blocks are copied over, agrees with it.
   */
  predicate ReforkKeeps(s: State, b: Block, target: ChainId, parent: ChainId) {
    target != parent && target in s.info &&
    Harmless(BlocksOf(s, target), s.info[target].latestBlock, BlocksOf(s, parent), parent, b)
  }

  // ---------------------------------------------------------------- the new block file

  /** The fork's blocks after it is started anew; `top` is the parent's top index. */
  function Refiled(m: map<nat, Block>, own: map<nat, Block>, parent: ChainId, top: nat, b: Block): map<nat, Block> {
    WithBlock(Inherited(m, parent, own) - Interval(b.index, top), b)
  }

  lemma {:induction false} RefiledAt(m: map<nat, Block>, own: map<nat, Block>, parent: ChainId, top: nat, b: Block)
    requires b.index <= top && forall i :: i in own ==> i <= top
    ensures var r := Refiled(m, own, parent, top, b);
            b.index in r && r[b.index] == b &&
            (forall i :: i in r && i != b.index ==> i < b.index || i > top) &&
            (forall i: nat :: i < b.index ==> (i in r <==> i in m || (parent != Main && i in own))) &&
            (forall i: nat :: i < b.index && i in r ==> r[i] == if parent != Main && i in own then own[i] else m[i]) &&
            (forall i: nat :: i > top ==> (i in r <==> i in m) && (i in m ==> r[i] == m[i]))
  {
  }

  /** No stored block is lost or replaced. */
  lemma {:induction false} RefiledExtendsIff(m: map<nat, Block>, own: map<nat, Block>, parent: ChainId, top: nat,
                                             b: Block)
    requires b.index <= top && forall i :: i in own ==> i <= top
    ensures Extends(m, Refiled(m, own, parent, top, b)) <==>
            (forall i :: i in m ==> !(b.index < i <= top)) && (b.index in m ==> m[b.index] == b) &&
            (parent != Main ==> forall i :: i in m && i in own && i < b.index ==> own[i] == m[i])
  {
    RefiledAt(m, own, parent, top, b);
    hide Refiled;
    var r := Refiled(m, own, parent, top, b);
    if Extends(m, r) {
      forall i | i in m && parent != Main && i in own && i < b.index ensures own[i] == m[i] {
        assert r[i] == m[i];
      }
    }
  }

  // ---------------------------------------------------------------- the condition is necessary

  lemma {:induction false} KeptIsHarmless(m: map<nat, Block>, own: map<nat, Block>, parent: ChainId, latest: Block,
                                          top: nat,
                                          b: Block, lo: nat)
    requires b.index <= top && forall i :: i in own ==> i <= top
    requires latest.index in m && m[latest.index] == latest && forall i :: i in m ==> i <= latest.index
    requires var r := Refiled(m, own, parent, top, b);
             Extends(m, r) && Links(r) && forall i: nat :: i in r <==> lo <= i <= b.index
    ensures Harmless(m, latest, own, parent, b)
  {
    RefiledAt(m, own, parent, top, b);
    RefiledExtendsIff(m, own, parent, top, b);
    hide Refiled, Links;
    var r := Refiled(m, own, parent, top, b);
    assert latest.index in r && r[latest.index] == latest;
    hide Extends;
    if latest.index < b.index {
      assert latest.index + 1 in r && latest.index + 1 !in m;
      LinkAt(r, latest.index);
    }
  }

  ghost predicate Links(m: map<nat, Block>) {
    forall i: nat, j: nat :: i in m && j in m && j == i + 1 ==> m[j].previousHash == m[i].hash
  }

  lemma {:induction false} LinkAt(m: map<nat, Block>, i: nat)
    requires Links(m) && i in m && i + 1 in m
    ensures m[i + 1].previousHash == m[i].hash
  {
  }

  // ---------------------------------------------------------------- the condition is sufficient

  lemma {:induction false} HarmlessOnMain(m: map<nat, Block>, own: map<nat, Block>, main: map<nat, Block>, c: ChainId,
                                          chain: ForkChainstate, chain': ForkChainstate, top: nat, b: Block, lo: nat)
    requires b.index <= top && forall i :: i in own ==> i <= top
    requires LinkedFrom(m, main, c, chain, lo) && Harmless(m, chain.latestBlock, own, Main, b)
    requires chain'.latestBlock == b && chain'.base == chain.base
    ensures LinkedFrom(Refiled(m, own, Main, top, b), main, c, chain', lo)
  {
    RefiledAt(m, own, Main, top, b);
    hide Refiled, Rooted;
    var r := Refiled(m, own, Main, top, b);
    assert forall i: nat :: i in r <==> lo <= i <= b.index;
    assert forall i: nat :: i in m ==> i in r && r[i] == m[i];
  }

  lemma {:induction false} HarmlessOnFork(m: map<nat, Block>, own: map<nat, Block>, main: map<nat, Block>,
                                          parent: ChainId,
                                          c: ChainId, chain: ForkChainstate, parentChain: ForkChainstate,
                                          chain': ForkChainstate, b: Block, lo: nat, plo: nat)
    requires parent != Main && c != Main
    requires LinkedFrom(m, main, c, chain, lo) && LinkedFrom(own, main, parent, parentChain, plo)
    requires b.index > 0 && b.index - 1 in own && own[b.index - 1].hash == b.previousHash
    requires b.index <= parentChain.latestBlock.index
    requires Harmless(m, chain.latestBlock, own, parent, b)
    requires chain'.latestBlock == b && chain'.base == chain.base
    ensures exists lo': nat ::
              LinkedFrom(Refiled(m, own, parent, parentChain.latestBlock.index, b), main, c, chain', lo')
  {
    hide LinkedFrom, Refiled, Harmless, Links, Joined, Rooted;
    var top, latest := parentChain.latestBlock.index, chain.latestBlock;
    Unfolded(m, main, c, chain, lo);
    Unfolded(own, main, parent, parentChain, plo);
    assert latest.index <= b.index by { HarmlessBelow(m, latest, own, parent, b); }
    JoinedFile(m, own, parent, top, b);
    var r := Refiled(m, own, parent, top, b);
    var lo' := if lo < plo then lo else plo;
    JoinedRange(m, own, r, parent, latest, top, b, lo, plo);
    HarmlessKeeps(m, own, r, parent, latest, b);
    JoinedLinks(m, own, r, parent, latest, b);
    JoinedIndices(m, own, r, b);
    RootedAnywhere(main, parent, c, own[plo]);
    Assembled(r, main, c, chain', lo');
  }

  lemma {:induction false} Unfolded(m: map<nat, Block>, main: map<nat, Block>, c: ChainId, chain: ForkChainstate,
                                    lo: nat)
    requires LinkedFrom(m, main, c, chain, lo)
    ensures (forall i: nat :: i in m <==> lo <= i <= chain.latestBlock.index)
    ensures forall i: nat :: i in m ==> m[i].index == i
    ensures lo <= chain.base.index <= chain.latestBlock.index && Links(m)
    ensures m[chain.latestBlock.index] == chain.latestBlock && m[chain.base.index] == chain.base &&
            Rooted(main, c, m[lo])
  {
  }

  lemma {:induction false} HarmlessBelow(m: map<nat, Block>, latest: Block, own: map<nat, Block>, parent: ChainId,
                                         b: Block)
    requires Harmless(m, latest, own, parent, b)
    ensures latest.index <= b.index
  {
  }

  lemma {:induction false} JoinedFile(m: map<nat, Block>, own: map<nat, Block>, parent: ChainId, top: nat, b: Block)
    requires parent != Main && b.index <= top && (forall i :: i in own ==> i <= top)
    requires forall i :: i in m ==> i <= b.index
    ensures Joined(m, own, Refiled(m, own, parent, top, b), b)
  {
    RefiledAt(m, own, parent, top, b);
    hide Refiled;
  }

  lemma {:induction false} RootedAnywhere(main: map<nat, Block>, c: ChainId, d: ChainId, b: Block)
    requires c != Main && d != Main
    ensures Rooted(main, c, b) == Rooted(main, d, b)
  {
  }

  lemma {:induction false} Assembled(r: map<nat, Block>, main: map<nat, Block>, c: ChainId, chain: ForkChainstate,
                                     lo: nat)
    requires (forall i: nat :: i in r <==> lo <= i <= chain.latestBlock.index)
    requires forall i: nat :: i in r ==> r[i].index == i
    requires lo <= chain.base.index <= chain.latestBlock.index && Links(r)
    requires r[chain.latestBlock.index] == chain.latestBlock && r[chain.base.index] == chain.base &&
             Rooted(main, c, r[lo])
    ensures LinkedFrom(r, main, c, chain, lo)
  {
  }

  lemma {:induction false} JoinedRange(m: map<nat, Block>, own: map<nat, Block>, r: map<nat, Block>, parent: ChainId,
                                       latest: Block, top: nat, b: Block, lo: nat, plo: nat)
    requires parent != Main && Joined(m, own, r, b) && Harmless(m, latest, own, parent, b)
    requires forall i: nat :: i in m <==> lo <= i <= latest.index
    requires forall i: nat :: i in own <==> plo <= i <= top
    requires plo < b.index <= top && lo <= latest.index
    ensures latest.index <= b.index
    ensures forall i: nat :: i in r <==> (if lo < plo then lo else plo) <= i <= b.index
    ensures own[plo] == r[plo] && r[b.index] == b
  {
    assert plo <= latest.index + 1;
  }

  lemma {:induction false} JoinedIndices(m: map<nat, Block>, own: map<nat, Block>, r: map<nat, Block>, b: Block)
    requires Joined(m, own, r, b)
    requires (forall i: nat :: i in m ==> m[i].index == i) && forall i: nat :: i in own ==> own[i].index == i
    ensures forall i: nat :: i in r ==> r[i].index == i
  {
  }

  /** The file of a fork whose parent is a fork: the parent's blocks where it has any, and on top the submitted one. */
  ghost predicate Joined(m: map<nat, Block>, own: map<nat, Block>, r: map<nat, Block>, b: Block) {
    (forall i :: i in r ==> i <= b.index) && b.index in r && r[b.index] == b &&
    (forall i: nat :: i < b.index ==> (i in r <==> i in m || i in own)) &&
    (forall i: nat :: i < b.index && i in r ==> r[i] == if i in own then own[i] else m[i])
  }

  lemma {:induction false} HarmlessKeeps(m: map<nat, Block>, own: map<nat, Block>, r: map<nat, Block>, parent: ChainId,
                                         latest: Block, b: Block)
    requires parent != Main && Joined(m, own, r, b) && Harmless(m, latest, own, parent, b)
    requires latest.index in m && m[latest.index] == latest && forall i :: i in m ==> i <= latest.index
    ensures forall i: nat :: i in m ==> i in r && r[i] == m[i]
  {
  }

  lemma {:induction false} JoinedLinks(m: map<nat, Block>, own: map<nat, Block>, r: map<nat, Block>, parent: ChainId,
                                       latest: Block, b: Block)
    requires parent != Main && Links(m) && Links(own) && Joined(m, own, r, b) && Harmless(m, latest, own, parent, b)
    requires b.index > 0 && b.index - 1 in own && own[b.index - 1].hash == b.previousHash
    requires forall i: nat, j: nat :: i in own && j == i + 1 && j < b.index ==> j in own
    requires latest.index in m && m[latest.index] == latest
    requires forall i: nat, j: nat :: i in m && j == i + 1 && i != latest.index ==> j in m
    ensures Links(r)
  {
    forall i: nat, j: nat | i in r && j in r && j == i + 1
      ensures r[j].previousHash == r[i].hash
    {
      if j < b.index {
        if i != latest.index || i in own {
          JoinedInside(m, own, r, latest, b, i, j);
        } else {
          JoinedAbove(m, own, r, parent, latest, b, j);
        }
      }
    }
  }

  lemma {:induction false} JoinedInside(m: map<nat, Block>, own: map<nat, Block>, r: map<nat, Block>, latest: Block,
                                        b: Block, i: nat, j: nat)
    requires Links(m) && Links(own) && Joined(m, own, r, b) && i in r && j in r && j == i + 1 && j < b.index
    requires i in own ==> j in own
    requires i in m && i != latest.index ==> j in m
    requires i != latest.index || i in own
    requires forall k :: k in m && k in own && k < b.index ==> own[k] == m[k]
    ensures r[j].previousHash == r[i].hash
  {
    hide Links;
    if i in own {
      LinkAt(own, i);
    } else {
      LinkAt(m, i);
    }
  }

  lemma {:induction false} JoinedAbove(m: map<nat, Block>, own: map<nat, Block>, r: map<nat, Block>, parent: ChainId,
                                       latest: Block, b: Block, j: nat)
    requires parent != Main && Joined(m, own, r, b) && Harmless(m, latest, own, parent, b)
    requires latest.index in m && m[latest.index] == latest && latest.index !in own && j == latest.index + 1 &&
             j < b.index
    ensures j in r ==> r[j].previousHash == r[latest.index].hash
  {
  }

  lemma {:induction false} HarmlessFile(m: map<nat, Block>, own: map<nat, Block>, main: map<nat, Block>,
                                        parent: ChainId,
                                        c: ChainId, chain: ForkChainstate, parentChain: ForkChainstate,
                                        chain': ForkChainstate, b: Block, lo: nat, plo: nat)
    requires c != Main && LinkedFrom(m, main, c, chain, lo) && LinkedFrom(own, main, parent, parentChain, plo)
    requires b.index > 0 && b.index - 1 in own && own[b.index - 1].hash == b.previousHash
    requires b.index <= parentChain.latestBlock.index
    requires Harmless(m, chain.latestBlock, own, parent, b)
    requires chain'.latestBlock == b && chain'.base == chain.base
    ensures exists lo': nat ::
              LinkedFrom(Refiled(m, own, parent, parentChain.latestBlock.index, b), main, c, chain', lo')
  {
    hide Harmless, Refiled;
    if parent == Main {
      assert forall i :: i in own ==> i <= parentChain.latestBlock.index;
      hide LinkedFrom;
      HarmlessOnMain(m, own, main, c, chain, chain', parentChain.latestBlock.index, b, lo);
    } else {
      hide LinkedFrom;
      HarmlessOnFork(m, own, main, parent, c, chain, parentChain, chain', b, lo, plo);
    }
  }

  // ---------------------------------------------------------------- the state

  /** What starting an existing fork anew changes: its block file, its wallets, and the latest block of its record. */
  lemma {:induction false} ReforkFrame(crypto: Crypto, s: State, b: Block, target: ChainId, parent: ChainId)
    requires Inv(s) && CanFork(s, parent, b) && target in s.info && target != parent
    ensures var s' := ExecuteTree(crypto, s, target, parent, b);
            var r := Refiled(BlocksOf(s, target), BlocksOf(s, parent), parent, s.info[parent].latestBlock.index, b);
            b.index <= s.info[parent].latestBlock.index ==>
              s'.order == s.order && target in s'.info && s'.info == s.info[target := s'.info[target]] &&
              s'.info[target].latestBlock == b && s'.info[target].base == s.info[target].base &&
              s'.blocks == s.blocks[target := r] && s'.wallets.Keys == s.wallets.Keys
  {
    hide StateHash, RollbackRange, Inherited, ChainsOk, OrderOk;
  }

  lemma {:induction false} GrowsIff(s: State, s': State, c: ChainId)
    requires c in s.blocks && c in s'.blocks && s'.blocks == s.blocks[c := s'.blocks[c]]
    ensures Grows(s, s') <==> Extends(s.blocks[c], s'.blocks[c])
  {
  }

  lemma {:induction false} SafeIsHarmless(crypto: Crypto, s: State, b: Block, target: ChainId, parent: ChainId)
    requires Inv(s) && CanFork(s, parent, b) && target in s.info && target != parent && target != Main
    requires b.index <= s.info[parent].latestBlock.index
    requires var s' := ExecuteTree(crypto, s, target, parent, b); Inv(s') && Grows(s, s')
    ensures ReforkKeeps(s, b, target, parent)
  {
    var s' := ExecuteTree(crypto, s, target, parent, b);
    ReforkFrame(crypto, s, b, target, parent);
    TopOf(s, parent);
    hide ExecuteTree, Refiled, CanFork;
    GrowsIff(s, s', target);
    var lo := Bottom(s, target);
    var lo' := Bottom(s', target);
    hide Inv, LinkedFrom, Grows, Extends, Harmless, Links;
    Unfolded(BlocksOf(s, target), BlocksOf(s, Main), target, s.info[target], lo);
    Unfolded(BlocksOf(s', target), BlocksOf(s', Main), target, s'.info[target], lo');
    KeptIsHarmless(BlocksOf(s, target), BlocksOf(s, parent), parent, s.info[target].latestBlock,
                   s.info[parent].latestBlock.index, b, lo');
  }

  lemma {:induction false} TopOf(s: State, c: ChainId)
    requires Inv(s) && c in s.info
    ensures forall i :: i in BlocksOf(s, c) ==> i <= s.info[c].latestBlock.index
  {
    assert Linked(s, c);
    hide Inv, Linked;
    NothingAboveTop(s, c);
  }

  lemma {:induction false} HarmlessIsSafe(crypto: Crypto, s: State, b: Block, target: ChainId, parent: ChainId)
    requires Inv(s) && CanFork(s, parent, b) && target in s.info && target != Main && parent in s.info
    requires HoldsPrevious(s, parent, b) && b.index <= s.info[parent].latestBlock.index
    requires ReforkKeeps(s, b, target, parent)
    ensures Inv(ExecuteTree(crypto, s, target, parent, b)) && Grows(s, ExecuteTree(crypto, s, target, parent, b))
  {
    var s' := ExecuteTree(crypto, s, target, parent, b);
    hide ExecuteTree, Refiled, CanFork, LinkedFrom, Linked, ReforkKeeps, Grows, Inv;
    ReforkFrame(crypto, s, b, target, parent);
    HarmlessLinked(s, s', b, target, parent);
    HarmlessGrows(crypto, s, b, target, parent);
    var _ := Bottom(s, target);
    MainOpens(s);
    FrameExtends(s, s', target);
    ExtendedInv(s, s', target);
  }

  lemma {:induction false} FrameExtends(s: State, s': State, c: ChainId)
    requires Inv(s) && c in s.info && c != Main && c in s'.blocks && s'.blocks == s.blocks[c := s'.blocks[c]]
    requires s'.wallets.Keys == s.wallets.Keys
    ensures Extends(BlocksOf(s, Main), BlocksOf(s', Main)) && s'.wallets.Keys == s.wallets.Keys + {c}
  {
    hide ChainsOk, OrderOk;
  }

  lemma {:induction false} HarmlessGrows(crypto: Crypto, s: State, b: Block, target: ChainId, parent: ChainId)
    requires Inv(s) && CanFork(s, parent, b) && target in s.info && parent in s.info
    requires b.index <= s.info[parent].latestBlock.index && ReforkKeeps(s, b, target, parent)
    ensures Grows(s, ExecuteTree(crypto, s, target, parent, b))
  {
    var s' := ExecuteTree(crypto, s, target, parent, b);
    ReforkFrame(crypto, s, b, target, parent);
    TopOf(s, parent);
    TopOf(s, target);
    var lo := Bottom(s, target);
    hide ExecuteTree, Refiled, CanFork;
    RefiledExtendsIff(BlocksOf(s, target), BlocksOf(s, parent), parent, s.info[parent].latestBlock.index, b);
    assert target in s.blocks;
    hide Inv;
    GrowsIff(s, s', target);
  }

  lemma {:induction false} HarmlessLinked(s: State, s': State, b: Block, target: ChainId, parent: ChainId)
    requires Inv(s) && target in s.info && target != Main && parent in s.info && ReforkKeeps(s, b, target, parent)
    requires HoldsPrevious(s, parent, b) && b.index <= s.info[parent].latestBlock.index
    requires target in s'.info && s'.info[target].latestBlock == b && s'.info[target].base == s.info[target].base
    requires target in s'.blocks && s'.blocks == s.blocks[target := s'.blocks[target]]
    requires s'.blocks[target] ==
             Refiled(BlocksOf(s, target), BlocksOf(s, parent), parent, s.info[parent].latestBlock.index, b)
    ensures Linked(s', target)
  {
    hide Refiled, LinkedFrom, Linked, Inv, Harmless;
    var lo := Bottom(s, target);
    var plo := Bottom(s, parent);
    var m, own, main := BlocksOf(s, target), BlocksOf(s, parent), BlocksOf(s, Main);
    assert b.index > 0 && b.index - 1 in own && own[b.index - 1].hash == b.previousHash;
    assert BlocksOf(s', Main) == main && BlocksOf(s', target) == s'.blocks[target];
    hide HoldsPrevious, BlocksOf, Id;
    HarmlessFile(m, own, main, parent, target, s.info[target], s.info[parent], s'.info[target], b, lo, plo);
    var lo': nat :| LinkedFrom(s'.blocks[target], main, target, s'.info[target], lo');
    LinkedBy(s', target, s'.blocks[target], main, lo');
  }

  lemma {:induction false} LinkedBy(s: State, c: ChainId, m: map<nat, Block>, main: map<nat, Block>, lo: nat)
    requires c in s.info && BlocksOf(s, c) == m && BlocksOf(s, Main) == main && LinkedFrom(m, main, c, s.info[c], lo)
    ensures Linked(s, c)
  {
    hide LinkedFrom;
  }

  /**
   The exact condition: starting an existing fork anew keeps the invariant and every
   stored block if and only if the fork holds nothing that it would lose.
   */
  lemma {:induction false} ReforkSafeIff(crypto: Crypto, s: State, b: Block, target: ChainId, parent: ChainId)
    requires Inv(s) && MatchBlock(s, b) == Matching(target, parent) && Reforks(s, b)
    ensures target != parent ==> CanFork(s, parent, b)
    ensures var s' := ExecuteTree(crypto, s, target, parent, b);
            Inv(s') && Grows(s, s') <==> ReforkKeeps(s, b, target, parent)
  {
    MatchBlockMeaning(s, b);
    hide MatchBlock, ExecuteTree, CanFork, Grows, Harmless, Linked;
    if target == parent {
      ReforkKeepsTopIff(crypto, s, b, target, parent);
      if Inv(ExecuteTree(crypto, s, target, parent, b)) {
        InvHasTop(ExecuteTree(crypto, s, target, parent, b), target);
      }
    } else {
      if Inv(ExecuteTree(crypto, s, target, parent, b)) && Grows(s, ExecuteTree(crypto, s, target, parent, b)) {
        SafeIsHarmless(crypto, s, b, target, parent);
      }
      if ReforkKeeps(s, b, target, parent) {
        HarmlessIsSafe(crypto, s, b, target, parent);
      }
    }
  }

  lemma {:induction false} InvHasTop(s: State, c: ChainId)
    requires Inv(s)
    ensures c in s.info ==> LatestIsTop(s, c)
  {
    if c in s.info {
      var lo := Bottom(s, c);
    }
  }

  /** For a fork off main and its own base block: the fork must hold nothing above its base. */
  lemma {:induction false} BaseAgainSafeIff(crypto: Crypto, s: State, b: Block, target: ChainId)
    requires Inv(s) && MatchBlock(s, b) == Matching(target, Main) && Reforks(s, b) && s.info[target].base == b
    ensures target != Main ==> CanFork(s, Main, b)
    ensures var s' := ExecuteTree(crypto, s, target, Main, b);
            Inv(s') && Grows(s, s') <==> s.info[target].latestBlock.index == b.index
  {
    ReforkSafeIff(crypto, s, b, target, Main);
    hide MatchBlock, ExecuteTree, CanFork, Grows;
    MatchBlockMeaning(s, b);
    var lo := Bottom(s, target);
  }

  /**
   A fork that reaches above the submitted block, but not above its parent chain: its
   latest block is on top again, and the blocks it had above are lost.
   */
  lemma {:induction false} ReforkDropsBlocks(crypto: Crypto, s: State, b: Block, target: ChainId, parent: ChainId)
    requires Inv(s) && MatchBlock(s, b) == Matching(target, parent) && Reforks(s, b) && target != parent
    requires b.index < s.info[target].latestBlock.index <= s.info[parent].latestBlock.index
    ensures CanFork(s, parent, b)
    ensures var s' := ExecuteTree(crypto, s, target, parent, b);
            LatestIsTop(s', target) && !Grows(s, s') && GetBlock(s', target, s.info[target].latestBlock.index) == None
  {
    MatchBlockMeaning(s, b);
    ReforkKeepsTopIff(crypto, s, b, target, parent);
    ReforkFrame(crypto, s, b, target, parent);
    TopOf(s, target);
    TopOf(s, parent);
    var lo := Bottom(s, target);
    hide MatchBlock, CanFork, ExecuteTree, Refiled;
    var m, own, top := BlocksOf(s, target), BlocksOf(s, parent), s.info[parent].latestBlock.index;
    RefiledAt(m, own, parent, top, b);
    assert s.info[target].latestBlock.index in m;
  }

  // ---------------------------------------------------------------- runs of any submissions

  /** The submission is rejected, starts no existing fork anew, or does so without harm. */
  predicate SafeToSubmit(crypto: Crypto, s: State, b: Block) {
    match VerifyBlock(crypto, s, b)
    case Rejected(_) => true
    case Matching(target, parent) => Reforks(s, b) ==> ReforkKeeps(s, b, target, parent)
  }

  /** One submission of any block, with any wallet schedule. */
  lemma {:induction false} NextSafeIff(crypto: Crypto, s: State, b: Block, s': State)
    requires Inv(s) && Next(crypto, s, b, s')
    ensures Inv(s') && Grows(s, s') <==> SafeToSubmit(crypto, s, b)
  {
    if !Reforks(s, b) {
      hide Inv, Grows, Next, Reforks, ReforkKeeps;
      NextKeepsInv(crypto, s, b, s');
    } else {
      NextOfRefork(crypto, s, b, s');
      hide Inv, Grows, Next, Reforks, ReforkKeeps, MatchBlock;
      match VerifyBlock(crypto, s, b)
      case Rejected(_) => GrowsItself(s);
      case Matching(target, parent) => ReforkSafeIff(crypto, s, b, target, parent);
    }
  }

  lemma {:induction false} NextOfRefork(crypto: Crypto, s: State, b: Block, s': State)
    requires Inv(s) && Next(crypto, s, b, s') && Reforks(s, b)
    ensures match VerifyBlock(crypto, s, b)
            case Rejected(_) => s' == s
            case Matching(target, parent) =>
              MatchBlock(s, b) == Matching(target, parent) && (target != parent ==> CanFork(s, parent, b)) &&
              s' == ExecuteTree(crypto, s, target, parent, b)
  {
    hide ExecuteTree, CanFork, TransactionsValid, BlockHash, WalletOutcome, Inv;
  }

  /** The step keeps the tree and every stored block. */
  ghost predicate KeepsAll(s: State, s': State) {
    Inv(s') && Grows(s, s')
  }

  /**
   Over whole runs of any submissions: the tree and all blocks are kept at every step exactly
   when every step is safe.
   */
  lemma {:induction false} RunsAreSafeIff(crypto: Crypto, states: seq<State>, submitted: seq<Block>)
    requires Submissions(crypto, states, submitted) && Inv(states[0])
    ensures (forall k, l :: 0 <= k && l == k + 1 < |states| ==> KeepsAll(states[k], states[l])) <==>
            forall k :: 0 <= k < |submitted| ==> SafeToSubmit(crypto, states[k], submitted[k])
  {
    hide Inv, Grows, Next, SafeToSubmit;
    if forall k, l :: 0 <= k && l == k + 1 < |states| ==> KeepsAll(states[k], states[l]) {
      forall k | 0 <= k < |submitted| ensures SafeToSubmit(crypto, states[k], submitted[k]) {
        if k > 0 { assert KeepsAll(states[k - 1], states[k]); }
        assert KeepsAll(states[k], states[k + 1]);
        NextSafeIff(crypto, states[k], submitted[k], states[k + 1]);
      }
    }
    if forall k :: 0 <= k < |submitted| ==> SafeToSubmit(crypto, states[k], submitted[k]) {
      forall k, l | 0 <= k && l == k + 1 < |states| ensures KeepsAll(states[k], states[l]) {
        SafeRunsKeepAll(crypto, states, submitted, k, l);
      }
    }
  }

  /** Safe submissions, harmless re-forks among them, keep the invariant and lose no block between any two moments. */
  lemma {:induction false} SafeRunsKeepAll(crypto: Crypto, states: seq<State>, submitted: seq<Block>, i: nat, j: nat)
    requires Submissions(crypto, states, submitted) && Inv(states[0]) && i <= j < |states|
    requires forall k :: 0 <= k < |submitted| ==> SafeToSubmit(crypto, states[k], submitted[k])
    ensures Inv(states[i]) && Inv(states[j]) && Grows(states[i], states[j])
    decreases j
  {
    hide Inv, Grows, Next, SafeToSubmit;
    if j > 0 {
      SafeRunsKeepAll(crypto, states, submitted, if i < j then i else j - 1, j - 1);
      NextSafeIff(crypto, states[j - 1], submitted[j - 1], states[j]);
    }
    if i < j {
      GrowsOn(states[i], states[j - 1], states[j]);
    } else {
      GrowsItself(states[j]);
    }
  }
}
