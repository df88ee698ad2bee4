/**
 The chainstate file: in every state that a run can reach, loading what
 `updateChainStateFile` saved rebuilds the same dictionary of chains.
 */
module Persistence {
  import opened Common
  import opened Models
  import opened Wallets
  import opened BlockTree
  import opened ChainRuns
  import opened Snapshots

  /** `Object.values(chains)`. */
  function Entries(order: seq<ChainId>, info: map<ChainId, ForkChainstate>): (chains: seq<ForkChainstate>)
    requires forall c :: c in order ==> c in info
    ensures |chains| == |order|
    ensures forall k :: 0 <= k < |order| ==> chains[k] == info[order[k]]
  {
    seq(|order|, k requires 0 <= k < |order| => info[order[k]])
  }

  /** A JavaScript dictionary: its keys in insertion order, and the values. */
  datatype Dictionary = Dictionary(order: seq<ChainId>, info: map<ChainId, ForkChainstate>)

  function Insert(d: Dictionary, chain: ForkChainstate): Dictionary {
    var id := Id(chain);
    Dictionary(if id in d.info then d.order else d.order + [id], d.info[id := chain])
  }

  /** The constructor of `ChainstateData`: every chain is filed under the id derived from its base. */
  function Rebuild(chains: seq<ForkChainstate>): Dictionary {
    if chains == [] then Dictionary([], map[]) else Insert(Rebuild(chains[..|chains| - 1]), chains[|chains| - 1])
  }

  method BuildChains(chains: seq<ForkChainstate>) returns (d: Dictionary)
    ensures d == Rebuild(chains)
  {
    d := Dictionary([], map[]);
    for k := 0 to |chains|
      invariant d == Rebuild(chains[..k])
    {
      d := Insert(d, chains[k]);
      assert chains[..k + 1][..k] == chains[..k];
    }
    assert chains[..|chains|] == chains;
  }

  /** Keys that equal the derived ids survive: rebuilding from the values gives the dictionary back, in order. */
  lemma {:induction false} RebuildEntries(order: seq<ChainId>, info: map<ChainId, ForkChainstate>)
    requires forall c :: c in order ==> c in info && Id(info[c]) == c
    requires forall i, j :: 0 <= i < j < |order| ==> order[i] != order[j]
    ensures Rebuild(Entries(order, info)) == Dictionary(order, Listed(order, info))
  {
    if order == [] {
      assert Entries(order, info) == [];
    } else {
      var n := |order| - 1;
      var front, last, chains := order[..n], order[n], Entries(order, info);
      LastIsNew(order);
      EntriesLast(order, info);
      hide Entries, Listed;
      RebuildEntries(front, info);
      assert last in order;
      hide Id;
      ListedLast(order, info);
      assert Rebuild(chains) == Insert(Rebuild(chains[..n]), chains[n]);
      hide Rebuild;
      assert front + [last] == order;
    }
  }

  lemma {:induction false} LastIsNew(order: seq<ChainId>)
    requires order != [] && forall i, j :: 0 <= i < j < |order| ==> order[i] != order[j]
    ensures order[|order| - 1] !in order[..|order| - 1] && forall c :: c in order[..|order| - 1] ==> c in order
  {
  }

  lemma {:induction false} EntriesLast(order: seq<ChainId>, info: map<ChainId, ForkChainstate>)
    requires order != [] && forall c :: c in order ==> c in info
    ensures var n, chains := |order| - 1, Entries(order, info);
            (forall c :: c in order[..n] ==> c in info) && order[n] in info &&
            chains != [] && |chains| == n + 1 && chains[..n] == Entries(order[..n], info) && chains[n] == info[order[n]]
  {
    assert forall c :: c in order[..|order| - 1] ==> c in order;
  }

  /** The part of the dictionary that is listed. */
  function Listed(order: seq<ChainId>, info: map<ChainId, ForkChainstate>): map<ChainId, ForkChainstate> {
    map c | c in order && c in info :: info[c]
  }

  lemma {:induction false} ListedLast(order: seq<ChainId>, info: map<ChainId, ForkChainstate>)
    requires order != [] && order[|order| - 1] in info && order[|order| - 1] !in order[..|order| - 1]
    ensures var front, last := order[..|order| - 1], order[|order| - 1];
            last !in Listed(front, info) && Listed(order, info) == Listed(front, info)[last := info[last]]
  {
    var front, last := order[..|order| - 1], order[|order| - 1];
    forall c ensures c in order <==> c in front || c == last {
      assert order == front + [last];
    }
  }

  // ---------------------------------------------------------------- what a run stores

  /** Each chain is stored with the hash of its own record. */
  ghost predicate HashesOk(crypto: Crypto, s: State) {
    forall c :: c in s.info ==>
      s.info[c].stateHash == StateHash(crypto, s.info[c].parentChain, s.info[c].base, s.info[c].latestBlock)
  }

  /** Bases and latest blocks were submitted, and parents are named by the hash of a submitted block or by zeros. */
  ghost predicate FromSubmitted(s: State, submitted: seq<Block>) {
    forall c :: c in s.info ==>
      s.info[c].base in submitted && s.info[c].latestBlock in submitted &&
      (s.info[c].parentChain == Repeat(0, 32) || exists b :: b in submitted && s.info[c].parentChain == b.hash)
  }

  lemma {:induction false} NextStores(crypto: Crypto, s: State, b: Block, s': State, submitted: seq<Block>)
    requires Next(crypto, s, b, s') && HashesOk(crypto, s) && FromSubmitted(s, submitted)
    ensures HashesOk(crypto, s') && FromSubmitted(s', submitted + [b])
  {
    hide ExecuteTree, StateHash, VerifyBlock, WalletOutcome, CanFork, Repeat;
    match VerifyBlock(crypto, s, b)
    case Rejected(_) =>
    case Matching(target, parent) =>
      ExecuteTreeInfo(crypto, s, b, target, parent);
      assert b in submitted + [b];
  }

  lemma {:induction false} RunStores(crypto: Crypto, states: seq<State>, submitted: seq<Block>, k: nat)
    requires Submissions(crypto, states, submitted) && k < |states| && states[0].info == map[]
    ensures HashesOk(crypto, states[k]) && FromSubmitted(states[k], submitted[..k])
  {
    hide Next, HashesOk, FromSubmitted;
    if k == 0 {
      NothingStored(crypto, states[0], submitted[..0]);
    } else {
      RunStores(crypto, states, submitted, k - 1);
      NextStores(crypto, states[k - 1], submitted[k - 1], states[k], submitted[..k - 1]);
      assert submitted[..k] == submitted[..k - 1] + [submitted[k - 1]];
    }
  }

  /** A chain stays in the dictionary, with its base and its parent. */
  lemma {:induction false} RecordsStay(crypto: Crypto, states: seq<State>, submitted: seq<Block>, j: nat, k: nat,
                                       c: ChainId)
    requires Submissions(crypto, states, submitted) && j <= k < |states| && c in states[j].info
    ensures c in states[k].info && states[k].info[c].base == states[j].info[c].base
    ensures states[k].info[c].parentChain == states[j].info[c].parentChain
    decreases k
  {
    if j < k {
      RecordsStay(crypto, states, submitted, j, k - 1, c);
      var s, b, s' := states[k - 1], submitted[k - 1], states[k];
      assert Next(crypto, s, b, s');
      hide Submissions, ExecuteTree, VerifyBlock, WalletOutcome, CanFork;
      match VerifyBlock(crypto, s, b)
      case Rejected(_) =>
      case Matching(target, parent) => ExecuteTreeInfo(crypto, s, b, target, parent);
    }
  }

  /**
   Over any submissions of well-sized blocks: between two moments the state hash of a chain
   is the same if and only if its latest block is, on the wire, or two encodings collide.
   */
  lemma {:induction false} StateHashFollowsLatest(crypto: Crypto, states: seq<State>, submitted: seq<Block>,
                                                  j: nat, k: nat, c: ChainId)
    requires Submissions(crypto, states, submitted) && j <= k < |states| && states[0].info == map[]
    requires forall b :: b in submitted ==> SizedBlock(b) && |b.hash| == 32
    requires c in states[j].info
    ensures c in states[k].info
    ensures var x, y := states[j].info[c], states[k].info[c];
            x.stateHash == y.stateHash <==>
            SameWire(x.latestBlock, y.latestBlock) ||
            Collide(crypto, StatePreImage(x.parentChain, x.base, x.latestBlock),
                    StatePreImage(y.parentChain, y.base, y.latestBlock))
  {
    RecordsStay(crypto, states, submitted, j, k, c);
    RunStores(crypto, states, submitted, j);
    RunStores(crypto, states, submitted, k);
    hide Submissions, SizedBlock, StateHash, StatePreImage, SameWire, Collide;
    var x, y := states[j].info[c], states[k].info[c];
    StateHashCommits(crypto, x.parentChain, x.base, x.latestBlock, y.parentChain, y.base, y.latestBlock);
    SameWireAsItself(x.base);
  }

  lemma {:induction false} SameWireAsItself(b: Block)
    ensures SameWire(b, b)
  {
  }

  /**
   If blocks with the same hash have the same index, then an existing fork is started anew
   only at the index of its base.
   */
  lemma {:induction false} HashesDecideIndex(crypto: Crypto, states: seq<State>, submitted: seq<Block>, k: nat)
    requires Submissions(crypto, states, submitted) && k < |submitted|
    requires Filed(states[0]) && states[0].info == map[]
    requires forall x, y :: x in submitted && y in submitted && x.hash == y.hash ==> x.index == y.index
    ensures OwnIndex(states[k], submitted[k])
  {
    RunsAreFiled(crypto, states, submitted, k);
    RunStores(crypto, states, submitted, k);
    hide Submissions, MatchBlock, HashesOk;
    var s, b := states[k], submitted[k];
    if Reforks(s, b) {
      var Matching(target, parent) := MatchBlock(s, b);
      IdFromHash(s, b, target, parent);
      assert s.info[target].base in submitted[..k] && b in submitted;
    }
  }

  lemma {:induction false} IdFromHash(s: State, b: Block, target: ChainId, parent: ChainId)
    requires Filed(s) && MatchBlock(s, b) == Matching(target, parent) && Reforks(s, b)
    ensures target in s.info && s.info[target].base.hash == b.hash
  {
    VerdictOnFiled(s, b);
    OrderIsEmpty(s);
    assert Id(s.info[target]) == target;
  }

  lemma {:induction false} NothingStored(crypto: Crypto, s: State, submitted: seq<Block>)
    requires s.info == map[]
    ensures HashesOk(crypto, s) && FromSubmitted(s, submitted)
  {
  }

  /** `updateChainStateFile`, then a restart. */
  function Reload(crypto: Crypto, s: State): Dictionary
    requires forall c :: c in s.order ==> c in s.info
  {
    Rebuild(ChainstateFromHex(crypto, ChainstateToHex(Entries(s.order, s.info))))
  }

  /** The chain's record is well-sized and its blocks name the signers that their signatures recover to. */
  ghost predicate Loadable(crypto: Crypto, chain: ForkChainstate) {
    SizedChain(chain) && Recoverable(crypto, chain.base) && Recoverable(crypto, chain.latestBlock)
  }

  lemma {:induction false} ReloadSame(crypto: Crypto, s: State)
    requires Filed(s) && |s.order| < 65536
    requires forall c :: c in s.info ==> Loadable(crypto, s.info[c])
    ensures Reload(crypto, s) == Dictionary(s.order, s.info)
  {
    hide SizedChain, Recoverable, ChainstateFromHex, ChainstateToHex, Rebuild, Id, Listed;
    assert forall c :: c in s.order ==> c in s.info && Id(s.info[c]) == c;
    assert forall i, j :: 0 <= i < j < |s.order| ==> s.order[i] != s.order[j];
    OrderedMap(s.order, s.info);
    hide Filed;
    ChainstateRoundTrip(crypto, Entries(s.order, s.info));
    RebuildEntries(s.order, s.info);
  }

  lemma {:induction false} OrderedMap(order: seq<ChainId>, info: map<ChainId, ForkChainstate>)
    requires OrderOk(order, info.Keys)
    ensures Listed(order, info) == info
  {
  }

  /**
   In every state that submissions of any blocks, harmful re-forks among them, reach from an
   empty node with fewer than 65536 chains, the chainstate file loads as the same chains, if
   the submitted blocks are well-sized and their signers recoverable.
   */
  lemma {:induction false} ReachableStatesReload(crypto: Crypto, states: seq<State>, submitted: seq<Block>, k: nat)
    requires Submissions(crypto, states, submitted) && k < |states|
    requires Filed(states[0]) && states[0].info == map[]
    requires forall b :: b in submitted ==> SizedBlock(b) && Recoverable(crypto, b) && |b.hash| == 32
    requires forall data :: |crypto.sha256(data)| == 32
    requires |states[k].order| < 65536
    ensures Filed(states[k]) && Reload(crypto, states[k]) == Dictionary(states[k].order, states[k].info)
  {
    RunsAreFiled(crypto, states, submitted, k);
    RunStores(crypto, states, submitted, k);
    hide Submissions;
    assert forall c :: c in states[k].order ==> c in states[k].info by { hide Linked; }
    hide Filed;
    StoredLoadable(crypto, states[k], submitted[..k]);
    ReloadSame(crypto, states[k]);
  }

  lemma {:induction false} StoredLoadable(crypto: Crypto, s: State, submitted: seq<Block>)
    requires HashesOk(crypto, s) && FromSubmitted(s, submitted)
    requires forall b :: b in submitted ==> SizedBlock(b) && Recoverable(crypto, b) && |b.hash| == 32
    requires forall data :: |crypto.sha256(data)| == 32
    ensures forall c :: c in s.info ==> Loadable(crypto, s.info[c])
  {
    hide SizedBlock, Recoverable;
  }
}
