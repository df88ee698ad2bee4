/**
 The wallet database (`src/storage/wallets.ts`, `src/common/models/wallet.ts`).

 A block's transfers run as 2n concurrent tasks. Each task reads its wallet from
 main, offers the wallet it read to every fork that has none, and writes the
 changed wallet back; between any two of these steps other tasks may run. The
 offers to forks are not awaited, so each lands at some later moment.
 */
module Wallets {
  import opened Common
  import opened Codec
  import opened Models

  datatype Wallet = Wallet(balance: uint64, nonce: uint64)

  type WalletDb = map<Address, Wallet>
  type Stores = map<ChainId, WalletDb>

  const EMPTY_WALLET: Wallet := Wallet(0, 0)

  /** `getWallet`: a missing wallet reads as an empty one. */
  function Get(db: WalletDb, a: Address): Wallet {
    if a in db then db[a] else EMPTY_WALLET
  }

  function DbOf(stores: Stores, c: ChainId): WalletDb {
    if c in stores then stores[c] else map[]
  }

  function AddMoney(w: Wallet, amount: uint64): Wallet {
    w.(balance := (w.balance + amount) % TWO_TO_THE_64)
  }

  function SubtractMoneyIfPossible(w: Wallet, amount: uint64): Wallet {
    if w.balance >= amount then w.(balance := w.balance - amount) else w
  }

  function AdjustNonce(w: Wallet, height: int): Wallet {
    w.(nonce := (w.nonce + height) % TWO_TO_THE_64)
  }

  /** A wallet as `getWallet` reads it: an object of its reader's own, changed in place until it is stored. */
  class WalletObject {
    var balance: uint64
    var nonce: uint64

    function Value(): Wallet
      reads this
    {
      Wallet(balance, nonce)
    }

    constructor (w: Wallet)
      ensures Value() == w
    {
      balance, nonce := w.balance, w.nonce;
    }

    method Add(amount: uint64)
      modifies this
      ensures Value() == AddMoney(old(Value()), amount)
    {
      balance := (balance + amount) % TWO_TO_THE_64;
    }

    method SubtractIfPossible(amount: uint64)
      modifies this
      ensures Value() == SubtractMoneyIfPossible(old(Value()), amount)
    {
      if balance >= amount {
        balance := balance - amount;
      }
    }

    method Adjust(height: int)
      modifies this
      ensures Value() == AdjustNonce(old(Value()), height)
    {
      nonce := (nonce + height) % TWO_TO_THE_64;
    }
  }

  // ---------------------------------------------------------------- the stored form

  const WalletSchema: Schema := Schema([
    Field("version", false, VERSION),
    Field("balance", false, BigInt),
    Field("nonce", false, BigInt)], true)

  function WalletValues(w: Wallet): seq<Value> {
    [Raw([0]), Number(w.balance), Number(w.nonce)]
  }

  function WalletToHex(w: Wallet): bytes {
    OrEmpty(EncodeFields(WalletSchema.fields, WalletValues(w), false))
  }

  function WalletFromHex(data: bytes): Option<Wallet> {
    match DecodeExactly(WalletSchema.fields, data)
    case None => None
    case Some(v) =>
      if v.Record? && |v.values| == 3 && VersionOk(WalletSchema, v.values) then
        Some(Wallet(NumberOf(v.values[1]), NumberOf(v.values[2])))
      else None
  }

  /** What `setWallet` stores, `getWallet` reads back, for every balance and nonce; a longer record is refused. */
  lemma {:induction false} WalletRoundTrip(w: Wallet, rest: bytes)
    ensures WalletFromHex(WalletToHex(w) + rest) == if rest == [] then Some(w) else None
  {
    hide EncodeFields, DecodeFields, WellSizedFields;
    WalletSized(w);
    assert ToInt([0]) == 0 by { assert [0][..0] == []; }
    ExactDecoding(WalletSchema.fields, WalletValues(w), rest);
  }

  /** A record of another version is refused. */
  lemma {:induction false} OtherRecordVersion(w: Wallet, version: byte)
    ensures |WalletToHex(w)| > 0 && WalletToHex(w)[0] == 0
    ensures WalletFromHex([version] + WalletToHex(w)[1..]) == if version == 0 then Some(w) else None
  {
    var f, zero := WalletSchema.fields, WalletValues(w);
    var values := [Raw([version])] + zero[1..];
    WalletSized(w);
    assert ToInt([version]) == version by { assert [version][..0] == []; }
    hide WellSizedFields, EncodeFields, DecodeFields;
    var rest := VersionInFront(f, zero, version);
    ExactDecoding(f, values, []);
    assert ([0] + rest)[1..] == rest && [version] + rest + [] == [version] + rest;
  }

  lemma {:induction false} WalletSized(w: Wallet)
    ensures WellSizedFields(WalletSchema.fields, WalletValues(w))
  {
    var f, v := WalletSchema.fields, WalletValues(w);
    assert f[1..][1..] == f[2..] && v[1..][1..] == v[2..];
    assert WellSizedFields(f[2..], v[2..]) by { assert f[2..][1..] == [] && v[2..][1..] == []; }
    assert WellSizedFields(f[1..], v[1..]);
  }

  // ---------------------------------------------------------------- tasks

  datatype Task = Debit(address: Address, amount: uint64) | Credit(address: Address, amount: uint64)

  /** What `subtractMoneyFromWallet` and `addMoneyToWallet` do to the wallet they read. */
  function Effect(t: Task, w: Wallet): Wallet {
    match t
    case Debit(_, amount) => SubtractMoneyIfPossible(AdjustNonce(w, 1), amount)
    case Credit(_, amount) => AddMoney(w, amount)
  }

  /** The tasks in the order in which `adjustWalletsByBlock` starts them. */
  function TasksOf(txs: seq<Transaction>): (tasks: seq<Task>)
    ensures |tasks| == 2 * |txs|
  {
    if txs == [] then [] else
      [Debit(txs[0].senderAddress, txs[0].amount), Credit(txs[0].recipientAddress, txs[0].amount)] + TasksOf(txs[1..])
  }

  /** One fork's turn in the copy loop: the wallet is stored if the fork has none for this address. */
  function Offer(stores: Stores, fork: ChainId, a: Address, w: Wallet): Stores {
    if a in DbOf(stores, fork) then stores else stores[fork := DbOf(stores, fork)[a := w]]
  }

  function OfferAll(stores: Stores, forks: seq<ChainId>, a: Address, w: Wallet): Stores
    decreases forks
  {
    if forks == [] then stores else OfferAll(Offer(stores, forks[0], a, w), forks[1..], a, w)
  }

  /** One task on the main chain, run without interruption. */
  function ApplyTask(stores: Stores, forks: seq<ChainId>, t: Task): Stores {
    var w := Get(DbOf(stores, Main), t.address);
    var copied := OfferAll(stores, forks, t.address, w);
    copied[Main := DbOf(copied, Main)[t.address := Effect(t, w)]]
  }

  /** All tasks one after the other. */
  function ApplyTasks(stores: Stores, forks: seq<ChainId>, tasks: seq<Task>): Stores
    decreases tasks
  {
    if tasks == [] then stores else ApplyTasks(ApplyTask(stores, forks, tasks[0]), forks, tasks[1..])
  }

  // ---------------------------------------------------------------- interleavings

  /** Where a task stands: not started; its wallet read and `k` forks looked at; written back. */
  datatype Pc = Start | Copying(k: nat, wallet: Wallet) | Finished

  /** A `setWallet` on a fork that was issued but not awaited. */
  datatype Put = Put(chain: ChainId, address: Address, wallet: Wallet)

  datatype Config = Config(stores: Stores, pcs: seq<Pc>, pending: set<Put>)

  datatype Event = Run(task: nat) | Land(put: Put)

  function Init(stores: Stores, tasks: seq<Task>): Config {
    Config(stores, seq(|tasks|, _ => Start), {})
  }

  function Step(cfg: Config, tasks: seq<Task>, forks: seq<ChainId>, e: Event): Config
    requires |cfg.pcs| == |tasks|
  {
    match e
    case Land(p) =>
      if p in cfg.pending then
        Config(cfg.stores[p.chain := DbOf(cfg.stores, p.chain)[p.address := p.wallet]], cfg.pcs, cfg.pending - {p})
      else cfg
    case Run(i) =>
      if i >= |tasks| then cfg else
        var a := tasks[i].address;
        match cfg.pcs[i]
        case Start => cfg.(pcs := cfg.pcs[i := Copying(0, Get(DbOf(cfg.stores, Main), a))])
        case Copying(k, w) =>
          if k < |forks| then
            cfg.(pcs := cfg.pcs[i := Copying(k + 1, w)],
                 pending := if a in DbOf(cfg.stores, forks[k]) then cfg.pending else cfg.pending + {Put(forks[k], a,
                   w)})
          else
            cfg.(pcs := cfg.pcs[i := Finished],
                 stores := cfg.stores[Main := DbOf(cfg.stores, Main)[a := Effect(tasks[i], w)]])
        case Finished => cfg
  }

  function RunAll(cfg: Config, tasks: seq<Task>, forks: seq<ChainId>, schedule: seq<Event>): (r: Config)
    requires |cfg.pcs| == |tasks|
    ensures |r.pcs| == |tasks|
    decreases schedule
  {
    if schedule == [] then cfg else RunAll(Step(cfg, tasks, forks, schedule[0]), tasks, forks, schedule[1..])
  }

  /** `Promise.all` has resolved and every issued put has landed. */
  predicate Complete(cfg: Config) {
    cfg.pending == {} && forall i :: 0 <= i < |cfg.pcs| ==> cfg.pcs[i] == Finished
  }

  /** Main is there, no fork is called main, and every fork has a wallet database. */
  ghost predicate Proper(stores: Stores, forks: seq<ChainId>) {
    Main in stores && Main !in forks && forall k :: 0 <= k < |forks| ==> forks[k] in stores
  }

  // ---------------------------------------------------------------- conflict-free blocks

  /** No two tasks share a wallet, unless all of them there credit nothing. */
  ghost predicate ConflictFree(tasks: seq<Task>) {
    forall i, j :: 0 <= i < |tasks| && 0 <= j < |tasks| && i != j && tasks[i].address == tasks[j].address ==>
      tasks[i] == Credit(tasks[j].address, 0)
  }

  ghost predicate Touched(tasks: seq<Task>, a: Address) {
    exists i :: 0 <= i < |tasks| && tasks[i].address == a
  }

  /** Task `i` has dealt with fork number `j`. */
  predicate Passed(pc: Pc, j: nat) {
    pc.Finished? || (pc.Copying? && j < pc.k)
  }

  /** What holds at every moment of every interleaving of a conflict-free block that started from `before`. */
  ghost predicate MidBlock(before: Stores, tasks: seq<Task>, forks: seq<ChainId>, cfg: Config)
    requires Proper(before, forks) && |cfg.pcs| == |tasks|
  {
    cfg.stores.Keys == before.Keys &&
    (forall i :: 0 <= i < |tasks| ==> MainProgress(before[Main], cfg.stores[Main], tasks[i], cfg.pcs[i])) &&
    (forall a :: !Touched(tasks, a) ==> SameAt(before[Main], cfg.stores[Main], a)) &&
    (forall c :: c in before && c != Main && c !in forks ==> cfg.stores[c] == before[c]) &&
    (forall c, a :: c in forks ==> ForkProgress(before[Main], before[c], cfg.stores[c], a, tasks)) &&
    (forall p :: p in cfg.pending ==> ProperPut(before, tasks, forks, p)) &&
    (forall i, j :: 0 <= i < |tasks| && 0 <= j < |forks| && Passed(cfg.pcs[i], j) ==>
      tasks[i].address in cfg.stores[forks[j]] ||
      Put(forks[j], tasks[i].address, Get(before[Main], tasks[i].address)) in cfg.pending)
  }

  predicate SameAt(db: WalletDb, db': WalletDb, a: Address) {
    if a in db then a in db' && db'[a] == db[a] else a !in db'
  }

  ghost predicate MainProgress(before: WalletDb, now: WalletDb, t: Task, pc: Pc) {
    match pc
    case Start => Get(now, t.address) == Get(before, t.address)
    case Copying(_, w) => w == Get(before, t.address) && Get(now, t.address) == Get(before, t.address)
    case Finished => t.address in now && now[t.address] == Effect(t, Get(before, t.address))
  }

  /** A fork keeps what it has and only ever gains main's old wallet for a touched address. */
  ghost predicate ForkProgress(main: WalletDb, before: WalletDb, now: WalletDb, a: Address, tasks: seq<Task>) {
    if a in before then a in now && now[a] == before[a]
    else a in now ==> now[a] == Get(main, a) && Touched(tasks, a)
  }

  ghost predicate ProperPut(before: Stores, tasks: seq<Task>, forks: seq<ChainId>, p: Put)
    requires Proper(before, forks)
  {
    p.chain in forks && p.chain in before && p.address !in before[p.chain] && Touched(tasks, p.address) &&
    p.wallet == Get(before[Main], p.address)
  }

  lemma {:induction false} MidBlockInit(before: Stores, tasks: seq<Task>, forks: seq<ChainId>)
    requires Proper(before, forks)
    ensures MidBlock(before, tasks, forks, Init(before, tasks))
  {
  }

  lemma {:induction false} MidBlockStep(before: Stores, tasks: seq<Task>, forks: seq<ChainId>, cfg: Config, e: Event)
    requires Proper(before, forks) && |cfg.pcs| == |tasks| && ConflictFree(tasks)
    requires MidBlock(before, tasks, forks, cfg)
    ensures MidBlock(before, tasks, forks, Step(cfg, tasks, forks, e))
  {
    match e
    case Land(p) => if p in cfg.pending { MidBlockLand(before, tasks, forks, cfg, p); }
    case Run(i) =>
      if i < |tasks| && cfg.pcs[i].Copying? {
        if cfg.pcs[i].k < |forks| {
          MidBlockOffer(before, tasks, forks, cfg, i);
        } else {
          MidBlockWrite(before, tasks, forks, cfg, i);
        }
      }
  }

  lemma {:induction false} MidBlockLand(before: Stores, tasks: seq<Task>, forks: seq<ChainId>, cfg: Config, p: Put)
    requires Proper(before, forks) && |cfg.pcs| == |tasks|
    requires MidBlock(before, tasks, forks, cfg) && p in cfg.pending
    ensures MidBlock(before, tasks, forks, Step(cfg, tasks, forks, Land(p)))
  {
    var next := Step(cfg, tasks, forks, Land(p));
    assert ProperPut(before, tasks, forks, p);
    forall c, a | c in forks
      ensures ForkProgress(before[Main], before[c], next.stores[c], a, tasks)
    {
      assert ForkProgress(before[Main], before[c], cfg.stores[c], a, tasks);
    }
  }

  lemma {:induction false} MidBlockOffer(before: Stores, tasks: seq<Task>, forks: seq<ChainId>, cfg: Config, i: nat)
    requires Proper(before, forks) && |cfg.pcs| == |tasks|
    requires MidBlock(before, tasks, forks, cfg)
    requires i < |tasks| && cfg.pcs[i].Copying? && cfg.pcs[i].k < |forks|
    ensures MidBlock(before, tasks, forks, Step(cfg, tasks, forks, Run(i)))
  {
    var next := Step(cfg, tasks, forks, Run(i));
    var fork, a := forks[cfg.pcs[i].k], tasks[i].address;
    assert MainProgress(before[Main], cfg.stores[Main], tasks[i], cfg.pcs[i]);
    assert ForkProgress(before[Main], before[fork], cfg.stores[fork], a, tasks);
    forall p | p in next.pending
      ensures ProperPut(before, tasks, forks, p)
    {
      if p !in cfg.pending {
        assert p == Put(fork, a, Get(before[Main], a));
      }
    }
  }

  lemma {:induction false} MidBlockWrite(before: Stores, tasks: seq<Task>, forks: seq<ChainId>, cfg: Config, i: nat)
    requires Proper(before, forks) && |cfg.pcs| == |tasks| && ConflictFree(tasks)
    requires MidBlock(before, tasks, forks, cfg)
    requires i < |tasks| && cfg.pcs[i].Copying? && cfg.pcs[i].k >= |forks|
    ensures MidBlock(before, tasks, forks, Step(cfg, tasks, forks, Run(i)))
  {
    var next := Step(cfg, tasks, forks, Run(i));
    var a := tasks[i].address;
    assert MainProgress(before[Main], cfg.stores[Main], tasks[i], cfg.pcs[i]);
    forall j | 0 <= j < |tasks|
      ensures MainProgress(before[Main], next.stores[Main], tasks[j], next.pcs[j])
    {
      assert MainProgress(before[Main], cfg.stores[Main], tasks[j], cfg.pcs[j]);
      if j != i && tasks[j].address == a {
        assert tasks[i] == Credit(a, 0) && tasks[j] == Credit(a, 0);
      }
    }
    forall b | !Touched(tasks, b)
      ensures SameAt(before[Main], next.stores[Main], b)
    {
      assert b != a;
      assert SameAt(before[Main], cfg.stores[Main], b);
    }
  }

  lemma {:induction false} MidBlockAlways(before: Stores, tasks: seq<Task>, forks: seq<ChainId>, cfg: Config,
                                          schedule: seq<Event>)
    requires Proper(before, forks) && |cfg.pcs| == |tasks| && ConflictFree(tasks)
    requires MidBlock(before, tasks, forks, cfg)
    ensures MidBlock(before, tasks, forks, RunAll(cfg, tasks, forks, schedule))
    decreases schedule
  {
    if schedule != [] {
      MidBlockStep(before, tasks, forks, cfg, schedule[0]);
      MidBlockAlways(before, tasks, forks, Step(cfg, tasks, forks, schedule[0]), schedule[1..]);
    }
  }

  /** A complete interleaving of a conflict-free block leaves no freedom: two of them agree on every wallet. */
  lemma {:induction false} CompleteUnique(before: Stores, tasks: seq<Task>, forks: seq<ChainId>, x: Config, y: Config)
    requires Proper(before, forks) && |x.pcs| == |y.pcs| == |tasks|
    requires MidBlock(before, tasks, forks, x) && MidBlock(before, tasks, forks, y)
    requires Complete(x) && Complete(y)
    ensures x.stores == y.stores
  {
    forall c | c in before
      ensures x.stores[c] == y.stores[c]
    {
      forall a: Address
        ensures SameAt(x.stores[c], y.stores[c], a)
      {
        if c == Main {
          if Touched(tasks, a) {
            var i :| 0 <= i < |tasks| && tasks[i].address == a;
            assert MainProgress(before[Main], x.stores[Main], tasks[i], x.pcs[i]);
            assert MainProgress(before[Main], y.stores[Main], tasks[i], y.pcs[i]);
          } else {
            assert SameAt(before[Main], x.stores[Main], a);
            assert SameAt(before[Main], y.stores[Main], a);
          }
        } else if c in forks {
          var j :| 0 <= j < |forks| && forks[j] == c;
          assert ForkProgress(before[Main], before[c], x.stores[c], a, tasks);
          assert ForkProgress(before[Main], before[c], y.stores[c], a, tasks);
          if a !in before[c] && Touched(tasks, a) {
            var i :| 0 <= i < |tasks| && tasks[i].address == a;
            assert Passed(x.pcs[i], j) && Passed(y.pcs[i], j);
          }
        }
      }
      SameEverywhere(x.stores[c], y.stores[c]);
    }
  }

  lemma {:induction false} SameEverywhere(x: WalletDb, y: WalletDb)
    requires forall a :: SameAt(x, y, a)
    ensures x == y
  {
    forall a ensures a in x <==> a in y { assert SameAt(x, y, a); }
    forall a | a in x ensures x[a] == y[a] { assert SameAt(x, y, a); }
  }

  // ---------------------------------------------------------------- sequential execution is one schedule

  /** The events of task `i` from its turn at fork `k` on: look, let the put land, and at last write. */
  function CopyEvents(i: nat, a: Address, w: Wallet, forks: seq<ChainId>): seq<Event> {
    if forks == [] then [Run(i)] else [Run(i), Land(Put(forks[0], a, w))] + CopyEvents(i, a, w, forks[1..])
  }

  lemma {:induction false} RunAppend(cfg: Config, tasks: seq<Task>, forks: seq<ChainId>, xs: seq<Event>, ys: seq<Event>)
    requires |cfg.pcs| == |tasks|
    ensures RunAll(cfg, tasks, forks, xs + ys) == RunAll(RunAll(cfg, tasks, forks, xs), tasks, forks, ys)
    decreases xs
  {
    if xs == [] {
      assert xs + ys == ys;
    } else {
      RunAppend(Step(cfg, tasks, forks, xs[0]), tasks, forks, xs[1..], ys);
      assert (xs + ys)[1..] == xs[1..] + ys;
    }
  }

  /** A task that has read `w` and then runs alone offers `w` to the remaining forks and writes its effect on `w`. */
  lemma {:induction false} SoloRest(cfg: Config, tasks: seq<Task>, forks: seq<ChainId>, i: nat, k: nat, w: Wallet)
    requires |cfg.pcs| == |tasks| && i < |tasks| && k <= |forks|
    requires cfg.pcs[i] == Copying(k, w) && cfg.pending == {}
    ensures var a := tasks[i].address;
            var copied := OfferAll(cfg.stores, forks[k..], a, w);
            RunAll(cfg, tasks, forks, CopyEvents(i, a, w, forks[k..])) ==
            Config(copied[Main := DbOf(copied, Main)[a := Effect(tasks[i], w)]], cfg.pcs[i := Finished], {})
    decreases |forks| - k
  {
    var a := tasks[i].address;
    if k == |forks| {
      assert CopyEvents(i, a, w, forks[k..])[1..] == [];
    } else {
      var p := Put(forks[k], a, w);
      var looked := Step(cfg, tasks, forks, Run(i));
      var landed := Step(looked, tasks, forks, Land(p));
      assert landed == Config(Offer(cfg.stores, forks[k], a, w), cfg.pcs[i := Copying(k + 1, w)], {});
      SoloRest(landed, tasks, forks, i, k + 1, w);
      assert forks[k..][1..] == forks[k + 1..];
      var tail := CopyEvents(i, a, w, forks[k + 1..]);
      assert ([Run(i), Land(p)] + tail)[1..] == [Land(p)] + tail;
      assert ([Land(p)] + tail)[1..] == tail;
      assert landed.pcs[i := Finished] == cfg.pcs[i := Finished];
    }
  }

  /** Some schedule runs the tasks `lo .. hi` one after the other. */
  lemma {:induction false} SequentialSchedule(cfg: Config, tasks: seq<Task>, forks: seq<ChainId>, lo: nat, hi: nat)
    returns (schedule: seq<Event>)
    requires |cfg.pcs| == |tasks| && lo <= hi <= |tasks| && cfg.pending == {}
    requires forall i :: lo <= i < hi ==> cfg.pcs[i] == Start
    ensures var r := RunAll(cfg, tasks, forks, schedule);
            r.stores == ApplyTasks(cfg.stores, forks, tasks[lo..hi]) && r.pending == {} &&
            forall i :: 0 <= i < |tasks| ==> r.pcs[i] == if lo <= i < hi then Finished else cfg.pcs[i]
    decreases hi - lo
  {
    if lo == hi {
      schedule := [];
    } else {
      var a := tasks[lo].address;
      var w := Get(DbOf(cfg.stores, Main), a);
      var started := Step(cfg, tasks, forks, Run(lo));
      SoloRest(started, tasks, forks, lo, 0, w);
      assert forks[0..] == forks;
      var solo := [Run(lo)] + CopyEvents(lo, a, w, forks);
      assert solo[1..] == CopyEvents(lo, a, w, forks);
      var one := RunAll(cfg, tasks, forks, solo);
      assert one.stores == ApplyTask(cfg.stores, forks, tasks[lo]);
      var rest := SequentialSchedule(one, tasks, forks, lo + 1, hi);
      schedule := solo + rest;
      RunAppend(cfg, tasks, forks, solo, rest);
      assert tasks[lo..hi][1..] == tasks[lo + 1..hi];
    }
  }

  // ---------------------------------------------------------------- every interleaving agrees

  /** Every complete interleaving of a conflict-free block ends in the wallets of sequential execution. */
  lemma {:induction false} InterleavingsAgree(stores: Stores, tasks: seq<Task>, forks: seq<ChainId>,
                                              schedule: seq<Event>)
    requires Proper(stores, forks) && ConflictFree(tasks)
    requires Complete(RunAll(Init(stores, tasks), tasks, forks, schedule))
    ensures RunAll(Init(stores, tasks), tasks, forks, schedule).stores == ApplyTasks(stores, forks, tasks)
  {
    var init := Init(stores, tasks);
    MidBlockInit(stores, tasks, forks);
    MidBlockAlways(stores, tasks, forks, init, schedule);
    var inOrder := SequentialSchedule(init, tasks, forks, 0, |tasks|);
    assert tasks[0..|tasks|] == tasks;
    MidBlockAlways(stores, tasks, forks, init, inOrder);
    CompleteUnique(stores, tasks, forks, RunAll(init, tasks, forks, schedule), RunAll(init, tasks, forks, inOrder));
  }

  // ---------------------------------------------------------------- lost updates

  /** What the tasks do to main's own wallets, whatever the forks are. */
  function MainRun(db: WalletDb, tasks: seq<Task>): WalletDb
    decreases tasks
  {
    if tasks == [] then db else
      MainRun(db[tasks[0].address := Effect(tasks[0], Get(db, tasks[0].address))], tasks[1..])
  }

  lemma {:induction false} OffersSpareMain(stores: Stores, forks: seq<ChainId>, a: Address, w: Wallet)
    requires Main !in forks
    ensures DbOf(OfferAll(stores, forks, a, w), Main) == DbOf(stores, Main)
    decreases forks
  {
    if forks != [] {
      OffersSpareMain(Offer(stores, forks[0], a, w), forks[1..], a, w);
    }
  }

  lemma {:induction false} MainRunIsMain(stores: Stores, forks: seq<ChainId>, tasks: seq<Task>)
    requires Main !in forks
    ensures DbOf(ApplyTasks(stores, forks, tasks), Main) == MainRun(DbOf(stores, Main), tasks)
    decreases tasks
  {
    if tasks != [] {
      var t := tasks[0];
      OffersSpareMain(stores, forks, t.address, Get(DbOf(stores, Main), t.address));
      MainRunIsMain(ApplyTask(stores, forks, t), forks, tasks[1..]);
    }
  }

  /** How many tasks debit `a`. */
  function Debits(tasks: seq<Task>, a: Address): nat {
    if tasks == [] then 0 else
      (if tasks[0].Debit? && tasks[0].address == a then 1 else 0) + Debits(tasks[1..], a)
  }

  /** The sum credited to `a`. */
  function Credits(tasks: seq<Task>, a: Address): nat {
    if tasks == [] then 0 else
      (if tasks[0].Credit? && tasks[0].address == a then tasks[0].amount else 0) + Credits(tasks[1..], a)
  }

  lemma {:induction false} GetAfter(db: WalletDb, b: Address, w: Wallet, a: Address)
    ensures Get(db[b := w], a) == if a == b then w else Get(db, a)
  {
  }

  lemma {:induction false} MainRunNonce(db: WalletDb, tasks: seq<Task>, a: Address)
    ensures Get(MainRun(db, tasks), a).nonce == (Get(db, a).nonce + Debits(tasks, a)) % TWO_TO_THE_64
    decreases tasks
  {
    if tasks == [] {
      ModOfUint64(Get(db, a).nonce);
    } else {
      hide TWO_TO_THE_64, Effect, Get;
      var t, rest := tasks[0], tasks[1..];
      var changed := Effect(t, Get(db, t.address));
      EffectCounts(t, Get(db, t.address));
      GetAfter(db, t.address, changed, a);
      MainRunNonce(db[t.address := changed], rest, a);
      ModAdd(Get(db, a).nonce + (if t.Debit? then 1 else 0), Debits(rest, a));
    }
  }

  lemma {:induction false} MainRunCredits(db: WalletDb, tasks: seq<Task>, a: Address)
    requires Debits(tasks, a) == 0
    ensures Get(MainRun(db, tasks), a).balance == (Get(db, a).balance + Credits(tasks, a)) % TWO_TO_THE_64
    decreases tasks
  {
    if tasks == [] {
      ModOfUint64(Get(db, a).balance);
    } else {
      hide TWO_TO_THE_64, Effect, Get;
      var t, rest := tasks[0], tasks[1..];
      var changed := Effect(t, Get(db, t.address));
      EffectCounts(t, Get(db, t.address));
      GetAfter(db, t.address, changed, a);
      MainRunCredits(db[t.address := changed], rest, a);
      ModAdd(Get(db, a).balance + t.amount, Credits(rest, a));
    }
  }

  /** Nonces count the debits; without debits, balances add up the credits. */
  lemma {:induction false} MainRunCounts(db: WalletDb, tasks: seq<Task>, a: Address)
    ensures Get(MainRun(db, tasks), a).nonce == (Get(db, a).nonce + Debits(tasks, a)) % TWO_TO_THE_64
    ensures Debits(tasks, a) == 0 ==>
            Get(MainRun(db, tasks), a).balance == (Get(db, a).balance + Credits(tasks, a)) % TWO_TO_THE_64
  {
    MainRunNonce(db, tasks, a);
    if Debits(tasks, a) == 0 {
      MainRunCredits(db, tasks, a);
    }
  }

  lemma {:induction false} EffectCounts(t: Task, w: Wallet)
    ensures t.Debit? ==> Effect(t, w).nonce == (w.nonce + 1) % TWO_TO_THE_64
    ensures t.Credit? ==> Effect(t, w) == Wallet((w.balance + t.amount) % TWO_TO_THE_64, w.nonce)
  {
  }

  lemma {:induction false} ModAdd(x: int, y: int)
    ensures (x % TWO_TO_THE_64 + y) % TWO_TO_THE_64 == (x + y) % TWO_TO_THE_64
  {
    assert x == x / TWO_TO_THE_64 * TWO_TO_THE_64 + x % TWO_TO_THE_64;
  }

  lemma {:induction false} CountsAppend(xs: seq<Task>, ys: seq<Task>, a: Address)
    ensures Debits(xs + ys, a) == Debits(xs, a) + Debits(ys, a)
    ensures Credits(xs + ys, a) == Credits(xs, a) + Credits(ys, a)
  {
    if xs == [] {
      assert xs + ys == ys;
    } else {
      CountsAppend(xs[1..], ys, a);
      assert (xs + ys)[1..] == xs[1..] + ys;
    }
  }

  lemma {:induction false} NoDebits(tasks: seq<Task>, a: Address)
    requires forall i :: 0 <= i < |tasks| && tasks[i].address == a ==> tasks[i].Credit?
    ensures Debits(tasks, a) == 0
  {
    if tasks != [] {
      NoDebits(tasks[1..], a);
    }
  }

  /** The tasks other than number `i` and number `j`. */
  function Without(tasks: seq<Task>, i: nat, j: nat): seq<Task>
    requires i < j < |tasks|
  {
    tasks[..i] + tasks[i + 1..j] + tasks[j + 1..]
  }

  lemma {:induction false} CountsWithout(tasks: seq<Task>, i: nat, j: nat, a: Address)
    requires i < j < |tasks|
    ensures Debits(tasks, a) == Debits(Without(tasks, i, j), a) + Debits([tasks[i]], a) + Debits([tasks[j]], a)
    ensures Credits(tasks, a) == Credits(Without(tasks, i, j), a) + Credits([tasks[i]], a) + Credits([tasks[j]], a)
  {
    var xs, ys, zs := tasks[..i], tasks[i + 1..j], tasks[j + 1..];
    assert tasks == xs + ([tasks[i]] + (ys + ([tasks[j]] + zs)));
    CountsAppend(xs, [tasks[i]] + (ys + ([tasks[j]] + zs)), a);
    CountsAppend([tasks[i]], ys + ([tasks[j]] + zs), a);
    CountsAppend(ys, [tasks[j]] + zs, a);
    CountsAppend([tasks[j]], zs, a);
    CountsAppend(xs + ys, zs, a);
    CountsAppend(xs, ys, a);
  }

  lemma {:induction false} ApplyTasksAppend(stores: Stores, forks: seq<ChainId>, xs: seq<Task>, ys: seq<Task>)
    ensures ApplyTasks(stores, forks, xs + ys) == ApplyTasks(ApplyTasks(stores, forks, xs), forks, ys)
    decreases xs
  {
    if xs == [] {
      assert xs + ys == ys;
    } else {
      ApplyTasksAppend(ApplyTask(stores, forks, xs[0]), forks, xs[1..], ys);
      assert (xs + ys)[1..] == xs[1..] + ys;
    }
  }

  /** Everything but tasks `i` and `j`, one after the other. */
  lemma {:induction false} OthersFirst(stores: Stores, tasks: seq<Task>, forks: seq<ChainId>, i: nat, j: nat)
    returns (schedule: seq<Event>)
    requires i < j < |tasks|
    ensures var r := RunAll(Init(stores, tasks), tasks, forks, schedule);
            r.stores == ApplyTasks(stores, forks, Without(tasks, i, j)) && r.pending == {} &&
            forall k :: 0 <= k < |tasks| ==> r.pcs[k] == if k == i || k == j then Start else Finished
  {
    hide RunAll, Step, ApplyTasks;
    var init := Init(stores, tasks);
    var first := SequentialSchedule(init, tasks, forks, 0, i);
    var one := RunAll(init, tasks, forks, first);
    var second := SequentialSchedule(one, tasks, forks, i + 1, j);
    var two := RunAll(one, tasks, forks, second);
    var third := SequentialSchedule(two, tasks, forks, j + 1, |tasks|);
    schedule := first + second + third;
    RunAppend(init, tasks, forks, first + second, third);
    RunAppend(init, tasks, forks, first, second);
    ApplyTasksAppend(stores, forks, tasks[..i] + tasks[i + 1..j], tasks[j + 1..]);
    ApplyTasksAppend(stores, forks, tasks[..i], tasks[i + 1..j]);
    assert tasks[0..i] == tasks[..i] && tasks[j + 1..|tasks|] == tasks[j + 1..];
  }

  /** A task that has read `w`, run alone, writes its effect on `w` to main and changes nothing else there. */
  lemma {:induction false} SoloOnMain(cfg: Config, tasks: seq<Task>, forks: seq<ChainId>, i: nat, w: Wallet)
    requires |cfg.pcs| == |tasks| && i < |tasks| && cfg.pcs[i] == Copying(0, w) && cfg.pending == {} && Main !in forks
    ensures var a := tasks[i].address;
            var r := RunAll(cfg, tasks, forks, CopyEvents(i, a, w, forks));
            r.pending == {} && r.pcs == cfg.pcs[i := Finished] &&
            DbOf(r.stores, Main) == DbOf(cfg.stores, Main)[a := Effect(tasks[i], w)]
  {
    hide RunAll;
    assert forks[0..] == forks;
    SoloRest(cfg, tasks, forks, i, 0, w);
    OffersSpareMain(cfg.stores, forks, tasks[i].address, w);
  }

  /** Both tasks read before either writes; `u` writes last and the effect of `t` is lost. */
  lemma {:induction false} RacingPair(cfg: Config, tasks: seq<Task>, forks: seq<ChainId>, t: nat, u: nat)
    returns (schedule: seq<Event>)
    requires |cfg.pcs| == |tasks| && t < |tasks| && u < |tasks| && t != u && Main !in forks
    requires tasks[t].address == tasks[u].address
    requires cfg.pending == {}
    requires forall k :: 0 <= k < |tasks| ==> cfg.pcs[k] == if k == t || k == u then Start else Finished
    ensures var r := RunAll(cfg, tasks, forks, schedule);
            var a := tasks[u].address;
            var db := DbOf(cfg.stores, Main);
            Complete(r) && DbOf(r.stores, Main) == db[a := Effect(tasks[u], Get(db, a))]
  {
    var a := tasks[u].address;
    var db := DbOf(cfg.stores, Main);
    var w := Get(db, a);
    var first := Step(cfg, tasks, forks, Run(t));
    var both := Step(first, tasks, forks, Run(u));
    assert both == cfg.(pcs := cfg.pcs[t := Copying(0, w)][u := Copying(0, w)]);
    var ts, us := CopyEvents(t, a, w, forks), CopyEvents(u, a, w, forks);
    schedule := [Run(t), Run(u)] + (ts + us);
    assert schedule[1..] == [Run(u)] + (ts + us);
    assert ([Run(u)] + (ts + us))[1..] == ts + us;
    assert RunAll(cfg, tasks, forks, schedule) == RunAll(both, tasks, forks, ts + us);
    hide RunAll, Step, CopyEvents, Effect;
    SoloOnMain(both, tasks, forks, t, w);
    var afterT := RunAll(both, tasks, forks, ts);
    SoloOnMain(afterT, tasks, forks, u, w);
    RunAppend(both, tasks, forks, ts, us);
  }

  /** If `t` debits, or credits something to a wallet that nothing debits, losing its effect shows. */
  lemma {:induction false} LostUpdate(stores: Stores, tasks: seq<Task>, forks: seq<ChainId>, t: nat, u: nat)
    returns (schedule: seq<Event>)
    requires Proper(stores, forks) && t < |tasks| && u < |tasks| && t != u
    requires tasks[t].address == tasks[u].address
    requires tasks[t].Debit? || (tasks[t].amount > 0 &&
             forall k :: 0 <= k < |tasks| && tasks[k].address == tasks[t].address ==> tasks[k].Credit?)
    ensures Complete(RunAll(Init(stores, tasks), tasks, forks, schedule))
    ensures RunAll(Init(stores, tasks), tasks, forks, schedule).stores != ApplyTasks(stores, forks, tasks)
  {
    var i, j := if t < u then t else u, if t < u then u else t;
    var a := tasks[t].address;
    var others := OthersFirst(stores, tasks, forks, i, j);
    var mid := RunAll(Init(stores, tasks), tasks, forks, others);
    var race := RacingPair(mid, tasks, forks, t, u);
    schedule := others + race;
    RunAppend(Init(stores, tasks), tasks, forks, others, race);
    MainRunIsMain(stores, forks, tasks);
    MainRunIsMain(stores, forks, Without(tasks, i, j));
    MainRunCounts(stores[Main], tasks, a);
    MainRunCounts(stores[Main], Without(tasks, i, j), a);
    CountsWithout(tasks, i, j, a);
    LostUpdateShows(tasks, stores[Main], Without(tasks, i, j), t, u);
  }

  lemma {:induction false} LostUpdateShows(tasks: seq<Task>, db: WalletDb, others: seq<Task>, t: nat, u: nat)
    requires t < |tasks| && u < |tasks| && tasks[t].address == tasks[u].address
    requires tasks[t].Debit? || (tasks[t].amount > 0 &&
             forall k :: 0 <= k < |tasks| && tasks[k].address == tasks[t].address ==> tasks[k].Credit?)
    requires var a := tasks[t].address;
             Debits(tasks, a) == Debits(others, a) + Debits([tasks[t]], a) + Debits([tasks[u]], a) &&
             Credits(tasks, a) == Credits(others, a) + Credits([tasks[t]], a) + Credits([tasks[u]], a)
    ensures var a := tasks[t].address;
            Effect(tasks[u], Get(MainRun(db, others), a)) != Get(MainRun(db, tasks), a)
  {
    hide TWO_TO_THE_64, Effect, Debits, Credits, MainRun;
    var a := tasks[t].address;
    var w := Get(db, a);
    MainRunCounts(db, tasks, a);
    MainRunCounts(db, others, a);
    CountsOfOne(tasks[t]);
    CountsOfOne(tasks[u]);
    EffectCounts(tasks[u], Get(MainRun(db, others), a));
    if tasks[t].Debit? {
      LostNonce(w.nonce + Debits(others, a), Debits([tasks[u]], a));
      if tasks[u].Credit? { ModOfUint64(Get(MainRun(db, others), a).nonce); }
    } else {
      NoDebits(tasks, a);
      LostAmount(w.balance + Credits(others, a), tasks[u].amount, tasks[t].amount);
    }
  }

  lemma {:induction false} LostNonce(x: int, y: int)
    ensures (x % TWO_TO_THE_64 + y) % TWO_TO_THE_64 != (x + 1 + y) % TWO_TO_THE_64
  {
    ModAdd(x, y);
  }

  lemma {:induction false} LostAmount(x: int, y: int, lost: uint64)
    requires lost > 0
    ensures (x % TWO_TO_THE_64 + y) % TWO_TO_THE_64 != (x + lost + y) % TWO_TO_THE_64
  {
    ModAdd(x, y);
  }

  lemma {:induction false} ModOfUint64(x: uint64)
    ensures x % TWO_TO_THE_64 == x
  {
  }

  lemma {:induction false} CountsOfOne(t: Task)
    ensures Debits([t], t.address) == if t.Debit? then 1 else 0
    ensures Credits([t], t.address) == if t.Debit? then 0 else t.amount
  {
  }

  /**
   The exact condition: all complete interleavings of a block's tasks agree with
   sequential execution if and only if the block is conflict-free.
   */
  lemma {:induction false} InterleavingsAgreeIff(stores: Stores, tasks: seq<Task>, forks: seq<ChainId>)
    requires Proper(stores, forks)
    ensures (forall schedule :: Complete(RunAll(Init(stores, tasks), tasks, forks, schedule)) ==>
               RunAll(Init(stores, tasks), tasks, forks, schedule).stores == ApplyTasks(stores, forks, tasks)) <==>
            ConflictFree(tasks)
  {
    if ConflictFree(tasks) {
      forall schedule | Complete(RunAll(Init(stores, tasks), tasks, forks, schedule))
        ensures RunAll(Init(stores, tasks), tasks, forks, schedule).stores == ApplyTasks(stores, forks, tasks)
      {
        InterleavingsAgree(stores, tasks, forks, schedule);
      }
    } else {
      var i, j :| 0 <= i < |tasks| && 0 <= j < |tasks| && i != j && tasks[i].address == tasks[j].address &&
                  tasks[i] != Credit(tasks[j].address, 0);
      if d :| 0 <= d < |tasks| && tasks[d].address == tasks[i].address && tasks[d].Debit? {
        var _ := LostUpdate(stores, tasks, forks, d, if d == i then j else i);
      } else {
        var _ := LostUpdate(stores, tasks, forks, i, j);
      }
    }
  }
}
