/**
 Copies of wallets into forks that are still on their way. `addMoneyToWallet` and
 `subtractMoneyFromWallet` (`src/storage/wallets.ts:30-59`) do not await their puts
 into forks, so `Promise.all` resolves, and the next block may be submitted, while
 some have not landed.

 A state with pending puts is compared with the settled one in which they have all
 landed: as long as no put that a submission meets is stale, the settled states form an
 ordinary run.
 */
module PendingPuts {
  import opened Common
  import opened Models
  import opened Wallets
  import opened BlockTree
  import opened ChainRuns
  import opened Conservation
  import opened Snapshots

  // ---------------------------------------------------------------- settling

  ghost predicate PutFor(puts: set<Put>, c: ChainId, a: Address) {
    exists w :: Put(c, a, w) in puts
  }

  /** No two puts are for the same wallet. */
  ghost predicate OnePerWallet(puts: set<Put>) {
    forall p, q :: p in puts && q in puts && p.chain == q.chain && p.address == q.address ==> p == q
  }

  /** The puts go to open forks, and no two to the same wallet. */
  ghost predicate Waiting(stores: Stores, puts: set<Put>) {
    (forall p :: p in puts ==> p.chain != Main && p.chain in stores) && OnePerWallet(puts)
  }

  /** `settled` is `stores` with all puts landed. */
  ghost predicate Settles(stores: Stores, puts: set<Put>, settled: Stores) {
    settled.Keys == stores.Keys && DbOf(settled, Main) == DbOf(stores, Main) &&
    (forall p :: p in puts ==> p.address in DbOf(settled, p.chain) && DbOf(settled, p.chain)[p.address] == p.wallet) &&
    forall c, a :: !PutFor(puts, c, a) ==> SameAt(DbOf(stores, c), DbOf(settled, c), a)
  }

  function Landed(stores: Stores, p: Put): Stores {
    stores[p.chain := DbOf(stores, p.chain)[p.address := p.wallet]]
  }

  lemma {:induction false} NothingToSettle(stores: Stores)
    ensures Settles(stores, {}, stores) && Waiting(stores, {})
  {
  }

  lemma {:induction false} LandedWaiting(stores: Stores, puts: set<Put>, p: Put)
    requires Waiting(stores, puts) && p.chain in stores && p.chain != Main
    ensures Waiting(Landed(stores, p), puts - {p})
  {
  }

  lemma {:induction false} PutForMore(some: set<Put>, all: set<Put>, c: ChainId, a: Address)
    requires some <= all
    ensures PutFor(some, c, a) ==> PutFor(all, c, a)
  {
  }

  lemma {:induction false} PutForOthers(puts: set<Put>, p: Put, c: ChainId, a: Address)
    requires c != p.chain || a != p.address
    ensures PutFor(puts, c, a) ==> PutFor(puts - {p}, c, a)
  {
    if w :| Put(c, a, w) in puts {
      assert Put(c, a, w) in puts - {p};
    }
  }

  /** A put that lands does not change what its state settles to. */
  lemma {:induction false} LandingSettles(stores: Stores, puts: set<Put>, settled: Stores, p: Put)
    requires Waiting(stores, puts) && Settles(stores, puts, settled) && p in puts
    ensures Settles(Landed(stores, p), puts - {p}, settled)
  {
    var rest, landed := puts - {p}, Landed(stores, p);
    forall c, a | !PutFor(rest, c, a) ensures SameAt(DbOf(landed, c), DbOf(settled, c), a) {
      if c == p.chain && a == p.address {
      } else {
        PutForOthers(puts, p, c, a);
      }
    }
  }

  /** A put of a wallet for which none is waiting lands in both states. */
  lemma {:induction false} LandsInBoth(stores: Stores, puts: set<Put>, settled: Stores, p: Put)
    requires Settles(stores, puts, settled) && p.chain in stores && p.chain != Main && !PutFor(puts, p.chain, p.address)
    ensures Settles(Landed(stores, p), puts, Landed(settled, p))
  {
    forall q | q in puts
      ensures q.address in DbOf(Landed(settled, p), q.chain) && DbOf(Landed(settled, p), q.chain)[q.address] == q.wallet
    {
      assert Put(q.chain, q.address, q.wallet) in puts;
    }
  }

  lemma {:induction false} MainInBoth(stores: Stores, puts: set<Put>, settled: Stores, db: WalletDb)
    requires Settles(stores, puts, settled) && Waiting(stores, puts)
    ensures Settles(stores[Main := db], puts, settled[Main := db]) && Waiting(stores[Main := db], puts)
  {
  }

  /** Landing all of them, in any order that this lemma chooses. */
  lemma {:induction false} LandAll(cfg: Config, tasks: seq<Task>, forks: seq<ChainId>)
    returns (schedule: seq<Event>, settled: Stores)
    requires |cfg.pcs| == |tasks| && Waiting(cfg.stores, cfg.pending)
    ensures RunAll(cfg, tasks, forks, schedule) == Config(settled, cfg.pcs, {})
    ensures Settles(cfg.stores, cfg.pending, settled)
    decreases |cfg.pending|
  {
    if cfg.pending == {} {
      schedule, settled := [], cfg.stores;
      NothingToSettle(cfg.stores);
    } else {
      var p :| p in cfg.pending;
      var next := Step(cfg, tasks, forks, Land(p));
      LandedWaiting(cfg.stores, cfg.pending, p);
      var rest: seq<Event>;
      rest, settled := LandAll(next, tasks, forks);
      schedule := [Land(p)] + rest;
      assert schedule[1..] == rest;
      SettlesBefore(cfg.stores, cfg.pending, settled, p);
    }
  }

  lemma {:induction false} SettlesBefore(stores: Stores, puts: set<Put>, settled: Stores, p: Put)
    requires Waiting(stores, puts) && p in puts && Settles(Landed(stores, p), puts - {p}, settled)
    ensures Settles(stores, puts, settled)
  {
    var rest, landed := puts - {p}, Landed(stores, p);
    assert !PutFor(rest, p.chain, p.address);
    assert SameAt(DbOf(landed, p.chain), DbOf(settled, p.chain), p.address);
    forall c, a | !PutFor(puts, c, a) ensures SameAt(DbOf(stores, c), DbOf(settled, c), a) {
      assert !PutFor(rest, c, a);
      assert c == p.chain && a == p.address ==> Put(c, a, p.wallet) in puts;
      assert SameAt(DbOf(landed, c), DbOf(settled, c), a);
    }
  }

  /** Old and new puts that do not meet settle one after the other. */
  lemma {:induction false} SettlesInTurn(stores: Stores, old': set<Put>, mid: Stores, new': set<Put>, settled: Stores)
    requires Settles(stores, old', mid) && Settles(mid, new', settled)
    requires forall p, q :: p in old' && q in new' ==> p.chain != q.chain || p.address != q.address
    ensures Settles(stores, old' + new', settled)
  {
    forall p | p in old'
      ensures p.address in DbOf(settled, p.chain) && DbOf(settled, p.chain)[p.address] == p.wallet
    {
      assert !PutFor(new', p.chain, p.address);
      assert SameAt(DbOf(mid, p.chain), DbOf(settled, p.chain), p.address);
    }
    forall c, a | !PutFor(old' + new', c, a) ensures SameAt(DbOf(stores, c), DbOf(settled, c), a) {
      PutForMore(old', old' + new', c, a);
      PutForMore(new', old' + new', c, a);
    }
  }

  // ---------------------------------------------------------------- one block

  /**
   The tasks do not put a wallet where the put goes: none of them has its address, or the fork
   has the wallet already.
   */
  ghost predicate Quiet(stores: Stores, tasks: seq<Task>, p: Put) {
    Touched(tasks, p.address) ==> p.address in DbOf(stores, p.chain)
  }

  /** The same moment of a block's tasks with `puts` still pending from earlier, and settled. */
  ghost predicate Alike(cfg: Config, puts: set<Put>, settled: Config, tasks: seq<Task>) {
    cfg.pcs == settled.pcs && cfg.pending == puts + settled.pending &&
    Main in cfg.stores && Waiting(cfg.stores, puts) && Settles(cfg.stores, puts, settled.stores) &&
    (forall p :: p in puts ==> Quiet(cfg.stores, tasks, p)) &&
    (forall p :: p in settled.pending ==> p.chain in cfg.stores && p.chain != Main) &&
    forall p, q :: p in puts && q in settled.pending ==> p.chain != q.chain || p.address != q.address
  }

  lemma {:induction false} AlikeStep(cfg: Config, puts: set<Put>, settled: Config, tasks: seq<Task>,
                                     forks: seq<ChainId>, e: Event)
    returns (puts': set<Put>)
    requires |cfg.pcs| == |tasks| && Alike(cfg, puts, settled, tasks)
    requires forall k :: 0 <= k < |forks| ==> forks[k] in cfg.stores && forks[k] != Main
    ensures Alike(Step(cfg, tasks, forks, e), puts', Step(settled, tasks, forks, e), tasks)
    ensures Step(cfg, tasks, forks, e).stores.Keys == cfg.stores.Keys
  {
    puts' := puts;
    match e
    case Land(p) =>
      if p in puts {
        puts' := puts - {p};
        AlikeLandsOld(cfg, puts, settled, tasks, p);
      } else if p in settled.pending {
        AlikeLandsNew(cfg, puts, settled, tasks, p);
      }
    case Run(i) =>
      if i < |tasks| && cfg.pcs[i].Copying? {
        if cfg.pcs[i].k < |forks| {
          AlikeOffers(cfg, puts, settled, tasks, forks, i);
        } else {
          AlikeWrites(cfg, puts, settled, tasks, forks, i);
        }
      }
  }

  lemma {:induction false} AlikeLandsOld(cfg: Config, puts: set<Put>, settled: Config, tasks: seq<Task>, p: Put)
    requires Alike(cfg, puts, settled, tasks) && p in puts
    ensures p in cfg.pending && p !in settled.pending
    ensures Alike(Config(Landed(cfg.stores, p), cfg.pcs, cfg.pending - {p}), puts - {p}, settled, tasks)
  {
    LandingSettles(cfg.stores, puts, settled.stores, p);
    LandedWaiting(cfg.stores, puts, p);
    hide Settles;
    assert cfg.pending - {p} == (puts - {p}) + settled.pending;
  }

  lemma {:induction false} AlikeLandsNew(cfg: Config, puts: set<Put>, settled: Config, tasks: seq<Task>, p: Put)
    requires Alike(cfg, puts, settled, tasks) && p in settled.pending
    ensures p in cfg.pending
    ensures Alike(Config(Landed(cfg.stores, p), cfg.pcs, cfg.pending - {p}), puts,
                  Config(Landed(settled.stores, p), settled.pcs, settled.pending - {p}), tasks)
  {
    assert !PutFor(puts, p.chain, p.address);
    LandsInBoth(cfg.stores, puts, settled.stores, p);
    hide Settles;
    assert cfg.pending - {p} == puts + (settled.pending - {p}) by { assert p !in puts; }
  }

  lemma {:induction false} AlikeOffers(cfg: Config, puts: set<Put>, settled: Config, tasks: seq<Task>,
                                       forks: seq<ChainId>, i: nat)
    requires |cfg.pcs| == |tasks| && i < |tasks| && Alike(cfg, puts, settled, tasks)
    requires forall k :: 0 <= k < |forks| ==> forks[k] in cfg.stores && forks[k] != Main
    requires cfg.pcs[i].Copying? && cfg.pcs[i].k < |forks|
    ensures Alike(Step(cfg, tasks, forks, Run(i)), puts, Step(settled, tasks, forks, Run(i)), tasks)
  {
    var a, c := tasks[i].address, forks[cfg.pcs[i].k];
    assert Touched(tasks, a);
    if PutFor(puts, c, a) {
      var w :| Put(c, a, w) in puts;
      assert Quiet(cfg.stores, tasks, Put(c, a, w));
      assert a in DbOf(cfg.stores, c) && a in DbOf(settled.stores, c);
    } else {
      assert SameAt(DbOf(cfg.stores, c), DbOf(settled.stores, c), a);
      hide Settles, Waiting;
      var p := Put(c, a, cfg.pcs[i].wallet);
      assert cfg.pending + {p} == puts + (settled.pending + {p});
      assert forall q :: q in puts && q.chain == c && q.address == a ==> q == Put(c, a, q.wallet);
    }
  }

  lemma {:induction false} AlikeWrites(cfg: Config, puts: set<Put>, settled: Config, tasks: seq<Task>,
                                       forks: seq<ChainId>, i: nat)
    requires |cfg.pcs| == |tasks| && i < |tasks| && Alike(cfg, puts, settled, tasks)
    requires cfg.pcs[i].Copying? && cfg.pcs[i].k >= |forks|
    ensures Alike(Step(cfg, tasks, forks, Run(i)), puts, Step(settled, tasks, forks, Run(i)), tasks)
  {
    var db := DbOf(cfg.stores, Main)[tasks[i].address := Effect(tasks[i], cfg.pcs[i].wallet)];
    MainInBoth(cfg.stores, puts, settled.stores, db);
    assert DbOf(settled.stores, Main) == DbOf(cfg.stores, Main);
    hide Settles, Waiting;
  }

  lemma {:induction false} AlikeRun(cfg: Config, puts: set<Put>, settled: Config, tasks: seq<Task>,
                                    forks: seq<ChainId>, schedule: seq<Event>)
    returns (puts': set<Put>)
    requires |cfg.pcs| == |tasks| && Alike(cfg, puts, settled, tasks)
    requires forall k :: 0 <= k < |forks| ==> forks[k] in cfg.stores && forks[k] != Main
    ensures Alike(RunAll(cfg, tasks, forks, schedule), puts', RunAll(settled, tasks, forks, schedule), tasks)
    decreases schedule
  {
    if schedule == [] {
      puts' := puts;
    } else {
      var mid := AlikeStep(cfg, puts, settled, tasks, forks, schedule[0]);
      hide Alike, Step;
      var e := schedule[0];
      puts' := AlikeRun(Step(cfg, tasks, forks, e), mid, Step(settled, tasks, forks, e), tasks, forks, schedule[1..]);
    }
  }

  /** `Promise.all` has resolved; puts may still be on their way. */
  predicate Returned(cfg: Config) {
    forall i :: 0 <= i < |cfg.pcs| ==> cfg.pcs[i] == Finished
  }

  ghost predicate LateOutcome(before: Stores, puts: set<Put>, tasks: seq<Task>, forks: seq<ChainId>, after: Stores,
                              puts': set<Put>) {
    exists schedule ::
      var end := RunAll(Init(before, tasks).(pending := puts), tasks, forks, schedule);
      Returned(end) && end.stores == after && end.pending == puts'
  }

  ghost predicate Outcome(before: Stores, tasks: seq<Task>, forks: seq<ChainId>, after: Stores) {
    exists schedule ::
      var end := RunAll(Init(before, tasks), tasks, forks, schedule); Complete(end) && end.stores == after
  }

  /** A put that is pending for an address of the block, where its fork lacks the wallet, holds main's current one. */
  ghost predicate NoneStale(stores: Stores, puts: set<Put>, tasks: seq<Task>) {
    forall p :: p in puts && Touched(tasks, p.address) && p.address !in DbOf(stores, p.chain) ==>
                p.wallet == Get(DbOf(stores, Main), p.address)
  }

  /**
   An outcome with puts pending before and behind settles to an ordinary outcome. The puts
   that the tasks repeat count as the tasks' own; all others are settled first.
   */
  lemma {:induction false} OutcomeSettles(before: Stores, puts: set<Put>, settled: Stores, tasks: seq<Task>,
                                          forks: seq<ChainId>, after: Stores, puts': set<Put>)
    returns (settled': Stores)
    requires Proper(before, forks) && ConflictFree(tasks) && forall p :: p in puts ==> p.chain in forks
    requires Waiting(before, puts) && Settles(before, puts, settled) && NoneStale(before, puts, tasks)
    requires LateOutcome(before, puts, tasks, forks, after, puts')
    ensures Settles(after, puts', settled') && Waiting(after, puts') && Outcome(settled, tasks, forks, settled')
  {
    var repeated := set p | p in puts && !Quiet(before, tasks, p);
    var others := puts - repeated;
    assert puts == others + repeated;
    var mid := SettleSome(before, puts, others);
    var late, init := Init(before, tasks).(pending := puts), Init(mid, tasks).(pending := repeated);
    var schedule :| Returned(RunAll(late, tasks, forks, schedule)) &&
        RunAll(late, tasks, forks, schedule).stores == after &&
                    RunAll(late, tasks, forks, schedule).pending == puts';
    StartAlike(before, puts, tasks, forks, others, repeated, mid);
    hide RunAll, Alike, ConflictFree, Settles, Waiting, LateOutcome, Quiet, NoneStale, MidBlock, Touched;
    var left := AlikeRun(late, others, init, tasks, forks, schedule);
    var end, end' := RunAll(late, tasks, forks, schedule), RunAll(init, tasks, forks, schedule);
    MidBlockAlways(mid, tasks, forks, init, schedule);
    NewPutsWait(mid, tasks, forks, end');
    var landing: seq<Event>;
    landing, settled' := LandAll(end', tasks, forks);
    MidBlockAlways(mid, tasks, forks, end', landing);
    EndSettles(end, left, end', tasks, settled');
    StartSettles(before, puts, tasks, others, repeated, mid, settled);
    NewPutsWait(mid, tasks, forks, init);
    OneOutcome(mid, repeated, settled, tasks, forks, Config(settled', end'.pcs, {}));
  }

  lemma {:induction false} SettleSome(stores: Stores, puts: set<Put>, some: set<Put>) returns (settled: Stores)
    requires Waiting(stores, puts) && some <= puts
    ensures Settles(stores, some, settled)
  {
    hide Settles;
    var _, end := LandAll(Config(stores, [], some), [], []);
    settled := end;
  }

  lemma {:induction false} StartAlike(before: Stores, puts: set<Put>, tasks: seq<Task>, forks: seq<ChainId>,
                                      others: set<Put>, repeated: set<Put>, mid: Stores)
    requires Proper(before, forks) && Waiting(before, puts) && forall p :: p in puts ==> p.chain in forks
    requires puts == others + repeated && others !! repeated
    requires Settles(before, others, mid) && NoneStale(before, puts, tasks)
    requires forall p :: p in puts ==> (p in others <==> Quiet(before, tasks, p))
    ensures Proper(mid, forks)
    ensures Alike(Init(before, tasks).(pending := puts), others, Init(mid, tasks).(pending := repeated), tasks)
    ensures MidBlock(mid, tasks, forks, Init(mid, tasks).(pending := repeated))
  {
    forall p, q | p in others && q in repeated ensures p.chain != q.chain || p.address != q.address {
      assert p in puts && q in puts && p != q;
    }
    forall p | p in repeated ensures ProperPut(mid, tasks, forks, p) {
      assert !PutFor(others, p.chain, p.address);
      assert SameAt(DbOf(before, p.chain), DbOf(mid, p.chain), p.address);
    }
    MidBlockInit(mid, tasks, forks);
  }

  lemma {:induction false} StartSettles(before: Stores, puts: set<Put>, tasks: seq<Task>, others: set<Put>,
                                        repeated: set<Put>, mid: Stores, settled: Stores)
    requires Waiting(before, puts) && puts == others + repeated && others !! repeated
    requires Settles(before, others, mid) && Settles(before, puts, settled)
    ensures Settles(mid, repeated, settled)
  {
    var twice := SettleSome(mid, repeated, repeated) by { WaitingSome(before, puts, repeated, mid); }
    forall p, q | p in others && q in repeated ensures p.chain != q.chain || p.address != q.address {
      assert p in puts && q in puts && p != q;
    }
    SettlesInTurn(before, others, mid, repeated, twice);
    SettlesOneWay(before, puts, settled, twice);
  }

  lemma {:induction false} WaitingSome(before: Stores, puts: set<Put>, some: set<Put>, mid: Stores)
    requires Waiting(before, puts) && some <= puts && mid.Keys == before.Keys
    ensures Waiting(mid, some)
  {
  }

  lemma {:induction false} SettlesOneWay(stores: Stores, puts: set<Put>, x: Stores, y: Stores)
    requires Settles(stores, puts, x) && Settles(stores, puts, y)
    ensures x == y
  {
    forall c ensures DbOf(x, c) == DbOf(y, c) {
      forall a: Address ensures SameAt(DbOf(x, c), DbOf(y, c), a) {
        if w :| Put(c, a, w) in puts {
          assert Put(c, a, w).address in DbOf(x, c);
        } else {
          assert !PutFor(puts, c, a);
        }
      }
      SameEverywhereIsEqual(DbOf(x, c), DbOf(y, c));
    }
    forall c | c in x ensures x[c] == y[c] {
      assert DbOf(x, c) == DbOf(y, c);
    }
  }

  lemma {:induction false} SameEverywhereIsEqual(m: WalletDb, n: WalletDb)
    requires forall a: Address :: SameAt(m, n, a)
    ensures m == n
  {
    forall a: Address ensures (a in m <==> a in n) && (a in m ==> m[a] == n[a]) {
      assert SameAt(m, n, a);
    }
  }

  /** From the settled wallets the tasks end where they end with some of their puts made before. */
  lemma {:induction false} OneOutcome(mid: Stores, repeated: set<Put>, settled: Stores, tasks: seq<Task>,
                                      forks: seq<ChainId>, end: Config)
    requires Proper(mid, forks) && ConflictFree(tasks) && Waiting(mid, repeated) && Settles(mid, repeated, settled)
    requires MidBlock(mid, tasks, forks, Init(mid, tasks).(pending := repeated))
    requires |end.pcs| == |tasks| && MidBlock(mid, tasks, forks, end) && Complete(end)
    ensures Outcome(settled, tasks, forks, end.stores)
  {
    var init := Init(mid, tasks).(pending := repeated);
    hide MidBlock, Settles, Waiting, ConflictFree, RunAll, ApplyTasks;
    var landing, stores := LandAll(init, tasks, forks);
    SettlesOneWay(mid, repeated, settled, stores);
    assert RunAll(init, tasks, forks, landing) == Init(settled, tasks);
    MidBlockAlways(mid, tasks, forks, init, landing);
    var schedule := SequentialSchedule(Init(settled, tasks), tasks, forks, 0, |tasks|);
    MidBlockAlways(mid, tasks, forks, Init(settled, tasks), schedule);
    CompleteUnique(mid, tasks, forks, end, RunAll(Init(settled, tasks), tasks, forks, schedule));
  }

  lemma {:induction false} NewPutsWait(settled: Stores, tasks: seq<Task>, forks: seq<ChainId>, cfg: Config)
    requires Proper(settled, forks) && |cfg.pcs| == |tasks| && MidBlock(settled, tasks, forks, cfg)
    ensures Waiting(cfg.stores, cfg.pending)
  {
  }

  lemma {:induction false} EndSettles(end: Config, left: set<Put>, end': Config, tasks: seq<Task>, settled: Stores)
    requires Alike(end, left, end', tasks) && Waiting(end'.stores, end'.pending)
    requires Settles(end'.stores, end'.pending, settled)
    ensures Settles(end.stores, end.pending, settled) && Waiting(end.stores, end.pending) && end.pcs == end'.pcs
  {
    SettlesInTurn(end.stores, left, end'.stores, end'.pending, settled);
    hide Settles;
  }

  // ---------------------------------------------------------------- the exact condition for one block

  /** The wallet that a fork shows for `a` once the puts have landed and nothing else has happened. */
  ghost function PendingView(stores: Stores, puts: set<Put>, c: ChainId, a: Address): Wallet {
    if PutFor(puts, c, a) then (var w :| Put(c, a, w) in puts; w) else View(stores, c, a)
  }

  lemma {:induction false} ViewSettled(stores: Stores, puts: set<Put>, settled: Stores, c: ChainId, a: Address)
    requires Settles(stores, puts, settled) && OnePerWallet(puts)
    ensures View(settled, c, a) == PendingView(stores, puts, c, a)
  {
    if !PutFor(puts, c, a) {
      assert SameAt(DbOf(stores, c), DbOf(settled, c), a);
    }
  }

  lemma {:induction false} ViewsKept(stores: Stores, puts: set<Put>, tasks: seq<Task>, forks: seq<ChainId>,
                                     schedule: seq<Event>, c: ChainId, a: Address)
    requires Proper(stores, forks) && ConflictFree(tasks) && c in forks && forall p :: p in puts ==> p.chain in forks
    requires OnePerWallet(puts) && NoneStale(stores, puts, tasks)
    requires Complete(RunAll(Init(stores, tasks).(pending := puts), tasks, forks, schedule))
    ensures View(RunAll(Init(stores, tasks).(pending := puts), tasks, forks, schedule).stores, c, a) ==
            PendingView(stores, puts, c, a)
  {
    assert Waiting(stores, puts);
    var after := RunAll(Init(stores, tasks).(pending := puts), tasks, forks, schedule).stores;
    assert LateOutcome(stores, puts, tasks, forks, after, {});
    hide RunAll, ConflictFree, Settles, NoneStale, LateOutcome, Waiting;
    var settled := SettleSome(stores, puts, puts);
    var settled' := OutcomeSettles(stores, puts, settled, tasks, forks, after, {});
    ViewSettled(after, {}, settled', c, a);
    ViewSettled(stores, puts, settled, c, a);
    SettledIsProper(stores, puts, settled, forks);
    var s :| var end := RunAll(Init(settled, tasks), tasks, forks, s); Complete(end) && end.stores == settled';
    ViewsStay(settled, tasks, forks, s, c, a);
  }

  lemma {:induction false} SettledIsProper(stores: Stores, puts: set<Put>, settled: Stores, forks: seq<ChainId>)
    requires Settles(stores, puts, settled)
    ensures Proper(settled, forks) <==> Proper(stores, forks)
  {
  }

  // A stale put: the task has looked before the put lands, and its own put lands behind it.

  function RunsOf(i: nat, n: nat): seq<Event> {
    if n == 0 then [] else [Run(i)] + RunsOf(i, n - 1)
  }

  /** A task that runs to its end while nothing lands. */
  lemma {:induction false} RunsOut(cfg: Config, tasks: seq<Task>, forks: seq<ChainId>, i: nat, k: nat, w: Wallet)
    requires |cfg.pcs| == |tasks| && i < |tasks| && k <= |forks| && cfg.pcs[i] == Copying(k, w)
    ensures var end, a := RunAll(cfg, tasks, forks, RunsOf(i, |forks| - k + 1)), tasks[i].address;
            end.stores == cfg.stores[Main := DbOf(cfg.stores, Main)[a := Effect(tasks[i], w)]] &&
            end.pcs == cfg.pcs[i := Finished] && cfg.pending <= end.pending &&
            (forall p :: p in end.pending && p !in cfg.pending ==>
              p.address == a && p.wallet == w && p.chain in forks) &&
            (forall j :: k <= j < |forks| && a !in DbOf(cfg.stores, forks[j]) ==> Put(forks[j], a, w) in end.pending)
    decreases |forks| - k
  {
    var schedule := RunsOf(i, |forks| - k + 1);
    var next := Step(cfg, tasks, forks, Run(i));
    assert schedule[0] == Run(i) && schedule[1..] == RunsOf(i, |forks| - k);
    if k == |forks| {
      assert RunsOf(i, 0) == [];
    } else {
      RunsOut(next, tasks, forks, i, k + 1, w);
      assert next.pcs[i := Finished] == cfg.pcs[i := Finished];
    }
  }

  /** Everything that is pending lands; a wallet for which nothing is pending stays. */
  lemma {:induction false} LandRest(cfg: Config, tasks: seq<Task>, forks: seq<ChainId>, c: ChainId, a: Address)
    returns (schedule: seq<Event>)
    requires |cfg.pcs| == |tasks| && !PutFor(cfg.pending, c, a)
    ensures var end := RunAll(cfg, tasks, forks, schedule);
            end.pcs == cfg.pcs && end.pending == {} && SameAt(DbOf(cfg.stores, c), DbOf(end.stores, c), a)
    decreases |cfg.pending|
  {
    if cfg.pending == {} {
      schedule := [];
    } else {
      var p :| p in cfg.pending;
      var next := Step(cfg, tasks, forks, Land(p));
      PutForMore(next.pending, cfg.pending, c, a);
      assert p.chain != c || p.address != a;
      assert SameAt(DbOf(cfg.stores, c), DbOf(next.stores, c), a);
      var rest := LandRest(next, tasks, forks, c, a);
      schedule := [Land(p)] + rest;
      assert schedule[1..] == rest;
    }
  }

  lemma {:induction false} OffersKeep(stores: Stores, forks: seq<ChainId>, b: Address, w: Wallet, c: ChainId,
                                      a: Address)
    requires a in DbOf(stores, c)
    ensures a in DbOf(OfferAll(stores, forks, b, w), c) &&
            DbOf(OfferAll(stores, forks, b, w), c)[a] == DbOf(stores, c)[a]
    decreases forks
  {
    if forks != [] {
      OffersKeep(Offer(stores, forks[0], b, w), forks[1..], b, w, c, a);
    }
  }

  lemma {:induction false} TasksKeep(stores: Stores, forks: seq<ChainId>, tasks: seq<Task>, c: ChainId, a: Address)
    requires c != Main && a in DbOf(stores, c)
    ensures var end := ApplyTasks(stores, forks, tasks); a in DbOf(end, c) && DbOf(end, c)[a] == DbOf(stores, c)[a]
    decreases tasks
  {
    if tasks != [] {
      OffersKeep(stores, forks, tasks[0].address, Get(DbOf(stores, Main), tasks[0].address), c, a);
      TasksKeep(ApplyTask(stores, forks, tasks[0]), forks, tasks[1..], c, a);
    }
  }

  lemma {:induction false} TwoEvents(cfg: Config, tasks: seq<Task>, forks: seq<ChainId>, x: Event, y: Event)
    requires |cfg.pcs| == |tasks|
    ensures RunAll(cfg, tasks, forks, [x, y]) == Step(Step(cfg, tasks, forks, x), tasks, forks, y)
  {
    var both := [x, y];
    var one := both[1..];
    assert one == [y] && one[1..] == [];
    assert RunAll(Step(cfg, tasks, forks, x), tasks, forks, one) == Step(Step(cfg, tasks, forks, x), tasks, forks, y);
  }

  /** A task looks before a stale put lands, and its own put lands behind it; then everything else lands. */
  lemma {:induction false} FreshPutLandsLast(stores: Stores, puts: set<Put>, tasks: seq<Task>, forks: seq<ChainId>,
                                             p: Put, i: nat)
    returns (schedule: seq<Event>, end: Config)
    requires Proper(stores, forks) && Waiting(stores, puts) && p.chain in forks && p.address !in DbOf(stores, p.chain)
    requires p in puts && i < |tasks| && tasks[i].address == p.address && p.wallet != Get(DbOf(stores, Main), p.address)
    ensures end == RunAll(Init(stores, tasks).(pending := puts), tasks, forks, schedule)
    ensures end.pcs == Init(stores, tasks).pcs[i := Finished] && end.pending == {}
    ensures SameAt(map[p.address := Get(DbOf(stores, Main), p.address)], DbOf(end.stores, p.chain), p.address)
  {
    var late, a, c := Init(stores, tasks).(pending := puts), p.address, p.chain;
    var w := Get(DbOf(stores, Main), a);
    var q := Put(c, a, w);
    var started := Step(late, tasks, forks, Run(i));
    RunsOut(started, tasks, forks, i, 0, w);
    var runs := RunsOf(i, |forks| + 1);
    var ran := RunAll(started, tasks, forks, runs);
    var both := [Land(p), Land(q)];
    var landed := Step(Step(ran, tasks, forks, Land(p)), tasks, forks, Land(q));
    TwoEvents(ran, tasks, forks, Land(p), Land(q));
    assert !PutFor(landed.pending, c, a);
    assert SameAt(map[a := w], DbOf(landed.stores, c), a);
    assert landed.pcs == late.pcs[i := Finished];
    hide RunAll, Step, RunsOf, Proper, Waiting, PutFor;
    var rest := LandRest(landed, tasks, forks, c, a);
    end := RunAll(landed, tasks, forks, rest);
    schedule := [Run(i)] + (runs + (both + rest));
    ScheduleParts(late, tasks, forks, i, runs, both, rest);
  }

  lemma {:induction false} ScheduleParts(cfg: Config, tasks: seq<Task>, forks: seq<ChainId>, i: nat, runs: seq<Event>,
                                         both: seq<Event>, rest: seq<Event>)
    requires |cfg.pcs| == |tasks|
    ensures RunAll(cfg, tasks, forks, [Run(i)] + (runs + (both + rest))) ==
            var ran := RunAll(Step(cfg, tasks, forks, Run(i)), tasks, forks, runs);
            RunAll(RunAll(ran, tasks, forks, both), tasks, forks, rest)
  {
    var started, tail := Step(cfg, tasks, forks, Run(i)), runs + (both + rest);
    assert ([Run(i)] + tail)[1..] == tail;
    assert RunAll(cfg, tasks, forks, [Run(i)] + tail) == RunAll(started, tasks, forks, tail);
    hide Step, RunAll;
    RunAppend(started, tasks, forks, runs, both + rest);
    RunAppend(RunAll(started, tasks, forks, runs), tasks, forks, both, rest);
  }

  /** Some schedule overwrites a stale put: the fork ends up with main's newer wallet. */
  lemma {:induction false} StalePutOverwritten(stores: Stores, puts: set<Put>, tasks: seq<Task>, forks: seq<ChainId>,
                                               p: Put, i: nat)
    returns (schedule: seq<Event>)
    requires Proper(stores, forks) && Waiting(stores, puts) && p.chain in forks && p.address !in DbOf(stores, p.chain)
    requires p in puts && i < |tasks| && tasks[i].address == p.address && p.wallet != Get(DbOf(stores, Main), p.address)
    ensures var end := RunAll(Init(stores, tasks).(pending := puts), tasks, forks, schedule);
            Complete(end) && View(end.stores, p.chain, p.address) == Get(DbOf(stores, Main), p.address)
  {
    var late, a, c := Init(stores, tasks).(pending := puts), p.address, p.chain;
    assert c != Main;
    var start, settled := FreshPutLandsLast(stores, puts, tasks, forks, p, i);
    hide RunAll, ApplyTasks, Proper, Waiting;
    var first := SequentialSchedule(settled, tasks, forks, 0, i);
    var mid := RunAll(settled, tasks, forks, first);
    var second := SequentialSchedule(mid, tasks, forks, i + 1, |tasks|);
    TasksKeep(settled.stores, forks, tasks[0..i], c, a);
    TasksKeep(mid.stores, forks, tasks[i + 1..|tasks|], c, a);
    schedule := start + (first + second);
    RunAppend(late, tasks, forks, start, first + second);
    RunAppend(settled, tasks, forks, first, second);
  }

  // Two puts for one wallet: either may land last.

  /** Everything else lands, then this put, and then the tasks run. */
  lemma {:induction false} PutLandsLast(stores: Stores, puts: set<Put>, tasks: seq<Task>, forks: seq<ChainId>, p: Put)
    returns (schedule: seq<Event>)
    requires Proper(stores, forks) && p in puts && p.chain in forks
    ensures var end := RunAll(Init(stores, tasks).(pending := puts), tasks, forks, schedule);
            Complete(end) && View(end.stores, p.chain, p.address) == p.wallet
  {
    var late := Init(stores, tasks).(pending := puts);
    var landing, landed := LandUpTo(late, tasks, forks, p);
    hide RunAll, ApplyTasks;
    assert p.chain != Main;
    var running := SequentialSchedule(landed, tasks, forks, 0, |tasks|);
    TasksKeep(landed.stores, forks, tasks[0..|tasks|], p.chain, p.address);
    schedule := landing + running;
    RunAppend(late, tasks, forks, landing, running);
  }

  lemma {:induction false} LandUpTo(cfg: Config, tasks: seq<Task>, forks: seq<ChainId>, p: Put)
    returns (schedule: seq<Event>, end: Config)
    requires |cfg.pcs| == |tasks| && p in cfg.pending
    ensures end == RunAll(cfg, tasks, forks, schedule) && end.pcs == cfg.pcs && end.pending == {}
    ensures p.address in DbOf(end.stores, p.chain) && DbOf(end.stores, p.chain)[p.address] == p.wallet
    decreases |cfg.pending|
  {
    if q :| q in cfg.pending && q != p {
      var next := Step(cfg, tasks, forks, Land(q));
      var rest: seq<Event>;
      rest, end := LandUpTo(next, tasks, forks, p);
      schedule := [Land(q)] + rest;
      assert schedule[1..] == rest;
    } else {
      end := Step(cfg, tasks, forks, Land(p));
      schedule := [Land(p)];
      assert schedule[1..] == [];
      assert cfg.pending == {p};
    }
  }

  /**
   For a conflict-free block and any pending puts: every fork goes on showing what it showed, in
   every schedule, exactly when no two puts are for one wallet and none is stale.
   */
  lemma {:induction false} ViewsKeptIff(stores: Stores, puts: set<Put>, tasks: seq<Task>, forks: seq<ChainId>)
    requires Proper(stores, forks) && ConflictFree(tasks) && forall p :: p in puts ==> p.chain in forks
    ensures (forall schedule, c, a ::
               c in forks && Complete(RunAll(Init(stores, tasks).(pending := puts), tasks, forks, schedule)) ==>
               View(RunAll(Init(stores, tasks).(pending := puts), tasks, forks, schedule).stores, c, a) ==
               PendingView(stores, puts, c, a)) <==>
            OnePerWallet(puts) && NoneStale(stores, puts, tasks)
  {
    if OnePerWallet(puts) && NoneStale(stores, puts, tasks) {
      forall schedule, c, a |
          c in forks && Complete(RunAll(Init(stores, tasks).(pending := puts), tasks, forks, schedule))
        ensures View(RunAll(Init(stores, tasks).(pending := puts), tasks, forks, schedule).stores, c, a) ==
                PendingView(stores, puts, c, a)
      {
        ViewsKept(stores, puts, tasks, forks, schedule, c, a);
      }
    } else {
      var schedule, p := SomeViewChanges(stores, puts, tasks, forks);
    }
  }

  lemma {:induction false} SomeViewChanges(stores: Stores, puts: set<Put>, tasks: seq<Task>, forks: seq<ChainId>)
    returns (schedule: seq<Event>, p: Put)
    requires Proper(stores, forks) && forall p :: p in puts ==> p.chain in forks
    requires !(OnePerWallet(puts) && NoneStale(stores, puts, tasks))
    ensures p.chain in forks && Complete(RunAll(Init(stores, tasks).(pending := puts), tasks, forks, schedule))
    ensures View(RunAll(Init(stores, tasks).(pending := puts), tasks, forks, schedule).stores, p.chain, p.address) !=
            PendingView(stores, puts, p.chain, p.address)
  {
    if !OnePerWallet(puts) {
      var q, r :| q in puts && r in puts && q.chain == r.chain && q.address == r.address && q != r;
      p := if q.wallet == PendingView(stores, puts, q.chain, q.address) then r else q;
      schedule := PutLandsLast(stores, puts, tasks, forks, p);
    } else {
      p :| p in puts && Touched(tasks, p.address) && p.address !in DbOf(stores, p.chain) &&
           p.wallet != Get(DbOf(stores, Main), p.address);
      var i :| 0 <= i < |tasks| && tasks[i].address == p.address;
      hide RunAll;
      schedule := StalePutOverwritten(stores, puts, tasks, forks, p, i);
      assert Put(p.chain, p.address, p.wallet) in puts;
      assert PendingView(stores, puts, p.chain, p.address) == p.wallet;
    }
  }

  // ---------------------------------------------------------------- submissions

  /** A node with the puts that are on their way. */
  datatype Late = Late(tree: State, puts: set<Put>)

  /** The wallet tasks of a submission: main's blocks have them. */
  function TasksFor(b: Block, target: ChainId): seq<Task> {
    if target == Main then TasksOf(b.transactions) else []
  }

  /** Submitting a block while puts are pending; some of them may land, and those of the block's own tasks may not. */
  ghost predicate NextLate(crypto: Crypto, l: Late, b: Block, l': Late) {
    var s, s' := l.tree, l'.tree;
    match VerifyBlock(crypto, s, b)
    case Rejected(_) =>
      s'.(wallets := s.wallets) == s && LateOutcome(s.wallets, l.puts, [], ForksOf(s.order), s'.wallets, l'.puts)
    case Matching(target, parent) =>
      (target != parent ==> CanFork(s, parent, b)) &&
      var executed := ExecuteTree(crypto, s, target, parent, b);
      s'.(wallets := executed.wallets) == executed &&
      LateOutcome(executed.wallets, l.puts, TasksFor(b, target), ForksOf(executed.order), s'.wallets, l'.puts)
  }

  /**
   No put that is pending for an address of a block for main is stale, and none is for a
   fork that is copied or started.
   */
  ghost predicate Undisturbed(l: Late, b: Block) {
    match MatchBlock(l.tree, b)
    case Rejected(_) => true
    case Matching(target, parent) =>
      ConflictFree(TasksFor(b, target)) && NoneStale(l.tree.wallets, l.puts, TasksFor(b, target)) &&
      (target != parent ==> forall p :: p in l.puts ==> p.chain != parent && p.chain != target)
  }

  ghost predicate SettlesAs(l: Late, settled: State) {
    settled == l.tree.(wallets := settled.wallets) && Waiting(l.tree.wallets, l.puts) &&
    Settles(l.tree.wallets, l.puts, settled.wallets)
  }

  lemma {:induction false} SameVerdict(crypto: Crypto, s: State, t: State, b: Block)
    requires t == s.(wallets := t.wallets) && DbOf(t.wallets, Main) == DbOf(s.wallets, Main)
    ensures MatchBlock(t, b) == MatchBlock(s, b) && VerifyBlock(crypto, t, b) == VerifyBlock(crypto, s, b)
    ensures Reforks(t, b) == Reforks(s, b)
  {
    hide BlockHash, TransactionsValid;
    SameParent(s, t, s.order, b);
  }

  lemma {:induction false} SameParent(s: State, t: State, order: seq<ChainId>, b: Block)
    requires t == s.(wallets := t.wallets)
    ensures FindParent(t, order, b) == FindParent(s, order, b)
  {
    if order != [] {
      SameParent(s, t, order[1..], b);
    }
  }

  lemma {:induction false} CanForkAlike(s: State, t: State, parent: ChainId, b: Block)
    requires t == s.(wallets := t.wallets)
    ensures CanFork(t, parent, b) == CanFork(s, parent, b)
  {
  }

  lemma {:induction false} ExecuteAlike(crypto: Crypto, s: State, t: State, b: Block, target: ChainId, parent: ChainId)
    requires t == s.(wallets := t.wallets) && (target != parent ==> CanFork(s, parent, b) && CanFork(t, parent, b))
    ensures var e, e' := ExecuteTree(crypto, s, target, parent, b), ExecuteTree(crypto, t, target, parent, b);
            e' == e.(wallets := e'.wallets)
  {
    hide StateHash, Repeat, RollbackRange, Interval, Inherited, CanFork;
  }

  lemma {:induction false} ForkedAlike(crypto: Crypto, s: State, t: State, b: Block, target: ChainId, parent: ChainId)
    requires t == s.(wallets := t.wallets) && target != parent && CanFork(s, parent, b) && CanFork(t, parent, b)
    requires DbOf(s.wallets, parent) == DbOf(t.wallets, parent) && DbOf(s.wallets, target) == DbOf(t.wallets, target)
    ensures var e, e' := ExecuteTree(crypto, s, target, parent, b), ExecuteTree(crypto, t, target, parent, b);
            DbOf(e.wallets, target) == DbOf(e'.wallets, target)
  {
    hide ExecuteTree, RollbackRange, Inherited;
    ForkedWallets(crypto, s, b, target, parent);
    ForkedWallets(crypto, t, b, target, parent);
  }

  /** What a submission does before its wallet tasks, it does alike in the settled state. */
  lemma {:induction false} ExecutedSettles(crypto: Crypto, l: Late, settled: State, b: Block, target: ChainId,
                                           parent: ChainId)
    requires SettlesAs(l, settled) && (target != parent ==> CanFork(l.tree, parent, b) && target != Main)
    requires target != parent ==> forall p :: p in l.puts ==> p.chain != parent && p.chain != target
    ensures target != parent ==> CanFork(settled, parent, b)
    ensures SettlesAs(Late(ExecuteTree(crypto, l.tree, target, parent, b), l.puts),
                      ExecuteTree(crypto, settled, target, parent, b))
  {
    CanForkAlike(l.tree, settled, parent, b);
    ExecuteAlike(crypto, l.tree, settled, b, target, parent);
    TreeUpdates(crypto, l.tree, b, target, parent);
    TreeUpdates(crypto, settled, b, target, parent);
    if target != parent {
      SameDb(l, settled, parent);
      SameDb(l, settled, target);
      ForkedAlike(crypto, l.tree, settled, b, target, parent);
      hide ExecuteTree, CanFork, Settles, Waiting;
      var db := DbOf(ExecuteTree(crypto, l.tree, target, parent, b).wallets, target);
      NewDbInBoth(l.tree.wallets, l.puts, settled.wallets, target, db);
    }
  }

  lemma {:induction false} SameDb(l: Late, settled: State, c: ChainId)
    requires SettlesAs(l, settled) && forall p :: p in l.puts ==> p.chain != c
    ensures DbOf(l.tree.wallets, c) == DbOf(settled.wallets, c)
  {
    var m, n := DbOf(l.tree.wallets, c), DbOf(settled.wallets, c);
    forall a: Address ensures SameAt(m, n, a) {
      assert !PutFor(l.puts, c, a);
    }
    SameEverywhereIsEqual(m, n);
  }

  lemma {:induction false} NewDbInBoth(stores: Stores, puts: set<Put>, settled: Stores, c: ChainId, db: WalletDb)
    requires Settles(stores, puts, settled) && Waiting(stores, puts)
    requires c != Main && forall p :: p in puts ==> p.chain != c
    ensures Settles(stores[c := db], puts, settled[c := db]) && Waiting(stores[c := db], puts)
  {
  }

  /** An undisturbed submission is, between the settled states, an ordinary one. */
  lemma {:induction false} NextSettles(crypto: Crypto, l: Late, b: Block, l': Late, settled: State)
    returns (settled': State)
    requires Tracked(settled) && SettlesAs(l, settled) && NextLate(crypto, l, b, l') && Undisturbed(l, b)
    ensures SettlesAs(l', settled') && Next(crypto, settled, b, settled')
  {
    SameVerdict(crypto, l.tree, settled, b);
    hide Tracked, SettlesAs, Undisturbed, MatchBlock, Reforks, ExecuteTree, CanFork, LateOutcome, WalletOutcome;
    match VerifyBlock(crypto, l.tree, b)
    case Rejected(_) =>
      settled' := settled;
      OnlyLandings(l, settled, l');
    case Matching(target, parent) =>
      VerdictIsMatch(crypto, l.tree, b);
      VerdictIsMatch(crypto, settled, b);
      TargetMainIsParent(settled, b, target, parent);
      UndisturbedForks(l, b, target, parent);
      ExecutedSettles(crypto, l, settled, b, target, parent);
      ExecutedTracked(crypto, settled, b, target, parent);
      settled' := TasksSettle(crypto, l, settled, b, l', target, parent);
  }

  lemma {:induction false} UndisturbedForks(l: Late, b: Block, target: ChainId, parent: ChainId)
    requires Undisturbed(l, b) && MatchBlock(l.tree, b) == Matching(target, parent)
    ensures target != parent ==> forall p :: p in l.puts ==> p.chain != parent && p.chain != target
  {
    hide MatchBlock, ConflictFree, NoneStale;
  }

  lemma {:induction false} ExecutedTracked(crypto: Crypto, s: State, b: Block, target: ChainId, parent: ChainId)
    requires Tracked(s) && MatchBlock(s, b) == Matching(target, parent) && (target != parent ==> CanFork(s, parent, b))
    ensures Tracked(ExecuteTree(crypto, s, target, parent, b))
  {
    TrackedIsOpened(s);
    TreeFiled(crypto, s, b, target, parent);
    TreeTracked(crypto, s, b, target, parent);
  }

  lemma {:induction false} VerdictIsMatch(crypto: Crypto, s: State, b: Block)
    ensures VerifyBlock(crypto, s, b).Matching? ==> MatchBlock(s, b) == VerifyBlock(crypto, s, b)
  {
    hide MatchBlock, BlockHash, TransactionsValid;
  }

  /** Without tasks, puts land and nothing else happens. */
  lemma {:induction false} OnlyLandings(l: Late, settled: State, l': Late)
    requires Tracked(settled) && SettlesAs(l, settled) && l'.tree.(wallets := l.tree.wallets) == l.tree
    requires LateOutcome(l.tree.wallets, l.puts, [], ForksOf(l.tree.order), l'.tree.wallets, l'.puts)
    ensures SettlesAs(l', settled)
  {
    PutsAreForForks(l, settled);
    assert NoneStale(l.tree.wallets, l.puts, []);
    hide Tracked, Settles, LateOutcome, Outcome, Waiting, NoneStale;
    var forks := ForksOf(l.tree.order);
    var after := OutcomeSettles(l.tree.wallets, l.puts, settled.wallets, [], forks, l'.tree.wallets, l'.puts);
    NoTasksNoChange(settled.wallets, forks, after);
  }

  lemma {:induction false} PutsAreForForks(l: Late, settled: State)
    requires Tracked(settled) && SettlesAs(l, settled)
    ensures Proper(l.tree.wallets, ForksOf(l.tree.order))
    ensures forall p :: p in l.puts ==> p.chain in ForksOf(l.tree.order)
  {
    TrackedIsOpened(settled);
    ForksListed(settled);
    hide ForksOf, OrderOk;
  }

  lemma {:induction false} NoTasksNoChange(stores: Stores, forks: seq<ChainId>, after: Stores)
    requires Outcome(stores, [], forks, after)
    ensures after == stores
  {
    var schedule :| var end := RunAll(Init(stores, []), [], forks, schedule); Complete(end) && end.stores == after;
    IdleStays(Init(stores, []), forks, schedule);
  }

  lemma {:induction false} IdleStays(cfg: Config, forks: seq<ChainId>, schedule: seq<Event>)
    requires cfg.pcs == [] && cfg.pending == {}
    ensures RunAll(cfg, [], forks, schedule) == cfg
    decreases schedule
  {
    if schedule != [] {
      IdleStays(cfg, forks, schedule[1..]);
    }
  }

  lemma {:induction false} TasksSettle(crypto: Crypto, l: Late, settled: State, b: Block, l': Late, target: ChainId,
                                       parent: ChainId)
    returns (settled': State)
    requires Undisturbed(l, b) && MatchBlock(l.tree, b) == Matching(target, parent)
    requires target != parent ==> CanFork(l.tree, parent, b) && CanFork(settled, parent, b)
    requires target == Main ==> parent == Main
    requires var e := ExecuteTree(crypto, l.tree, target, parent, b);
             l'.tree.(wallets := e.wallets) == e &&
             LateOutcome(e.wallets, l.puts, TasksFor(b, target), ForksOf(e.order), l'.tree.wallets, l'.puts)
    requires SettlesAs(Late(ExecuteTree(crypto, l.tree, target, parent, b), l.puts),
                       ExecuteTree(crypto, settled, target, parent, b))
    requires Tracked(ExecuteTree(crypto, settled, target, parent, b))
    ensures SettlesAs(l', settled')
    ensures var e := ExecuteTree(crypto, settled, target, parent, b);
            settled'.(wallets := e.wallets) == e &&
            if target == Main then WalletOutcome(e.wallets, b, ForksOf(e.order), settled'.wallets)
            else settled'.wallets == e.wallets
  {
    var e, e' := ExecuteTree(crypto, l.tree, target, parent, b), ExecuteTree(crypto, settled, target, parent, b);
    var tasks, forks := TasksFor(b, target), ForksOf(e.order);
    TasksUndisturbed(crypto, l, b, target, parent);
    hide ExecuteTree, CanFork, Tracked, MatchBlock, LateOutcome, Settles, ConflictFree, Touched, NoneStale, Undisturbed;
    PutsAreForForks(Late(e, l.puts), e');
    var after := OutcomeSettles(e.wallets, l.puts, e'.wallets, tasks, forks, l'.tree.wallets, l'.puts);
    settled' := e'.(wallets := after);
    if target != Main {
      hide Outcome;
      NoTasksNoChange(e'.wallets, forks, after);
    }
  }

  lemma {:induction false} TasksUndisturbed(crypto: Crypto, l: Late, b: Block, target: ChainId, parent: ChainId)
    requires Undisturbed(l, b) && MatchBlock(l.tree, b) == Matching(target, parent)
    requires target == Main ==> parent == Main
    requires target != parent ==> CanFork(l.tree, parent, b)
    ensures ConflictFree(TasksFor(b, target))
    ensures NoneStale(ExecuteTree(crypto, l.tree, target, parent, b).wallets, l.puts, TasksFor(b, target))
  {
    TreeUpdates(crypto, l.tree, b, target, parent);
    hide ExecuteTree, CanFork, MatchBlock, ConflictFree;
  }

  // ---------------------------------------------------------------- runs

  /** A run in which puts may be on their way from one submission to the next. */
  ghost predicate IsLateRun(crypto: Crypto, late: seq<Late>, submitted: seq<Block>) {
    |late| == |submitted| + 1 &&
    forall k :: 0 <= k < |submitted| ==>
      NextLate(crypto, late[k], submitted[k], late[k + 1]) && Undisturbed(late[k], submitted[k])
  }

  ghost predicate AllSettle(late: seq<Late>, settled: seq<State>) {
    |settled| == |late| && forall k :: 0 <= k < |late| ==> SettlesAs(late[k], settled[k])
  }

  /** The settled states of a run with undisturbed submissions are an ordinary run. */
  lemma {:induction false} RunsSettle(crypto: Crypto, late: seq<Late>, submitted: seq<Block>)
    returns (settled: seq<State>)
    requires IsLateRun(crypto, late, submitted) && late[0].puts == {} && Tracked(late[0].tree)
    ensures AllSettle(late, settled) && Submissions(crypto, settled, submitted) && settled[0] == late[0].tree
    ensures Tracked(settled[|submitted|])
    decreases |late|
  {
    hide NextLate, Next, Undisturbed, SettlesAs, Tracked;
    var n := |submitted|;
    if n == 0 {
      settled := [late[0].tree];
      SettledAlready(late[0]);
    } else {
      var front := RunsSettle(crypto, late[..n], submitted[..n - 1]);
      var last := NextSettles(crypto, late[n - 1], submitted[n - 1], late[n], front[n - 1]);
      NextTracked(crypto, front[n - 1], submitted[n - 1], last);
      settled := front + [last];
    }
  }

  lemma {:induction false} SettledAlready(l: Late)
    requires l.puts == {}
    ensures SettlesAs(l, l.tree)
  {
    NothingToSettle(l.tree.wallets);
  }

  /** What a fork shows once everything has landed. */
  ghost function LateView(l: Late, c: ChainId, a: Address): Wallet {
    PendingView(l.tree.wallets, l.puts, c, a)
  }

  lemma {:induction false} LateViewSettles(l: Late, settled: State, c: ChainId, a: Address)
    requires SettlesAs(l, settled)
    ensures LateView(l, c, a) == View(settled.wallets, c, a)
  {
    ViewSettled(l.tree.wallets, l.puts, settled.wallets, c, a);
  }

  lemma {:induction false} GoodStepSettles(l: Late, settled: State, b: Block)
    requires SettlesAs(l, settled)
    ensures GoodStep(settled, b) == GoodStep(l.tree, b) && OwnIndex(settled, b) == OwnIndex(l.tree, b)
  {
    hide TasksOf, DistinctTasks, RangeTasks, Settles, Waiting;
    SameParent(l.tree, settled, l.tree.order, b);
  }

  /**
   The fork snapshot theorem without waiting for the puts: in every state that submissions
   of any blocks reach, each fork off main shows, counting what is on its way, main's
   wallets from just before its base block, if the submissions are undisturbed.
   */
  lemma {:induction false} LateForksAreSnapshots(crypto: Crypto, initial: WalletDb, late: seq<Late>,
                                                 submitted: seq<Block>,
                                                 k: nat)
    requires IsLateRun(crypto, late, submitted) && k < |late| && late[0] == Late(Fresh(initial), {})
    requires Total(initial) < TWO_TO_THE_64
    requires forall j :: 0 <= j < |submitted| ==>
               GoodStep(late[j].tree, submitted[j]) && OwnIndex(late[j].tree, submitted[j])
    ensures forall c :: OffMain(late[k].tree, c) ==>
              var base := late[k].tree.info[c].base.index;
              HasRange(BlocksOf(late[k].tree, Main), 0, base - 1) &&
              forall a: Address ::
                LateView(late[k], c, a) == Get(WalletsBefore(initial, BlocksOf(late[k].tree, Main), base), a)
  {
    FreshSnapshotInv(initial);
    TrackedOf(initial, Fresh(initial));
    hide NextLate, Next, Undisturbed, SettlesAs, Tracked, GoodStep, OwnIndex, Total, Fresh, WalletsBefore, LateView;
    var settled := RunsSettle(crypto, late, submitted);
    forall j | 0 <= j < |submitted| ensures GoodStep(settled[j], submitted[j]) && OwnIndex(settled[j], submitted[j]) {
      GoodStepSettles(late[j], settled[j], submitted[j]);
    }
    ForksAreSnapshots(crypto, initial, settled, submitted, k);
    SnapshotOfSettled(initial, late[k], settled[k]);
  }

  lemma {:induction false} SnapshotOfSettled(initial: WalletDb, l: Late, settled: State)
    requires SettlesAs(l, settled) && forall c :: OffMain(settled, c) ==> IsSnapshot(initial, settled, c)
    ensures forall c :: OffMain(l.tree, c) ==>
              var base := l.tree.info[c].base.index;
              HasRange(BlocksOf(l.tree, Main), 0, base - 1) &&
              forall a: Address :: LateView(l, c, a) == Get(WalletsBefore(initial, BlocksOf(l.tree, Main), base), a)
  {
    hide Settles, Waiting, WalletsBefore, LateView;
    forall c | OffMain(l.tree, c)
      ensures var base := l.tree.info[c].base.index;
              HasRange(BlocksOf(l.tree, Main), 0, base - 1) &&
              forall a: Address :: LateView(l, c, a) == Get(WalletsBefore(initial, BlocksOf(l.tree, Main), base), a)
    {
      assert OffMain(settled, c) && IsSnapshot(initial, settled, c);
      forall a: Address ensures LateView(l, c, a) == View(settled.wallets, c, a) {
        LateViewSettles(l, settled, c, a);
      }
    }
  }
}
