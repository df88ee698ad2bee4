/**
 Which verified blocks neither make nor lose money, whatever order their wallet tasks take
 (`src/storage/wallets.ts:30-72`, `src/verification/index.ts:16-27`). Verification
 compares every payment with the wallets from before the block, and the tasks of all
 payments start at once. The exact condition: no two tasks share an address, except where
 all amounts are zero.
 */
module MoneyKept {
  import opened Common
  import opened Models
  import opened Wallets
  import opened BlockTree
  import opened Conservation

  /** Tasks that share an address move nothing. */
  ghost predicate NothingShared(tasks: seq<Task>) {
    forall i, j :: 0 <= i < j < |tasks| && tasks[i].address == tasks[j].address ==>
                   tasks[i].amount == 0 && tasks[j].amount == 0
  }

  /** In every outcome of the block's tasks main's balances have the sum from before. */
  ghost predicate TotalAlwaysKept(before: Stores, b: Block, forks: seq<ChainId>) {
    forall after :: WalletOutcome(before, b, forks, after) ==> Total(DbOf(after, Main)) == Total(DbOf(before, Main))
  }

  // ---------------------------------------------------------------- balances while the tasks run

  /** The balance that the task makes of a balance. */
  function NewBalance(t: Task, balance: uint64): uint64 {
    match t
    case Debit(_, amount) => if balance >= amount then balance - amount else balance
    case Credit(_, amount) => (balance + amount) % TWO_TO_THE_64
  }

  lemma {:induction false} EffectIsNewBalance(t: Task, w: Wallet)
    ensures Effect(t, w).balance == NewBalance(t, w.balance)
    ensures t.amount == 0 ==> NewBalance(t, w.balance) == w.balance
  {
  }

  /** What has been read is the old balance; the finished tasks have set theirs, all other balances are old. */
  ghost predicate BalancesSoFar(old': WalletDb, now: WalletDb, pcs: seq<Pc>, tasks: seq<Task>)
    requires |pcs| == |tasks|
  {
    (forall i :: 0 <= i < |tasks| && pcs[i].Copying? ==>
       pcs[i].wallet.balance == Get(old', tasks[i].address).balance) &&
    (forall i :: 0 <= i < |tasks| && pcs[i] == Finished ==>
       Get(now, tasks[i].address).balance == NewBalance(tasks[i], Get(old', tasks[i].address).balance)) &&
    forall a :: (forall i :: 0 <= i < |tasks| && pcs[i] == Finished ==> tasks[i].address != a) ==>
      Get(now, a).balance == Get(old', a).balance
  }

  /** The tasks of the block, and puts for forks only. */
  ghost predicate Underway(old': WalletDb, cfg: Config, tasks: seq<Task>) {
    |cfg.pcs| == |tasks| && Main in cfg.stores && (forall p :: p in cfg.pending ==> p.chain != Main) &&
    BalancesSoFar(old', cfg.stores[Main], cfg.pcs, tasks)
  }

  lemma {:induction false} UnderwayReads(old': WalletDb, now: WalletDb, pcs: seq<Pc>, tasks: seq<Task>, i: nat)
    requires |pcs| == |tasks| && i < |tasks| && pcs[i] == Start && NothingShared(tasks)
    requires BalancesSoFar(old', now, pcs, tasks)
    ensures BalancesSoFar(old', now, pcs[i := Copying(0, Get(now, tasks[i].address))], tasks)
  {
    var a := tasks[i].address;
    var pcs' := pcs[i := Copying(0, Get(now, a))];
    assert Get(now, a).balance == Get(old', a).balance by {
      if j :| 0 <= j < |tasks| && pcs[j] == Finished && tasks[j].address == a {
        assert tasks[j].amount == 0;
        EffectIsNewBalance(tasks[j], Get(old', a));
      }
    }
    forall b | forall j :: 0 <= j < |tasks| && pcs'[j] == Finished ==> tasks[j].address != b
      ensures Get(now, b).balance == Get(old', b).balance
    {
      forall j | 0 <= j < |tasks| && pcs[j] == Finished ensures tasks[j].address != b {
        assert pcs'[j] == Finished;
      }
    }
  }

  lemma {:induction false} UnderwayLooks(old': WalletDb, now: WalletDb, pcs: seq<Pc>, tasks: seq<Task>, i: nat, k: nat)
    requires |pcs| == |tasks| && i < |tasks| && pcs[i].Copying?
    requires BalancesSoFar(old', now, pcs, tasks)
    ensures BalancesSoFar(old', now, pcs[i := Copying(k, pcs[i].wallet)], tasks)
  {
    var pcs' := pcs[i := Copying(k, pcs[i].wallet)];
    forall b | forall j :: 0 <= j < |tasks| && pcs'[j] == Finished ==> tasks[j].address != b
      ensures Get(now, b).balance == Get(old', b).balance
    {
      forall j | 0 <= j < |tasks| && pcs[j] == Finished ensures tasks[j].address != b {
        assert pcs'[j] == Finished;
      }
    }
  }

  lemma {:induction false} UnderwayWrites(old': WalletDb, now: WalletDb, pcs: seq<Pc>, tasks: seq<Task>, i: nat)
    requires |pcs| == |tasks| && i < |tasks| && pcs[i].Copying? && NothingShared(tasks)
    requires BalancesSoFar(old', now, pcs, tasks)
    ensures BalancesSoFar(old', now[tasks[i].address := Effect(tasks[i], pcs[i].wallet)], pcs[i := Finished], tasks)
  {
    hide Effect;
    var a := tasks[i].address;
    var now', pcs' := now[a := Effect(tasks[i], pcs[i].wallet)], pcs[i := Finished];
    EffectIsNewBalance(tasks[i], pcs[i].wallet);
    forall j | 0 <= j < |tasks| && pcs'[j] == Finished
      ensures Get(now', tasks[j].address).balance == NewBalance(tasks[j], Get(old', tasks[j].address).balance)
    {
      if j != i && tasks[j].address == a {
        assert tasks[i].amount == 0 && tasks[j].amount == 0;
        EffectIsNewBalance(tasks[j], Get(old', a));
      }
    }
    forall b | forall j :: 0 <= j < |tasks| && pcs'[j] == Finished ==> tasks[j].address != b
      ensures Get(now', b).balance == Get(old', b).balance
    {
      assert pcs'[i] == Finished;
      forall j | 0 <= j < |tasks| && pcs[j] == Finished ensures tasks[j].address != b {
        assert pcs'[j] == Finished;
      }
    }
  }

  lemma {:induction false} UnderwayStep(old': WalletDb, cfg: Config, tasks: seq<Task>, forks: seq<ChainId>, e: Event)
    requires Underway(old', cfg, tasks) && NothingShared(tasks) && Main !in forks
    ensures Underway(old', Step(cfg, tasks, forks, e), tasks)
  {
    hide BalancesSoFar, NothingShared, Effect;
    match e
    case Land(p) =>
    case Run(i) =>
      if i < |tasks| {
        match cfg.pcs[i]
        case Start => UnderwayReads(old', cfg.stores[Main], cfg.pcs, tasks, i);
        case Copying(k, w) =>
          if k < |forks| {
            UnderwayLooks(old', cfg.stores[Main], cfg.pcs, tasks, i, k + 1);
          } else {
            UnderwayWrites(old', cfg.stores[Main], cfg.pcs, tasks, i);
          }
        case Finished =>
      }
  }

  lemma {:induction false} UnderwayAlways(old': WalletDb, cfg: Config, tasks: seq<Task>, forks: seq<ChainId>,
                                          schedule: seq<Event>)
    requires Underway(old', cfg, tasks) && NothingShared(tasks) && Main !in forks
    ensures Underway(old', RunAll(cfg, tasks, forks, schedule), tasks)
    decreases schedule
  {
    if schedule != [] {
      UnderwayStep(old', cfg, tasks, forks, schedule[0]);
      hide Underway, Step;
      UnderwayAlways(old', Step(cfg, tasks, forks, schedule[0]), tasks, forks, schedule[1..]);
    }
  }

  lemma {:induction false} SameBalancesSameTotal(x: WalletDb, y: WalletDb)
    requires forall a: Address :: Get(x, a).balance == Get(y, a).balance
    ensures Total(x) == Total(y)
    decreases x.Keys
  {
    if x == map[] {
      NoBalancesNoTotal(y);
    } else {
      var a := Pick(x);
      forall b: Address ensures Get(x - {a}, b).balance == Get(y - {a}, b).balance {
        assert Get(x, b).balance == Get(y, b).balance;
      }
      SameBalancesSameTotal(x - {a}, y - {a});
      assert Get(x, a).balance == Get(y, a).balance;
      if a in y {
        TotalRemove(y, a);
      } else {
        assert y - {a} == y;
      }
    }
  }

  lemma {:induction false} NoBalancesNoTotal(y: WalletDb)
    requires forall a: Address :: Get(map[], a).balance == Get(y, a).balance
    ensures Total(y) == 0
    decreases y.Keys
  {
    if y != map[] {
      var a := Pick(y);
      assert Get(map[], a).balance == Get(y, a).balance;
      forall b: Address ensures Get(map[], b).balance == Get(y - {a}, b).balance {
        assert Get(map[], b).balance == Get(y, b).balance;
      }
      NoBalancesNoTotal(y - {a});
    }
  }

  lemma {:induction false} FinishedBalances(old': WalletDb, x: Config, y: Config, tasks: seq<Task>)
    requires Underway(old', x, tasks) && Underway(old', y, tasks) && Complete(x) && Complete(y)
    ensures Total(x.stores[Main]) == Total(y.stores[Main])
  {
    hide NewBalance, Total;
    forall a: Address ensures Get(x.stores[Main], a).balance == Get(y.stores[Main], a).balance {
      if i :| 0 <= i < |tasks| && tasks[i].address == a {
        assert x.pcs[i] == Finished && y.pcs[i] == Finished;
      }
    }
    SameBalancesSameTotal(x.stores[Main], y.stores[Main]);
  }

  lemma {:induction false} UnderwayInit(before: Stores, tasks: seq<Task>)
    requires Main in before
    ensures Underway(before[Main], Init(before, tasks), tasks)
  {
  }

  /** If nothing is shared, every outcome has the total of sequential execution. */
  lemma {:induction false} UnsharedTotal(before: Stores, tasks: seq<Task>, forks: seq<ChainId>, schedule: seq<Event>)
    requires Proper(before, forks) && NothingShared(tasks)
    requires Complete(RunAll(Init(before, tasks), tasks, forks, schedule))
    ensures Total(DbOf(RunAll(Init(before, tasks), tasks, forks, schedule).stores, Main)) ==
            Total(MainRun(before[Main], tasks))
  {
    hide RunAll, NothingShared, Underway, ApplyTasks, MainRun, Total;
    var init := Init(before, tasks);
    var inOrder := SequentialSchedule(init, tasks, forks, 0, |tasks|);
    assert tasks[0..|tasks|] == tasks;
    UnderwayInit(before, tasks);
    UnderwayAlways(before[Main], init, tasks, forks, schedule);
    UnderwayAlways(before[Main], init, tasks, forks, inOrder);
    var x, y := RunAll(init, tasks, forks, schedule), RunAll(init, tasks, forks, inOrder);
    FinishedBalances(before[Main], x, y, tasks);
    UnderwayMain(before[Main], x, tasks);
    UnderwayMain(before[Main], y, tasks);
    MainRunIsMain(before, forks, tasks);
  }

  lemma {:induction false} UnderwayMain(old': WalletDb, cfg: Config, tasks: seq<Task>)
    requires Underway(old', cfg, tasks)
    ensures Main in cfg.stores
  {
    hide BalancesSoFar;
  }

  // ---------------------------------------------------------------- sequential execution

  /** Addresses that tasks share are credited nothing. */
  ghost predicate NoSharedCredit(tasks: seq<Task>) {
    forall i, j ::
      0 <= i < |tasks| && 0 <= j < |tasks| && i != j && tasks[i].address == tasks[j].address && tasks[j].Credit? ==>
      tasks[j].amount == 0
  }

  /** Every payment fits into its recipient's wallet. */
  predicate PaymentsFitIn(db: WalletDb, txs: seq<Transaction>) {
    forall i :: 0 <= i < |txs| && txs[i].amount > 0 ==>
                Get(db, txs[i].recipientAddress).balance + txs[i].amount < TWO_TO_THE_64
  }

  lemma {:induction false} TailTasks(txs: seq<Transaction>)
    requires txs != []
    ensures var tasks, tail := TasksOf(txs), TasksOf(txs[1..]);
            tasks[0] == Debit(txs[0].senderAddress, txs[0].amount) &&
            tasks[1] == Credit(txs[0].recipientAddress, txs[0].amount) &&
            forall i, k :: 0 <= i < |tail| && k == i + 2 ==> tail[i] == tasks[k]
  {
  }

  lemma {:induction false} NoSharedCreditTail(txs: seq<Transaction>)
    requires txs != [] && NoSharedCredit(TasksOf(txs))
    ensures NoSharedCredit(TasksOf(txs[1..]))
  {
    TailTasks(txs);
    var tasks, tail := TasksOf(txs), TasksOf(txs[1..]);
    forall i, j | 0 <= i < |tail| && 0 <= j < |tail| && i != j && tail[i].address == tail[j].address && tail[j].Credit?
      ensures tail[j].amount == 0
    {
      var k, l := i + 2, j + 2;
      assert tail[i] == tasks[k] && tail[j] == tasks[l];
    }
  }

  /** The two tasks of the first transaction leave the wallet of a later, non-zero credit alone. */
  lemma {:induction false} FitInNext(db: WalletDb, txs: seq<Transaction>)
    requires txs != [] && NoSharedCredit(TasksOf(txs)) && PaymentsFitIn(db, txs)
    ensures PaymentsFitIn(Transfer(db, txs[0]), txs[1..])
  {
    hide Transfer, Effect;
    var next, tasks := Transfer(db, txs[0]), TasksOf(txs);
    TransferWallets(db, txs[0]);
    TailTasks(txs);
    forall i | 0 <= i < |txs[1..]| && txs[1..][i].amount > 0
      ensures Get(next, txs[1..][i].recipientAddress).balance + txs[1..][i].amount < TWO_TO_THE_64
    {
      var k := i + 1;
      assert txs[1..][i] == txs[k];
      TasksOfAt(txs, k);
      var l := 2 * k + 1;
      assert tasks[l] == Credit(txs[k].recipientAddress, txs[k].amount);
      assert tasks[0].address != tasks[l].address && tasks[1].address != tasks[l].address;
      assert Get(next, txs[k].recipientAddress) == Get(db, txs[k].recipientAddress);
    }
  }

  lemma {:induction false} FirstFits(db: WalletDb, txs: seq<Transaction>)
    requires txs != [] && NoSharedCredit(TasksOf(txs)) && PaymentsFitIn(db, txs)
    ensures var tx := txs[0];
            var debit := Debit(tx.senderAddress, tx.amount);
            var debited := db[tx.senderAddress := Effect(debit, Get(db, tx.senderAddress))];
            Get(debited, tx.recipientAddress).balance + tx.amount < TWO_TO_THE_64
  {
    hide Effect;
    TailTasks(txs);
    var tasks := TasksOf(txs);
    if txs[0].amount > 0 {
      assert tasks[0].address != tasks[1].address;
    }
  }

  /** Exact accounting without any bound on the total. */
  lemma {:induction false} FittingTotal(db: WalletDb, txs: seq<Transaction>)
    requires NoSharedCredit(TasksOf(txs)) && PaymentsFitIn(db, txs)
    ensures Total(MainRun(db, TasksOf(txs))) == Total(db) + Skipped(db, txs)
    decreases txs
  {
    if txs != [] {
      FirstFits(db, txs);
      FitInNext(db, txs);
      NoSharedCreditTail(txs);
      hide Transfer, MainRun, SkippedBy, NoSharedCredit, PaymentsFitIn, Effect, Total;
      FittingTransferTotal(db, txs[0]);
      FittingTotal(Transfer(db, txs[0]), txs[1..]);
      MainRunTransfers(db, txs);
    }
  }

  /** A charged transfer takes its amount from the sender, and from nobody else who is paid nothing. */
  lemma {:induction false} ChargedTransfer(db: WalletDb, tx: Transaction, a: Address)
    requires SkippedBy(db, tx) == 0 && (tx.recipientAddress == a ==> tx.amount == 0)
    ensures Get(Transfer(db, tx), a).balance == Get(db, a).balance - if tx.senderAddress == a then tx.amount else 0
  {
    hide Transfer, Effect;
    TransferWallets(db, tx);
    var debit, credit := Debit(tx.senderAddress, tx.amount), Credit(tx.recipientAddress, tx.amount);
    var debited := db[tx.senderAddress := Effect(debit, Get(db, tx.senderAddress))];
    EffectIsNewBalance(debit, Get(db, tx.senderAddress));
    EffectIsNewBalance(credit, Get(debited, tx.recipientAddress));
  }

  lemma {:induction false} DebitSumFirst(txs: seq<Transaction>, a: Address)
    requires txs != []
    ensures DebitSum(TasksOf(txs), a) ==
            (if txs[0].senderAddress == a then txs[0].amount else 0) + DebitSum(TasksOf(txs[1..]), a)
  {
    var tx := txs[0];
    var two := [Debit(tx.senderAddress, tx.amount), Credit(tx.recipientAddress, tx.amount)];
    assert TasksOf(txs) == two + TasksOf(txs[1..]);
    hide TasksOf, DebitSum;
    DebitSumAppend(two, TasksOf(txs[1..]), a);
    DebitSumOfTwo(tx, a);
  }

  /** A wallet that is credited nothing and whose debits are all charged covers their sum. */
  lemma {:induction false} ChargedIsCovered(db: WalletDb, txs: seq<Transaction>, a: Address)
    requires Skipped(db, txs) == 0
    requires forall i :: 0 <= i < |txs| && txs[i].recipientAddress == a ==> txs[i].amount == 0
    ensures DebitSum(TasksOf(txs), a) <= Get(db, a).balance
    decreases txs
  {
    if txs == [] {
      assert TasksOf(txs) == [];
    } else {
      hide Transfer, SkippedBy, TasksOf, DebitSum, Get;
      ChargedIsCovered(Transfer(db, txs[0]), txs[1..], a);
      ChargedTransfer(db, txs[0], a);
      DebitSumFirst(txs, a);
    }
  }

  lemma {:induction false} DebitSumOfTwo(tx: Transaction, a: Address)
    ensures var two := [Debit(tx.senderAddress, tx.amount), Credit(tx.recipientAddress, tx.amount)];
            DebitSum(two, a) == if tx.senderAddress == a then tx.amount else 0
  {
    var two := [Debit(tx.senderAddress, tx.amount), Credit(tx.recipientAddress, tx.amount)];
    var one := two[1..];
    assert one == [two[1]] && one[1..] == [];
    assert DebitSum(one, a) == 0;
  }

  /** Such a wallet only loses its debits. */
  lemma {:induction false} OnlyDebited(db: WalletDb, tasks: seq<Task>, a: Address)
    requires forall t :: t in tasks && t.address == a && t.Credit? ==> t.amount == 0
    requires DebitSum(tasks, a) <= Get(db, a).balance
    ensures Get(MainRun(db, tasks), a).balance == Get(db, a).balance - DebitSum(tasks, a)
    decreases tasks
  {
    if tasks != [] {
      hide Effect;
      var t := tasks[0];
      var next := db[t.address := Effect(t, Get(db, t.address))];
      EffectIsNewBalance(t, Get(db, t.address));
      OnlyDebited(next, tasks[1..], a);
    }
  }

  lemma {:induction false} DebitSumWithout(tasks: seq<Task>, i: nat, j: nat, a: Address)
    requires i < j < |tasks|
    ensures DebitSum(tasks, a) == DebitSum(Without(tasks, i, j), a) + DebitSum([tasks[i]], a) + DebitSum([tasks[j]], a)
  {
    var xs, ys, zs := tasks[..i], tasks[i + 1..j], tasks[j + 1..];
    assert tasks == xs + ([tasks[i]] + (ys + ([tasks[j]] + zs)));
    DebitSumAppend(xs, [tasks[i]] + (ys + ([tasks[j]] + zs)), a);
    DebitSumAppend([tasks[i]], ys + ([tasks[j]] + zs), a);
    DebitSumAppend(ys, [tasks[j]] + zs, a);
    DebitSumAppend([tasks[j]], zs, a);
    DebitSumAppend(xs + ys, zs, a);
    DebitSumAppend(xs, ys, a);
  }

  // ---------------------------------------------------------------- the condition is sufficient

  lemma {:induction false} UnsharedSkipsNothing(db: WalletDb, txs: seq<Transaction>)
    requires NothingShared(TasksOf(txs)) && Covered(db, txs)
    ensures Skipped(db, txs) == 0
    decreases txs
  {
    if txs != [] {
      UnsharedTail(txs);
      CoveredNext(db, txs);
      ZeroesCovered(Transfer(db, txs[0]), txs[1..]);
      hide NothingShared, Transfer, Covered;
      UnsharedSkipsNothing(Transfer(db, txs[0]), txs[1..]);
      assert SkippedBy(db, txs[0]) == 0 by { assert Covered(db, txs); FirstCovered(db, txs); }
    }
  }

  lemma {:induction false} FirstCovered(db: WalletDb, txs: seq<Transaction>)
    requires txs != [] && Covered(db, txs)
    ensures SkippedBy(db, txs[0]) == 0
  {
  }

  lemma {:induction false} UnsharedTail(txs: seq<Transaction>)
    requires txs != [] && NothingShared(TasksOf(txs))
    ensures NothingShared(TasksOf(txs[1..]))
  {
    TailTasks(txs);
    var tasks, tail := TasksOf(txs), TasksOf(txs[1..]);
    forall i, j | 0 <= i < j < |tail| && tail[i].address == tail[j].address
      ensures tail[i].amount == 0 && tail[j].amount == 0
    {
      var k, l := i + 2, j + 2;
      assert tail[i] == tasks[k] && tail[j] == tasks[l];
    }
  }

  lemma {:induction false} CoveredNext(db: WalletDb, txs: seq<Transaction>)
    requires txs != [] && NothingShared(TasksOf(txs)) && Covered(db, txs)
    ensures forall i :: 0 <= i < |txs[1..]| && txs[1..][i].amount > 0 ==>
              Get(Transfer(db, txs[0]), txs[1..][i].senderAddress).balance >= txs[1..][i].amount
  {
    hide Transfer, Effect;
    var next, tasks := Transfer(db, txs[0]), TasksOf(txs);
    TransferWallets(db, txs[0]);
    TailTasks(txs);
    forall i | 0 <= i < |txs[1..]| && txs[1..][i].amount > 0
      ensures Get(next, txs[1..][i].senderAddress).balance >= txs[1..][i].amount
    {
      var k := i + 1;
      assert txs[1..][i] == txs[k];
      TasksOfAt(txs, k);
      var l := 2 * k;
      assert tasks[l] == Debit(txs[k].senderAddress, txs[k].amount);
      assert tasks[0].address != tasks[l].address && tasks[1].address != tasks[l].address;
      assert Get(next, txs[k].senderAddress) == Get(db, txs[k].senderAddress);
    }
  }

  lemma {:induction false} ZeroesCovered(db: WalletDb, txs: seq<Transaction>)
    requires forall i :: 0 <= i < |txs| && txs[i].amount > 0 ==> Get(db, txs[i].senderAddress).balance >= txs[i].amount
    ensures Covered(db, txs)
  {
  }

  lemma {:induction false} UnsharedIsNoSharedCredit(tasks: seq<Task>)
    requires NothingShared(tasks)
    ensures NoSharedCredit(tasks)
  {
  }

  /** What verification says about the payments. */
  lemma {:induction false} VerifiedPayments(crypto: Crypto, db: WalletDb, txs: seq<Transaction>)
    requires TransactionsValid(crypto, db, txs) && Total(db) < TWO_TO_THE_64 && NoSharedCredit(TasksOf(txs))
    ensures Covered(db, txs) && PaymentsFitIn(db, txs)
  {
    hide TransactionHash, Total, TasksOf;
    forall i | 0 <= i < |txs|
      ensures Get(db, txs[i].senderAddress).balance >= txs[i].amount
      ensures txs[i].amount > 0 ==> Get(db, txs[i].recipientAddress).balance + txs[i].amount < TWO_TO_THE_64
    {
      assert VerifyTransaction(crypto, db, txs[i]) == 12000;
      if txs[i].amount > 0 {
        TasksOfAt(txs, i);
        var k, l := 2 * i, 2 * i + 1;
        assert TasksOf(txs)[k].address != TasksOf(txs)[l].address;
        PaymentsFit(db, txs[i]);
      }
    }
  }

  lemma {:induction false} UnsharedKeepsTotal(crypto: Crypto, before: Stores, b: Block, forks: seq<ChainId>,
                                              after: Stores)
    requires Proper(before, forks) && TransactionsValid(crypto, before[Main], b.transactions)
    requires Total(before[Main]) < TWO_TO_THE_64 && NothingShared(TasksOf(b.transactions))
    requires WalletOutcome(before, b, forks, after)
    ensures Total(DbOf(after, Main)) == Total(before[Main])
  {
    var tasks := TasksOf(b.transactions);
    hide RunAll, NothingShared, Total, MainRun, TransactionsValid, TasksOf, Skipped;
    var schedule :| var end := RunAll(Init(before, tasks), tasks, forks, schedule);
                    Complete(end) && end.stores == after;
    UnsharedTotal(before, tasks, forks, schedule);
    UnsharedIsNoSharedCredit(tasks);
    VerifiedPayments(crypto, before[Main], b.transactions);
    UnsharedSkipsNothing(before[Main], b.transactions);
    FittingTotal(before[Main], b.transactions);
  }

  // ---------------------------------------------------------------- the condition is necessary

  /** Main's wallets once all tasks but `i` and `j` have run. */
  function OthersRun(db: WalletDb, tasks: seq<Task>, i: nat, j: nat): WalletDb
    requires i < |tasks| && j < |tasks| && i != j
  {
    MainRun(db, if i < j then Without(tasks, i, j) else Without(tasks, j, i))
  }

  /** The others first, then `t` and `u` together: the effect of `t` is lost. */
  lemma {:induction false} LostOnMain(before: Stores, b: Block, forks: seq<ChainId>, t: nat,
                                      u: nat) returns (after: Stores)
    requires var tasks := TasksOf(b.transactions);
             Proper(before, forks) && t < |tasks| && u < |tasks| && t != u && tasks[t].address == tasks[u].address
    ensures WalletOutcome(before, b, forks, after)
    ensures var tasks := TasksOf(b.transactions);
            var db, a := OthersRun(before[Main], tasks, t, u), tasks[u].address;
            DbOf(after, Main) == db[a := Effect(tasks[u], Get(db, a))]
  {
    var tasks := TasksOf(b.transactions);
    hide RunAll, MainRun, ApplyTasks, Effect, TasksOf, Without;
    var i, j := if t < u then t else u, if t < u then u else t;
    var others := OthersFirst(before, tasks, forks, i, j);
    var mid := RunAll(Init(before, tasks), tasks, forks, others);
    MainRunIsMain(before, forks, Without(tasks, i, j));
    var race := RacingPair(mid, tasks, forks, t, u);
    RunAppend(Init(before, tasks), tasks, forks, others, race);
    after := RunAll(mid, tasks, forks, race).stores;
  }

  lemma {:induction false} OneTask(stores: Stores, forks: seq<ChainId>, tasks: seq<Task>, i: nat)
    requires i < |tasks| && Main !in forks
    ensures var db, a := DbOf(stores, Main), tasks[i].address;
            DbOf(ApplyTasks(stores, forks, tasks[i..i + 1]), Main) == db[a := Effect(tasks[i], Get(db, a))]
  {
    hide ApplyTasks;
    assert tasks[i..i + 1] == [tasks[i]];
    MainRunIsMain(stores, forks, [tasks[i]]);
    MainRunOne(DbOf(stores, Main), tasks[i]);
  }

  /** The others first, then `t`, then `u`. */
  lemma {:induction false} BothOnMain(before: Stores, b: Block, forks: seq<ChainId>, t: nat,
                                      u: nat) returns (after: Stores)
    requires var tasks := TasksOf(b.transactions);
             Proper(before, forks) && t < |tasks| && u < |tasks| && t != u && tasks[t].address == tasks[u].address
    ensures WalletOutcome(before, b, forks, after)
    ensures var tasks := TasksOf(b.transactions);
            var db, a := OthersRun(before[Main], tasks, t, u), tasks[u].address;
            DbOf(after, Main) == db[a := Effect(tasks[u], Effect(tasks[t], Get(db, a)))]
  {
    var tasks := TasksOf(b.transactions);
    hide RunAll, MainRun, ApplyTasks, Effect, TasksOf, Without;
    var i, j := if t < u then t else u, if t < u then u else t;
    var others := OthersFirst(before, tasks, forks, i, j);
    var mid := RunAll(Init(before, tasks), tasks, forks, others);
    MainRunIsMain(before, forks, Without(tasks, i, j));
    var first := SequentialSchedule(mid, tasks, forks, t, t + 1);
    OneTask(mid.stores, forks, tasks, t);
    var then' := RunAll(mid, tasks, forks, first);
    var second := SequentialSchedule(then', tasks, forks, u, u + 1);
    OneTask(then'.stores, forks, tasks, u);
    RunAppend(mid, tasks, forks, first, second);
    RunAppend(Init(before, tasks), tasks, forks, others, first + second);
    after := RunAll(then', tasks, forks, second).stores;
  }

  /** If the total is always kept, it makes no difference whether `t` is lost, `u` is lost or neither. */
  lemma {:induction false} PairMakesNoDifference(before: Stores, b: Block, forks: seq<ChainId>, t: nat, u: nat)
    requires Proper(before, forks) && TotalAlwaysKept(before, b, forks)
    requires var tasks := TasksOf(b.transactions);
             t < |tasks| && u < |tasks| && t != u && tasks[t].address == tasks[u].address
    ensures var tasks := TasksOf(b.transactions);
            var w := Get(OthersRun(before[Main], tasks, t, u), tasks[u].address);
            Effect(tasks[u], w).balance == Effect(tasks[t], w).balance == Effect(tasks[u], Effect(tasks[t], w)).balance
  {
    var tasks := TasksOf(b.transactions);
    var db, a := OthersRun(before[Main], tasks, t, u), tasks[u].address;
    var w := Get(db, a);
    var x := LostOnMain(before, b, forks, t, u);
    var y := LostOnMain(before, b, forks, u, t);
    var z := BothOnMain(before, b, forks, t, u);
    hide WalletOutcome, Total, TasksOf, Effect;
    assert OthersRun(before[Main], tasks, u, t) == db;
    hide OthersRun;
    TotalUpdate(db, a, Effect(tasks[u], w));
    TotalUpdate(db, a, Effect(tasks[t], w));
    TotalUpdate(db, a, Effect(tasks[u], Effect(tasks[t], w)));
  }

  lemma {:induction false} KeptHasNoSharedCredit(before: Stores, b: Block, forks: seq<ChainId>)
    requires Proper(before, forks) && TotalAlwaysKept(before, b, forks)
    ensures NoSharedCredit(TasksOf(b.transactions))
  {
    var tasks := TasksOf(b.transactions);
    hide TotalAlwaysKept, TasksOf, OthersRun, Effect;
    forall t, u |
        0 <= t < |tasks| && 0 <= u < |tasks| && t != u && tasks[t].address == tasks[u].address && tasks[u].Credit?
      ensures tasks[u].amount == 0
    {
      PairMakesNoDifference(before, b, forks, t, u);
      var w := Get(OthersRun(before[Main], tasks, t, u), tasks[u].address);
      EffectIsNewBalance(tasks[u], Effect(tasks[t], w));
      CreditChanges(Effect(tasks[t], w).balance, tasks[u].amount);
    }
  }

  lemma {:induction false} CreditChanges(x: uint64, amount: uint64)
    ensures (x + amount) % TWO_TO_THE_64 == x ==> amount == 0
  {
  }

  /** Sequential execution is one of the outcomes. */
  lemma {:induction false} InOrder(before: Stores, b: Block, forks: seq<ChainId>) returns (after: Stores)
    requires Proper(before, forks)
    ensures WalletOutcome(before, b, forks, after) &&
            DbOf(after, Main) == MainRun(before[Main], TasksOf(b.transactions))
  {
    var tasks := TasksOf(b.transactions);
    hide RunAll, MainRun, ApplyTasks, TasksOf;
    var schedule := SequentialSchedule(Init(before, tasks), tasks, forks, 0, |tasks|);
    assert tasks[0..|tasks|] == tasks;
    MainRunIsMain(before, forks, tasks);
    after := RunAll(Init(before, tasks), tasks, forks, schedule).stores;
  }

  lemma {:induction false} KeptSkipsNothing(crypto: Crypto, before: Stores, b: Block, forks: seq<ChainId>)
    requires Proper(before, forks) && TransactionsValid(crypto, before[Main], b.transactions)
    requires Total(before[Main]) < TWO_TO_THE_64 && TotalAlwaysKept(before, b, forks)
    ensures Skipped(before[Main], b.transactions) == 0
  {
    KeptHasNoSharedCredit(before, b, forks);
    VerifiedPayments(crypto, before[Main], b.transactions);
    FittingTotal(before[Main], b.transactions);
    hide WalletOutcome, Total, Skipped, TransactionsValid, TasksOf, MainRun;
    var after := InOrder(before, b, forks);
  }

  /** The wallet that two tasks share has the sum of their debits when all others have run. */
  lemma {:induction false} BothCovered(db: WalletDb, txs: seq<Transaction>, t: nat, u: nat)
    requires NoSharedCredit(TasksOf(txs)) && Skipped(db, txs) == 0
    requires var tasks := TasksOf(txs);
             t < |tasks| && u < |tasks| && t != u && tasks[t].address == tasks[u].address
    ensures var tasks := TasksOf(txs);
            Get(OthersRun(db, tasks, t, u), tasks[u].address).balance >= tasks[t].amount + tasks[u].amount
  {
    var tasks, a := TasksOf(txs), TasksOf(txs)[u].address;
    CreditedNothing(txs, t, u);
    ChargedIsCovered(db, txs, a);
    var i, j := if t < u then t else u, if t < u then u else t;
    var others := Without(tasks, i, j);
    hide TasksOf, Skipped, DebitSum;
    DebitSumWithout(tasks, i, j, a);
    forall x | x in others ensures x in tasks { }
    OnlyDebited(db, others, a);
    DebitSumOfOne(tasks[i]);
    DebitSumOfOne(tasks[j]);
  }

  lemma {:induction false} DebitSumOfOne(t: Task)
    ensures t.Debit? ==> DebitSum([t], t.address) == t.amount
  {
    assert [t][1..] == [];
  }

  /** An address that two tasks share is credited nothing, in tasks and in transactions. */
  lemma {:induction false} CreditedNothing(txs: seq<Transaction>, t: nat, u: nat)
    requires NoSharedCredit(TasksOf(txs))
    requires var tasks := TasksOf(txs);
             t < |tasks| && u < |tasks| && t != u && tasks[t].address == tasks[u].address
    ensures var tasks, a := TasksOf(txs), TasksOf(txs)[u].address;
            (forall x :: x in tasks && x.address == a && x.Credit? ==> x.amount == 0) &&
            forall i :: 0 <= i < |txs| && txs[i].recipientAddress == a ==> txs[i].amount == 0
  {
    var tasks, a := TasksOf(txs), TasksOf(txs)[u].address;
    hide TasksOf;
    forall k | 0 <= k < |tasks| && tasks[k].address == a && tasks[k].Credit?
      ensures tasks[k].amount == 0
    {
      var l := if k == t then u else t;
      assert tasks[l].address == tasks[k].address;
    }
    forall i | 0 <= i < |txs| && txs[i].recipientAddress == a
      ensures txs[i].amount == 0
    {
      TasksOfAt(txs, i);
      var k := 2 * i + 1;
      assert tasks[k].address == a && tasks[k].Credit?;
    }
  }

  lemma {:induction false} KeptSharesNothing(crypto: Crypto, before: Stores, b: Block, forks: seq<ChainId>)
    requires Proper(before, forks) && TransactionsValid(crypto, before[Main], b.transactions)
    requires Total(before[Main]) < TWO_TO_THE_64 && TotalAlwaysKept(before, b, forks)
    ensures NothingShared(TasksOf(b.transactions))
  {
    KeptHasNoSharedCredit(before, b, forks);
    KeptSkipsNothing(crypto, before, b, forks);
    var tasks := TasksOf(b.transactions);
    hide TotalAlwaysKept, TransactionsValid, Total, TasksOf, OthersRun, Effect, NoSharedCredit, Skipped;
    forall t, u | 0 <= t < u < |tasks| && tasks[t].address == tasks[u].address
      ensures tasks[t].amount == 0 && tasks[u].amount == 0
    {
      PairMakesNoDifference(before, b, forks, t, u);
      PairMakesNoDifference(before, b, forks, u, t);
      BothCovered(before[Main], b.transactions, t, u);
      BothCovered(before[Main], b.transactions, u, t);
      SharedIsZero(tasks[t], tasks[u], Get(OthersRun(before[Main], tasks, t, u), tasks[u].address));
      SharedIsZero(tasks[u], tasks[t], Get(OthersRun(before[Main], tasks, u, t), tasks[t].address));
    }
  }

  lemma {:induction false} SharedIsZero(t: Task, u: Task, w: Wallet)
    requires w.balance >= t.amount + u.amount
    requires Effect(u, w).balance == Effect(t, w).balance == Effect(u, Effect(t, w)).balance
    ensures u.amount == 0
  {
    hide Effect;
    EffectIsNewBalance(t, w);
    EffectIsNewBalance(u, w);
    EffectIsNewBalance(u, Effect(t, w));
    CreditChanges(Effect(t, w).balance, u.amount);
    CreditChanges(w.balance, u.amount);
  }

  /**
   The exact condition. A verified block keeps the sum of all balances, whatever order its
   tasks take, if and only if no two of its tasks share an address, except where they
   move nothing.
   */
  lemma {:induction false} TotalKeptIff(crypto: Crypto, before: Stores, b: Block, forks: seq<ChainId>)
    requires Proper(before, forks) && TransactionsValid(crypto, before[Main], b.transactions)
    requires Total(before[Main]) < TWO_TO_THE_64
    ensures TotalAlwaysKept(before, b, forks) <==> NothingShared(TasksOf(b.transactions))
  {
    hide WalletOutcome, TransactionsValid, Total, TasksOf, NothingShared;
    if NothingShared(TasksOf(b.transactions)) {
      forall after | WalletOutcome(before, b, forks, after)
        ensures Total(DbOf(after, Main)) == Total(DbOf(before, Main))
      {
        UnsharedKeepsTotal(crypto, before, b, forks, after);
      }
    }
    if TotalAlwaysKept(before, b, forks) {
      KeptSharesNothing(crypto, before, b, forks);
    }
  }
}
