/**
 Money: what a block's transfers do to the sum of all balances on main, to the
 two wallets of each transfer, and to everybody else.
 */
module Conservation {
  import opened Common
  import opened Models
  import opened Wallets
  import opened BlockTree

  // ---------------------------------------------------------------- the sum of all balances

  ghost function Pick(db: WalletDb): Address
    requires db != map[]
  {
    var a :| a in db; a
  }

  ghost function Total(db: WalletDb): nat
    decreases db.Keys
  {
    if db == map[] then 0 else db[Pick(db)].balance + Total(db - {Pick(db)})
  }

  lemma {:induction false} TotalRemove(db: WalletDb, a: Address)
    requires a in db
    ensures Total(db) == db[a].balance + Total(db - {a})
    decreases db.Keys
  {
    var b := Pick(db);
    if a != b {
      TotalRemove(db - {b}, a);
      TotalRemove(db - {a}, b);
      assert db - {b} - {a} == db - {a} - {b};
    }
  }

  lemma {:induction false} TotalUpdate(db: WalletDb, a: Address, w: Wallet)
    ensures Total(db[a := w]) == Total(db) - Get(db, a).balance + w.balance
  {
    TotalRemove(db[a := w], a);
    assert db[a := w] - {a} == db - {a};
    if a in db {
      TotalRemove(db, a);
    } else {
      assert db - {a} == db;
    }
  }

  lemma {:induction false} TotalBounds(db: WalletDb, a: Address)
    ensures Get(db, a).balance <= Total(db)
  {
    if a in db { TotalRemove(db, a); }
  }

  // ---------------------------------------------------------------- one transfer

  /** The two tasks of a transfer, the debit first. */
  function Transfer(db: WalletDb, tx: Transaction): WalletDb {
    MainRun(db, TasksOf([tx]))
  }

  lemma {:induction false} MainRunAppend(db: WalletDb, xs: seq<Task>, ys: seq<Task>)
    ensures MainRun(db, xs + ys) == MainRun(MainRun(db, xs), ys)
    decreases xs
  {
    if xs == [] {
      assert xs + ys == ys;
    } else {
      MainRunAppend(db[xs[0].address := Effect(xs[0], Get(db, xs[0].address))], xs[1..], ys);
      assert (xs + ys)[1..] == xs[1..] + ys;
    }
  }

  lemma {:induction false} MainRunTransfers(db: WalletDb, txs: seq<Transaction>)
    requires txs != []
    ensures MainRun(db, TasksOf(txs)) == MainRun(Transfer(db, txs[0]), TasksOf(txs[1..]))
  {
    hide MainRun;
    assert [txs[0]][1..] == [];
    assert TasksOf(txs) == TasksOf([txs[0]]) + TasksOf(txs[1..]);
    MainRunAppend(db, TasksOf([txs[0]]), TasksOf(txs[1..]));
  }

  lemma {:induction false} MainRunOne(db: WalletDb, t: Task)
    ensures MainRun(db, [t]) == db[t.address := Effect(t, Get(db, t.address))]
  {
    assert [t][1..] == [];
  }

  lemma {:induction false} TransferWallets(db: WalletDb, tx: Transaction)
    ensures var debit := Debit(tx.senderAddress, tx.amount);
            var debited := db[tx.senderAddress := Effect(debit, Get(db, tx.senderAddress))];
            Transfer(db, tx) == debited[tx.recipientAddress :=
              Effect(Credit(tx.recipientAddress, tx.amount), Get(debited, tx.recipientAddress))]
  {
    hide MainRun, Effect;
    var debit, credit := Debit(tx.senderAddress, tx.amount), Credit(tx.recipientAddress, tx.amount);
    assert [tx][1..] == [];
    assert TasksOf([tx]) == [debit] + [credit];
    MainRunAppend(db, [debit], [credit]);
    MainRunOne(db, debit);
    MainRunOne(MainRun(db, [debit]), credit);
  }

  /** What the sender of a transfer is not charged although the recipient is paid. */
  function SkippedBy(db: WalletDb, tx: Transaction): nat {
    if Get(db, tx.senderAddress).balance >= tx.amount then 0 else tx.amount
  }

  lemma {:induction false} EffectBalance(t: Task, w: Wallet)
    ensures t.Debit? ==> Effect(t, w).balance == if w.balance >= t.amount then w.balance - t.amount else w.balance
    ensures t.Debit? ==> Effect(t, w).nonce == (w.nonce + 1) % TWO_TO_THE_64
    ensures t.Credit? && w.balance + t.amount < TWO_TO_THE_64 ==> Effect(t, w) == Wallet(w.balance + t.amount, w.nonce)
  {
  }

  /** One transfer whose payment does not overflow changes the total by what the sender is not charged. */
  lemma {:induction false} FittingTransferTotal(db: WalletDb, tx: Transaction)
    requires var debit := Debit(tx.senderAddress, tx.amount);
             var debited := db[tx.senderAddress := Effect(debit, Get(db, tx.senderAddress))];
             Get(debited, tx.recipientAddress).balance + tx.amount < TWO_TO_THE_64
    ensures Total(Transfer(db, tx)) == Total(db) + SkippedBy(db, tx)
  {
    hide MainRun, Effect, Total, Transfer;
    var debit, credit := Debit(tx.senderAddress, tx.amount), Credit(tx.recipientAddress, tx.amount);
    var debited := db[tx.senderAddress := Effect(debit, Get(db, tx.senderAddress))];
    TransferWallets(db, tx);
    EffectBalance(debit, Get(db, tx.senderAddress));
    EffectBalance(credit, Get(debited, tx.recipientAddress));
    TotalUpdate(db, tx.senderAddress, Effect(debit, Get(db, tx.senderAddress)));
    TotalUpdate(debited, tx.recipientAddress, Effect(credit, Get(debited, tx.recipientAddress)));
  }

  lemma {:induction false} TransferTotal(db: WalletDb, tx: Transaction)
    requires Total(db) + SkippedBy(db, tx) < TWO_TO_THE_64
    ensures Total(Transfer(db, tx)) == Total(db) + SkippedBy(db, tx)
  {
    hide MainRun, Effect, Total, Transfer;
    var debit := Debit(tx.senderAddress, tx.amount);
    var debited := db[tx.senderAddress := Effect(debit, Get(db, tx.senderAddress))];
    EffectBalance(debit, Get(db, tx.senderAddress));
    TotalUpdate(db, tx.senderAddress, Effect(debit, Get(db, tx.senderAddress)));
    TotalBounds(debited, tx.recipientAddress);
    FittingTransferTotal(db, tx);
  }

  // ---------------------------------------------------------------- a block, sequentially

  /** The part of a block's payments that no sender is charged for. */
  function Skipped(db: WalletDb, txs: seq<Transaction>): nat
    decreases txs
  {
    if txs == [] then 0 else SkippedBy(db, txs[0]) + Skipped(Transfer(db, txs[0]), txs[1..])
  }

  /**
   Exact accounting for any block: a payment that the sender cannot cover is still paid out, and
   nothing else is made or lost.
   */
  lemma {:induction false} Accounting(db: WalletDb, txs: seq<Transaction>)
    requires Total(db) + Skipped(db, txs) < TWO_TO_THE_64
    ensures Total(MainRun(db, TasksOf(txs))) == Total(db) + Skipped(db, txs)
    decreases txs
  {
    if txs != [] {
      hide Transfer, MainRun, SkippedBy;
      TransferTotal(db, txs[0]);
      Accounting(Transfer(db, txs[0]), txs[1..]);
      MainRunTransfers(db, txs);
    }
  }

  /** The exact condition for sequential execution: the total is kept if and only if every sender is charged in turn. */
  lemma {:induction false} SequentialTotalIff(db: WalletDb, txs: seq<Transaction>)
    requires Total(db) + Skipped(db, txs) < TWO_TO_THE_64
    ensures Total(MainRun(db, TasksOf(txs))) == Total(db) <==> Skipped(db, txs) == 0
  {
    Accounting(db, txs);
  }

  /** Two payments that their sender can cover one by one but not together: the second one makes money. */
  lemma {:induction false} OverspentTotal(db: WalletDb, x: Transaction, y: Transaction)
    requires x.senderAddress == y.senderAddress != x.recipientAddress
    requires x.amount <= Get(db, x.senderAddress).balance < x.amount + y.amount
    requires Total(db) + y.amount < TWO_TO_THE_64
    ensures Total(MainRun(db, TasksOf([x, y]))) == Total(db) + y.amount
  {
    var both := [x, y];
    var second := both[1..];
    assert second == [y] && second[1..] == [];
    TransferWallets(db, x);
    hide MainRun, Total, Transfer;
    assert Skipped(Transfer(db, x), second) == y.amount;
    Accounting(db, both);
  }

  /** Such a block passes verification: for every wallet that holds anything, two payments that are both valid. */
  lemma {:induction false} OverspendVerifies(crypto: Crypto, db: WalletDb, sender: Address, recipient: Address,
                                             some: Transaction)
    returns (x: Transaction, y: Transaction)
    requires sender != recipient && Get(db, sender).balance > 0 && Total(db) + Get(db, sender).balance < TWO_TO_THE_64
    ensures TransactionsValid(crypto, db, [x, y])
    ensures Total(MainRun(db, TasksOf([x, y]))) == Total(db) + Get(db, sender).balance
  {
    var w := Get(db, sender);
    var tx := some.(senderAddress := sender, recipientAddress := recipient, amount := w.balance, nonce := w.nonce);
    x := tx.(txid := TransactionHash(crypto, tx));
    y := x;
    hide Total, MainRun;
    OverspentTotal(db, x, y);
    HashIgnoresTxid(crypto, tx, TransactionHash(crypto, tx));
    hide TransactionHash;
    assert VerifyTransaction(crypto, db, x) == 12000;
  }

  /** The sum that the debits of `a` ask for. */
  function DebitSum(tasks: seq<Task>, a: Address): nat {
    if tasks == [] then 0 else
      (if tasks[0].Debit? && tasks[0].address == a then tasks[0].amount else 0) + DebitSum(tasks[1..], a)
  }

  lemma {:induction false} DebitSumAppend(xs: seq<Task>, ys: seq<Task>, a: Address)
    ensures DebitSum(xs + ys, a) == DebitSum(xs, a) + DebitSum(ys, a)
  {
    if xs == [] {
      assert xs + ys == ys;
    } else {
      assert (xs + ys)[1..] == xs[1..] + ys;
      DebitSumAppend(xs[1..], ys, a);
    }
  }

  // ---------------------------------------------------------------- pairwise distinct addresses

  ghost predicate DistinctTasks(tasks: seq<Task>) {
    forall i, j :: 0 <= i < j < |tasks| ==> tasks[i].address != tasks[j].address
  }

  lemma {:induction false} DistinctIsConflictFree(tasks: seq<Task>)
    requires DistinctTasks(tasks)
    ensures ConflictFree(tasks)
  {
  }

  /** With distinct addresses every task sees the wallet the block started from. */
  lemma {:induction false} MainRunDistinct(db: WalletDb, tasks: seq<Task>)
    requires DistinctTasks(tasks)
    ensures var r := MainRun(db, tasks);
            (forall t :: t in tasks ==> t.address in r && r[t.address] == Effect(t, Get(db, t.address))) &&
            (forall a :: !Touched(tasks, a) ==> SameAt(db, r, a))
    decreases tasks
  {
    if tasks != [] {
      var first := tasks[0];
      var next := db[first.address := Effect(first, Get(db, first.address))];
      MainRunDistinct(next, tasks[1..]);
      var r := MainRun(next, tasks[1..]);
      assert !Touched(tasks[1..], first.address);
      assert SameAt(next, r, first.address);
      forall t | t in tasks
        ensures t.address in r && r[t.address] == Effect(t, Get(db, t.address))
      {
        if t != first {
          assert t in tasks[1..];
        }
      }
      forall a | !Touched(tasks, a)
        ensures SameAt(db, r, a)
      {
        assert tasks[0].address == first.address;
        forall i | 0 <= i < |tasks[1..]| ensures tasks[1..][i].address != a { assert tasks[i + 1].address != a; }
        assert SameAt(next, r, a);
      }
    }
  }

  lemma {:induction false} TasksOfAt(txs: seq<Transaction>, i: nat)
    requires i < |txs|
    ensures TasksOf(txs)[2 * i] == Debit(txs[i].senderAddress, txs[i].amount)
    ensures TasksOf(txs)[2 * i + 1] == Credit(txs[i].recipientAddress, txs[i].amount)
  {
    if i > 0 {
      TasksOfAt(txs[1..], i - 1);
      assert TasksOf(txs)[2 * i] == TasksOf(txs[1..])[2 * (i - 1)];
      assert TasksOf(txs)[2 * i + 1] == TasksOf(txs[1..])[2 * (i - 1) + 1];
    }
  }

  /** The balances of all senders cover their payments. */
  predicate Covered(db: WalletDb, txs: seq<Transaction>) {
    forall i :: 0 <= i < |txs| ==> Get(db, txs[i].senderAddress).balance >= txs[i].amount
  }

  /** With distinct addresses, balances that cover their payments before the block cover them in turn. */
  lemma {:induction false} CoveredSkipsNothing(db: WalletDb, txs: seq<Transaction>)
    requires DistinctTasks(TasksOf(txs)) && Covered(db, txs)
    ensures Skipped(db, txs) == 0
    decreases txs
  {
    if txs != [] {
      var next := Transfer(db, txs[0]);
      assert DistinctTasks(TasksOf(txs[1..])) by { DistinctTail(txs); }
      forall i | 0 <= i < |txs[1..]|
        ensures Get(next, txs[1..][i].senderAddress).balance >= txs[1..][i].amount
      {
        TasksOfAt(txs, 0);
        TasksOfAt(txs, i + 1);
        TransferWallets(db, txs[0]);
        assert Get(next, txs[i + 1].senderAddress) == Get(db, txs[i + 1].senderAddress);
      }
      CoveredSkipsNothing(next, txs[1..]);
    }
  }

  lemma {:induction false} DistinctTail(txs: seq<Transaction>)
    requires txs != [] && DistinctTasks(TasksOf(txs))
    ensures DistinctTasks(TasksOf(txs[1..]))
  {
    var tasks, tail := TasksOf(txs), TasksOf(txs[1..]);
    assert forall i :: 0 <= i < |tail| ==> tail[i] == tasks[i + 2];
  }

  // ---------------------------------------------------------------- a verified block, however its tasks race

  /** The wallets of one transfer after the block: charged and counted on one side, paid on the other. */
  ghost predicate Transferred(before: WalletDb, after: WalletDb, tx: Transaction) {
    var sender, recipient := Get(before, tx.senderAddress), Get(before, tx.recipientAddress);
    recipient.balance + tx.amount < TWO_TO_THE_64 && sender.balance >= tx.amount && tx.nonce == sender.nonce &&
    Get(after, tx.senderAddress) == Wallet(sender.balance - tx.amount, (sender.nonce + 1) % TWO_TO_THE_64) &&
    Get(after, tx.recipientAddress) == Wallet(recipient.balance + tx.amount, recipient.nonce)
  }

  lemma {:induction false} PaymentsFit(db: WalletDb, tx: Transaction)
    requires Total(db) < TWO_TO_THE_64 && tx.senderAddress != tx.recipientAddress
    requires Get(db, tx.senderAddress).balance >= tx.amount
    ensures Get(db, tx.recipientAddress).balance + tx.amount < TWO_TO_THE_64
  {
    if tx.senderAddress in db {
      TotalRemove(db, tx.senderAddress);
      TotalBounds(db - {tx.senderAddress}, tx.recipientAddress);
    } else {
      TotalBounds(db, tx.recipientAddress);
    }
  }

  /**
   A verified block whose addresses are pairwise distinct: whatever interleaving
   its wallet tasks take, the outcome is the sequential one, no money is made or
   lost, every transfer is carried out in full, and no other wallet changes.
   */
  lemma {:induction false} VerifiedBlockConserves(crypto: Crypto, before: Stores, b: Block, forks: seq<ChainId>,
                                                  after: Stores)
    requires Proper(before, forks) && WalletOutcome(before, b, forks, after)
    requires DistinctTasks(TasksOf(b.transactions)) && TransactionsValid(crypto, before[Main], b.transactions)
    requires Total(before[Main]) < TWO_TO_THE_64
    ensures after == ApplyTasks(before, forks, TasksOf(b.transactions))
    ensures Main in after && after[Main] == MainRun(before[Main], TasksOf(b.transactions))
    ensures Total(after[Main]) == Total(before[Main])
    ensures forall i :: 0 <= i < |b.transactions| ==> Transferred(before[Main], after[Main], b.transactions[i])
    ensures forall a :: !Touched(TasksOf(b.transactions), a) ==> SameAt(before[Main], after[Main], a)
  {
    hide RunAll, ApplyTasks, MainRun, DistinctTasks;
    var txs, tasks := b.transactions, TasksOf(b.transactions);
    var schedule :| var end := RunAll(Init(before, tasks), tasks, forks, schedule);
                    Complete(end) && end.stores == after;
    DistinctIsConflictFree(tasks);
    InterleavingsAgree(before, tasks, forks, schedule);
    RunAllMain(before, tasks, forks, schedule);
    MainRunIsMain(before, forks, tasks);
    assert Covered(before[Main], txs) by {
      assert forall i :: 0 <= i < |txs| ==> VerifyTransaction(crypto, before[Main], txs[i]) == 12000;
    }
    CoveredSkipsNothing(before[Main], txs);
    Accounting(before[Main], txs);
    MainRunDistinct(before[Main], tasks);
    forall i | 0 <= i < |txs|
      ensures Transferred(before[Main], after[Main], txs[i])
    {
      TransferredAt(crypto, before[Main], after[Main], txs, i);
    }
  }

  lemma {:induction false} RunAllMain(before: Stores, tasks: seq<Task>, forks: seq<ChainId>, schedule: seq<Event>)
    requires Proper(before, forks) && ConflictFree(tasks)
    ensures Main in RunAll(Init(before, tasks), tasks, forks, schedule).stores
  {
    MidBlockInit(before, tasks, forks);
    MidBlockAlways(before, tasks, forks, Init(before, tasks), schedule);
  }

  lemma {:induction false} SenderIsNotRecipient(txs: seq<Transaction>, i: nat)
    requires i < |txs| && DistinctTasks(TasksOf(txs))
    ensures txs[i].senderAddress != txs[i].recipientAddress
  {
    TasksOfAt(txs, i);
    var tasks := TasksOf(txs);
    assert tasks[2 * i].address != tasks[2 * i + 1].address;
  }

  lemma {:induction false} TransferredAt(crypto: Crypto, before: WalletDb, after: WalletDb, txs: seq<Transaction>,
                                         i: nat)
    requires i < |txs| && DistinctTasks(TasksOf(txs)) && Total(before) < TWO_TO_THE_64
    requires VerifyTransaction(crypto, before, txs[i]) == 12000
    requires forall t :: t in TasksOf(txs) ==>
             t.address in after && after[t.address] == Effect(t, Get(before, t.address))
    ensures Transferred(before, after, txs[i])
  {
    hide TransactionHash, TasksOf, Total, Effect, DistinctTasks;
    TasksOfAt(txs, i);
    SenderIsNotRecipient(txs, i);
    EffectBalance(TasksOf(txs)[2 * i], Get(before, txs[i].senderAddress));
    EffectBalance(TasksOf(txs)[2 * i + 1], Get(before, txs[i].recipientAddress));
    assert TasksOf(txs)[2 * i] in TasksOf(txs) && TasksOf(txs)[2 * i + 1] in TasksOf(txs);
    PaymentsFit(before, txs[i]);
  }
}
