/**
 When the rollback of `createFork` (`src/storage/blockchain.ts:54-70`) restores the
 wallets from before a range of main's blocks: the exact condition, for every
 address and for the whole range, whether addresses repeat or not.

 Each transaction is undone from the parent's stored wallets, so of all the undos of
 an address only the last one counts.
 */
module Rollbacks {
  import opened Common
  import opened Models
  import opened Wallets
  import opened BlockTree
  import opened ChainRuns
  import opened Conservation
  import opened Snapshots

  // ---------------------------------------------------------------- the last undo of an address

  /** The transactions in the order in which the rollback undoes them. */
  function UndoOrder(blocks: map<nat, Block>, hi: int, lo: nat): seq<Transaction>
    requires HasRange(blocks, lo, hi)
    decreases hi - lo
  {
    if hi < lo then [] else blocks[hi].transactions + UndoOrder(blocks, hi - 1, lo)
  }

  /** The task of `a` that is undone last; within a transaction the recipient comes last. */
  function LastUndo(txs: seq<Transaction>, a: Address): Option<Task> {
    if txs == [] then None
    else if LastUndo(txs[1..], a).Some? then LastUndo(txs[1..], a)
    else if txs[0].recipientAddress == a then Some(Credit(a, txs[0].amount))
    else if txs[0].senderAddress == a then Some(Debit(a, txs[0].amount))
    else None
  }

  /** What undoing a task makes of the parent's wallet. */
  function Undo(u: Task, w: Wallet): Wallet {
    match u
    case Debit(_, amount) => AddMoney(AdjustNonce(w, -1), amount)
    case Credit(_, amount) => SubtractMoneyIfPossible(w, amount)
  }

  lemma {:induction false} RollbackAppend(parent: WalletDb, fork: WalletDb, xs: seq<Transaction>, ys: seq<Transaction>)
    ensures RollbackTransactions(parent, fork, xs + ys) ==
            RollbackTransactions(parent, RollbackTransactions(parent, fork, xs), ys)
    decreases xs
  {
    if xs == [] {
      assert xs + ys == ys;
    } else {
      assert (xs + ys)[1..] == xs[1..] + ys;
      RollbackAppend(parent, RollbackTransaction(parent, fork, xs[0]), xs[1..], ys);
    }
  }

  lemma {:induction false} RollbackInOrder(blocks: map<nat, Block>, parent: WalletDb, fork: WalletDb, hi: int, lo: nat)
    requires HasRange(blocks, lo, hi)
    ensures RollbackRange(blocks, parent, fork, hi, lo) == RollbackTransactions(parent, fork, UndoOrder(blocks, hi, lo))
    decreases hi - lo
  {
    if hi >= lo {
      RollbackAppend(parent, fork, blocks[hi].transactions, UndoOrder(blocks, hi - 1, lo));
      RollbackInOrder(blocks, parent, RollbackTransactions(parent, fork, blocks[hi].transactions), hi - 1, lo);
    }
  }

  lemma {:induction false} RollbackAt(parent: WalletDb, fork: WalletDb, txs: seq<Transaction>, a: Address)
    ensures var r, last := RollbackTransactions(parent, fork, txs), LastUndo(txs, a);
            if last == None then SameAt(fork, r, a) else a in r && r[a] == Undo(last.value, Get(parent, a))
    decreases txs
  {
    if txs != [] {
      RollbackAt(parent, RollbackTransaction(parent, fork, txs[0]), txs[1..], a);
    }
  }

  // ---------------------------------------------------------------- sums over the tasks of a range

  /** The sum that `a` is charged: a debit above the balance is skipped. */
  function Charged(db: WalletDb, tasks: seq<Task>, a: Address): nat
    decreases tasks
  {
    if tasks == [] then 0 else
      var t := tasks[0];
      (if t.Debit? && t.address == a && Get(db, a).balance >= t.amount then t.amount else 0) +
      Charged(db[t.address := Effect(t, Get(db, t.address))], tasks[1..], a)
  }

  lemma {:induction false} ChargedAtMost(db: WalletDb, tasks: seq<Task>, a: Address)
    ensures Charged(db, tasks, a) <= DebitSum(tasks, a)
    ensures Debits(tasks, a) == 0 ==> DebitSum(tasks, a) == 0
    decreases tasks
  {
    if tasks != [] {
      ChargedAtMost(db[tasks[0].address := Effect(tasks[0], Get(db, tasks[0].address))], tasks[1..], a);
    }
  }

  /** Balances add up the credits and lose what was charged. */
  lemma {:induction false} MainRunBalance(db: WalletDb, tasks: seq<Task>, a: Address)
    ensures Get(MainRun(db, tasks), a).balance ==
            (Get(db, a).balance + Credits(tasks, a) - Charged(db, tasks, a)) % TWO_TO_THE_64
    decreases tasks
  {
    var w := Get(db, a);
    if tasks == [] {
      ModOfUint64(w.balance);
    } else {
      hide TWO_TO_THE_64, Effect, Get;
      var t, rest := tasks[0], tasks[1..];
      var changed := Effect(t, Get(db, t.address));
      var next := db[t.address := changed];
      EffectOnBalance(t, Get(db, t.address));
      GetAfter(db, t.address, changed, a);
      MainRunBalance(next, rest, a);
      if t.address == a && t.Credit? {
        ModAdd(w.balance + t.amount, Credits(rest, a) - Charged(next, rest, a));
      }
    }
  }

  lemma {:induction false} EffectOnBalance(t: Task, w: Wallet)
    ensures t.Debit? ==> Effect(t, w).balance == if w.balance >= t.amount then w.balance - t.amount else w.balance
    ensures t.Credit? ==> Effect(t, w).balance == (w.balance + t.amount) % TWO_TO_THE_64
  {
  }

  lemma {:induction false} TasksOfAppend(xs: seq<Transaction>, ys: seq<Transaction>)
    ensures TasksOf(xs + ys) == TasksOf(xs) + TasksOf(ys)
  {
    if xs == [] {
      assert xs + ys == ys;
    } else {
      assert (xs + ys)[1..] == xs[1..] + ys;
      TasksOfAppend(xs[1..], ys);
    }
  }

  /** Main executed the range forwards and the rollback goes backwards: the sums are the same. */
  lemma {:induction false} SameSums(main: map<nat, Block>, lo: nat, hi: nat, a: Address)
    requires HasRange(main, lo, hi - 1)
    ensures var done, undone := RangeTasks(main, lo, hi), TasksOf(UndoOrder(main, hi - 1, lo));
            Debits(done, a) == Debits(undone, a) && Credits(done, a) == Credits(undone, a) &&
            DebitSum(done, a) == DebitSum(undone, a)
    decreases hi
  {
    if lo < hi {
      SameSums(main, lo, hi - 1, a);
      var txs, before, rest := main[hi - 1].transactions, RangeTasks(main, lo, hi - 1), UndoOrder(main, hi - 2, lo);
      TasksOfAppend(txs, rest);
      CountsAppend(before, TasksOf(txs), a);
      CountsAppend(TasksOf(txs), TasksOf(rest), a);
      DebitSumAppend(before, TasksOf(txs), a);
      DebitSumAppend(TasksOf(txs), TasksOf(rest), a);
    }
  }

  /** What the last undo of an address tells about the sums. */
  lemma {:induction false} LastUndoSums(txs: seq<Transaction>, a: Address)
    ensures var tasks, last := TasksOf(txs), LastUndo(txs, a);
            match last
            case None => Debits(tasks, a) == 0 && Credits(tasks, a) == 0
            case Some(Debit(b, amount)) => b == a && Debits(tasks, a) >= 1 && amount <= DebitSum(tasks, a) &&
                                           (Debits(tasks, a) == 1 ==> amount == DebitSum(tasks, a))
            case Some(Credit(b, amount)) => b == a && amount <= Credits(tasks, a)
  {
    if txs != [] {
      var tx, rest := txs[0], TasksOf(txs[1..]);
      LastUndoSums(txs[1..], a);
      var two := [Debit(tx.senderAddress, tx.amount), Credit(tx.recipientAddress, tx.amount)];
      assert TasksOf(txs) == two + rest;
      SumsOfTwo(tx, a);
      CountsAppend(two, rest, a);
      DebitSumAppend(two, rest, a);
      NoDebitsNoSum(rest, a);
    }
  }

  lemma {:induction false} SumsOfTwo(tx: Transaction, a: Address)
    ensures var two := [Debit(tx.senderAddress, tx.amount), Credit(tx.recipientAddress, tx.amount)];
            Debits(two, a) == (if tx.senderAddress == a then 1 else 0) &&
            DebitSum(two, a) == (if tx.senderAddress == a then tx.amount else 0) &&
            Credits(two, a) == (if tx.recipientAddress == a then tx.amount else 0)
  {
    var two := [Debit(tx.senderAddress, tx.amount), Credit(tx.recipientAddress, tx.amount)];
    var one := two[1..];
    assert one == [Credit(tx.recipientAddress, tx.amount)] && one[1..] == [];
    assert Debits(one, a) == 0 && DebitSum(one, a) == 0;
    assert Credits(one, a) == if tx.recipientAddress == a then tx.amount else 0;
    assert Credits(two, a) == Credits(one, a);
  }

  lemma {:induction false} NoDebitsNoSum(tasks: seq<Task>, a: Address)
    ensures Debits(tasks, a) == 0 ==> DebitSum(tasks, a) == 0
  {
    if tasks != [] {
      NoDebitsNoSum(tasks[1..], a);
    }
  }

  // ---------------------------------------------------------------- the exact condition

  /**
   Computed from the range's transactions and the balance before them: the address sent
   as often as its last undo takes back, and received, net of what it was charged, as
   much as its last undo takes away; all modulo 2^64.
   */
  predicate Restorable(start: WalletDb, tasks: seq<Task>, undone: seq<Transaction>, a: Address) {
    var net := Credits(tasks, a) - Charged(start, tasks, a);
    match LastUndo(undone, a)
    case None => true
    case Some(Debit(_, amount)) =>
      (Debits(tasks, a) - 1) % TWO_TO_THE_64 == 0 && (net + amount) % TWO_TO_THE_64 == 0
    case Some(Credit(_, amount)) =>
      Debits(tasks, a) % TWO_TO_THE_64 == 0 &&
      if (Get(start, a).balance + net) % TWO_TO_THE_64 >= amount then (net - amount) % TWO_TO_THE_64 == 0
      else net % TWO_TO_THE_64 == 0
  }

  /** The condition for main's blocks `lo .. hi - 1`. */
  ghost predicate RestorableIn(initial: WalletDb, main: map<nat, Block>, lo: nat, hi: nat, a: Address)
    requires HasRange(main, 0, hi - 1) && lo <= hi
  {
    Restorable(WalletsBefore(initial, main, lo), RangeTasks(main, lo, hi), UndoOrder(main, hi - 1, lo), a)
  }

  /** The wallet of `a` that a fork shows after rolling back main's blocks `lo .. hi - 1`. */
  ghost function RolledBack(initial: WalletDb, main: map<nat, Block>, lo: nat, hi: nat, a: Address): Wallet
    requires HasRange(main, 0, hi - 1) && lo <= hi
  {
    var now := WalletsBefore(initial, main, hi);
    var fork := RollbackRange(main, now, map[], hi - 1, lo);
    if a in fork then fork[a] else Get(now, a)
  }

  lemma {:induction false} BackAgain(n: uint64, d: int)
    ensures (n + d) % TWO_TO_THE_64 == n <==> d % TWO_TO_THE_64 == 0
  {
    if d % TWO_TO_THE_64 == 0 {
      assert n + d == n + d / TWO_TO_THE_64 * TWO_TO_THE_64;
    }
  }

  lemma {:induction false} UndoRestoresIff(start: Wallet, now: Wallet, debits: nat, net: int, u: Task)
    requires now.nonce == (start.nonce + debits) % TWO_TO_THE_64 && now.balance == (start.balance + net) % TWO_TO_THE_64
    ensures Undo(u, now) == start <==>
            if u.Debit? then (debits - 1) % TWO_TO_THE_64 == 0 && (net + u.amount) % TWO_TO_THE_64 == 0
            else debits % TWO_TO_THE_64 == 0 &&
                 if now.balance >= u.amount then (net - u.amount) % TWO_TO_THE_64 == 0 else net % TWO_TO_THE_64 == 0
  {
    hide TWO_TO_THE_64;
    match u
    case Debit(_, amount) =>
      ModAdd(start.nonce + debits, -1);
      ModAdd(start.balance + net, amount);
      BackAgain(start.nonce, debits - 1);
      BackAgain(start.balance, net + amount);
    case Credit(_, amount) =>
      BackAgain(start.nonce, debits);
      if now.balance >= amount {
        ModOfUint64(now.balance - amount);
        var taken: int := amount;
        ModAdd(start.balance + net, -taken);
        BackAgain(start.balance, net - amount);
      } else {
        BackAgain(start.balance, net);
      }
  }

  /** For every range of main and every address: the rollback restores its wallet if and only if the condition holds. */
  lemma {:induction false} RestoredIff(initial: WalletDb, main: map<nat, Block>, lo: nat, hi: nat, a: Address)
    requires lo <= hi && HasRange(main, 0, hi - 1)
    ensures RolledBack(initial, main, lo, hi, a) == Get(WalletsBefore(initial, main, lo), a) <==>
            RestorableIn(initial, main, lo, hi, a)
  {
    hide RollbackRange, WalletsBefore, RangeTasks, UndoOrder, MainRun, RollbackTransactions, TWO_TO_THE_64;
    var start, now := WalletsBefore(initial, main, lo), WalletsBefore(initial, main, hi);
    var tasks, undone := RangeTasks(main, lo, hi), UndoOrder(main, hi - 1, lo);
    WalletsBeforeRange(initial, main, lo, hi);
    MainRunCounts(start, tasks, a);
    MainRunBalance(start, tasks, a);
    RollbackInOrder(main, now, map[], hi - 1, lo);
    RollbackAt(now, map[], undone, a);
    var net := Credits(tasks, a) - Charged(start, tasks, a);
    var last := LastUndo(undone, a);
    if last == None {
      SameSums(main, lo, hi, a);
      LastUndoSums(undone, a);
      ChargedAtMost(start, tasks, a);
      ModOfUint64(Get(start, a).nonce);
      ModOfUint64(Get(start, a).balance);
    } else {
      hide LastUndo, Undo, Charged, Credits, Debits;
      UndoRestoresIff(Get(start, a), Get(now, a), Debits(tasks, a), net, last.value);
    }
  }

  /** The whole range is restored if and only if the condition holds for every address. */
  lemma {:induction false} RangeRestoredIff(initial: WalletDb, main: map<nat, Block>, lo: nat, hi: nat)
    requires lo <= hi && HasRange(main, 0, hi - 1)
    ensures (forall a: Address :: RolledBack(initial, main, lo, hi, a) == Get(WalletsBefore(initial, main, lo), a)) <==>
            forall a: Address :: RestorableIn(initial, main, lo, hi, a)
  {
    hide RestorableIn, RolledBack;
    forall a: Address
      ensures RolledBack(initial, main, lo, hi, a) == Get(WalletsBefore(initial, main, lo), a) <==>
              RestorableIn(initial, main, lo, hi, a)
    {
      RestoredIff(initial, main, lo, hi, a);
    }
  }

  // ---------------------------------------------------------------- when all payments were carried out in full

  /** Every debit of `a` was charged, its balance cannot have overflowed, and it sent fewer than 2^64 times. */
  predicate PaidInFull(start: WalletDb, tasks: seq<Task>, a: Address) {
    Charged(start, tasks, a) == DebitSum(tasks, a) && Get(start, a).balance + Credits(tasks, a) < TWO_TO_THE_64 &&
    Debits(tasks, a) < TWO_TO_THE_64
  }

  /**
   An address that never sent: its last undone credit is all it received. One that sent once: it
   received nothing, and its debit is undone last.
   */
  predicate SimplyRestorable(tasks: seq<Task>, undone: seq<Transaction>, a: Address) {
    var last := LastUndo(undone, a);
    match Debits(tasks, a)
    case 0 => last == None || last == Some(Credit(a, Credits(tasks, a) % TWO_TO_THE_64))
    case 1 => Credits(tasks, a) == 0 && last.Some? && last.value.Debit?
    case _ => false
  }

  /** Then only the pattern of the transactions counts; an address that sent twice is never restored. */
  lemma {:induction false} PaidRestoredIff(initial: WalletDb, main: map<nat, Block>, lo: nat, hi: nat, a: Address)
    requires lo <= hi && HasRange(main, 0, hi - 1)
    requires PaidInFull(WalletsBefore(initial, main, lo), RangeTasks(main, lo, hi), a)
    ensures RolledBack(initial, main, lo, hi, a) == Get(WalletsBefore(initial, main, lo), a) <==>
            SimplyRestorable(RangeTasks(main, lo, hi), UndoOrder(main, hi - 1, lo), a)
  {
    RestoredIff(initial, main, lo, hi, a);
    SameSums(main, lo, hi, a);
    var start, tasks, undone := WalletsBefore(initial, main, lo), RangeTasks(main, lo, hi), UndoOrder(main, hi - 1, lo);
    LastUndoSums(undone, a);
    ChargedAtMost(start, tasks, a);
    hide RolledBack, WalletsBefore, RangeTasks, UndoOrder, Charged, Credits, Debits, DebitSum, LastUndo;
    SimpleCondition(start, tasks, undone, a);
  }

  /** The whole range, when every address was paid in full. */
  lemma {:induction false} PaidRangeRestoredIff(initial: WalletDb, main: map<nat, Block>, lo: nat, hi: nat)
    requires lo <= hi && HasRange(main, 0, hi - 1)
    requires forall a: Address :: PaidInFull(WalletsBefore(initial, main, lo), RangeTasks(main, lo, hi), a)
    ensures (forall a: Address :: RolledBack(initial, main, lo, hi, a) == Get(WalletsBefore(initial, main, lo), a)) <==>
            forall a: Address :: SimplyRestorableIn(main, lo, hi, a)
  {
    hide RolledBack, SimplyRestorable, PaidInFull, UndoOrder, RangeTasks, WalletsBefore;
    forall a: Address
      ensures RolledBack(initial, main, lo, hi, a) == Get(WalletsBefore(initial, main, lo), a) <==>
              SimplyRestorableIn(main, lo, hi, a)
    {
      PaidRestoredIff(initial, main, lo, hi, a);
    }
  }

  ghost predicate SimplyRestorableIn(main: map<nat, Block>, lo: nat, hi: nat, a: Address)
    requires HasRange(main, lo, hi - 1)
  {
    SimplyRestorable(RangeTasks(main, lo, hi), UndoOrder(main, hi - 1, lo), a)
  }

  lemma {:induction false} SimpleCondition(start: WalletDb, tasks: seq<Task>, undone: seq<Transaction>, a: Address)
    requires PaidInFull(start, tasks, a) && (Debits(tasks, a) == 0 ==> DebitSum(tasks, a) == 0)
    requires match LastUndo(undone, a)
             case None => Debits(tasks, a) == 0 && Credits(tasks, a) == 0
             case Some(Debit(b, amount)) => b == a && Debits(tasks, a) >= 1 && amount <= DebitSum(tasks, a) &&
                                            (Debits(tasks, a) == 1 ==> amount == DebitSum(tasks, a))
             case Some(Credit(b, amount)) => b == a && amount <= Credits(tasks, a)
    ensures Restorable(start, tasks, undone, a) <==> SimplyRestorable(tasks, undone, a)
  {
    hide LastUndo, Charged, Credits, Debits, DebitSum;
  }

  // ---------------------------------------------------------------- a new fork

  /** A new fork off main shows main's wallets from before its base block if and only if every address is restorable. */
  lemma {:induction false} NewForkShowsIff(crypto: Crypto, initial: WalletDb, s: State, b: Block, c: ChainId)
    requires Inv(s) && c != Main && c !in s.info && Main in s.info && CanFork(s, Main, b)
    requires b.index <= s.info[Main].latestBlock.index
    requires HasRange(BlocksOf(s, Main), 0, MainHeight(s) - 1)
    requires DbOf(s.wallets, Main) == WalletsBefore(initial, BlocksOf(s, Main), MainHeight(s))
    ensures var e, main := ExecuteTree(crypto, s, c, Main, b), BlocksOf(s, Main);
            (forall a: Address :: View(e.wallets, c, a) == Get(WalletsBefore(initial, main, b.index), a)) <==>
            forall a: Address :: RestorableIn(initial, main, b.index, MainHeight(s), a)
  {
    hide ExecuteTree, RollbackRange, WalletsBefore, RestorableIn, ChainsOk, OrderOk;
    assert c !in s.blocks && c !in s.wallets && Main in s.wallets;
    hide Inv;
    ForkShape(crypto, s, b, c, Main);
    var e, main := ExecuteTree(crypto, s, c, Main, b), BlocksOf(s, Main);
    forall a: Address
      ensures View(e.wallets, c, a) == RolledBack(initial, main, b.index, MainHeight(s), a)
    {
    }
    RangeRestoredIff(initial, main, b.index, MainHeight(s));
  }

  // ---------------------------------------------------------------- a new fork off a fork

  /**
   The wallet of `a` looks on the new fork as on its parent. The parent never applied the
   transaction that is undone last, so undoing it has to change nothing: it is a credit
   of nothing, or of more than there is; or the parent has no wallet of its own, and
   main's happens to be what undoing gives an empty one.
   */
  predicate LooksLikeParent(parent: WalletDb, main: WalletDb, undone: seq<Transaction>, a: Address) {
    match LastUndo(undone, a)
    case None => true
    case Some(u) =>
      if a in parent then u.Credit? && (u.amount == 0 || parent[a].balance < u.amount)
      else Get(main, a) == if u.Debit? then Wallet(u.amount, TWO_TO_THE_64 - 1) else EMPTY_WALLET
  }

  lemma {:induction false} UndoChangesIff(u: Task, w: Wallet)
    ensures Undo(u, w) == w <==> u.Credit? && (u.amount == 0 || w.balance < u.amount)
    ensures Undo(u, EMPTY_WALLET) == if u.Debit? then Wallet(u.amount, TWO_TO_THE_64 - 1) else EMPTY_WALLET
  {
  }

  /**
   In every state of a run: a new fork off a fork shows its parent's wallets if and only if each
   undone address looks like that.
   */
  lemma {:induction false} ForkOffForkShowsIff(crypto: Crypto, s: State, b: Block, target: ChainId, parent: ChainId)
    requires Inv(s) && MatchBlock(s, b) == Matching(target, parent) && !Reforks(s, b) && parent != Main &&
             target != parent
    ensures CanFork(s, parent, b) && parent in s.info
    ensures var e, top := ExecuteTree(crypto, s, target, parent, b), s.info[parent].latestBlock.index;
            (forall a: Address :: View(e.wallets, target, a) == View(s.wallets, parent, a)) <==>
            forall a: Address ::
              LooksLikeParent(DbOf(s.wallets, parent), DbOf(s.wallets, Main),
                              UndoOrder(BlocksOf(s, parent), top, b.index), a)
  {
    hide Inv, MatchBlock, Reforks, CanFork, ExecuteTree, RollbackRange, UndoOrder, RollbackTransactions,
         LooksLikeParent;
    TargetMainIsParent(s, b, target, parent);
    ForkPlace(s, b, target, parent);
    NewForkWallets(crypto, s, b, target, parent);
    var e, top := ExecuteTree(crypto, s, target, parent, b), s.info[parent].latestBlock.index;
    var own, undone := DbOf(s.wallets, parent), UndoOrder(BlocksOf(s, parent), top, b.index);
    forall a: Address
      ensures View(e.wallets, target, a) == View(s.wallets, parent, a) <==>
              LooksLikeParent(own, DbOf(s.wallets, Main), undone, a)
    {
      ForkOffForkAt(own, DbOf(s.wallets, Main), undone, a);
    }
  }

  /** Where a block goes that main does not get: on top of its fork, or into a chain that is not there yet. */
  lemma {:induction false} ForkPlace(s: State, b: Block, target: ChainId, parent: ChainId)
    requires Inv(s) && MatchBlock(s, b) == Matching(target, parent) && !Reforks(s, b) && target != Main
    ensures Main in s.info && parent in s.info && HoldsPrevious(s, parent, b) && CanFork(s, parent, b)
    ensures if GetBlock(s, parent, b.index) == None then target == parent && target in s.blocks
            else target != parent && target !in s.info && target !in s.blocks && target !in s.wallets &&
                 b.index <= s.info[parent].latestBlock.index
  {
    MatchBlockMeaning(s, b);
    MainOpens(s);
    assert Id(s.info[parent]) == parent;
  }

  lemma {:induction false} NewForkWallets(crypto: Crypto, s: State, b: Block, target: ChainId, parent: ChainId)
    requires CanFork(s, parent, b) && parent != Main && target != Main && target != parent
    requires target !in s.info && target !in s.blocks && target !in s.wallets
    ensures var e, own := ExecuteTree(crypto, s, target, parent, b), DbOf(s.wallets, parent);
            DbOf(e.wallets, Main) == DbOf(s.wallets, Main) &&
            DbOf(e.wallets, target) == RollbackTransactions(own, own,
              UndoOrder(BlocksOf(s, parent), s.info[parent].latestBlock.index, b.index))
  {
    hide ExecuteTree, RollbackRange, UndoOrder, RollbackTransactions;
    ForkShape(crypto, s, b, target, parent);
    RollbackInOrder(BlocksOf(s, parent), DbOf(s.wallets, parent), DbOf(s.wallets, parent),
      s.info[parent].latestBlock.index, b.index);
  }

  lemma {:induction false} ForkOffForkAt(own: WalletDb, main: WalletDb, undone: seq<Transaction>, a: Address)
    ensures var r := RollbackTransactions(own, own, undone);
            (if a in r then r[a] else Get(main, a)) == (if a in own then own[a] else Get(main, a)) <==>
            LooksLikeParent(own, main, undone, a)
  {
    RollbackAt(own, own, undone, a);
    hide RollbackTransactions, Undo;
    var last := LastUndo(undone, a);
    if last.Some? {
      UndoChangesIff(last.value, Get(own, a));
    }
  }
}
