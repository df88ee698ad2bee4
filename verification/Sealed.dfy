/**
 What verification (`src/verification/index.ts`) lets through, written out, and what it
 leaves behind: in every state that submissions of any blocks reach, every stored block
 carries the SHA-256 of its own encoding and every transaction in it that of its own.
 */
module Sealed {
  import opened Common
  import opened Codec
  import opened Models
  import opened Wallets
  import opened BlockTree
  import opened ChainRuns

  /** The SHA-256 of an object's encoding without the fields that are left out of the hash. */
  function HashOf(crypto: Crypto, schema: Schema, values: seq<Value>): Hash {
    crypto.sha256(match EncodeFields(schema.fields, values, true) case Some(data) => data case None => [])
  }

  predicate HasOwnHash(crypto: Crypto, b: Block) {
    b.hash == HashOf(crypto, BlockSchema, BlockValues(b))
  }

  predicate HasOwnTxid(crypto: Crypto, tx: Transaction) {
    tx.txid == HashOf(crypto, TransactionSchema, TransactionValue(tx).values)
  }

  /** The block carries its own hash, and so do its transactions. */
  ghost predicate IsSealed(crypto: Crypto, b: Block) {
    HasOwnHash(crypto, b) && forall i :: 0 <= i < |b.transactions| ==> HasOwnTxid(crypto, b.transactions[i])
  }

  /** Main's wallet of the sender has the payment's nonce, and enough. */
  predicate Payable(db: WalletDb, tx: Transaction) {
    Get(db, tx.senderAddress).nonce == tx.nonce && tx.amount <= Get(db, tx.senderAddress).balance
  }

  lemma {:induction false} OwnHashIff(crypto: Crypto, b: Block)
    ensures HasOwnHash(crypto, b) <==> BlockHash(crypto, b) == b.hash
  {
    hide EncodeFields;
  }

  lemma {:induction false} OwnTxidIff(crypto: Crypto, tx: Transaction)
    ensures HasOwnTxid(crypto, tx) <==> TransactionHash(crypto, tx) == tx.txid
  {
    hide EncodeFields;
  }

  /** The verdict on a transaction: the first check that fails. */
  lemma {:induction false} TransactionVerdict(crypto: Crypto, db: WalletDb, tx: Transaction)
    ensures VerifyTransaction(crypto, db, tx) ==
            if !HasOwnTxid(crypto, tx) then 12504
            else if Get(db, tx.senderAddress).nonce != tx.nonce then 12508
            else if Get(db, tx.senderAddress).balance < tx.amount then 12524
            else 12000
    ensures VerifyTransaction(crypto, db, tx) == 12000 <==> HasOwnTxid(crypto, tx) && Payable(db, tx)
  {
    hide HasOwnTxid, TransactionHash;
    OwnTxidIff(crypto, tx);
  }

  /** A block is accepted if and only if it has a place, its own hash, and only sealed and payable transactions. */
  lemma {:induction false} AcceptedIff(crypto: Crypto, s: State, b: Block)
    ensures VerifyBlock(crypto, s, b).Matching? <==>
            MatchBlock(s, b).Matching? && HasOwnHash(crypto, b) &&
            forall i :: 0 <= i < |b.transactions| ==>
              HasOwnTxid(crypto, b.transactions[i]) && Payable(DbOf(s.wallets, Main), b.transactions[i])
    ensures VerifyBlock(crypto, s, b).Matching? || MatchBlock(s, b).Rejected? ==>
              VerifyBlock(crypto, s, b) == MatchBlock(s, b)
  {
    hide MatchBlock, HasOwnHash, HasOwnTxid, BlockHash, VerifyTransaction, Payable;
    OwnHashIff(crypto, b);
    forall i | 0 <= i < |b.transactions|
      ensures VerifyTransaction(crypto, DbOf(s.wallets, Main), b.transactions[i]) == 12000 <==>
              HasOwnTxid(crypto, b.transactions[i]) && Payable(DbOf(s.wallets, Main), b.transactions[i])
    {
      TransactionVerdict(crypto, DbOf(s.wallets, Main), b.transactions[i]);
    }
    assert TransactionsValid(crypto, DbOf(s.wallets, Main), b.transactions) <==>
           forall i :: 0 <= i < |b.transactions| ==>
             HasOwnTxid(crypto, b.transactions[i]) && Payable(DbOf(s.wallets, Main), b.transactions[i]);
  }

  /** A well-placed block with another hash, or with a bad transaction, is refused with its code and changes nothing. */
  lemma {:induction false} RefusedChangesNothing(crypto: Crypto, s: State, b: Block, s': State)
    requires MatchBlock(s, b).Matching? && Next(crypto, s, b, s')
    ensures !HasOwnHash(crypto, b) ==> VerifyBlock(crypto, s, b) == Rejected(12504) && s' == s
    ensures HasOwnHash(crypto, b) &&
            (exists i :: 0 <= i < |b.transactions| &&
              !(HasOwnTxid(crypto, b.transactions[i]) && Payable(DbOf(s.wallets, Main), b.transactions[i]))) ==>
              VerifyBlock(crypto, s, b) == Rejected(12520) && s' == s
  {
    AcceptedIff(crypto, s, b);
    OwnHashIff(crypto, b);
    hide MatchBlock, HasOwnHash, HasOwnTxid, BlockHash, TransactionsValid, Payable, ExecuteTree, CanFork, WalletOutcome;
  }

  // ---------------------------------------------------------------- what is stored

  /** Every stored block is sealed. */
  ghost predicate StoresSealed(crypto: Crypto, s: State) {
    forall c, i :: i in BlocksOf(s, c) ==> IsSealed(crypto, BlocksOf(s, c)[i])
  }

  /** Executing a block stores no other block that was not stored before. */
  lemma {:induction false} NothingElseStored(crypto: Crypto, s: State, b: Block, target: ChainId, parent: ChainId,
                                             c: ChainId, i: nat)
    requires target != parent ==> CanFork(s, parent, b)
    requires i in BlocksOf(ExecuteTree(crypto, s, target, parent, b), c)
    ensures var x := BlocksOf(ExecuteTree(crypto, s, target, parent, b), c)[i];
            x == b || (i in BlocksOf(s, c) && x == BlocksOf(s, c)[i]) ||
            (i in BlocksOf(s, parent) && x == BlocksOf(s, parent)[i])
  {
    hide StateHash, Repeat, RollbackRange, Interval;
  }

  lemma {:induction false} NextStoresSealed(crypto: Crypto, s: State, b: Block, s': State)
    requires Next(crypto, s, b, s') && StoresSealed(crypto, s)
    ensures StoresSealed(crypto, s')
  {
    AcceptedIff(crypto, s, b);
    hide ExecuteTree, CanFork, VerifyBlock, WalletOutcome, HasOwnHash, HasOwnTxid, Payable, MatchBlock;
    match VerifyBlock(crypto, s, b)
    case Rejected(_) =>
    case Matching(target, parent) =>
      var e := ExecuteTree(crypto, s, target, parent, b);
      forall c, i | i in BlocksOf(s', c) ensures IsSealed(crypto, BlocksOf(s', c)[i]) {
        assert BlocksOf(s', c) == BlocksOf(e, c);
        NothingElseStored(crypto, s, b, target, parent, c, i);
      }
  }

  /** In every state that submissions of any blocks reach, every stored block and transaction carries its own hash. */
  lemma {:induction false} StoredBlocksAreSealed(crypto: Crypto, states: seq<State>, submitted: seq<Block>, k: nat)
    requires Submissions(crypto, states, submitted) && k < |states|
    requires forall c :: BlocksOf(states[0], c) == map[]
    ensures StoresSealed(crypto, states[k])
  {
    hide Next, StoresSealed, BlocksOf;
    if k == 0 {
      NothingIsSealed(crypto, states[0]);
    } else {
      StoredBlocksAreSealed(crypto, states, submitted, k - 1);
      NextStoresSealed(crypto, states[k - 1], submitted[k - 1], states[k]);
    }
  }

  lemma {:induction false} NothingIsSealed(crypto: Crypto, s: State)
    requires forall c :: BlocksOf(s, c) == map[]
    ensures StoresSealed(crypto, s)
  {
  }
}
