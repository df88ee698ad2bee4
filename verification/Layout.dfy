/**
 The bytes of transactions, blocks, wallets and the chainstate file, field by field, as the
 encoding settings of the classes promise them (`src/common/models`,
 `src/storage/chainstate.ts:61-99`), and what their hashes are taken of.
 */
module Layout {
  import opened Common
  import opened Codec
  import opened Models
  import opened Wallets

  /** A number: the length of its shortest big-endian form, and that form. */
  function Num(n: nat): bytes {
    [|ShortUint(n)| % 256] + ShortUint(n)
  }

  function Bulk(data: bytes): bytes {
    EncodeLengthForUnlimited(|data|) + data
  }

  predicate SizedTransaction(tx: Transaction) {
    tx.version == [0] && |tx.txid| == 32 && |tx.recipientAddress| == 21 && |tx.signature| == 66
  }

  function TransactionWire(tx: Transaction): bytes {
    tx.version + (tx.txid + (tx.recipientAddress + (Num(tx.amount) + (Num(tx.nonce) + (Num(tx.timestamp) +
      (Bulk(tx.input) + tx.signature))))))
  }

  /** Without txid and signature. */
  function TransactionHashed(tx: Transaction): bytes {
    tx.version + (tx.recipientAddress + (Num(tx.amount) + (Num(tx.nonce) + (Num(tx.timestamp) + Bulk(tx.input)))))
  }

  function TransactionsWire(txs: seq<Transaction>): bytes {
    if txs == [] then [] else TransactionWire(txs[0]) + TransactionsWire(txs[1..])
  }

  /** The transactions behind their number in two bytes. */
  function BodyWire(txs: seq<Transaction>): bytes {
    FromInt(|txs|, 2) + TransactionsWire(txs)
  }

  predicate HasSizes(b: Block) {
    b.version == [0] && |b.hash| == 32 && |b.previousHash| == 32 && |b.signature| == 66 && |b.transactions| < 65536 &&
    forall i :: 0 <= i < |b.transactions| ==> SizedTransaction(b.transactions[i])
  }

  function BlockWire(b: Block): bytes {
    b.version + (Num(b.index) + (Num(b.slotIndex) + (b.hash + (b.previousHash + (Num(b.timestamp) +
      (b.signature + BodyWire(b.transactions)))))))
  }

  /** Without hash and signature. */
  function BlockHashed(b: Block): bytes {
    b.version + (Num(b.index) + (Num(b.slotIndex) + (b.previousHash + (Num(b.timestamp) + BodyWire(b.transactions)))))
  }

  function ChainWire(chain: ForkChainstate): bytes {
    chain.stateHash + (chain.parentChain + (BlockWire(chain.base) + BlockWire(chain.latestBlock)))
  }

  function ChainsWire(chains: seq<ForkChainstate>): bytes {
    if chains == [] then [] else ChainWire(chains[0]) + ChainsWire(chains[1..])
  }

  // ---------------------------------------------------------------- one field at a time

  lemma {:induction false} OneField(fields: seq<Field>, values: seq<Value>, forHash: bool, first: bytes, rest: bytes)
    requires fields != [] && values != [] && !(forHash && fields[0].hashRemove)
    requires EncodeField(fields[0].encoder, values[0]) == Some(first)
    requires EncodeFields(fields[1..], values[1..], forHash) == Some(rest)
    ensures EncodeFields(fields, values, forHash) == Some(first + rest)
  {
  }

  lemma {:induction false} SkippedField(fields: seq<Field>, values: seq<Value>, rest: bytes)
    requires fields != [] && values != [] && fields[0].hashRemove
    requires EncodeFields(fields[1..], values[1..], true) == Some(rest)
    ensures EncodeFields(fields, values, true) == Some(rest)
  {
  }

  lemma {:induction false} NumField(n: uint64)
    ensures EncodeField(BigInt, Number(n)) == Some(Num(n)) && |ShortUint(n)| <= 8
  {
    PowOf64();
    ShortUintLength(n, 8);
  }

  lemma {:induction false} PowOf64()
    ensures Pow(256, 8) == TWO_TO_THE_64
  {
    assert Pow(256, 2) == 65536 && Pow(256, 4) == 256 * (256 * Pow(256, 2));
    assert Pow(256, 6) == 256 * (256 * Pow(256, 4)) && Pow(256, 8) == 256 * (256 * Pow(256, 6));
  }

  lemma {:induction false} LastField(fields: seq<Field>, values: seq<Value>, forHash: bool, first: bytes)
    requires |fields| == |values| == 1 && !(forHash && fields[0].hashRemove)
    requires EncodeField(fields[0].encoder, values[0]) == Some(first)
    ensures EncodeFields(fields, values, forHash) == Some(first)
  {
    assert fields[1..] == [] && values[1..] == [] && first + [] == first;
    OneField(fields, values, forHash, first, []);
  }

  lemma {:induction false} Tails<T>(xs: seq<T>, n: nat)
    requires n < |xs|
    ensures xs[n..][0] == xs[n] && xs[n..][1..] == xs[n + 1..]
  {
  }

  // ---------------------------------------------------------------- transactions

  lemma {:induction false} TransactionFields(tx: Transaction)
    ensures var f, v := TransactionSchema.fields, TransactionValue(tx).values;
            EncodeFields(f, v, false) == Some(TransactionWire(tx)) &&
            EncodeFields(f, v, true) == Some(TransactionHashed(tx))
  {
    hide EncodeFields, Num, Bulk, EncodeLengthForUnlimited;
    var f, v := TransactionSchema.fields, TransactionValue(tx).values;
    var six := Num(tx.timestamp) + (Bulk(tx.input) + tx.signature);
    TransactionTail(tx);
    forall n: nat | n < 5 ensures f[n..][0] == f[n] && f[n..][1..] == f[n + 1..] && v[n..][0] == v[n] &&
           v[n..][1..] == v[n + 1..] {
      Tails(f, n);
      Tails(v, n);
    }
    NumField(tx.amount);
    NumField(tx.nonce);
    assert f[0..] == f && v[0..] == v;
    OneField(f[4..], v[4..], false, Num(tx.nonce), six);
    OneField(f[3..], v[3..], false, Num(tx.amount), Num(tx.nonce) + six);
    OneField(f[2..], v[2..], false, tx.recipientAddress, Num(tx.amount) + (Num(tx.nonce) + six));
    var three := tx.recipientAddress + (Num(tx.amount) + (Num(tx.nonce) + six));
    OneField(f[1..], v[1..], false, tx.txid, three);
    OneField(f[0..], v[0..], false, tx.version, tx.txid + three);
    var five := Num(tx.timestamp) + Bulk(tx.input);
    OneField(f[4..], v[4..], true, Num(tx.nonce), five);
    OneField(f[3..], v[3..], true, Num(tx.amount), Num(tx.nonce) + five);
    OneField(f[2..], v[2..], true, tx.recipientAddress, Num(tx.amount) + (Num(tx.nonce) + five));
    SkippedField(f[1..], v[1..], tx.recipientAddress + (Num(tx.amount) + (Num(tx.nonce) + five)));
    OneField(f[0..], v[0..], true, tx.version, tx.recipientAddress + (Num(tx.amount) + (Num(tx.nonce) + five)));
  }

  /** Timestamp, input and signature. */
  lemma {:induction false} TransactionTail(tx: Transaction)
    ensures var f, v := TransactionSchema.fields[5..], TransactionValue(tx).values[5..];
            EncodeFields(f, v, false) == Some(Num(tx.timestamp) + (Bulk(tx.input) + tx.signature)) &&
            EncodeFields(f, v, true) == Some(Num(tx.timestamp) + Bulk(tx.input))
  {
    hide EncodeFields, Num, EncodeLengthForUnlimited;
    var f, v := TransactionSchema.fields[5..], TransactionValue(tx).values[5..];
    NumField(tx.timestamp);
    assert f[1..][1..] == f[2..] && v[1..][1..] == v[2..];
    LastField(f[2..], v[2..], false, tx.signature);
    OneField(f[1..], v[1..], false, Bulk(tx.input), tx.signature);
    OneField(f, v, false, Num(tx.timestamp), Bulk(tx.input) + tx.signature);
    NothingHashed(f[2..], v[2..]);
    OneField(f[1..], v[1..], true, Bulk(tx.input), []);
    assert Bulk(tx.input) + [] == Bulk(tx.input);
    OneField(f, v, true, Num(tx.timestamp), Bulk(tx.input));
  }

  lemma {:induction false} NothingHashed(fields: seq<Field>, values: seq<Value>)
    requires |fields| == |values| == 1 && fields[0].hashRemove
    ensures EncodeFields(fields, values, true) == Some([])
  {
    assert fields[1..] == [] && values[1..] == [];
    SkippedField(fields, values, []);
  }

  /** The bytes of a transaction and of its pre-image. */
  lemma {:induction false} TransactionLayout(crypto: Crypto, tx: Transaction)
    ensures EncodeToHex(TransactionSchema, TransactionValue(tx)) == TransactionWire(tx)
    ensures TransactionHash(crypto, tx) == crypto.sha256(TransactionHashed(tx))
  {
    hide EncodeFields, TransactionWire, TransactionHashed;
    TransactionFields(tx);
  }

  lemma {:induction false} ItemsLayout(txs: seq<Transaction>)
    ensures EncodeItems(TransactionSchema, TransactionValues(txs)) == TransactionsWire(txs)
  {
    hide EncodeToHex, TransactionWire, TransactionValue;
    var vs := TransactionValues(txs);
    if txs != [] {
      assert vs[1..] == TransactionValues(txs[1..]);
      ItemsLayout(txs[1..]);
      TransactionLayout(Crypto(_ => [], (_, _) => []), txs[0]);
    } else {
      assert vs == [];
    }
  }

  // ---------------------------------------------------------------- blocks

  lemma {:induction false} BodyField(txs: seq<Transaction>)
    ensures EncodeField(Object(BlockBodySchema), Record([List(TransactionValues(txs))])) == Some(BodyWire(txs))
  {
    hide EncodeFields, EncodeItems;
    ItemsLayout(txs);
    LastField(BlockBodySchema.fields, [List(TransactionValues(txs))], false, BodyWire(txs));
  }

  lemma {:induction false} BlockFields(b: Block)
    ensures var f, v := BlockSchema.fields, BlockValues(b);
            EncodeFields(f, v, false) == Some(BlockWire(b)) && EncodeFields(f, v, true) == Some(BlockHashed(b))
  {
    hide EncodeFields, Num, BodyWire, TransactionValues;
    var f, v := BlockSchema.fields, BlockValues(b);
    var body := BodyWire(b.transactions);
    BlockTail(b);
    forall n: nat | n < 5 ensures f[n..][0] == f[n] && f[n..][1..] == f[n + 1..] && v[n..][0] == v[n] &&
           v[n..][1..] == v[n + 1..] {
      Tails(f, n);
      Tails(v, n);
    }
    NumField(b.index);
    NumField(b.slotIndex);
    assert f[0..] == f && v[0..] == v;
    var five := Num(b.timestamp) + (b.signature + body);
    OneField(f[4..], v[4..], false, b.previousHash, five);
    OneField(f[3..], v[3..], false, b.hash, b.previousHash + five);
    var three := b.hash + (b.previousHash + five);
    OneField(f[2..], v[2..], false, Num(b.slotIndex), three);
    OneField(f[1..], v[1..], false, Num(b.index), Num(b.slotIndex) + three);
    OneField(f[0..], v[0..], false, b.version, Num(b.index) + (Num(b.slotIndex) + three));
    var hashed := Num(b.timestamp) + body;
    OneField(f[4..], v[4..], true, b.previousHash, hashed);
    SkippedField(f[3..], v[3..], b.previousHash + hashed);
    OneField(f[2..], v[2..], true, Num(b.slotIndex), b.previousHash + hashed);
    OneField(f[1..], v[1..], true, Num(b.index), Num(b.slotIndex) + (b.previousHash + hashed));
    OneField(f[0..], v[0..], true, b.version, Num(b.index) + (Num(b.slotIndex) + (b.previousHash + hashed)));
  }

  /** Timestamp, signature and body. */
  lemma {:induction false} BlockTail(b: Block)
    ensures var f, v := BlockSchema.fields[5..], BlockValues(b)[5..];
            EncodeFields(f, v, false) == Some(Num(b.timestamp) + (b.signature + BodyWire(b.transactions))) &&
            EncodeFields(f, v, true) == Some(Num(b.timestamp) + BodyWire(b.transactions))
  {
    hide EncodeFields, Num, BodyWire, TransactionValues;
    var f, v := BlockSchema.fields[5..], BlockValues(b)[5..];
    NumField(b.timestamp);
    BodyField(b.transactions);
    assert f[1..][1..] == f[2..] && v[1..][1..] == v[2..];
    LastField(f[2..], v[2..], false, BodyWire(b.transactions));
    OneField(f[1..], v[1..], false, b.signature, BodyWire(b.transactions));
    OneField(f, v, false, Num(b.timestamp), b.signature + BodyWire(b.transactions));
    LastField(f[2..], v[2..], true, BodyWire(b.transactions));
    SkippedField(f[1..], v[1..], BodyWire(b.transactions));
    OneField(f, v, true, Num(b.timestamp), BodyWire(b.transactions));
  }

  /** The bytes of a block, and what its hash is the SHA-256 of. */
  lemma {:induction false} BlockLayout(crypto: Crypto, b: Block)
    ensures BlockToHex(b) == BlockWire(b) && BlockHash(crypto, b) == crypto.sha256(BlockHashed(b))
  {
    hide EncodeFields, BlockWire, BlockHashed;
    BlockFields(b);
  }

  // ---------------------------------------------------------------- chainstate and wallets

  lemma {:induction false} ChainFields(chain: ForkChainstate)
    ensures var f, v := ForkChainstateSchema.fields, ForkChainstateValue(chain).values;
            EncodeFields(f, v, false) == Some(ChainWire(chain)) &&
            EncodeFields(f, v, true) ==
              Some(chain.parentChain + (BlockWire(chain.base) + BlockWire(chain.latestBlock)))
  {
    BlockFields(chain.base);
    BlockFields(chain.latestBlock);
    hide EncodeFields, BlockWire, BlockValues;
    var f, v := ForkChainstateSchema.fields, ForkChainstateValue(chain).values;
    var base, latest := BlockWire(chain.base), BlockWire(chain.latestBlock);
    assert f[1..][1..] == f[2..] && v[1..][1..] == v[2..] && f[2..][1..] == f[3..] && v[2..][1..] == v[3..];
    LastField(f[3..], v[3..], false, latest);
    LastField(f[3..], v[3..], true, latest);
    OneField(f[2..], v[2..], false, base, latest);
    OneField(f[2..], v[2..], true, base, latest);
    OneField(f[1..], v[1..], false, chain.parentChain, base + latest);
    OneField(f[1..], v[1..], true, chain.parentChain, base + latest);
    OneField(f, v, false, chain.stateHash, chain.parentChain + (base + latest));
    SkippedField(f, v, chain.parentChain + (base + latest));
  }

  /** A state hash is taken of the parent's hash and the two blocks. */
  lemma {:induction false} StateHashLayout(crypto: Crypto, parentChain: Hash, base: Block, latest: Block)
    ensures StateHash(crypto, parentChain, base, latest) ==
            crypto.sha256(parentChain + (BlockWire(base) + BlockWire(latest)))
  {
    hide EncodeFields, BlockWire;
    ChainFields(ForkChainstate([], parentChain, base, latest));
  }

  lemma {:induction false} ChainItemsLayout(chains: seq<ForkChainstate>)
    ensures EncodeItems(ForkChainstateSchema, ForkChainstateValues(chains)) == ChainsWire(chains)
  {
    hide EncodeFields, ChainWire, ForkChainstateValue;
    var vs := ForkChainstateValues(chains);
    if chains != [] {
      assert vs[1..] == ForkChainstateValues(chains[1..]);
      ChainItemsLayout(chains[1..]);
      ChainFields(chains[0]);
      ChainObject(chains[0]);
    } else {
      assert vs == [];
    }
  }

  lemma {:induction false} ChainObject(chain: ForkChainstate)
    ensures EncodeToHex(ForkChainstateSchema, ForkChainstateValue(chain)) == ChainWire(chain)
  {
    hide EncodeFields, ChainWire;
    ChainFields(chain);
  }

  /** The chainstate file: version 0, the number of chains in two bytes, and the chains. */
  lemma {:induction false} ChainstateLayout(chains: seq<ForkChainstate>)
    ensures ChainstateToHex(chains) == [0] + (FromInt(|chains|, 2) + ChainsWire(chains))
  {
    hide EncodeFields, EncodeItems, ChainsWire;
    ChainItemsLayout(chains);
    var f, v := ChainstateSchema.fields, [Raw([0]), List(ForkChainstateValues(chains))];
    LastField(f[1..], v[1..], false, FromInt(|chains|, 2) + ChainsWire(chains));
    OneField(f, v, false, [0], FromInt(|chains|, 2) + ChainsWire(chains));
  }

  /** A wallet's record: version 0, balance, nonce. */
  lemma {:induction false} WalletLayout(w: Wallet)
    ensures WalletToHex(w) == [0] + (Num(w.balance) + Num(w.nonce))
  {
    hide EncodeFields, Num;
    var f, v := WalletSchema.fields, WalletValues(w);
    NumField(w.balance);
    NumField(w.nonce);
    assert f[1..][1..] == f[2..] && v[1..][1..] == v[2..];
    LastField(f[2..], v[2..], false, Num(w.nonce));
    OneField(f[1..], v[1..], false, Num(w.balance), Num(w.nonce));
    OneField(f, v, false, [0], Num(w.balance) + Num(w.nonce));
  }

  // ---------------------------------------------------------------- sizes

  lemma {:induction false} SizesOfAll(fields: seq<Field>, values: seq<Value>)
    ensures WellSizedFields(fields, values) <==>
            |fields| == |values| && forall i :: 0 <= i < |fields| ==> WellSized(fields[i].encoder, values[i])
  {
    hide WellSized;
    if |fields| == |values| && fields != [] {
      var f, v := fields[1..], values[1..];
      SizesOfAll(f, v);
      assert forall i, j :: 0 <= i < |f| && j == i + 1 ==> f[i] == fields[j] && v[i] == values[j];
      if forall i :: 0 <= i < |f| ==> WellSized(f[i].encoder, v[i]) {
        forall j | 1 <= j < |fields| ensures WellSized(fields[j].encoder, values[j]) {
          var i := j - 1;
          assert WellSized(f[i].encoder, v[i]);
        }
      }
    }
  }

  lemma {:induction false} EightSizes(f: seq<Field>, v: seq<Value>)
    requires |f| == |v| == 8
    ensures WellSizedFields(f, v) <==>
            WellSized(f[0].encoder, v[0]) && WellSized(f[1].encoder, v[1]) && WellSized(f[2].encoder, v[2]) &&
            WellSized(f[3].encoder, v[3]) && WellSized(f[4].encoder, v[4]) && WellSized(f[5].encoder, v[5]) &&
            WellSized(f[6].encoder, v[6]) && WellSized(f[7].encoder, v[7])
  {
    hide WellSized, WellSizedFields;
    SizesOfAll(f, v);
  }

  lemma {:induction false} ObjectSizes(target: Schema, v: seq<Value>)
    ensures WellSizedObject(target, Record(v)) <==> WellSizedFields(target.fields, v) && VersionOk(target, v)
  {
    hide WellSizedFields;
  }

  /** What the encoders ask of a transaction and of a block. */
  lemma {:induction false} TransactionSizes(tx: Transaction)
    ensures WellSizedObject(TransactionSchema, TransactionValue(tx)) <==> SizedTransaction(tx)
  {
    var f, v := TransactionSchema.fields, TransactionValue(tx).values;
    ZeroByte(tx.version);
    ObjectSizes(TransactionSchema, v);
    assert VersionOk(TransactionSchema, v) <==> ToInt(tx.version) == 0;
    hide WellSizedFields, WellSizedObject, ToInt, VersionOk;
    EightSizes(f, v);
  }

  lemma {:induction false} ZeroByte(data: bytes)
    ensures |data| == 1 && ToInt(data) == 0 <==> data == [0]
  {
    if |data| == 1 { assert data[..0] == []; }
  }

  lemma {:induction false} BlockSizes(b: Block)
    ensures SizedBlock(b) <==> HasSizes(b)
  {
    var f, v := BlockSchema.fields, BlockValues(b);
    ZeroByte(b.version);
    BodySizes(b.transactions);
    assert WellSized(f[7].encoder, v[7]) <==> WellSizedObject(BlockBodySchema, v[7]);
    ObjectSizes(BlockSchema, v);
    hide WellSizedFields, WellSizedObject, SizedTransaction;
    EightSizes(f, v);
  }

  lemma {:induction false} BodySizes(txs: seq<Transaction>)
    ensures WellSizedObject(BlockBodySchema, Record([List(TransactionValues(txs))])) <==>
            |txs| < 65536 && forall i :: 0 <= i < |txs| ==> SizedTransaction(txs[i])
  {
    hide SizedTransaction;
    var v := [List(TransactionValues(txs))];
    assert Pow(256, 2) == 65536;
    assert BlockBodySchema.fields[1..] == [] && v[1..] == [];
    assert WellSizedFields(BlockBodySchema.fields[1..], v[1..]);
    forall i | 0 <= i < |txs|
      ensures WellSizedObject(TransactionSchema, TransactionValues(txs)[i]) <==> SizedTransaction(txs[i])
    {
      TransactionSizes(txs[i]);
    }
    hide WellSizedObject;
    assert WellSized(BlockBodySchema.fields[0].encoder, v[0]) <==>
           |txs| < 65536 && forall i :: 0 <= i < |txs| ==>
             WellSizedObject(TransactionSchema, TransactionValues(txs)[i]);
    ObjectSizes(BlockBodySchema, v);
  }

  // ---------------------------------------------------------------- unlimited lengths

  /** Lengths below 15 take one byte, those below 225 two: base-15 digits, closed by F, padded in front. */
  lemma {:induction false} ShortLengths(n: nat)
    requires n < 225
    ensures EncodeLengthForUnlimited(n) == if n < 15 then [n * 16 + 15] else [n / 15, n % 15 * 16 + 15]
  {
    if n < 15 {
      assert Digits15(n) + [15] == [n, 15];
      PackTwo(n, 15);
    } else {
      assert Digits15(n / 15) == [n / 15];
      assert [0] + (Digits15(n) + [15]) == [0, n / 15] + [n % 15, 15];
      var ns: seq<nibble> := [0, n / 15, n % 15, 15];
      assert PaddedLength(n) == ns;
      assert ns[2..] == [n % 15, 15];
      PackTwo(n % 15, 15);
    }
  }

  lemma {:induction false} PackTwo(a: nibble, b: nibble)
    ensures Pack([a, b]) == [(a as int) * 16 + b]
  {
    var ns := [a, b];
    assert ns[2..] == [];
  }
}
