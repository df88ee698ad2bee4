/**
 Transactions, blocks and the chainstate entries (`src/common/models`,
 `src/storage/chainstate.ts`): their encoding settings, hashes and wire forms.
 */
module Models {
  import opened Common
  import opened Codec

  type Hash = bytes
  type Address = bytes

  datatype Transaction = Transaction(
    txid: Hash,
    senderAddress: Address,
    recipientAddress: Address,
    amount: uint64,
    nonce: uint64,
    timestamp: uint64,
    input: bytes,
    signature: bytes,
    version: bytes)

  datatype Block = Block(
    index: uint64,
    slotIndex: uint64,
    hash: Hash,
    previousHash: Hash,
    timestamp: uint64,
    minter: Address,
    signature: bytes,
    transactions: seq<Transaction>,
    version: bytes)

  /** SHA-256 and `AddressHex.fromSignature`; nothing is assumed about either. */
  datatype Crypto = Crypto(sha256: bytes -> Hash, fromSignature: (Hash, bytes) -> Address)

  /** The key of a chain: "main", or the hash of the block a fork starts with. */
  datatype ChainId = Main | Fork(hash: Hash)

  datatype ForkChainstate = ForkChainstate(stateHash: Hash, parentChain: Hash, base: Block, latestBlock: Block)

  function Id(chain: ForkChainstate): ChainId {
    if chain.base.index == 0 then Main else Fork(chain.base.hash)
  }

  // ---------------------------------------------------------------- encoding settings

  const HASH: Encoder := FixedUint(32)
  const VERSION: Encoder := FixedUint(1)
  const SIGNATURE: Encoder := FixedUint(66)

  const TransactionSchema: Schema := Schema([
    Field("version", false, VERSION),
    Field("txid", true, HASH),
    Field("recipientAddress", false, FixedUint(21)),
    Field("amount", false, BigInt),
    Field("nonce", false, BigInt),
    Field("timestamp", false, BigInt),
    Field("input", false, Custom(Unlimited)),
    Field("signature", true, SIGNATURE)], true)

  const BlockBodySchema: Schema := Schema([
    Field("transactions", false, Array(Some(2), TransactionSchema))], false)

  const BlockSchema: Schema := Schema([
    Field("version", false, VERSION),
    Field("index", false, BigInt),
    Field("slotIndex", false, BigInt),
    Field("hash", true, HASH),
    Field("previousHash", false, HASH),
    Field("timestamp", false, BigInt),
    Field("signature", true, SIGNATURE),
    Field("body", false, Object(BlockBodySchema))], true)

  const ForkChainstateSchema: Schema := Schema([
    Field("stateHash", true, HASH),
    Field("parentChain", false, HASH),
    Field("base", false, Object(BlockSchema)),
    Field("latestBlock", false, Object(BlockSchema))], false)

  const ChainstateSchema: Schema := Schema([
    Field("version", false, VERSION),
    Field("chains", false, Array(Some(2), ForkChainstateSchema))], true)

  // ---------------------------------------------------------------- objects to values

  function TransactionValue(tx: Transaction): Value {
    Record([Raw(tx.version), Raw(tx.txid), Raw(tx.recipientAddress), Number(tx.amount), Number(tx.nonce),
            Number(tx.timestamp), Raw(tx.input), Raw(tx.signature)])
  }

  function TransactionValues(txs: seq<Transaction>): (vs: seq<Value>)
    ensures |vs| == |txs|
    ensures forall i :: 0 <= i < |txs| ==> vs[i] == TransactionValue(txs[i])
  {
    seq(|txs|, i requires 0 <= i < |txs| => TransactionValue(txs[i]))
  }

  function BlockValues(b: Block): seq<Value> {
    [Raw(b.version), Number(b.index), Number(b.slotIndex), Raw(b.hash), Raw(b.previousHash), Number(b.timestamp),
     Raw(b.signature), Record([List(TransactionValues(b.transactions))])]
  }

  function ForkChainstateValue(chain: ForkChainstate): Value {
    Record([Raw(chain.stateHash), Raw(chain.parentChain), Record(BlockValues(chain.base)),
      Record(BlockValues(chain.latestBlock))])
  }

  function ForkChainstateValues(chains: seq<ForkChainstate>): (vs: seq<Value>)
    ensures |vs| == |chains|
    ensures forall i :: 0 <= i < |chains| ==> vs[i] == ForkChainstateValue(chains[i])
  {
    seq(|chains|, i requires 0 <= i < |chains| => ForkChainstateValue(chains[i]))
  }

  // ---------------------------------------------------------------- hashes

  function OrEmpty(data: Option<bytes>): bytes {
    if data.Some? then data.value else []
  }

  function TransactionPreImage(tx: Transaction): bytes {
    OrEmpty(EncodeFields(TransactionSchema.fields, TransactionValue(tx).values, true))
  }

  function BlockPreImage(b: Block): bytes {
    OrEmpty(EncodeFields(BlockSchema.fields, BlockValues(b), true))
  }

  function TransactionHash(crypto: Crypto, tx: Transaction): Hash {
    crypto.sha256(TransactionPreImage(tx))
  }

  function BlockHash(crypto: Crypto, b: Block): Hash {
    crypto.sha256(BlockPreImage(b))
  }

  function StatePreImage(parentChain: Hash, base: Block, latestBlock: Block): bytes {
    OrEmpty(EncodeFields(
      ForkChainstateSchema.fields,
      ForkChainstateValue(ForkChainstate([], parentChain, base, latestBlock)).values, true))
  }

  /** `ForkChainstateData.calculateHash`; the state hash itself is not hashed. */
  function StateHash(crypto: Crypto, parentChain: Hash, base: Block, latestBlock: Block): Hash {
    crypto.sha256(StatePreImage(parentChain, base, latestBlock))
  }

  // ---------------------------------------------------------------- values to objects

  function RawOf(v: Value): bytes { if v.Raw? then v.data else [] }
  function NumberOf(v: Value): uint64 { if v.Number? && v.n < TWO_TO_THE_64 then v.n else 0 }
  function ItemsOf(v: Value): seq<Value> { if v.List? then v.items else [] }
  function ValuesOf(v: Value): seq<Value> { if v.Record? then v.values else [] }

  /** `Transaction.fromDict`: the sender is whoever signed the txid. */
  function TransactionOf(crypto: Crypto, v: Value): Transaction {
    var f := ValuesOf(v);
    if |f| != 8 then Transaction([], [], [], 0, 0, 0, [], [], []) else
      Transaction(RawOf(f[1]), crypto.fromSignature(RawOf(f[1]), RawOf(f[7])), RawOf(f[2]), NumberOf(f[3]),
                  NumberOf(f[4]), NumberOf(f[5]), RawOf(f[6]), RawOf(f[7]), RawOf(f[0]))
  }

  function TransactionsOf(crypto: Crypto, vs: seq<Value>): (txs: seq<Transaction>)
    ensures |txs| == |vs|
    ensures forall i :: 0 <= i < |vs| ==> txs[i] == TransactionOf(crypto, vs[i])
  {
    seq(|vs|, i requires 0 <= i < |vs| => TransactionOf(crypto, vs[i]))
  }

  /** `Block.fromDict`: the minter is whoever signed the calculated hash. */
  function BlockOf(crypto: Crypto, v: Value): Block {
    var f := ValuesOf(v);
    if |f| != 8 || |ValuesOf(f[7])| != 1 then Block(0, 0, [], [], 0, [], [], [], []) else
      var b := Block(NumberOf(f[1]), NumberOf(f[2]), RawOf(f[3]), RawOf(f[4]), NumberOf(f[5]), [], RawOf(f[6]),
                     TransactionsOf(crypto, ItemsOf(ValuesOf(f[7])[0])), RawOf(f[0]));
      b.(minter := crypto.fromSignature(BlockHash(crypto, b), b.signature))
  }

  function ForkChainstateOf(crypto: Crypto, v: Value): ForkChainstate {
    var f := ValuesOf(v);
    if |f| != 4 then ForkChainstate([], [], BlockOf(crypto, v), BlockOf(crypto, v)) else
      ForkChainstate(RawOf(f[0]), RawOf(f[1]), BlockOf(crypto, f[2]), BlockOf(crypto, f[3]))
  }

  function ForkChainstatesOf(crypto: Crypto, vs: seq<Value>): (chains: seq<ForkChainstate>)
    ensures |chains| == |vs|
    ensures forall i :: 0 <= i < |vs| ==> chains[i] == ForkChainstateOf(crypto, vs[i])
  {
    seq(|vs|, i requires 0 <= i < |vs| => ForkChainstateOf(crypto, vs[i]))
  }

  // ---------------------------------------------------------------- files and messages

  function BlockToHex(b: Block): bytes {
    EncodeToHex(BlockSchema, Record(BlockValues(b)))
  }

  function BlockFromHex(crypto: Crypto, data: bytes): Option<Block> {
    match DecodeExactly(BlockSchema.fields, data)
    case None => None
    case Some(v) => if v.Record? && VersionOk(BlockSchema, v.values) then Some(BlockOf(crypto, v)) else None
  }

  /** `ChainstateData.encodeToHex` over the values of the chain dictionary. */
  function ChainstateToHex(chains: seq<ForkChainstate>): bytes {
    OrEmpty(EncodeFields(ChainstateSchema.fields, [Raw([0]), List(ForkChainstateValues(chains))], false))
  }

  /** `ChainstateData.fromDecodedHex`; whatever does not decode counts as an empty chainstate. */
  function ChainstateFromHex(crypto: Crypto, data: bytes): seq<ForkChainstate> {
    match DecodeExactly(ChainstateSchema.fields, data)
    case None => []
    case Some(v) =>
      if v.Record? && |v.values| == 2 && VersionOk(ChainstateSchema, v.values) then
        ForkChainstatesOf(crypto, ItemsOf(v.values[1]))
      else []
  }

  // ---------------------------------------------------------------- round trips

  /** Every number and byte string of the block has the width its encoder expects, and versions are 0. */
  ghost predicate SizedBlock(b: Block) {
    WellSizedObject(BlockSchema, Record(BlockValues(b)))
  }

  ghost predicate SizedChain(chain: ForkChainstate) {
    |chain.stateHash| == 32 && |chain.parentChain| == 32 && SizedBlock(chain.base) && SizedBlock(chain.latestBlock)
  }

  /** The minter and the senders of the block are the signers that its signatures recover to. */
  ghost predicate Recoverable(crypto: Crypto, b: Block) {
    b.minter == crypto.fromSignature(BlockHash(crypto, b), b.signature) &&
    forall i :: 0 <= i < |b.transactions| ==>
      b.transactions[i].senderAddress == crypto.fromSignature(b.transactions[i].txid, b.transactions[i].signature)
  }

  /** The hash covers neither the minter nor the senders, so a decoder can recompute it before it knows them. */
  lemma {:induction false} HashIgnoresSigners(crypto: Crypto, b: Block, c: Block)
    requires b.(minter := [], transactions := []) == c.(minter := [], transactions := [])
    requires |b.transactions| == |c.transactions|
    requires forall i :: 0 <= i < |b.transactions| ==>
      b.transactions[i].(senderAddress := []) == c.transactions[i].(senderAddress := [])
    ensures BlockHash(crypto, b) == BlockHash(crypto, c)
  {
    hide EncodeFields;
    assert TransactionValues(b.transactions) == TransactionValues(c.transactions) by {
      forall i | 0 <= i < |b.transactions|
        ensures TransactionValue(b.transactions[i]) == TransactionValue(c.transactions[i])
      {
        assert b.transactions[i].(senderAddress := []) == c.transactions[i].(senderAddress := []);
      }
    }
  }

  /** Reading the values of a block back gives the block exactly when its signers are the recovered ones. */
  lemma {:induction false} BlockOfValues(crypto: Crypto, b: Block)
    ensures BlockOf(crypto, Record(BlockValues(b))) == b <==> Recoverable(crypto, b)
    ensures BlockOf(crypto, Record(BlockValues(b))).(minter := [], transactions := []) ==
            b.(minter := [], transactions := [])
  {
    hide BlockHash;
    var c := BlockOf(crypto, Record(BlockValues(b)));
    var items := TransactionValues(b.transactions);
    assert c.transactions == TransactionsOf(crypto, items);
    forall i | 0 <= i < |b.transactions|
      ensures c.transactions[i] == b.transactions[i].(senderAddress :=
                crypto.fromSignature(b.transactions[i].txid, b.transactions[i].signature))
    {
      assert c.transactions[i] == TransactionOf(crypto, items[i]);
    }
    HashIgnoresSigners(crypto, b, c.(minter := []));
    assert c.transactions == b.transactions <==>
           forall i :: 0 <= i < |b.transactions| ==>
             b.transactions[i].senderAddress ==
               crypto.fromSignature(b.transactions[i].txid, b.transactions[i].signature) by {
      if c.transactions == b.transactions {
        forall i | 0 <= i < |b.transactions|
          ensures b.transactions[i].senderAddress ==
                  crypto.fromSignature(b.transactions[i].txid, b.transactions[i].signature)
        {
          assert c.transactions[i] == b.transactions[i];
        }
      }
    }
  }

  /** A block of another version is not decoded. */
  lemma {:induction false} OtherVersionRefused(crypto: Crypto, b: Block)
    requires WellSizedFields(BlockSchema.fields, BlockValues(b))
    ensures BlockFromHex(crypto, BlockToHex(b)) == None <==> b.version != [0]
  {
    hide BlockOf, EncodeFields, DecodeFields, WellSizedFields;
    FieldsRoundTrip(BlockSchema.fields, BlockValues(b), []);
    assert BlockToHex(b) + [] == BlockToHex(b);
    VersionIsByte(b);
  }

  lemma {:induction false} VersionIsByte(b: Block)
    requires WellSizedFields(BlockSchema.fields, BlockValues(b))
    ensures ToInt(b.version) == 0 <==> b.version == [0]
  {
    assert |b.version| == 1;
    assert b.version[..0] == [];
  }

  /** A stored or sent block comes back unchanged exactly when its minter and senders are the recovered signers. */
  lemma {:induction false} BlockRoundTrip(crypto: Crypto, b: Block)
    requires SizedBlock(b)
    ensures BlockFromHex(crypto, BlockToHex(b)) == Some(b) <==> Recoverable(crypto, b)
  {
    hide BlockOf, Recoverable, EncodeFields, DecodeFields, WellSizedFields;
    FieldsRoundTrip(BlockSchema.fields, BlockValues(b), []);
    assert BlockToHex(b) + [] == BlockToHex(b);
    BlockOfValues(crypto, b);
  }

  /**
   Saving and loading the chainstate file gives the same chains exactly when every base and latest block
   is recoverable; the item count has two bytes.
   */
  lemma {:induction false} ChainstateRoundTrip(crypto: Crypto, chains: seq<ForkChainstate>)
    requires |chains| < 65536
    requires forall i :: 0 <= i < |chains| ==> SizedChain(chains[i])
    ensures ChainstateFromHex(crypto, ChainstateToHex(chains)) == chains <==>
            forall i :: 0 <= i < |chains| ==>
              Recoverable(crypto, chains[i].base) && Recoverable(crypto, chains[i].latestBlock)
  {
    hide WellSizedFields, ForkChainstateOf, ForkChainstateValue, Recoverable, SizedBlock, ChainstateFromHex,
         ChainstateToHex;
    var values := [Raw([0]), List(ForkChainstateValues(chains))];
    ChainstateWellSized(chains);
    DecodesToValues(crypto, chains, values);
    forall i | 0 <= i < |chains|
      ensures ForkChainstateOf(crypto, ForkChainstateValue(chains[i])) == chains[i] <==>
              Recoverable(crypto, chains[i].base) && Recoverable(crypto, chains[i].latestBlock)
    {
      ForkChainstateOfValue(crypto, chains[i]);
    }
    var loaded := ForkChainstatesOf(crypto, ForkChainstateValues(chains));
    assert loaded == chains <==> forall i :: 0 <= i < |chains| ==> loaded[i] == chains[i];
  }

  lemma {:induction false} ForkChainstateOfValue(crypto: Crypto, chain: ForkChainstate)
    ensures ForkChainstateOf(crypto, ForkChainstateValue(chain)) == chain <==>
            Recoverable(crypto, chain.base) && Recoverable(crypto, chain.latestBlock)
  {
    hide BlockOf, Recoverable;
    BlockOfValues(crypto, chain.base);
    BlockOfValues(crypto, chain.latestBlock);
  }

  lemma {:induction false} DecodesToValues(crypto: Crypto, chains: seq<ForkChainstate>, values: seq<Value>)
    requires values == [Raw([0]), List(ForkChainstateValues(chains))]
    requires WellSizedFields(ChainstateSchema.fields, values)
    ensures ChainstateFromHex(crypto, ChainstateToHex(chains)) ==
            ForkChainstatesOf(crypto, ForkChainstateValues(chains))
  {
    hide EncodeFields, DecodeFields, WellSizedFields;
    ExactDecoding(ChainstateSchema.fields, values, []);
    assert ChainstateToHex(chains) + [] == ChainstateToHex(chains);
    assert [0][..0] == [];
    assert ToInt([0]) == 0;
  }

  /** A chainstate file of another version counts as an empty one. */
  lemma {:induction false} OtherFileVersion(crypto: Crypto, version: byte, chains: seq<ForkChainstate>)
    requires |chains| < 65536 && forall i :: 0 <= i < |chains| ==> SizedChain(chains[i])
    ensures |ChainstateToHex(chains)| > 0 && ChainstateToHex(chains)[0] == 0
    ensures ChainstateFromHex(crypto, [version] + ChainstateToHex(chains)[1..]) ==
            if version == 0 then ForkChainstatesOf(crypto, ForkChainstateValues(chains)) else []
  {
    var f, list := ChainstateSchema.fields, List(ForkChainstateValues(chains));
    var zero, values := [Raw([0]), list], [Raw([version]), list];
    ChainstateWellSized(chains);
    assert [Raw([version])] + zero[1..] == values;
    assert ToInt([version]) == version by { assert [version][..0] == []; }
    hide WellSizedFields, EncodeFields, DecodeFields, ForkChainstatesOf, ForkChainstateValues;
    var rest := VersionInFront(f, zero, version);
    ExactDecoding(f, values, []);
    assert ([0] + rest)[1..] == rest && [version] + rest + [] == [version] + rest;
  }

  lemma {:induction false} ChainstateWellSized(chains: seq<ForkChainstate>)
    requires |chains| < 65536
    requires forall i :: 0 <= i < |chains| ==> SizedChain(chains[i])
    ensures WellSizedFields(ChainstateSchema.fields, [Raw([0]), List(ForkChainstateValues(chains))])
  {
    var values := [Raw([0]), List(ForkChainstateValues(chains))];
    forall i | 0 <= i < |chains|
      ensures WellSizedObject(ForkChainstateSchema, ForkChainstateValue(chains[i]))
    {
      ForkChainstateWellSized(chains[i]);
    }
    assert Pow(256, 2) == 65536;
    assert WellSized(ChainstateSchema.fields[1].encoder, values[1]);
    assert values[1..] == [values[1]] && ChainstateSchema.fields[1..] == [ChainstateSchema.fields[1]];
  }

  lemma {:induction false} ForkChainstateWellSized(chain: ForkChainstate)
    requires SizedChain(chain)
    ensures WellSizedObject(ForkChainstateSchema, ForkChainstateValue(chain))
  {
    hide WellSizedFields;
    ForkChainstateFieldsWellSized(chain);
  }

  lemma {:induction false} ForkChainstateFieldsWellSized(chain: ForkChainstate)
    requires SizedChain(chain)
    ensures WellSizedFields(ForkChainstateSchema.fields, ForkChainstateValue(chain).values)
  {
    hide WellSizedObject;
    var f, v := ForkChainstateSchema.fields, ForkChainstateValue(chain).values;
    assert WellSizedFields(f[4..], v[4..]);
    assert f[3..][1..] == f[4..] && v[3..][1..] == v[4..];
    assert WellSizedFields(f[3..], v[3..]);
    assert f[2..][1..] == f[3..] && v[2..][1..] == v[3..];
    assert WellSizedFields(f[2..], v[2..]);
    assert f[1..][1..] == f[2..] && v[1..][1..] == v[2..];
    assert WellSizedFields(f[1..], v[1..]);
    assert WellSizedFields(f, v);
  }

  // ---------------------------------------------------------------- what a hash commits to

  /**
   Equal transaction pre-images: equal in everything but the txid, the signature
   (both left out of the hash) and the sender (which the signature stands for).
   */
  lemma {:induction false} TransactionPreImageInjective(a: Transaction, b: Transaction)
    requires WellSizedObject(TransactionSchema, TransactionValue(a)) &&
             WellSizedObject(TransactionSchema, TransactionValue(b))
    ensures TransactionPreImage(a) == TransactionPreImage(b) <==>
            a.(txid := [], signature := [], senderAddress := []) == b.(txid := [], signature := [], senderAddress := [])
  {
    hide EncodeFields, WellSizedFields;
    var f, x, y := TransactionSchema.fields, TransactionValue(a).values, TransactionValue(b).values;
    PreImageEqual(f, x, y);
    PreImageExists(f, x);
    PreImageExists(f, y);
    if AgreeOnHashed(f, x, y) {
      assert x[0] == y[0] && x[2] == y[2] && x[3] == y[3] && x[4] == y[4] && x[5] == y[5] && x[6] == y[6];
    }
  }

  /** A transaction's hash does not depend on its txid, so one can be filled in. */
  lemma {:induction false} HashIgnoresTxid(crypto: Crypto, tx: Transaction, txid: Hash)
    ensures TransactionHash(crypto, tx.(txid := txid)) == TransactionHash(crypto, tx)
  {
    hide EncodeFields;
    HashedFieldsDecide(TransactionSchema.fields, TransactionValue(tx).values,
      TransactionValue(tx.(txid := txid)).values);
  }

  /**
   Equal block pre-images: equal in everything but the hash, the signature and the recovered signers; the
   transactions agree in full, with their txids and signatures.
   */
  lemma {:induction false} BlockPreImageInjective(a: Block, b: Block)
    requires SizedBlock(a) && SizedBlock(b)
    ensures BlockPreImage(a) == BlockPreImage(b) <==>
            a.(hash := [], signature := [], minter := [], transactions := []) ==
            b.(hash := [], signature := [], minter := [], transactions := []) &&
            TransactionValues(a.transactions) == TransactionValues(b.transactions)
  {
    hide EncodeFields, WellSizedFields;
    var f, x, y := BlockSchema.fields, BlockValues(a), BlockValues(b);
    PreImageEqual(f, x, y);
    PreImageExists(f, x);
    PreImageExists(f, y);
    if AgreeOnHashed(f, x, y) {
      assert x[0] == y[0] && x[1] == y[1] && x[2] == y[2] && x[4] == y[4] && x[5] == y[5] && x[7] == y[7];
    }
  }

  /** So the wire form of each transaction is fixed by the block's pre-image, sender apart. */
  lemma {:induction false} TransactionValuesInjective(xs: seq<Transaction>, ys: seq<Transaction>)
    ensures TransactionValues(xs) == TransactionValues(ys) <==>
            |xs| == |ys| && forall i :: 0 <= i < |xs| ==> xs[i].(senderAddress := []) == ys[i].(senderAddress := [])
  {
    forall x: Transaction, y: Transaction
      ensures TransactionValue(x) == TransactionValue(y) <==> x.(senderAddress := []) == y.(senderAddress := [])
    {
      if TransactionValue(x) == TransactionValue(y) {
        var v, w := TransactionValue(x).values, TransactionValue(y).values;
        assert v[0] == w[0] && v[1] == w[1] && v[2] == w[2] && v[3] == w[3] && v[4] == w[4] && v[5] == w[5] &&
               v[6] == w[6] && v[7] == w[7];
      }
    }
    var vs, ws := TransactionValues(xs), TransactionValues(ys);
    if |xs| == |ys| && forall i :: 0 <= i < |xs| ==> xs[i].(senderAddress := []) == ys[i].(senderAddress := []) {
      forall i | 0 <= i < |xs| ensures vs[i] == ws[i] {
        assert xs[i].(senderAddress := []) == ys[i].(senderAddress := []);
      }
    }
    if vs == ws {
      forall i | 0 <= i < |xs| ensures xs[i].(senderAddress := []) == ys[i].(senderAddress := []) {
        assert vs[i] == ws[i];
      }
    }
  }

  // ---------------------------------------------------------------- what equal hashes mean

  /** Two different byte strings with one hash. */
  predicate Collide(crypto: Crypto, x: bytes, y: bytes) {
    x != y && crypto.sha256(x) == crypto.sha256(y)
  }

  /** The same transaction, but for the sender that its signature stands for. */
  predicate SameSigned(a: Transaction, b: Transaction) {
    a.txid == b.txid && a.recipientAddress == b.recipientAddress && a.amount == b.amount && a.nonce == b.nonce &&
    a.timestamp == b.timestamp && a.input == b.input && a.signature == b.signature && a.version == b.version
  }

  predicate SameTransactions(xs: seq<Transaction>, ys: seq<Transaction>) {
    |xs| == |ys| && forall i :: 0 <= i < |xs| ==> SameSigned(xs[i], ys[i])
  }

  /** The same contents: everything but the hash, the signature, and the signers. */
  predicate SameContents(a: Block, b: Block) {
    a.version == b.version && a.index == b.index && a.slotIndex == b.slotIndex && a.previousHash == b.previousHash &&
    a.timestamp == b.timestamp && SameTransactions(a.transactions, b.transactions)
  }

  lemma {:induction false} SameValuesSameTransactions(xs: seq<Transaction>, ys: seq<Transaction>)
    ensures TransactionValues(xs) == TransactionValues(ys) <==> SameTransactions(xs, ys)
  {
    TransactionValuesInjective(xs, ys);
  }

  /** Two blocks have one hash if and only if they have the same contents, or their encodings collide. */
  lemma {:induction false} BlockHashCommits(crypto: Crypto, a: Block, b: Block)
    requires SizedBlock(a) && SizedBlock(b)
    ensures BlockHash(crypto, a) == BlockHash(crypto, b) <==>
            SameContents(a, b) || Collide(crypto, BlockPreImage(a), BlockPreImage(b))
  {
    BlockPreImageInjective(a, b);
    SameValuesSameTransactions(a.transactions, b.transactions);
    hide BlockPreImage, TransactionValues, SameTransactions;
  }

  /** The hash can be filled in, and signed, when it is known. */
  lemma {:induction false} HashIgnoresHash(crypto: Crypto, b: Block, hash: Hash, signature: bytes, minter: Address)
    ensures BlockHash(crypto, b.(hash := hash, signature := signature, minter := minter)) == BlockHash(crypto, b)
  {
    hide EncodeFields;
    HashedFieldsDecide(BlockSchema.fields, BlockValues(b),
      BlockValues(b.(hash := hash, signature := signature, minter := minter)));
  }

  /** The same for transactions, whose hash leaves out the signature too. */
  lemma {:induction false} TransactionHashCommits(crypto: Crypto, a: Transaction, b: Transaction)
    requires WellSizedObject(TransactionSchema, TransactionValue(a)) &&
             WellSizedObject(TransactionSchema, TransactionValue(b))
    ensures TransactionHash(crypto, a) == TransactionHash(crypto, b) <==>
            SameSigned(a, b.(txid := a.txid, signature := a.signature)) ||
            Collide(crypto, TransactionPreImage(a), TransactionPreImage(b))
  {
    TransactionPreImageInjective(a, b);
    hide TransactionPreImage;
  }

  // ---------------------------------------------------------------- what a state hash commits to

  /** The wire form of a block: its contents with hash and signature. */
  predicate SameWire(a: Block, b: Block) {
    SameContents(a, b) && a.hash == b.hash && a.signature == b.signature
  }

  lemma {:induction false} SameValuesSameWire(a: Block, b: Block)
    ensures BlockValues(a) == BlockValues(b) <==> SameWire(a, b)
  {
    SameValuesSameTransactions(a.transactions, b.transactions);
    hide TransactionValues, SameTransactions;
    var x, y := BlockValues(a), BlockValues(b);
    if x == y {
      assert x[0] == y[0] && x[1] == y[1] && x[2] == y[2] && x[3] == y[3] && x[4] == y[4] && x[5] == y[5] &&
             x[6] == y[6] && x[7] == y[7];
    }
  }

  lemma {:induction false} StatePreImageInjective(p: Hash, base: Block, latest: Block, q: Hash, base': Block,
                                                  latest': Block)
    requires |p| == |q| == 32 && SizedBlock(base) && SizedBlock(latest) && SizedBlock(base') && SizedBlock(latest')
    ensures StatePreImage(p, base, latest) == StatePreImage(q, base', latest') <==>
            p == q && BlockValues(base) == BlockValues(base') && BlockValues(latest) == BlockValues(latest')
  {
    hide SizedBlock, EncodeFields, WellSizedFields;
    var chain := ForkChainstate(Repeat(0, 32), p, base, latest);
    var chain' := ForkChainstate(Repeat(0, 32), q, base', latest');
    ForkChainstateFieldsWellSized(chain);
    ForkChainstateFieldsWellSized(chain');
    var f, x, y := ForkChainstateSchema.fields, ForkChainstateValue(chain).values, ForkChainstateValue(chain').values;
    PreImageEqual(f, x, y);
    PreImageExists(f, x);
    PreImageExists(f, y);
    HashedFieldsDecide(f, x, ForkChainstateValue(chain.(stateHash := [])).values);
    HashedFieldsDecide(f, y, ForkChainstateValue(chain'.(stateHash := [])).values);
    if AgreeOnHashed(f, x, y) {
      assert x[1] == y[1] && x[2] == y[2] && x[3] == y[3];
    }
  }

  /**
   Two state hashes are equal if and only if parent, base and latest block are the same on the
   wire, or a collision.
   */
  lemma {:induction false} StateHashCommits(crypto: Crypto, p: Hash, base: Block, latest: Block, q: Hash,
                                            base': Block, latest': Block)
    requires |p| == |q| == 32 && SizedBlock(base) && SizedBlock(latest) && SizedBlock(base') && SizedBlock(latest')
    ensures StateHash(crypto, p, base, latest) == StateHash(crypto, q, base', latest') <==>
            (p == q && SameWire(base, base') && SameWire(latest, latest')) ||
            Collide(crypto, StatePreImage(p, base, latest), StatePreImage(q, base', latest'))
  {
    StatePreImageInjective(p, base, latest, q, base', latest');
    SameValuesSameWire(base, base');
    SameValuesSameWire(latest, latest');
    hide StatePreImage, BlockValues, SameWire, SizedBlock;
  }
}
