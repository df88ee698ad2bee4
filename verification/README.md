# LeiCoin-Node: a verified model of its hard logic

This project models the protocol core of LeiCoin-Node, a proof-of-stake blockchain
node, and proves what every run of it keeps. `dafny verify dfyconfig.toml` checks
all of it.

SHA-256 and signature recovery are parameters about which nothing is assumed; files
and LevelDB are maps; timers, sockets and the scheduler of promises are events in
any order. Asynchronous code is cut at its awaits: between two events nothing else
runs. Code that updates fields in place is a class whose methods are proved equal to
a specification function, and the theorems are about that function.

## What is modelled

- **Block tree** (`BlockTree`, `ChainRuns`, `Sealed`, `ReforkSafety`, `Reforking`,
  `AsWritten`, `Blockchain`). A state is the chainstate dictionary in insertion order with the block files
  and wallet databases of all chains. `Next` is one submitted block: rejected, appended to a
  chain, or the start of a fork. The tree has contiguous, hash-linked chains whose key is the id
  derived from their base and whose latest block is the top one. Over runs of any submissions,
  every step keeps the tree and every stored block if and only if each submission is safe, a
  condition on the stored blocks (`ReforkSafety.RunsAreSafeIff`); only blocks that start an
  existing fork anew can be unsafe. Two reachable runs end in an unsafe submission. Whatever is
  submitted, every stored block and transaction carries the SHA-256 of its own encoding.
- **Wallets** (`Wallets`, `Conservation`, `MoneyKept`, `Snapshots`, `Rollbacks`, `PendingPuts`).
  The 2n tasks of a block are programs of read, offer and write steps that interleave freely, and
  the puts into forks land at any later moment. All interleavings agree with sequential execution
  if and only if no two tasks conflict; all outcomes of a verified block keep the sum of all
  balances if and only if tasks that share an address move nothing. In every state that any
  submissions reach, harmful re-forks among them, each fork off main shows main's wallets from
  just before its base index, if the addresses of main's blocks and of each rolled-back range are
  distinct and existing forks are started anew only at their own base index; puts may still be on
  their way as long as none that the tasks meet is stale. For any addresses, what a rollback
  restores is stated exactly.
- **Persistence** (`Persistence`). Saving and loading the chainstate rebuilds the same
  dictionary, in order, in every state that any submissions reach.
- **Codec** (`Codec`, `Models`, `Layout`). All six encoders, nested through schemas. Encodings are
  self-delimiting, decoding inverts encoding, and hash pre-images agree exactly when the hashed
  fields do; so two blocks, transactions or chain records have one hash exactly when they have the
  same contents, or their encodings collide. The bytes of each are also written out field by field.
- **Sync** (`ChainSync`). The paged download and the queue of blocks broadcast meanwhile leave
  a main chain that was a prefix of the peer's equal to it.
- **Minter index** (`MinterIndex`). 256 counters over byte ranges agree with the k-th key
  in byte order.
- **Connections** (`LinkedList`, `Framing`, `Opening`, `Sender`, `Transport`, `Requests`). The
  heap list and its queue; packet reassembly, also while a socket is opening; sending with
  partial writes; the two composed end to end; requests with timeouts.
- **Slots** (`Slot`, `SlotTable`). The life of a slot, and the table in which each slot
  waits for the one before.
- **Addresses** (`Address32`). The base-32 text form, with its sentinel digit.

## Where the code does not do what it is for

Each of these has failing inputs and the exact condition under which all is well.

- A fork's base block, submitted again, is accepted as a new fork. This keeps the tree and all
  blocks if and only if the fork holds nothing it would lose (`ReforkSafety.ReforkSafeIff`; off
  main: nothing above its base, `ReforkSafety.BaseAgainSafeIff`). Otherwise it leaves a block
  above the latest one (`Reforking.ReforkBreaksTree`) or deletes blocks
  (`ReforkSafety.ReforkDropsBlocks`, `Reforking.ReforkLosesBlock`).
- Transfers in one block that share an address can lose each other's effect
  (`Wallets.InterleavingsAgreeIff`, `Wallets.LostUpdate`).
- Verification compares each payment with the wallets from before the block, so a block that pays
  a sender's whole balance twice is verified, and already sequential execution makes the
  uncovered payment out of nothing (`Conservation.OverspendVerifies`,
  `Conservation.OverspentTotal`). Executed sequentially, a block keeps the sum of all balances if
  and only if every sender can be charged in turn (`Conservation.SequentialTotalIff`); a verified
  block keeps it in every order of its tasks if and only if tasks that share an address move
  nothing (`MoneyKept.TotalKeptIff`).
- A rollback starts from the parent's stored wallets for each transaction, so only the last undo
  of an address counts. Which addresses, and which ranges, it restores is
  `Rollbacks.RestoredIff` and `Rollbacks.RangeRestoredIff`; when all payments were made in full,
  an address that never sent is restored if its last undone credit is all it received, one that
  sent once if it received nothing, and one that sent twice never
  (`Rollbacks.PaidRestoredIff`).
- A fork off a fork: as `copyChain` is written, it throws and changes nothing
  (`AsWritten.AsWrittenSafeIff`). With the copy that its name promises, transactions are undone
  that the parent never applied, and `Rollbacks.ForkOffForkShowsIff` says in which states the
  new fork nevertheless shows its parent's wallets.
- The next block may come before all copies of wallets into forks have landed. Forks go on
  showing what they showed if and only if no two puts are for one wallet and none that the block's
  tasks meet is stale (`PendingPuts.ViewsKeptIff`).
- A chunk that ends inside a packet header makes `receiveData` call itself for ever
  (`Framing.StuckForEver`, `Framing.ChunkingIndependence`).
- While a socket is opening, a completed packet is handed over again with every chunk
  (`Framing.OpeningRepeats`) and a cut header adds an empty packet
  (`Opening.CutHeaderWhileOpening`). When each packet is handed over once and in order is
  `Opening.OpeningIff`, a condition on the cuts.
- A drain whose write accepts nothing resolves a packet that was not sent
  (`Sender.SendsInOrder`, `Sender.StalledDrainLosesPacket`).
- A request whose id is still live takes the answers of the one before
  (`Requests.DistinctIdsNeeded`).
- A forced finish does not stop a block that was already taken (`Slot.ForcedFinishIsNotLast`). A
  block can be executed behind its slot's finish if and only if it was unverified at a forced
  finish, or came between a finish and its resolution (`Slot.OutlivesFinishIff`).
- `toAddressHex` accepts characters outside its alphabet
  (`Address32.ForeignCharacterAccepted`); a string comes back from the two conversions if and
  only if it is well-formed (`Address32.TextsAreWellFormed`).

## Model

| member | source | states |
|---|---|---|
| `Codec.UnlimitedLengthRoundTrip` | src/encoding/objects.ts:34-45 | every natural number survives the base-15, F-terminated length prefix, whatever bytes follow, and the prefix's own length is reported exactly |
| `Codec.FieldRoundTrip` | src/encoding/binaryEncoders.ts:50-254 | for every encoder and well-sized value, nested arrays and objects included, decoding the encoding followed by any bytes gives the value and exactly the encoded length |
| `Codec.CustomRoundTrip` | src/encoding/binaryEncoders.ts:202-254 | custom fields of fixed, counted and unlimited length are read back from the front of any longer stream, with their exact length |
| `Codec.BigIntRoundTrip` | src/encoding/binaryEncoders.ts:115-135 | every 64-bit number, written in its shortest big-endian form behind its length, is read back from the front of any longer stream |
| `Codec.ItemsRoundTrip` | src/encoding/binaryEncoders.ts:81-86 | the item loop of an array stops exactly behind its last item |
| `Codec.ObjectRoundTrip` | src/encoding/binaryEncoders.ts:106-112 | a nested object is read back from the front of a longer stream, with its length |
| `Codec.FieldsRoundTrip` | src/encoding/objects.ts:47-105 | whole objects round-trip in front of any further bytes |
| `Codec.ExactDecoding` | src/encoding/objects.ts:91-100 | without `returnLength` the encoding decodes and the encoding with any byte behind it is refused |
| `Codec.VersionDecides` | src/common/models/wallet.ts:31-38 | for every versioned class, what it encodes is decoded if and only if all bytes of the version are zero; a class without versions refuses nothing it encodes |
| `Codec.FixedSizes` | src/encoding/binaryEncoders.ts:218-251 | a fixed-length field is encoded only with that length, and decoded if and only if so many bytes are there |
| `Codec.NumberSizes` | src/encoding/binaryEncoders.ts:115-135 | a number is decoded if and only if its length byte is there, is at most 8, and so many bytes follow |
| `Codec.NoLength` | src/encoding/objects.ts:39-45 | a length without digits fails a custom field and leaves an array empty |
| `Codec.SelfDelimiting` | src/encoding/binaryEncoders.ts:96-254 | two streams that are equal and start with encodings by one encoder start with the same value and have equal rests |
| `Codec.PreImageEqual` | src/encoding/objects.ts:47-64 | two `forHash` encodings are equal if and only if the objects agree on every field not marked `hashRemove` |
| `Codec.HashedFieldsDecide` | src/encoding/objects.ts:47-64 | whatever the sizes of the values, a `forHash` encoding depends on the fields not marked `hashRemove` only |
| `Codec.Encode` | src/encoding/objects.ts:47-69 | the accumulating loop computes the recursive specification, errors included |
| `Codec.Decode` | src/encoding/objects.ts:74-105 | the decoding loop with its running length computes the recursive specification, errors included |
| `Codec.EncodeArray` | src/encoding/binaryEncoders.ts:50-65 | the array loop computes the specified field encoding |
| `Codec.DecodeArray` | src/encoding/binaryEncoders.ts:67-92 | the array loop computes the specified field decoding; an item that does not decode fails the whole |
| `Models.HashIgnoresSigners` | src/common/models/block.ts:39-68 | a block's hash does not depend on its minter or on its transactions' senders, so a decoder can recover them from it; everything else it covers is `Models.BlockHashCommits` |
| `Models.HashIgnoresTxid` | src/common/models/transaction.ts:63-72 | a transaction's hash does not depend on its txid, so that it can be filled in |
| `Models.BlockOfValues` | src/common/models/block.ts:39-57 | rebuilding a block from its fields gives the block if and only if its minter and senders are the signers that its signatures recover to |
| `Models.BlockRoundTrip` | src/common/models/container.ts:19-42 | encoding a well-sized block and decoding it gives the block back if and only if its minter and senders are the signers that its signatures recover to |
| `Models.OtherVersionRefused` | src/common/models/block.ts:39-40 | a block of any version but 0 is encoded and not decoded again |
| `Models.TransactionPreImageInjective` | src/common/models/transaction.ts:63-72 | transactions have equal pre-images if and only if they agree on all but txid, signature and sender |
| `Models.BlockPreImageInjective` | src/common/models/block.ts:59-68 | blocks have equal pre-images if and only if they agree on all but hash, signature and minter, with every transaction in full wire form |
| `Models.TransactionValuesInjective` | src/common/models/block.ts:19-21 | the wire form of a block's transactions fixes each of them, txid and signature included, up to the recovered sender |
| `Models.BlockHashCommits` | src/common/models/container.ts:53-57 | two blocks have the same hash if and only if they have the same version, index, slot, previous hash, timestamp and transactions up to the senders, or their encodings collide under SHA-256 |
| `Models.HashIgnoresHash` | src/common/models/block.ts:59-68 | a block's hash does not depend on its hash, signature and minter, so these can be filled in |
| `Models.TransactionHashCommits` | src/common/models/transaction.ts:63-72 | two transactions have the same hash if and only if they agree on all but txid, signature and sender, or their encodings collide under SHA-256 |
| `Models.StateHashCommits` | src/storage/chainstate.ts:57-68 | two chain records have the same state hash if and only if parent, base and latest block are the same on the wire, or their encodings collide under SHA-256 |
| `Layout.BlockLayout` | src/common/models/block.ts:59-68 | a block is version, index, slot, hash, previous hash, timestamp, signature and the counted transactions, in this order; its hash is the SHA-256 of the same without hash and signature |
| `Layout.TransactionLayout` | src/common/models/transaction.ts:63-72 | a transaction is version, txid, recipient, amount, nonce, timestamp, input behind its length, and signature, in this order; its hash is the SHA-256 of the same without txid and signature |
| `Layout.BlockSizes` | src/common/models/block.ts:59-68 | a block can be encoded and decoded if and only if its version is 0, its hashes have 32 bytes, its signature 66, and it has fewer than 65536 well-sized transactions |
| `Layout.TransactionSizes` | src/common/models/transaction.ts:63-72 | a transaction can be encoded and decoded if and only if its version is 0, its txid has 32 bytes, its recipient 21 and its signature 66 |
| `Layout.StateHashLayout` | src/storage/chainstate.ts:57-68 | a state hash is the SHA-256 of the parent's hash, the base block and the latest block |
| `Layout.ChainstateLayout` | src/storage/chainstate.ts:90-128 | the chainstate file is version 0, the number of chains in two bytes, and each chain's state hash, parent, base and latest block |
| `Layout.WalletLayout` | src/common/models/wallet.ts:44-49 | a wallet's record is version 0, balance and nonce |
| `Layout.ShortLengths` | src/encoding/objects.ts:34-37 | lengths below 15 take one byte and those below 225 two: digits to base 15, closed by F, with a zero in front where needed |
| `Models.ChainstateRoundTrip` | src/storage/chainstate.ts:90-128 | fewer than 65536 chains survive saving and loading if and only if every base and latest block is recoverable |
| `Models.OtherFileVersion` | src/storage/chainstate.ts:101-128 | a chainstate file of any version but 0 counts as an empty one |
| `Wallets.WalletRoundTrip` | src/common/models/wallet.ts:27-49 | every wallet is read back as it was stored, and a longer record is refused |
| `Wallets.OtherRecordVersion` | src/common/models/wallet.ts:31-38 | a wallet's record of any version but 0 is refused |
| `Wallets.WalletObject.Add` | src/common/models/wallet.ts:51-53 | the balance grows in place, modulo 2^64, and the nonce stays |
| `Wallets.WalletObject.SubtractIfPossible` | src/common/models/wallet.ts:59-67 | an amount above the balance leaves the wallet alone |
| `Wallets.WalletObject.Adjust` | src/common/models/wallet.ts:73-75 | the nonce moves in place, modulo 2^64 and in either direction |
| `Wallets.MidBlockAlways` | src/storage/wallets.ts:30-59 | at every moment of every interleaving: what each unfinished task has read is still current, main holds exactly the effects of the finished ones, and a fork gains nothing but main's old wallets for touched addresses |
| `Wallets.SequentialSchedule` | src/storage/wallets.ts:61-72 | running the tasks one after the other is one of the schedules |
| `Wallets.InterleavingsAgree` | src/storage/wallets.ts:61-72 | every complete interleaving of a conflict-free block ends in the wallets of sequential execution, on main and on every fork |
| `Wallets.LostUpdate` | src/storage/wallets.ts:30-59 | for any two conflicting tasks, a schedule in which one effect is lost |
| `Wallets.InterleavingsAgreeIff` | src/storage/wallets.ts:61-80 | all interleavings agree if and only if no two tasks have the same address, except credits of nothing |
| `Wallets.MainRunCounts` | src/common/models/wallet.ts:51-75 | main's nonces count the debits, and without debits its balances add up the credits, modulo 2^64 |
| `Conservation.TransferTotal` | src/storage/wallets.ts:30-59 | one transfer changes the sum of all balances by exactly what its sender could not be charged |
| `Conservation.Accounting` | src/storage/wallets.ts:61-72 | executed sequentially, a whole block, addresses repeated or not, changes the sum of all balances by exactly what its senders could not be charged; for other orders see `MoneyKept.TotalKeptIff` |
| `Conservation.SequentialTotalIff` | src/storage/wallets.ts:61-72 | executed sequentially, a block keeps the sum of all balances if and only if every sender can be charged in turn |
| `Conservation.OverspentTotal` | src/storage/wallets.ts:48-59 | two payments that their sender covers one by one but not together grow the sum of all balances by the second amount |
| `Conservation.OverspendVerifies` | src/verification/index.ts:16-27 | for every sender with a balance, a block that pays all of it twice passes verification and grows the sum of all balances by it |
| `Conservation.PaymentsFit` | src/common/models/wallet.ts:51-53 | with a total below 2^64 no covered payment overflows its recipient |
| `Conservation.CoveredSkipsNothing` | src/storage/wallets.ts:61-72 | with distinct addresses, payments that are covered at the start are all charged |
| `Conservation.MainRunDistinct` | src/storage/wallets.ts:61-72 | with distinct addresses every task's effect is that on the wallet from before the block, and no other address changes |
| `Conservation.VerifiedBlockConserves` | src/verification/index.ts:16-27 | for a verified block with distinct addresses, whatever its tasks' order: the outcome is the sequential one, the total is unchanged, each transfer is carried out in full with one nonce step, and all other wallets stay |
| `MoneyKept.UnsharedTotal` | src/storage/wallets.ts:61-72 | if tasks that share an address move nothing, every complete interleaving ends with the sum of balances of sequential execution |
| `MoneyKept.FittingTotal` | src/storage/wallets.ts:61-72 | if addresses that tasks share are credited nothing and each payment fits, sequential execution changes the sum of all balances by exactly what was not charged, with no bound on the sum |
| `MoneyKept.PairMakesNoDifference` | src/storage/wallets.ts:30-59 | if every outcome has the same sum of balances, then for two tasks with one address the balance behind all others is the same whether the first is lost, the second, or neither |
| `MoneyKept.TotalKeptIff` | src/verification/index.ts:16-27 | a verified block keeps the sum of all balances in every interleaving of its tasks if and only if no two tasks share an address, except where all their amounts are zero |
| `BlockTree.FindParentCorrect` | src/storage/chainstate.ts:221-232 | the parent is the first chain in insertion order that holds the named previous block, and there is none only if no chain does |
| `BlockTree.MatchBlockMeaning` | src/storage/chainstate.ts:206-246 | what every verdict says about the chains; a new fork starts at or below its parent's top and all blocks to roll back are there |
| `Sealed.TransactionVerdict` | src/verification/index.ts:16-27 | the verdict on a transaction is the first of: another txid than its own hash, another nonce than main's wallet has, more than it holds |
| `Sealed.AcceptedIff` | src/verification/index.ts:29-49 | a block is accepted if and only if it has a place, carries its own hash, and every transaction carries its own and is payable from main's wallet before the block |
| `Sealed.RefusedChangesNothing` | src/verification/index.ts:38-45 | a well-placed block with another hash is refused with 12504, one with a bad transaction with 12520, and neither changes anything |
| `Sealed.StoredBlocksAreSealed` | src/pos/execution.ts:9-34 | in every state that submissions of any blocks reach, re-forks included, every stored block's hash and every txid in it is the SHA-256 of its own encoding without the unhashed fields |
| `BlockTree.AcceptedKeepsInv` | src/pos/execution.ts:9-34 | genesis, child and new fork each keep the block-tree invariant |
| `BlockTree.ForkShape` | src/storage/blockchain.ts:40-72 | what a new fork inherits, and that no other chain changes |
| `BlockTree.ChildShape` | src/storage/state/blocks.ts:16-33 | appending adds one block to one chain and moves its latest block |
| `ChainRuns.NextKeepsInv` | src/pos/execution.ts:9-34 | one submission, with any wallet schedule, keeps the invariant and every stored block |
| `ChainRuns.RunsAreSafe` | src/storage/chainstate.ts:187-246 | over whole runs in which no existing fork is started anew, the invariant always holds and no block of any chain is ever lost or replaced; for runs with re-forks see `ReforkSafety.RunsAreSafeIff` |
| `ChainRuns.FreshHashesDoNotRefork` | src/storage/chainstate.ts:239-243 | a block with a hash that is not stored yet never starts an existing fork anew |
| `ChainRuns.NextFiled` | src/storage/chainstate.ts:187-203 | one submission of any block, a harmful re-fork included, keeps the dictionary: every chain listed once, main first, under the id derived from its base |
| `ChainRuns.RunsAreFiled` | src/storage/chainstate.ts:187-203 | over whole runs of any submissions the dictionary lists every chain once, main first, under the id derived from its base |
| `ChainRuns.Ancestry` | src/storage/chainstate.ts:214-245 | every stored block has a path of previous hashes down to main's genesis, crossing from its fork to main at most once |
| `ChainRuns.ReforkKeepsTopIff` | src/storage/chainstate.ts:239-243 | starting an existing fork anew keeps its latest block on top if and only if the fork does not reach above its parent chain; whether blocks are lost is `ReforkSafety.ReforkSafeIff` |
| `ReforkSafety.ReforkSafeIff` | src/storage/chainstate.ts:239-243 | starting an existing fork anew keeps the invariant and every stored block if and only if the fork holds no block above the submitted one and none but it at its index, a fork that ends lower continues into what follows, and a parent fork agrees with it on all shared indices below that block |
| `ReforkSafety.BaseAgainSafeIff` | src/storage/chainstate.ts:239-243 | for a fork off main and its own base block: the tree and all blocks are kept if and only if the fork holds nothing above its base |
| `ReforkSafety.ReforkDropsBlocks` | src/storage/blockchain.ts:54-70 | for every fork that reaches above the submitted block but not above its parent chain: the fork's latest block is on top again and its former top block is gone |
| `ReforkSafety.RefiledExtendsIff` | src/storage/blockchain.ts:54-70 | the rollback and the added block lose or replace no block of the fork's file if and only if it holds none in the rolled-back range, nothing else at the submitted index, and nothing that a copied parent has differently |
| `ReforkSafety.NextSafeIff` | src/pos/execution.ts:9-34 | one submission of any block, with any wallet schedule, keeps the invariant and all blocks if and only if it is safe: rejected, no re-fork, or a harmless one |
| `ReforkSafety.RunsAreSafeIff` | src/storage/chainstate.ts:187-246 | over whole runs of any submissions: every step keeps the invariant and all blocks if and only if every submission is safe in the state that it meets |
| `ReforkSafety.SafeRunsKeepAll` | src/storage/chainstate.ts:187-246 | over safe runs, harmless re-forks among them, no chain loses or changes a block between any two moments |
| `Reforking.ReforkBreaksTree` | src/storage/chainstate.ts:239-243 | a run of four good blocks after which the fork's base block is accepted again and its chain keeps a block above the latest one |
| `Reforking.ReforkLosesBlock` | src/storage/blockchain.ts:54-70 | a run of five good blocks after which the fork's base block is accepted again, its chain ends at that block, and the fork's other block is gone |
| `AsWritten.AsWrittenSafeIff` | src/storage/utils.ts:49-51 | with the copy that throws, a submission keeps the invariant and all blocks if and only if it needs the copy or is safe |
| `AsWritten.NextKeepsOffMain` | src/storage/blockchain.ts:44-46 | with the copy that throws, any submission, a harmful re-fork included, keeps every fork a fork off main itself that holds no block below its base, if existing forks are started anew only at their base index |
| `AsWritten.EveryForkIsSnapshot` | src/storage/blockchain.ts:40-72 | for the code as written, in every state that any submissions reach, harmful re-forks among them, every open fork, without exception, branches off main and shows for every address main's wallet just before the block at its base index, if the addresses of each block and each rolled-back range are distinct and existing forks are started anew only at their base index |
| `Persistence.BuildChains` | src/storage/chainstate.ts:79-84 | the constructor's loop files every chain under its derived id |
| `Persistence.RebuildEntries` | src/storage/chainstate.ts:79-84 | keys that equal the derived ids survive rebuilding, in order |
| `Persistence.RunStores` | src/storage/chainstate.ts:187-203 | over any submissions, re-forks included, each record has its own state hash, and its base, latest block and parent come from submitted blocks; what that hash covers is `Models.StateHashCommits` |
| `Persistence.RecordsStay` | src/storage/chainstate.ts:187-203 | over any submissions a chain stays in the dictionary with its base and its parent |
| `Persistence.StateHashFollowsLatest` | src/storage/chainstate.ts:187-203 | over any submissions of well-sized blocks, the state hash of a chain is the same at two moments if and only if its latest block is, on the wire, or two encodings collide |
| `Persistence.HashesDecideIndex` | src/storage/chainstate.ts:239-243 | over any submissions in which blocks with the same hash have the same index, an existing fork is started anew only at the index of its base |
| `Persistence.ReloadSame` | src/storage/chainstate.ts:79-128 | a state whose dictionary lists its chains under their derived ids, with loadable records, survives a restart; nothing is asked of its blocks |
| `Persistence.ReachableStatesReload` | src/storage/chainstate.ts:101-168 | in every state with fewer than 65536 chains that submissions of any blocks reach, harmful re-forks among them, the saved file loads as the same dictionary |
| `Snapshots.RollbackIsSnapshot` | src/storage/blockchain.ts:54-67 | a range with distinct addresses is restored: rolling it back from main's current wallets, over any of the older wallets that the fork has already, shows every wallet as it was before; for any addresses the exact condition is `Rollbacks.RangeRestoredIff` |
| `Snapshots.ViewsStay` | src/storage/wallets.ts:32-39 | first-touch copies hide a conflict-free main block from every fork, in every interleaving |
| `Snapshots.NextTracked` | src/pos/execution.ts:9-34 | one submission of any block, a harmful re-fork included, keeps: the dictionary is in order, each chain has its files, and main's blocks reach hash-linked from genesis to its latest one |
| `Snapshots.StartedIsSnapshot` | src/storage/blockchain.ts:40-72 | a fork that is started off main, for the first time or anew at its base index, shows main's wallets from just before its base block |
| `Snapshots.NextKeepsSnapshots` | src/pos/execution.ts:9-34 | one submission of any block, a harmful re-fork included, whose puts into forks have landed keeps every fork off main a snapshot, and makes a started one a snapshot; with puts still on their way see `PendingPuts.NextSettles` |
| `Snapshots.ForksAreSnapshots` | src/storage/blockchain.ts:40-72 | in every state that any submissions reach, harmful re-forks among them, each fork off main shows, for every address, main's wallet just before the block at its base index, if each submission's puts have landed; with puts still on their way see `PendingPuts.LateForksAreSnapshots` |
| `Snapshots.RepeatedSenderNotRestored` | src/storage/blockchain.ts:56-66 | for any range in which an address sends more than once (and fewer than 2^64 times), the rollback does not restore its nonce; all other addresses are in `Rollbacks.RestoredIff` |
| `Snapshots.ForkOffForkIff` | src/storage/blockchain.ts:44-67 | with distinct addresses and the copy that `copyChain` promises, the stored wallets of a fork off a fork are its parent's if and only if no transaction is rolled back; for reachable states and any addresses see `Rollbacks.ForkOffForkShowsIff` |
| `Snapshots.SenderRolledBack` | src/storage/blockchain.ts:56-66 | with distinct addresses and the copy that `copyChain` promises, a fork off a fork shows the sender of each rolled-back transaction with another nonce than its parent does |
| `Rollbacks.RollbackAt` | src/storage/blockchain.ts:56-66 | whatever is rolled back, an address ends with its last undo applied to the parent's wallet, or stays as it was if none names it |
| `Rollbacks.MainRunBalance` | src/common/models/wallet.ts:51-67 | main's balance of an address is the old one with its credits and without what it was charged, modulo 2^64 |
| `Rollbacks.RestoredIff` | src/storage/blockchain.ts:54-70 | for any range of main and any address, repeated or not: the rollback restores its wallet if and only if it sent as often as its last undo takes back and its last undo reverses what it received net of what it was charged, modulo 2^64 |
| `Rollbacks.RangeRestoredIff` | src/storage/blockchain.ts:54-70 | the rollback restores the wallets of all addresses if and only if each address of the range satisfies that condition |
| `Rollbacks.PaidRestoredIff` | src/storage/blockchain.ts:54-70 | for an address that was charged in full and whose balance did not overflow: never sent, restored if and only if its last undone credit is the total it received modulo 2^64; sent once, if and only if its credits sum to 0 and its debit is undone last; sent more often, never |
| `Rollbacks.PaidRangeRestoredIff` | src/storage/blockchain.ts:54-70 | for a range in which every payment was charged in full: all wallets are restored if and only if every address matches that pattern of credits and debits |
| `Rollbacks.NewForkShowsIff` | src/storage/blockchain.ts:40-72 | a new fork off main shows main's wallets from before its base block if and only if every address of the rolled-back range is restorable |
| `Rollbacks.ForkOffForkShowsIff` | src/storage/blockchain.ts:40-72 | in every state of a run, with the copy that `copyChain` promises and for any addresses: a new fork off a fork shows its parent's wallets if and only if for every address the last undo changes nothing of what the parent shows |
| `PendingPuts.OutcomeSettles` | src/storage/wallets.ts:61-80 | a conflict-free block whose tasks return while puts of earlier blocks and of its own are pending ends in wallets that settle to an ordinary outcome, if no put that its tasks meet is stale |
| `PendingPuts.StalePutOverwritten` | src/storage/wallets.ts:30-59 | if a put pending for an address of the block, where the fork lacks the wallet, is not main's current wallet, some schedule ends with the fork showing the newer one |
| `PendingPuts.PutLandsLast` | src/storage/wallets.ts:37 | for every pending put, some schedule lands it last, and the fork shows its wallet when the block is done |
| `PendingPuts.ViewsKeptIff` | src/storage/wallets.ts:30-80 | for a conflict-free block and any puts pending for forks: in every schedule every fork goes on showing what it showed if and only if no two puts are for one wallet and each put for an address of the block, where the fork lacks the wallet, holds main's current one |
| `PendingPuts.NextSettles` | src/pos/execution.ts:9-34 | a submission of any block with puts pending before and behind it is, between the settled states, one ordinary step, if no put that its tasks meet is stale and no fork with one is copied or started |
| `PendingPuts.RunsSettle` | src/storage/wallets.ts:72 | the settled states of a whole run of such submissions are an ordinary run |
| `PendingPuts.LateForksAreSnapshots` | src/storage/blockchain.ts:40-72 | the snapshot theorem with puts carried across any submissions, harmful re-forks among them: in every reachable state each fork off main shows, counting what is on its way, main's wallet just before the block at its base index, if no submitted block met a stale put |
| `Blockchain.Node.IsBlockChainStateMatching` | src/storage/chainstate.ts:206-246 | the search over the open chains gives the specified verdict |
| `Blockchain.Node.VerifyBlock` | src/verification/index.ts:29-49 | the checks in their order give the specified verdict, transactions judged by main's wallets; what is accepted is `Sealed.AcceptedIff` |
| `Blockchain.Node.CreateFork` | src/storage/blockchain.ts:40-72 | creating a fork leaves exactly the specified state |
| `Blockchain.Node.RollBack` | src/storage/blockchain.ts:54-70 | the downward loop meets no missing block, does not underflow, deletes exactly the range, and leaves the specified wallets |
| `Blockchain.Node.RollbackBlock` | src/storage/blockchain.ts:56-67 | one block's transactions are undone in order, each from the parent's stored wallets |
| `Blockchain.Node.RunTask` | src/storage/wallets.ts:30-59 | an uninterrupted task has the effect of one sequential step, copies to forks included |
| `Blockchain.Node.AdjustWalletsByBlock` | src/storage/wallets.ts:61-80 | under an arbitrary scheduler the tasks finish, in one of the outcomes of their interleavings |
| `Blockchain.Progress` | src/storage/wallets.ts:72 | every step of a task and every landing put uses up a finite amount of work, so the awaited tasks finish |
| `Blockchain.ForkIsPossible` | src/storage/blockchain.ts:42-54 | a verified fork has a positive base index not above its parent's top, and every block in between is stored |
| `Blockchain.Node.UpdateChainStateByBlock` | src/storage/chainstate.ts:187-203 | the dictionary gains or moves one chain, with a state hash that follows its latest block (`Persistence.StateHashFollowsLatest`) |
| `Blockchain.Node.AddBlock` | src/storage/state/blocks.ts:16-33 | a stored block is never overwritten |
| `Blockchain.Node.ExecuteBlock` | src/pos/execution.ts:9-34 | executing a verified block is one step of the transition relation |
| `Blockchain.Node.SubmitBlock` | src/pos/slot.ts:114-121 | verifying and executing a block is one step of the relation; the invariant and all blocks are kept if and only if the submission is safe |
| `ChainSync.ServeBlocks` | src/network/messaging/messages/block.ts:112-135 | a synchronized peer answers with exactly the blocks of its main chain from the start index on; a request for more than 512 is refused |
| `ChainSync.HeldIsRejected` | src/storage/chainstate.ts:239-241 | a block of the held prefix is rejected |
| `ChainSync.NextIsAccepted` | src/storage/chainstate.ts:245 | the peer's next block is placed on top of main |
| `ChainSync.PrefixGrows` | src/pos/execution.ts:9-34 | executing the peer's next block makes the held prefix one longer, and main's wallets are an outcome of its tasks |
| `ChainSync.SequentialPasses` | src/verification/index.ts:42-45 | for conflict-free blocks, passing the checks in one sequential run means passing them in every order of the wallet tasks |
| `ChainSync.ProcessPastSlot` | src/pos/slot.ts:106-122 | a block by another minter changes nothing; otherwise the result says whether it was executed |
| `ChainSync.SyncBlock` | src/network/chain-sync.ts:54-57 | one block of a page: a held one changes nothing and is not counted, the next one is executed |
| `ChainSync.ExecuteBlocks` | src/network/chain-sync.ts:51-60 | a page that overlaps the held prefix adds exactly its new blocks |
| `ChainSync.SyncBlocks` | src/network/chain-sync.ts:62-89 | paging by 512, which no peer refuses, terminates with a short page or a missing answer and receives each served block from the start index exactly once |
| `ChainSync.DrainQueue` | src/network/chain-sync.ts:134-138 | blocks broadcast meanwhile are taken from the queue in order: held ones change nothing, every other one is executed and counted |
| `ChainSync.SyncChain` | src/network/chain-sync.ts:120-140 | if every block of the peer passes its minter and transaction checks in turn, local main ends equal to the peer's main chain up to the last block that was served or waited in the queue, all of it if enough requests are answered; the counters are exact |
| `MinterIndex.InRangeIff` | src/storage/leveldb/indexes.ts:13-38 | a range holds exactly the prefixed keys with its byte, so the 256 ranges partition them |
| `MinterIndex.BelowNext` | src/storage/leveldb/indexes.ts:64-74 | the ranges in order are the prefixed keys in byte order |
| `MinterIndex.KeyAt` | src/storage/leveldb/indexes.ts:87-102 | an offset into a range is an index into all prefixed keys |
| `MinterIndex.PutKeepsLevel` | src/storage/leveldb/indexes.ts:104-106 | a new key keeps the level sorted and adds just itself |
| `MinterIndex.PutCounts` | src/storage/leveldb/indexes.ts:104-106 | a new key adds one to the range that holds it and to no other |
| `MinterIndex.DeleteCounts` | src/storage/leveldb/indexes.ts:108-110 | a removed key takes one from its range and from no other |
| `MinterIndex.LevelIndexes.Load` | src/storage/leveldb/indexes.ts:61-75 | after loading every counter agrees with the level |
| `MinterIndex.LevelIndexes.GetRange` | src/storage/leveldb/indexes.ts:77-85 | a prefixed key always has a range, and only an unprefixed one makes it throw |
| `MinterIndex.LevelIndexes.AddKey` | src/storage/leveldb/indexes.ts:104-106 | the counters agree with the level that has the new key |
| `MinterIndex.LevelIndexes.RemoveKey` | src/storage/leveldb/indexes.ts:108-110 | the counters agree with the level without the key |
| `MinterIndex.LevelIndexes.GetTotalSize` | src/storage/leveldb/indexes.ts:112-119 | the total is the number of prefixed keys |
| `MinterIndex.LevelIndexes.GetRangeByIndex` | src/storage/leveldb/indexes.ts:87-102 | the range and offset found lead to the key with that index in byte order; it throws if and only if there is none |
| `MinterIndex.LevelIndexes.SelectNextMinter` | src/storage/state/minters.ts:35-53 | over a level with at least one prefixed key the choice is the (hash mod n)-th of its n prefixed keys in byte order, and nothing throws |
| `LinkedList.LinkedList.AddFirst` | src/utils/linkedlist.ts:38-43 | the contents gain a first element and the list stays acyclic with its tail last |
| `LinkedList.LinkedList.AddLast` | src/utils/linkedlist.ts:45-54 | the contents gain a last element |
| `LinkedList.LinkedList.GetFirst` | src/utils/linkedlist.ts:56 | the head's data is the first element |
| `LinkedList.LinkedList.GetLast` | src/utils/linkedlist.ts:57 | the tail's data is the last element |
| `LinkedList.LinkedList.RemoveFirst` | src/utils/linkedlist.ts:59-65 | the contents lose their first element, and the tail with the last one |
| `LinkedList.LinkedList.RemoveLast` | src/utils/linkedlist.ts:67-82 | the walk ends before the tail and the contents lose their last element |
| `LinkedList.LinkedList.Clear` | src/utils/linkedlist.ts:88-91 | the list is empty and valid |
| `LinkedList.LinkedList.ToArray` | src/utils/linkedlist.ts:94-102 | the walk from the head gives the contents |
| `LinkedList.Queue.Enqueue` | src/utils/queue.ts:10-12 | the queue grows at its end |
| `LinkedList.Queue.Dequeue` | src/utils/queue.ts:14-18 | the queue gives up its first element, or `null` when it is empty |
| `LinkedList.Queue.Size` | src/utils/queue.ts:8 | the size is the number of waiting elements |
| `LinkedList.Queue.Clear` | src/utils/queue.ts:23 | nothing waits any more |
| `LinkedList.FirstInFirstOut` | src/utils/queue.ts:4-23 | however enqueues and dequeues alternate, the elements taken and then those waiting are the enqueued ones in order |
| `LinkedList.PerformCall` | src/utils/queue.ts:10-18 | any one call on the queue on the heap is the call on the sequence it holds |
| `LinkedList.PerformCalls` | src/utils/queue.ts:4-23 | for any calls on a queue on the heap, what its dequeues returned and then what waits in it is what was enqueued, in order |
| `Framing.FrameSizes` | src/network/packets.ts:12-33 | a packet of more than 2^30 bytes is refused, and any other goes behind its length in four bytes |
| `Framing.OneChunk` | src/network/socket.ts:169-193 | one non-empty chunk hands over exactly the packets it completes, or never returns if it ends inside a header |
| `Framing.StuckForEver` | src/network/socket.ts:177-191 | with one to three header bytes buffered, no number of recursive calls ends |
| `Framing.ManyChunks` | src/network/socket.ts:169-193 | from any moment of a stream, the remaining chunks hand over exactly the remaining packets, or some call never returns |
| `Framing.ChunkingIndependence` | src/network/socket.ts:169-193 | for every packet list and every split into non-empty chunks, a ready socket takes all in if and only if no chunk ends inside a header, and then it has handed over exactly the packets in order with an empty buffer |
| `Framing.OpeningRequeues` | src/network/socket.ts:181-183 | an opening socket that holds a complete non-empty packet queues it again with every chunk, and no other |
| `Framing.OpeningRepeats` | src/network/socket.ts:88-101 | a non-empty packet completed while the socket was opening is handed over once per chunk from then on and once more when ready, and only then come the others; when all is well is `Opening.OpeningIff` |
| `Opening.OpeningIff` | src/network/socket.ts:169-193 | for every packet list and every split of its wire into chunks before and behind `READY`: each packet is handed over exactly once, in order, with nothing left buffered, if and only if every chunk while opening brings the next whole header and completes no non-empty packet, no later chunk ends inside a header, and something is still to come unless every packet was empty and came in its own chunk |
| `Opening.OpeningFitsFirst` | src/network/socket.ts:172-183 | when the first packet is not empty, the cuts while opening fit if and only if the first chunk brings its header and all chunks together do not complete it |
| `Opening.ChunkWhileOpening` | src/network/socket.ts:169-183 | what one chunk adds to the queue of an opening socket and leaves buffered, wherever it ends |
| `Opening.BufferedLikeFresh` | src/network/socket.ts:169-179 | a socket that became ready with bytes buffered takes the next chunk as a fresh one takes the buffered bytes and the chunk together |
| `Opening.CutHeaderWhileOpening` | src/network/socket.ts:177-183 | for every non-empty packet and every cut inside its header: a first chunk while opening, then `READY`, then the rest hands over an empty packet before the packet |
| `Framing.PeerSocket.SetReady` | src/network/socket.ts:88-101 | becoming ready hands the queued packets over in order and empties the queue |
| `Framing.PeerSocket.ReceiveData` | src/network/socket.ts:169-193 | the recursive method with its fields computes the specified step |
| `Sender.StepKeepsInv` | src/utils/queue.ts:53-74 | every event keeps: packets taken one at a time in order, at most one in flight, what it lacks is what is buffered, and no waiting packet without a running loop; packets resolved stay whole if and only if the event is no stalled drain |
| `Sender.SendsInOrder` | src/network/socket.ts:123-147 | over all event sequences: no lost wake-up, and all resolved packets are written to their last byte if and only if no drain stalls; then the wire is a prefix of the packets in order |
| `Sender.SenderBecomesIdle` | src/utils/queue.ts:53-74 | no deadlock and no livelock: a running sender always has an event due, and two due events for each waiting packet and two more leave it idle with every packet resolved |
| `Sender.StalledDrainLosesPacket` | src/network/socket.ts:135-147 | a drain that accepts nothing resolves a packet of which no byte was sent |
| `Sender.SendingQueue.ProcessPackageSending` | src/network/socket.ts:123-133 | what is not accepted at once stays in flight |
| `Sender.SendingQueue.Enqueue` | src/utils/queue.ts:53-58 | enqueuing is the specified event, keeps the invariant, and writes the specified bytes |
| `Sender.SendingQueue.Resume` | src/utils/queue.ts:67-73 | the loop goes on with the next packet, or ends with an empty queue |
| `Sender.SendingQueue.WriteDrained` | src/network/socket.ts:135-147 | the draining loop is the specified event, keeps the invariant, and writes the specified bytes |
| `Transport.FramesOnTheWire` | src/network/packets.ts:19-33 | what `send` enqueues for any messages is, in order, the wire that the receiver expects for those that are not too large; the others are dropped |
| `Transport.PartOfTheWire` | src/network/socket.ts:169-193 | from any part of the wire, cut outside headers, a ready socket has handed over a prefix of the packets |
| `Transport.Delivered` | src/network/socket.ts:107-193 | end to end, for any messages and any partial writes without a stall: the packets handed over are a prefix of the messages that are not too large, and all of these once the sender is idle and everything has arrived |
| `Requests.ResultsStay` | src/utils/deferred.ts:22-36 | a result never changes |
| `Requests.EachGetsFirst` | src/network/socket.ts:150-166 | over all interleavings with distinct live ids, a request's result is that of the first of its timeout and a response with its id, and its entry stays until its caller goes on and is gone afterwards |
| `Requests.AnswersAndErrors` | src/network/requests.ts:39-51 | a pending request gets an answer's data as a success, an error message's code as a failure, and code 1 when its time is over |
| `Requests.DisplacedOnlyTimesOut` | src/network/requests.ts:80-87 | a pending request that lost its entry gets its timeout or nothing |
| `Requests.DistinctIdsNeeded` | src/network/requests.ts:80-87 | a new request leaves a pending one its answers if and only if it has another id |
| `Requests.Deferred.Resolve` | src/utils/deferred.ts:22-28 | the first resolution wins |
| `Requests.ResolveRequest` | src/network/requests.ts:39-51 | resolving cancels the timer and keeps an earlier result |
| `Requests.ActiveRequests.Add` | src/network/requests.ts:80-87 | a new request is the specified event, its result and timer shared with the entry of the store |
| `Requests.ActiveRequests.TimerFires` | src/network/requests.ts:30-32 | a timer that was not cancelled is the specified event |
| `Requests.ActiveRequests.HandleResponse` | src/network/socket.ts:224-232 | a response resolves the entry of its id and no other request |
| `Requests.ActiveRequests.Continued` | src/network/socket.ts:162-165 | the caller gets the request's result and the entry of its id is deleted |
| `Slot.StepKeepsInv` | src/pos/slot.ts:48-100 | every event keeps the slot's invariant and takes nothing back that has happened |
| `Slot.OneBlockPerSlot` | src/pos/slot.ts:71-93 | over all interleavings at most one block is executed, it is the one taken, the slot has started, and none is taken once the slot is finished |
| `Slot.ExecutesAfterStart` | src/pos/slot.ts:82-92 | an execution begins only with the taken block, in a started slot, for the first time; that its verification succeeded is `Slot.ExecutesOnlyVerified` |
| `Slot.ExecutesOnlyVerified` | src/pos/slot.ts:84-92 | over all interleavings, the slot's block is executed if and only if its verification has returned and was successful |
| `Slot.FailedIsNeverExecuted` | src/pos/slot.ts:86-90 | a verification that fails executes nothing, now or in any continuation, and passes the slot's finish |
| `Slot.StartedIff` | src/pos/slot.ts:17-24 | over all interleavings, a slot has started if and only if its start timer ran for another minter, its own minting returned, or a finish was passed |
| `Slot.StartTimerDecides` | src/pos/slot.ts:48-61 | the start timer begins to mint exactly in an own, unfinished slot, starts any other unfinished one, and leaves a finished one alone |
| `Slot.MintsOnlyOwnSlots` | src/pos/slot.ts:53-60 | over all interleavings, an own block is minted only in a slot of the own minter that was unfinished at its start |
| `Slot.FinishIsLast` | src/pos/slot.ts:86-93 | without timeout and force, a finished slot has done all work on its block; in general the exact condition is `Slot.OutlivesFinishIff` |
| `Slot.ForcedFinishIsNotLast` | src/pos/index.ts:82-88 | a run in which a block taken before a forced finish is executed behind it |
| `Slot.TimeoutIsNotLast` | src/pos/slot.ts:63-79 | in the event model, without force, a block that comes between a timeout's finish and its resolution is executed behind it |
| `Slot.ExecutesBehindFinishIff` | src/pos/slot.ts:71-93 | in every reachable finished slot: some continuation executes a block if and only if one was taken whose verification has not returned |
| `Slot.LateIff` | src/pos/slot.ts:71-93 | over all runs: a passed finish and an unverified block come together if and only if a forced finish met an unverified block, or a block was taken behind a passed finish, and no verification has returned since |
| `Slot.OutlivesFinishIff` | src/pos/slot.ts:71-93 | over all runs that end in a finished slot: a block can still be executed if and only if a forced finish met it unverified, or it was taken between a finish and its resolution, and no verification has returned since |
| `Slot.Pending` | src/pos/slot.ts:26-100 | an unfinished slot always has a timer or a running `processBlock` that can go on |
| `Slot.EverySlotFinishes` | src/pos/slot.ts:26-100 | no deadlock and no livelock: in every reachable state an unfinished slot has an event due, and eleven due events (one more for each forced finish) always finish it |
| `Slot.SlotObject.PassFinished` | src/pos/slot.ts:20-23 | passing the finish starts the slot and cancels its timer at once |
| `Slot.SlotObject.PassResolves` | src/utils/executionCheckpoint.ts:15-20 | the finish resolves one step later |
| `Slot.SlotObject.OnSlotStart` | src/pos/slot.ts:48-61 | the start timer is the specified event and keeps the invariant |
| `Slot.SlotObject.Mint` | src/minter/index.ts:84-92 | the own block goes through `processBlock` like any other |
| `Slot.SlotObject.OnMintReturns` | src/pos/slot.ts:55-60 | after the own block the slot has started |
| `Slot.SlotObject.OnBlockNotMinted` | src/pos/slot.ts:63-68 | the timeout is the specified event and keeps the invariant |
| `Slot.SlotObject.ProcessBlock` | src/pos/slot.ts:71-79 | receiving a block is the specified event and keeps the invariant |
| `Slot.SlotObject.ProcessBlockGoesOn` | src/pos/slot.ts:79-93 | each part of `processBlock` behind an await is the specified event and keeps the invariant; only a successful verification leads to an execution |
| `Slot.SlotObject.ForceToFinish` | src/pos/index.ts:85 | a forced finish is the specified event and keeps the invariant |
| `SlotTable.StepKeepsInv` | src/pos/index.ts:73-92 | every event keeps the table's invariant; finished slots stay finished |
| `SlotTable.SelectedBehindPrevious` | src/pos/slot.ts:36-46 | a slot's minter is selected only behind the finish of the slot with the index just before it that the table held at its start, and, unless that one was cut short, behind all work on its block |
| `SlotTable.LowestIsDue` | src/pos/slot.ts:36-46 | the lowest unfinished slot always has an event due |
| `SlotTable.NoDeadlock` | src/pos/slot.ts:36-46 | while some started slot is unfinished, some event is due, however the slots wait for each other |
| `SlotTable.EverySlotIsFinished` | src/pos/index.ts:73-92 | after as many due events as the outside events have asked for, every slot started is finished |
| `SlotTable.Slots.StartNewSlot` | src/pos/index.ts:73-76 | starting a slot registers it under its index, waiting for the slot that the table holds for the index before, and keeps the invariant |
| `SlotTable.Slots.EndSlotAt` | src/pos/index.ts:78-80 | ending a slot removes its index only and keeps the invariant |
| `SlotTable.Slots.ForceFinishAndDeleteSlot` | src/pos/index.ts:82-88 | a forced finish passes the slot's finish, removes its index and keeps the invariant |
| `SlotTable.Slots.GetSlot` | src/pos/index.ts:90-92 | the slot found belongs to the index asked for |
| `Address32.TextIsWellFormed` | src/common/models/address.ts:88-98 | every 21-byte address has a text of 36 characters: the mark, a type and 32 characters of the alphabet |
| `Address32.EveryCharacter` | src/common/models/address.ts:88-98 | every character of an address's text: the mark lc, the type in hexadecimal with an x for a low zero, and the 32 digits that have the value of the body, written as 1 to 9 and the small letters without i, o and x |
| `Address32.LastDigitAscends` | src/common/models/address.ts:71 | the last character of a text ascends strictly with the last five bits of the address |
| `Address32.CapitalsAreRead` | src/common/models/address.ts:79 | behind the type, capitals are read like small letters |
| `Address32.SentinelDigit` | src/common/models/address.ts:90-97 | the sentinel is the one digit in front, in either base, so the body's leading zeros survive |
| `Address32.TextRoundTrip` | src/common/models/address.ts:77-98 | `toAddressHex` inverts `fromAddressHex` for every type byte and every body |
| `Address32.WellFormedRoundTrip` | src/common/models/address.ts:77-98 | `fromAddressHex` inverts `toAddressHex` on every well-formed text |
| `Address32.TextsAreWellFormed` | src/common/models/address.ts:71-98 | a string is the text of an address, and comes back from the two conversions, if and only if it is well-formed |
| `Address32.TextsDiffer` | src/common/models/address.ts:88-98 | different addresses have different texts |
| `Address32.TypeRoundTrip` | src/utils/dataUtils.ts:134-143 | for every type byte, replacing its low zero by an x is undone by replacing the first x by a zero |
| `Address32.ForeignCharacterAccepted` | src/common/models/address.ts:79-83 | a character outside the alphabet, wherever it stands behind a character other than the first of the alphabet, is taken as a borrow: the text is read as that of another text |
| `Address32.DecodeLoop` | src/common/models/address.ts:77-86 | the loop computes the specified reading, which is that of `Address32.EveryCharacter` backwards |
| `Address32.EncodeLoop` | src/common/models/address.ts:88-98 | the dividing loop computes the specified text, whose characters are those of `Address32.EveryCharacter` |

## Left out

- Snapshots.ForksAreSnapshots: assumes distinct addresses within each block of main and each range that a fork rolls back, because rollback and wallet tasks read stored wallets afresh; `Rollbacks.NewForkShowsIff` and `Wallets.InterleavingsAgreeIff` are exact for any addresses. That existing forks are started anew only at their base index follows when blocks with the same hash have the same index (`Persistence.HashesDecideIndex`). It also assumes that each submission's puts into forks land before the next one; `PendingPuts.LateForksAreSnapshots` does not.
- Snapshots.NextKeepsSnapshots: assumes the same of one submission; with puts on their way it is `PendingPuts.NextSettles`.
- Snapshots.RollbackIsSnapshot: distinct addresses only; the exact condition is `Rollbacks.RangeRestoredIff`.
- Snapshots.RepeatedSenderNotRestored: addresses that send at least twice only; every address is covered by `Rollbacks.RestoredIff`.
- PendingPuts.LateForksAreSnapshots: assumes of each submission the condition that is exact for one block (`PendingPuts.ViewsKeptIff`), and distinct addresses as above.
- Conservation.VerifiedBlockConserves: assumes distinct addresses, because transfers that share one are not carried out in full; `MoneyKept.TotalKeptIff` is exact for the sum of balances.
- Conservation.Accounting: sequential execution, one of the orders of the tasks; `MoneyKept.TotalKeptIff` is about all of them.
- AsWritten.EveryForkIsSnapshot: assumes distinct addresses as `Snapshots.ForksAreSnapshots` does.
- ChainRuns.RunsAreSafe: leaves out submissions that start an existing fork anew; `ReforkSafety.RunsAreSafeIff` covers them.
- ChainRuns.ReforkKeepsTopIff: about the latest block only; `ReforkSafety.ReforkSafeIff` is about all blocks.
- BlockTree.ForkShape: a parent fork's directory is copied, as the name `copyChain` says; its path arguments as written (`src/storage/utils.ts:49-51`) make it throw, which is what module `AsWritten` models.
- Blockchain.Node.CreateFork: copies a parent fork's directory like `BlockTree.ForkShape`.
- Snapshots.ForkOffForkIff: assumes that copy and distinct addresses; `Rollbacks.ForkOffForkShowsIff` assumes only the copy.
- Blockchain.Node.AdjustWalletsByBlock: also waits for the puts into forks, which the source leaves unawaited; `PendingPuts` does not wait.
- Slot.FinishIsLast: one direction; `Slot.OutlivesFinishIff` has both.
- Slot.TimeoutIsNotLast: an order of the event model only. The code's timer runs with an empty job queue and its finish resolves one job later (`src/utils/executionCheckpoint.ts:15-20`), so nothing comes in between.
- Slot.OutlivesFinishIff: the condition is exact for events in any order; the orders in which JavaScript's job queue lets nothing come between a passed finish and its resolution are among them, and for those only its first half can hold.
- ChainSync.SyncChain: one fixed peer, no local forks, and queued blocks that are consecutive blocks of that peer's chain, the first of which is held or the next one; the minter of a past slot is a function of its index.
- Framing.PeerSocket.ReceiveData: the recursion of `receiveData` is bounded by fuel; `Framing.ChunkingIndependence` quantifies over all fuels. Chunks are not empty, as TCP delivers none.
- Requests.EachGetsFirst: assumes distinct live ids, which the source leaves to random choice; `Requests.DistinctIdsNeeded` shows that it has to.
- Aliasing through in-place arithmetic: `sinceIndex` shares its number with the latest block's index, and `index` in the page server with the request's (`src/network/chain-sync.ts:68`, `:85`, `:132`, `src/network/messaging/messages/block.ts:124-131`). Indices are values here.
- The `low-level` library is not part of this model: 64-bit numbers wrap modulo 2^64, `toShortUint` of 0 is empty, `Uint.from(n, k)` keeps the last k bytes, `slice` clamps, `toInt` is exact (JavaScript numbers are, up to 2^53).
- Submissions do not overlap: the awaits between verifying and executing a block admit no other block.
- When an existing fork is started anew, `createFork` opens its databases a second time (`src/storage/blockchain.ts:48-49`) while the old `Chain` object still has them open. The model assumes that this succeeds; with a lock on the database it would throw before anything has changed.
- Two pending puts of the same wallet to the same fork count as one, which has landed when the first of them has.
- Block files and wallet databases hold the values put into them; `Models.BlockRoundTrip` and `Wallets.WalletRoundTrip` say when reading gives these back.
- `handleUnverifiableForkBlock` (`src/network/messaging/messages/block.ts:67-77`) forks a chain from itself before that chain exists; it has no meaningful transition.
- `MinterDB.setMinter` and `removeMinter` do not maintain the counters (`src/storage/state/minters.ts:21-27`); selection is stated for counters that agree with the level, as after loading.
- Schema values are listed by position (keys are unique); `fromDict` hooks are the version check and the recovery of signers.
- The processing queues hold their packets in a sequence; that the list behind them is first in, first out is `LinkedList.PerformCalls`. JavaScript's `||` in `dequeue` turns falsy values into `null`; the queues hold objects.
- The verdict of `verifyBlock` on a slot's block is an event of the slot machine, and awaited calls return. When a minter is chosen is an event of `SlotTable`; which one is chosen is `MinterIndex`.
- Characters are lower-cased within ASCII only.
- Mempool membership, message bodies and their router, `LNDataPaket.fromDecodedHex`, staking and smart-contract stubs, the merge of a fork into main, cryptography, the command line, configuration, HTTP routes and logging.
