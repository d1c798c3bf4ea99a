# Verified models of the node's ledger, stores and protocols

This project models the parts of a block-lattice node where state, loops or byte layouts have to fit
together, and proves what they promise for every input and every run.

**Ledger.** Each account has a chain of blocks. A block is confirmed when its height is at or below the
confirmation height of its account; nothing else records it. Cementing raises those heights by a bounded
depth-first search over block dependencies that forgets the bottom of its stack. Pruning deletes confirmed
rows and keeps their hashes. `LedgerStore` has the tables and the invariant, `Cementing` the search,
`Pruning`, `PruningScan` and `PruningRun` the deletion, the resumable target scan and the whole run, and
`LedgerObject` the object that all of them change. A hash names one block, so all blocks that a run ever
meets are listed in a fixed catalog, which still tells the height and dependencies of a pruned block.

**Startup caches and weights.** `CacheScan` cuts tables into key ranges for parallel threads and merges what
they find in any order. `RepWeights` keeps an in-memory cache of voting weights in step with its table.

**Stored blocks.** `Bytes` and `BlockCodec` give the byte form of blocks, with a sideband that leaves out
what the block already says. `BlockStore` patches the successor of a block into its stored bytes.

**Receivable entries.** `Receivable` has the two iterators over pending entries and the receivable balance.

**Wallet.** `RawKeys` has exclusive or and the fan that spreads a key over shares. `WalletStore` has the
wallet as a value, with the laws of its operations; `LmdbWallet` is the object that performs them. The
keystream, the password hash and the key derivations are arbitrary functions.

**Network.** `MessageLists` and `Messages` have the wire format of four messages whose header bits announce
the payload. `TokenBucket` and `PeerExclusion` limit bandwidth and exclude peers. `AccountCodec` is the text
form of accounts.

**Write queue.** `WriteQueue` models the steps of all writing threads, freely interleaved.

`Types`, `MapSums` and `Cursor` are shared: fixed-width numbers, sums over maps that do not depend on the
order, and cursors over tables ordered by key. Tables are maps and keys are big-endian numbers. A database
transaction is a value passed through the operations; the objects assign the result to their fields.
Times, random values, password texts and the actions of other writers are parameters.

Some results worth knowing before reading on:

- A search bounded by `maxBlocks` reaches its target in one call whenever `maxBlocks` is at least twice the
  number of unconfirmed blocks in the target's cone, less one. Called again and again it cements exactly that
  cone, for any positive bound. A bound of zero allows a single look at the target. All this holds however
  often the transaction is refreshed and whatever others save or roll back meanwhile, unless they roll back
  the target itself.
- Pruning never loses an account's confirmed frontier if and only if it does not start at one; the target
  scan never does.
- Pruning looks at the time of the target alone: what lies below it goes whatever its own time. In a chain saved in
  order of time that makes no difference.
- A wrong password is refused exactly when the wallet key that comes out under it has another keystream for the check.
- The weight cache owes every weight that reaches the minimum. Built from partial sums under a positive minimum
  it may hold less: shares of 3 and 10 under a minimum of 5 give 10 instead of 13. It holds what it owes in
  every order of the threads if and only if the weight is below the minimum or no thread finds a share that is
  neither zero nor at least the minimum. It never holds more.
- A saved block is loaded unchanged if and only if its sideband is canonical for its type. The genesis block
  is saved with a sideband that is not.
- A confirm request comes back from the wire if and only if it is not empty and has no all-zero pair, a
  frontier list if and only if it has at most 1000 entries and no all-zero one, a handshake if and only if
  its version flag matches the form of its response.
- The text of a node id is never accepted as an account, although the prefix test lets it pass: the digit
  test looks behind a prefix of four characters. The error text of the account visitor says otherwise; the
  model follows the code.
- A further offence never shortens an exclusion, except for every 2^31st, which ends it at once.
- A private key inserted into a wallet can be fetched again if and only if its ciphertext is not mistaken
  for another kind of entry.

## Model

| member | source | states |
|---|---|---|
| Blocks.DependsOnPrevious | core/src/blocks/mod.rs:535-551 | a block depends on its predecessor whenever it has one, and the time of saving does not change its dependencies |
| Blocks.DependencyFields | core/src/blocks/mod.rs:535-551 | a block depends on a hash other than zero if and only if that is its predecessor, the source of a receive, the source of an open block that is not of the genesis account, or the link of a state block that neither sends nor is an epoch; sends, changes and epochs depend on nothing but their predecessor |
| Blocks.FieldsOf | core/src/blocks/mod.rs:430-443 | whether account and predecessor come from the block or its sideband, for each type |
| LedgerStore.ConfirmedReadsBack | ledger/src/ledger_set_confirmed.rs:13-55 | for a known block, reading "exists confirmed, or pruned" from the tables agrees with comparing its catalog height with the confirmation height of its account |
| LedgerStore.CementRaisesByOne | ledger/src/block_cementer.rs:59-70 | a block whose dependencies are confirmed is exactly one above the confirmation height of its account, or at height one in a new account |
| LedgerStore.CementConfirms | ledger/src/block_cementer.rs:59-70 | writing the height and frontier of such a block makes that block confirmed and no other |
| LedgerStore.CementKeepsSound | ledger/src/block_cementer.rs:59-79 | cementing keeps the ledger invariant, including that confirmed-or-pruned blocks are closed under dependencies |
| LedgerStore.CementCounts | ledger/src/block_cementer.rs:66-73 | the sum of all confirmation heights and the number of confirmed blocks both grow by exactly one |
| LedgerStore.Refresh | ledger/src/block_cementer.rs:83-90 | whatever other writers save or roll back during a refresh, the invariant, the heights and the confirmed set are kept |
| LedgerStore.AppendKeepsConsistent | ledger/src/ledger.rs:615-624 | saving a block whose dependencies are known, at the next place of its chain, keeps the invariant and extends the acyclic order |
| LedgerStore.RollBackKeepsConsistent | ledger/src/ledger.rs:599-606 | taking away an unconfirmed head on which nothing depends keeps the invariant |
| LedgerStore.AppendThenRollBack | ledger/src/ledger.rs:599-624 | a block just saved is there with its time, may be rolled back, and then the tables are as before |
| LedgerStore.RollBackThenAppend | ledger/src/ledger.rs:599-624 | a block just rolled back may be saved again, and saved at its old time it restores the tables |
| LedgerStore.GenesisSound | ledger/src/ledger.rs:316-343 | the ledger with the genesis block alone satisfies the invariant and the counters |
| Cementing.PushDependencies | ledger/src/block_cementer.rs:43-57 | pushes the unconfirmed dependencies of the top, dropping from the bottom what exceeds the bound; everything on the stack stays stored and inside the cone of the target, and the stack never grows beyond the bound |
| Cementing.Visit | ledger/src/block_cementer.rs:40-82 | one look at the top either pushes something above it, or pops a confirmed block, or pops and cements a block whose dependencies are all confirmed |
| Cementing.ConeIsRanked | core/src/blocks/mod.rs:535-551 | the order in which the known blocks were saved ranks the whole cone of a known target for good, whatever happens to the tables later |
| Cementing.ConeMember | ledger/src/block_cementer.rs:40-57 | as long as the target is stored, a block of its cone is stored and unconfirmed exactly if it is not among the confirmed or pruned ones |
| Cementing.VisitAdvances | ledger/src/block_cementer.rs:40-82 | each round lowers the number of unconfirmed blocks of the cone, or the confirmed run on top of the stack, or the rank of the top, in that order |
| Cementing.TowerRoom | ledger/src/block_cementer.rs:48-56 | while the top still needs a dependency the stack is shorter than twice the unconfirmed cone by at least three, so nothing is dropped from a large enough stack |
| Cementing.VisitAnchored | ledger/src/block_cementer.rs:40-82 | with a large enough bound the target stays at the bottom of the stack until it is confirmed, also after refreshes |
| Cementing.RefreshKeepsSearch | ledger/src/block_cementer.rs:83-90 | a refresh that leaves the target stored changes neither what the search relies on nor what is left to do |
| Cementing.Round | ledger/src/block_cementer.rs:40-90 | one round keeps all that the search relies on and adds at most one block to the result, namely when the top was ready |
| Cementing.Confirm | ledger/src/block_cementer.rs:30-98 | ends for every bound and every endless pattern of refreshes; the confirmed set grows by exactly the blocks returned, each of them in the cone of the target, new, returned once and after its dependencies; at most `maxBlocks` of them; unless the target was rolled back, an unconfirmed target makes progress, and with a bound of twice the unconfirmed cone less one the target is reached |
| Cementing.CementsTheCone | ledger/src/block_cementer.rs:30-98 | once the target is confirmed the blocks cemented on the way are exactly the unconfirmed blocks of its cone |
| Cementing.ConfirmFully | ledger/src/ledger.rs:650-663 | repeating the bounded search, refreshed at will, ends for every positive bound; unless the target is rolled back it is confirmed and exactly the unconfirmed cone was cemented in dependency order |
| Cementing.ConfirmedSenders | ledger/src/block_cementer.rs:30-98 | in every consistent ledger a confirmed block has its predecessor and, if it receives, the block that sent confirmed, told by source, link and predecessor fields |
| Cementing.SendersFirst | ledger/src/block_cementer.rs:43-79 | among the blocks returned by a search a receive comes after its send, unless that was confirmed before |
| Cementing.SendsNeedPreviousOnly | ledger/src/block_cementer.rs:43-66 | an unconfirmed block that receives nothing is ready as soon as its predecessor is confirmed |
| Pruning.FrontierKept | ledger/src/ledger.rs:538-568 | deleting from a confirmed block down keeps every account's frontier row if and only if that block is not a frontier |
| Pruning.NothingBelowPruned | ledger/src/ledger.rs:559-560 | below a pruned block of an account everything but genesis is pruned, so stopping there loses nothing |
| Pruning.PruningAction | ledger/src/ledger.rs:538-568 | deletes exactly the stored blocks of the chain from the start down, never genesis; known and confirmed-or-pruned sets are unchanged; the number returned is the growth of the pruned set; frontiers survive if and only if the start is none; ends for every start |
| Pruning.PrunedRows | ledger/src/ledger.rs:538-568 | a row goes if and only if it is not genesis, the start is stored and not genesis, and the row is of the same account at the same height or below; it is then listed as pruned, and every other row, all heights and heads stay |
| PruningScan.FindTarget | node/src/pruning.rs:127-153 | finds the first strict ancestor of the frontier that was saved by the cutoff, or the one at the depth limit, and zero exactly if there is none; the number returned is the number of rows read below the frontier, at most the depth limit |
| PruningScan.TargetAge | node/src/pruning.rs:127-153 | a target is an ancestor at depth one up to the limit; every ancestor above it was saved after the cutoff, and a target itself saved after the cutoff lies at the limit |
| PruningScan.OldIsTarget | node/src/pruning.rs:127-153 | conversely, an ancestor that was saved by the cutoff or lies at the limit, below others saved after the cutoff only, is the target |
| PruningScan.AncestorFields | node/src/pruning.rs:127-140 | ancestors follow the predecessor fields of the rows, and an open block has none |
| PruningScan.CollectTargets | node/src/pruning.rs:106-164 | one call examines a leading part of the remaining accounts in key order, adds at most one target for each, and leaves exactly the others for the next call; unless it reports the end it has examined some; it stops behind the first account with which the rows read make up the batch |
| PruningScan.ScanTargets | node/src/pruning.rs:68-80 | repeated calls examine every confirmed account from 1 upward once, in key order, for every batch size |
| PruningScan.TargetBelowFrontier | node/src/pruning.rs:127-153 | a target is a confirmed block of the account and never a frontier |
| PruningRun.AccountTargetSame | node/src/pruning.rs:46-104 | deletions in other chains do not change the target of an account |
| PruningRun.DeletedBelowTarget | node/src/pruning.rs:46-164 | a block that goes is not genesis and lies at or below an ancestor of its account's frontier which was saved by the cutoff or is at the depth limit, all ancestors above that one being younger |
| PruningRun.DeletedAge | node/src/pruning.rs:46-164 | in chains saved in order, a block that goes was saved by the cutoff or lies at least the depth limit below the frontier |
| PruningRun.OldBlocksGo | node/src/pruning.rs:46-164 | conversely, the first ancestor saved by the cutoff, or the one at the depth limit, goes with all below it but genesis |
| PruningRun.LedgerPruning | node/src/pruning.rs:46-104 | however reading and deleting alternate and whenever it is stopped, a run deletes exactly the blocks at or below the target that each handled account had at the start, reports their number, keeps the invariant and all frontiers, and ends; unless stopped it handles every scanned account, and stopped at once it changes nothing; each deleted row was confirmed and, in chains saved in order, saved by the cutoff or at least the depth limit below its frontier |
| LedgerObject.Ledger.constructor | ledger/src/ledger.rs:316-343 | a new ledger holds genesis alone, confirmed, with counters one and zero |
| LedgerObject.Ledger.ConfirmMax | ledger/src/ledger.rs:650-663 | cementing in place keeps the invariant, respects the bound, moves the cemented counter by the number of blocks returned and, unless the target is rolled back, makes progress and with enough room reaches it |
| LedgerObject.Ledger.Prune | node/src/pruning.rs:46-104 | pruning in place, stopped or not, keeps the confirmed set and moves the pruned counter by the number of deleted rows |
| LedgerObject.Ledger.AccountHeight | ledger/src/ledger_set_confirmed.rs:13-35 | the frontier is always found as a confirmed stored block, and its height is the recorded one |
| LedgerObject.Ledger.Append | ledger/src/ledger.rs:615-624 | a block is saved exactly when its dependencies are known and it is the next of its chain; what is confirmed does not change |
| LedgerObject.Ledger.RollBack | ledger/src/ledger.rs:599-606 | a block is taken away exactly when it is an unconfirmed head without dependents; what is confirmed does not change |
| LedgerObject.Ledger.Run | ledger/src/ledger_set_confirmed.rs:45-55 | in every run of saving, rolling back, cementing and pruning: a confirmed block stays confirmed, the incremental cemented counter is the sum of heights a restart would compute and the number of confirmed blocks, the pruned counter is the number of pruned hashes |
| Cursor.LmdbIterator.constructor | store_lmdb/src/iterator.rs:112-132 | placed at a key, the iterator has all keys from there on before it |
| Cursor.LmdbIterator.Next | store_lmdb/src/iterator.rs:159-161 | moves past exactly one key, and stays at the end |
| Cursor.KeysFromComplete | store_lmdb/src/iterator.rs:112-161 | a cursor placed at a key visits a key if and only if it is in the table and not smaller |
| Cursor.KeysFromAscending | store_lmdb/src/iterator.rs:112-161 | a cursor visits keys in strictly ascending order |
| CacheScan.RangesPartition | store_lmdb/src/lib.rs:414-433 | for any number of threads each key is in the range of exactly one thread |
| CacheScan.SumHeights | ledger/src/ledger.rs:291-305 | one thread adds the heights of exactly the accounts in its range |
| CacheScan.CountCemented | ledger/src/ledger.rs:291-305 | for any number of threads finishing in any order the total is the plain sum of all heights |
| CacheScan.ScanAccounts | ledger/src/ledger.rs:264-289 | one thread finds block count, account count and weights of exactly the accounts in its range |
| CacheScan.FillCaches | ledger/src/ledger.rs:264-289 | block and account counts equal the sequential fold; each weight is the capped merge of the threads' shares, never above what the cache owes, equal to it if and only if the first share merged reaches the minimum or none is due, certainly so if no thread's share can be lost, and exact without a minimum |
| CacheScan.AccountAdds | ledger/src/ledger.rs:264-289 | one more account adds its block count to the total and its balance to the weight of its representative alone |
| CacheScan.EveryOrderAgrees | ledger/src/ledger.rs:264-289 | the cached weight is the one owed in every order of the threads if and only if the weight is below the minimum or every thread's share is zero or at least the minimum |
| RepWeights.AddSharesExact | ledger/src/rep_weights_updater.rs:24-30 | merging shares under a minimum gives what the cache owes of their sum if and only if the sum is below the minimum or the first non-zero share reaches it, and never more |
| RepWeights.ShareLost | ledger/src/rep_weights_updater.rs:24-30 | shares of 3 and 10 under a minimum of 5 give 10 in that order and 13 in the other |
| RepWeights.CachedIsKept | ledger/src/rep_weights_updater.rs:49-60 | what the cache owes of a table entry is the entry if it reaches the minimum and nothing otherwise |
| RepWeights.CopyFrom | ledger/src/rep_weights_updater.rs:24-30 | every entry of the other map is added to the cached weight once and dropped if the result is below the minimum; other entries stay |
| RepWeights.AddedTotal | ledger/src/rep_weights_updater.rs:36-47 | an addition changes the total of all weights by the amount, less 2^128 exactly when the weight wraps |
| RepWeights.DualEqualsSingles | ledger/src/rep_weights_updater.rs:84-105 | two additions commute, and for one representative they are the addition of the wrapped sum |
| RepWeights.RepWeightsUpdater.RepresentationAdd | ledger/src/rep_weights_updater.rs:36-76 | the table gets the wrapped sum without zero entries and the cache stays its restriction to the minimum |
| RepWeights.RepWeightsUpdater.RepresentationAddDual | ledger/src/rep_weights_updater.rs:84-105 | equals two single additions in either order, also for one representative |
| RepWeights.RepWeightsUpdater.Run | ledger/src/rep_weights_updater.rs:36-105 | any run of single and dual additions keeps table and cache in step and moves the total by all amounts added modulo 2^128 |
| Bytes.Endianness | core/src/blocks/send_block.rs:143-147 | numbers are written with the highest byte first, and with the lowest first where the code asks for little-endian |
| BlockCodec.BlockRoundTrip | core/src/blocks/mod.rs:241-266 | a block of any type is read back from its bytes, and what follows is left |
| BlockCodec.LegacySendLayout | core/src/blocks/send_block.rs:143-147 | type byte 2, and the place of every field up to the little-endian work, in 153 bytes |
| BlockCodec.LegacyReceiveLayout | core/src/blocks/receive_block.rs:119-124 | the same for type byte 3 in 137 bytes |
| BlockCodec.LegacyOpenLayout | core/src/blocks/open_block.rs:120-126 | the same for type byte 4 in 169 bytes |
| BlockCodec.LegacyChangeLayout | core/src/blocks/change_block.rs:120-125 | the same for type byte 5 in 137 bytes |
| BlockCodec.StateLayout | core/src/blocks/state_block.rs:132-140 | the same for type byte 6 in 217 bytes, with big-endian work |
| BlockCodec.ReadBlockAccepts | core/src/blocks/mod.rs:241-266 | a block is read if and only if the first byte is a type from 2 to 6 and enough bytes for it follow |
| BlockCodec.SidebandSize | core/src/blocks/block_sideband.rs:40-67 | for every type the size is the number of bytes written |
| BlockCodec.SerializeSideband | core/src/blocks/block_sideband.rs:69-93 | writing field by field gives the layout of the type |
| BlockCodec.DeserializeSideband | core/src/blocks/block_sideband.rs:109-145 | reading field by field is the inverse layout, failing on missing bytes and unknown codes |
| BlockCodec.SidebandRoundTrip | core/src/blocks/block_sideband.rs:69-145 | reading back gives the written fields and defaults for exactly the fields that the type leaves out |
| BlockCodec.SidebandLayout | core/src/blocks/block_sideband.rs:69-93 | the successor comes first; then the place and width of every field that the type keeps |
| BlockCodec.ReadSidebandAccepts | core/src/blocks/block_sideband.rs:109-145 | a sideband is read if and only if there are enough bytes for the type and, for a state block, both epoch codes are known |
| BlockCodec.DetailsByte | core/src/blocks/block_details.rs:36-49 | send, receive and epoch are bits 7, 6 and 5 above the epoch codes 0 to 4 |
| BlockCodec.RefilledFields | core/src/blocks/mod.rs:574-603 | which account, balance, height, epoch and flags a loaded block of each type has; time and successor stay |
| BlockCodec.DetailsRoundTrip | core/src/blocks/block_details.rs:36-66 | packing the details into one byte loses nothing |
| BlockCodec.UnpackedIsPacked | core/src/blocks/block_details.rs:36-66 | a byte that unpacks is the packed form of the details it gives |
| BlockCodec.SavedRoundTrip | core/src/blocks/mod.rs:510-603 | loading a saved block gives the block with its left-out fields refilled, and the very same block if and only if its sideband is canonical for its type |
| BlockCodec.SavedBytesInjective | core/src/blocks/mod.rs:510-516 | two saved blocks have equal bytes if and only if they agree after refilling |
| BlockCodec.ReadSavedIsWritten | core/src/blocks/mod.rs:574-603 | every row that is accepted is the encoding of the block returned, which is canonical |
| BlockCodec.GenesisIsNotCanonical | core/src/blocks/mod.rs:585-588 | an open block saved with no flag set is loaded with the receive flag |
| BlockCodec.SuccessorPlace | store_lmdb/src/block_store.rs:204-206 | the 32 bytes at total length less sideband size are the successor, and overwriting them gives the bytes of the block with only that field changed |
| BlockStore.LmdbBlockStore.Put | store_lmdb/src/block_store.rs:75-86 | exactly one record is added or replaced, and it reads back as the block given with its left-out fields refilled; the predecessor then has the new block for successor and is otherwise as before, and so is every other record |
| BlockStore.PutRecordFields | store_lmdb/src/block_store.rs:75-86 | the same of the records as values |
| BlockStore.LmdbBlockStore.Patch | store_lmdb/src/block_store.rs:186-202 | patching the bytes of a row changes the successor of its record and nothing else, and all other records stay |
| BlockStore.LmdbBlockStore.SuccessorClear | store_lmdb/src/block_store.rs:106-114 | clears the successor of the record and nothing else |
| BlockStore.LmdbBlockStore.Successor | store_lmdb/src/block_store.rs:92-104 | the raw read equals the successor of the decoded record |
| BlockStore.LmdbBlockStore.Get | store_lmdb/src/block_store.rs:116-122 | decoding a row returns the record |
| BlockStore.LmdbBlockStore.Del | store_lmdb/src/block_store.rs:134-136 | removes the record and keeps all others |
| Receivable.KeyOrder | ledger/src/ledger_set_any.rs:233-239 | pending keys are ordered by account and then by hash |
| Receivable.FirstAccountContent | ledger/src/ledger_set_any.rs:133-175 | an entry is announced if and only if its account is the first from the given one on that has any |
| Receivable.AnyReceivableIterator.AccountUpperBound | ledger/src/ledger_set_any.rs:114-130 | will yield the entries of the account with a greater hash, in order |
| Receivable.AnyReceivableIterator.UpperBound | ledger/src/ledger_set_any.rs:133-157 | will yield all entries of the first account with any above the given one, and none above the last account |
| Receivable.AnyReceivableIterator.LowerBound | ledger/src/ledger_set_any.rs:160-175 | will yield all entries of the first account with any from the given one on |
| Receivable.AnyReceivableIterator.Next | ledger/src/ledger_set_any.rs:241-276 | yields the next of the entries announced and `None` at their end, also at the highest hash |
| Receivable.CollectAny | ledger/src/ledger_set_any.rs:241-276 | up to the first `None` the iterator yields exactly the entries announced |
| Receivable.FirstReceivableLowerBound | ledger/src/ledger_set_confirmed.rs:80-99 | finds the first entry from the key on whose send is stored and confirmed |
| Receivable.ConfirmedReceivableIterator.LowerBound | ledger/src/ledger_set_confirmed.rs:63-78 | will yield the confirmed entries of the first account from the given one on that has one |
| Receivable.ConfirmedReceivableIterator.Next | ledger/src/ledger_set_confirmed.rs:109-134 | seeking again from the next hash yields the next of those entries, and `None` at their end |
| Receivable.CollectConfirmed | ledger/src/ledger_set_confirmed.rs:109-134 | up to the first `None` the iterator yields exactly those entries |
| Receivable.ConfirmedEntries | ledger/src/ledger_set_confirmed.rs:63-134 | they are the entries of that account with the unconfirmed ones filtered out |
| Receivable.ConfirmedContent | ledger/src/ledger_set_confirmed.rs:80-99 | an entry is confirmed if and only if the block that sent is stored at or below the confirmation height of its account; a pruned one is not |
| Receivable.IteratorsAgree | ledger/src/ledger_set_confirmed.rs:63-134 | both iterators yield the same when every send is stored and confirmed |
| Receivable.AccountReceivable | ledger/src/ledger.rs:383-405 | the sum over the account's entries with a non-zero hash and, if asked for, a confirmed or pruned send |
| Receivable.ReceivablesContent | ledger/src/ledger.rs:383-405 | an entry counts if and only if it is of the account, its hash is not zero and, if asked for, its send is pruned or stored at or below the confirmation height |
| RawKeys.XorTwice | core/src/raw_key.rs:38-44 | what is mixed into a key twice cancels out |
| RawKeys.Fan.constructor | store_lmdb/src/fan.rs:10-22 | for any shares the fan holds the key |
| RawKeys.Fan.Value | store_lmdb/src/fan.rs:24-30 | mixing all values gives the key held |
| RawKeys.Fan.ValueSet | store_lmdb/src/fan.rs:32-36 | the fan holds the new key in as many values as before |
| WalletStore.Crypto.EncryptTwice | core/src/raw_key.rs:16-25 | decrypting is encrypting again |
| WalletStore.EntriesByNumber | store_lmdb/src/wallet_store.rs:211-362 | version, salt, wallet key, check, seed and index are entries 0, 1, 2, 3, 5 and 6; wallet key and check use the first half of the salt and the seed the other |
| WalletStore.KeyTypeRanges | store_lmdb/src/wallet_store.rs:435-444 | entries from 2^64 on are keys, those from 2^32 to 2^33 markers of an index, all others neither |
| WalletStore.FetchMeaning | store_lmdb/src/wallet_store.rs:572-602 | when each of the five answers is given, and that the key returned is the decrypted entry or the key derived from the seed at the marked index |
| WalletStore.KeyUnderPassword | store_lmdb/src/wallet_store.rs:299-309 | under another password the wallet key comes out changed by the difference of the two keystreams |
| WalletStore.PasswordAccepted | store_lmdb/src/wallet_store.rs:347-387 | a password is accepted if and only if the wallet key it gives has the same keystream for the check as the right one; if not, no key is fetched |
| WalletStore.WrongPasswordRejected | store_lmdb/src/wallet_store.rs:347-523 | so a wrong text, or the locked wallet, is refused and fetches nothing as soon as that keystream differs |
| WalletStore.RekeyKeeps | store_lmdb/src/wallet_store.rs:369-387 | a change of password keeps the wallet key, the seed, the validity of the password and the result of fetching every key but the wallet key's own entry |
| WalletStore.RekeysKeep | store_lmdb/src/wallet_store.rs:369-387 | the same for any number of changes |
| WalletStore.RekeyThenUnlock | store_lmdb/src/wallet_store.rs:506-523 | locking, or reopening the table, and entering the new password restores the very same state |
| WalletStore.LaterUnlock | store_lmdb/src/wallet_store.rs:506-523 | also after keys were added or removed and other passwords were tried; keys whose entries are as before are fetched as before |
| WalletStore.PasswordOutlivesRun | store_lmdb/src/wallet_store.rs:369-523 | after a change of password and any run of insertions, erasures, clearing, new seeds, locks and attempts, entering the password opens the wallet with the same wallet key |
| WalletStore.AdhocFetched | store_lmdb/src/wallet_store.rs:550-557 | an inserted key is fetched again if and only if its ciphertext is above the marker range, or is a marker of that very key |
| WalletStore.AdhocLost | store_lmdb/src/wallet_store.rs:435-444 | a key whose ciphertext is 5 is not fetched again |
| WalletStore.DeterministicFetched | store_lmdb/src/wallet_store.rs:472-489 | the added key is fetched as the key of the recorded index, the index moves on, other keys stay |
| WalletStore.FirstFreeIndex | store_lmdb/src/wallet_store.rs:472-489 | finds the first index from the stored one on whose key is not in the table; all before it are |
| WalletStore.ClearedKeeps | store_lmdb/src/wallet_store.rs:446-462 | clearing makes deterministic keys unknown and keeps the result for all others |
| WalletStore.SeedSet | store_lmdb/src/wallet_store.rs:318-324 | the new seed is read back, deterministic keys of the old one are gone, other keys and the password stay |
| WalletStore.ClearEntries | store_lmdb/src/wallet_store.rs:446-459 | erasing under the cursor and seeking again ends, having removed exactly the deterministic entries above the special ones |
| WalletStore.MovedStep | store_lmdb/src/wallet_store.rs:640-643 | fetching, inserting and erasing one key carries its private key over and leaves all other keys of both wallets alone |
| LmdbWallet.LmdbWalletStore.constructor | store_lmdb/src/wallet_store.rs:95-151 | a new table is filled so that the empty password is valid and wallet key and seed read back; an existing one is opened locked |
| LmdbWallet.LmdbWalletStore.WalletKey | store_lmdb/src/wallet_store.rs:299-309 | decrypts the wallet key held in memory |
| LmdbWallet.LmdbWalletStore.Seed | store_lmdb/src/wallet_store.rs:311-316 | decrypts the seed |
| LmdbWallet.LmdbWalletStore.ValidPassword | store_lmdb/src/wallet_store.rs:347-362 | answers whether entry 3 is the keystream of the wallet key for the first half of entry 1, the wallet key being the one in memory decrypted with the password |
| LmdbWallet.LmdbWalletStore.SetSeed | store_lmdb/src/wallet_store.rs:318-324 | the table becomes the one with the new seed |
| LmdbWallet.LmdbWalletStore.DeterministicClear | store_lmdb/src/wallet_store.rs:446-462 | the table loses the deterministic keys and the index is reset |
| LmdbWallet.LmdbWalletStore.Rekey | store_lmdb/src/wallet_store.rs:369-387 | with a valid password the wallet key stays, the new password is the one in memory and is valid; with an invalid one it is refused and nothing changes |
| LmdbWallet.LmdbWalletStore.Lock | store_lmdb/src/wallet_store.rs:521-523 | the password becomes zero and nothing else changes |
| LmdbWallet.LmdbWalletStore.AttemptPassword | store_lmdb/src/wallet_store.rs:506-519 | the password in memory becomes the hash of the text with entry 1, valid or not, and nothing else changes; the answer is whether the wallet key it gives matches entry 3 |
| LmdbWallet.LmdbWalletStore.InsertAdhoc | store_lmdb/src/wallet_store.rs:550-557 | the ciphertext is stored under the public key |
| LmdbWallet.LmdbWalletStore.DeterministicInsert | store_lmdb/src/wallet_store.rs:472-489 | adds the first index from the stored one on whose key is absent, never overwriting a key |
| LmdbWallet.LmdbWalletStore.FetchKey | store_lmdb/src/wallet_store.rs:572-602 | returns the private key behind the public one, or the reason why not, which is the password whenever that is invalid |
| LmdbWallet.LmdbWalletStore.MoveKeys | store_lmdb/src/wallet_store.rs:631-646 | on success every private key is fetched from this wallet as it was from the other, which no longer has it, and all other keys are unchanged; on failure this holds for the keys before the first that cannot be fetched |
| TokenBuckets.RateLimit | network/src/token_bucket.rs:55-69 | after any call at time s the tokens granted up to time t are fewer than max + rate * (t - s) + 1 |
| TokenBuckets.RateLimitFromStart | network/src/token_bucket.rs:36-69 | this holds after every call of every run on a limited bucket as it is built |
| TokenBuckets.BurstFromStart | network/src/token_bucket.rs:36-84 | a limited bucket starts full: at once it grants up to its capacity, and up to time t at most max + rate * (t - start) |
| TokenBuckets.ZeroIsUnlimited | network/src/token_bucket.rs:72-78 | a bucket built with a zero argument grants every call |
| TokenBuckets.CreditFloor | network/src/token_bucket.rs:92-101 | however often the bucket is polled, at least (rate * elapsed - 1) / 2 is credited before capping |
| TokenBuckets.TokensConserved | network/src/token_bucket.rs:55-101 | below the cap, tokens left plus tokens granted are tokens at the start plus tokens credited |
| TokenBuckets.UnlimitedGrantsAll | network/src/token_bucket.rs:68 | a bucket without limit grants every call |
| TokenBuckets.EarnedPerSecond | network/src/token_bucket.rs:92-105 | a bucket earns its rate in a second, and nothing in no time |
| TokenBuckets.CallInNumbers | network/src/token_bucket.rs:55-101 | a call is granted if and only if the tokens left and earned, up to the capacity, are enough or the bucket has no limit; what is left afterwards, and when the refill time moves |
| TokenBuckets.MadeBucket | network/src/token_bucket.rs:36-84 | a bucket is built full with the given capacity and rate, or with 10^9 for both if one is zero |
| TokenBuckets.SmallestSeen | network/src/token_bucket.rs:55-66 | the smallest size recorded is the smallest one after any call of a run |
| TokenBuckets.TokenBucket.LargestBurst | network/src/token_bucket.rs:86-90 | tells how far below its capacity the bucket has been |
| TokenBuckets.TokenBucket.TryConsume | network/src/token_bucket.rs:55-69 | refills, takes the tokens if there are enough, answers, and keeps the bucket valid |
| TokenBuckets.TokenBucket.Refill | network/src/token_bucket.rs:92-101 | credits whole tokens only, moves the refill time only then, and keeps the bucket valid |
| TokenBuckets.TokenBucket.Reset | network/src/token_bucket.rs:72-84 | gives a valid bucket, unlimited for a zero argument and full otherwise |
| PeerExclusions.ExclusionGrows | network/src/peer_exclusion.rs:152-167 | but for every 2^31st, a further offence never shortens an exclusion, and lengthens it exactly if time has passed or the score limit is exceeded |
| PeerExclusions.ExclusionWraps | network/src/peer_exclusion.rs:161-167 | every 2^31st offence ends the exclusion at once, because the doubled score wraps |
| PeerExclusions.SecondOffenceExcludes | network/src/peer_exclusion.rs:143-171 | a first offence excludes nobody, a second one for an hour |
| PeerExclusions.ExcludedMeans | network/src/peer_exclusion.rs:76-89 | an address is excluded if it is banned for good, or else if and only if its peer has two offences and its exclusion has not ended |
| PeerExclusions.ExpiryInNanoseconds | network/src/peer_exclusion.rs:152-176 | from the third offence to the 2^31st less one, an exclusion lasts two hours times the score; a peer expires a day for each offence after its exclusion ended |
| PeerExclusions.PeersOrderedByExclusionDate.Insert | network/src/peer_exclusion.rs:199-202 | appends the address to the bucket of its date |
| PeerExclusions.PeersOrderedByExclusionDate.Remove | network/src/peer_exclusion.rs:204-210 | takes the address out of its bucket, and the bucket away with its last address |
| PeerExclusions.PeersOrderedByExclusionDate.Pop | network/src/peer_exclusion.rs:185-192 | takes the last address of the earliest date |
| PeerExclusions.RemovedAgrees | network/src/peer_exclusion.rs:91-96 | removing a peer from both indexes keeps them in agreement, with no empty bucket |
| PeerExclusions.InsertedAgrees | network/src/peer_exclusion.rs:110-114 | so does adding one |
| PeerExclusions.PoppedAgrees | network/src/peer_exclusion.rs:103-108 | so does popping, and what is popped is a peer whose exclusion ends first |
| PeerExclusions.DroppingExpired | network/src/peer_exclusion.rs:76-89 | dropping an expired peer changes no answer from then on, for any address |
| PeerExclusions.PeerExclusion.CleanOldPeers | network/src/peer_exclusion.rs:103-108 | evicts peers in the order of their exclusion ends and no more than needed to make room |
| PeerExclusions.PeerExclusion.PeerMisbehaved | network/src/peer_exclusion.rs:37-52 | a known peer gets a higher score and a new end, an unknown one is added after eviction; both indexes agree and at most max(2, max size) peers are kept |
| PeerExclusions.PeerExclusion.PermaBan | network/src/peer_exclusion.rs:55-58 | the address is excluded at all times from then on |
| PeerExclusions.PeerExclusion.IsExcluded | network/src/peer_exclusion.rs:76-89 | answers for the state before the call, and later answers do not depend on the removal |
| AccountCodec.DecodeEncoded | core/src/account.rs:199-223 | the reverse table inverts the digit table |
| AccountCodec.EncodeDecoded | core/src/account.rs:185-223 | every accepted character is the digit of its value |
| AccountCodec.EncodeAccount | core/src/account.rs:14-29 | the text is the prefix, 52 digits of the account and 8 of the checksum |
| AccountCodec.AccountThenChecksum | core/src/account.rs:14-29 | the 60 digits of the number are those of the account and then those of the checksum |
| AccountCodec.OnlyAccountStrings | core/src/account.rs:124-161 | a string with the prefix of a node id is never valid |
| AccountCodec.DecodeAccount | core/src/account.rs:40-195 | a string is decoded to an account if and only if it is the encoding of that account with either form of the prefix, for any checksum function |
| AccountCodec.RoundTrip | core/src/account.rs:14-42 | decoding the encoding of any account returns it |
| MessageLists.DeserializeRoots | messages/src/confirm_req.rs:78-97 | accepts exactly the non-empty lists of the announced length without an all-zero pair |
| MessageLists.PairsLayout | messages/src/confirm_req.rs:167-175 | pairs follow each other, 64 bytes each |
| MessageLists.PairsAccepted | messages/src/confirm_req.rs:78-97 | a counted list is read if and only if there are enough bytes, and is what is written there |
| MessageLists.DeserializeHashes | core/src/vote.rs:176-178 | reads hashes to the end of the payload or until there is no more room, and fails on an incomplete one |
| MessageLists.HashesLayout | core/src/vote.rs:195-204 | hashes follow each other, 32 bytes each |
| MessageLists.HashesAccepted | core/src/vote.rs:169-180 | hashes are read if and only if no part of one is left over or there is no more room, and are what is written there |
| MessageLists.FrontiersRoundTrip | messages/src/asc_pull_ack.rs:59-66 | a frontier list survives if and only if it fits and has no all-zero entry |
| MessageLists.FrontiersCut | messages/src/asc_pull_ack.rs:59-66 | a list that starts with an all-zero entry is read as empty |
| MessageLists.FrontiersAccepted | messages/src/asc_pull_ack.rs:59-66 | what is read are the pairs before the first all-zero one, or as many as there is room for, and no pair among them is all-zero |
| MessageLists.DeserializeFrontiers | messages/src/asc_pull_ack.rs:59-66 | reads up to the sentinel or the limit |
| MessageLists.BlocksRoundTrip | messages/src/asc_pull_ack.rs:170-189 | a block list survives if it has at most as many blocks as there is room for, and is an error otherwise |
| MessageLists.BlocksLayout | messages/src/asc_pull_ack.rs:181-189 | blocks follow each other and end with the byte 1 |
| MessageLists.BlocksAccepted | messages/src/asc_pull_ack.rs:170-178 | a list is empty if and only if it does not start with a block; only a block beyond the room is an error |
| MessageLists.ListConstants | messages/src/asc_pull_ack.rs:59-66 | at most 1000 frontiers and 128 blocks; an empty block list is the byte 1 and an empty frontier list 64 zero bytes |
| MessageLists.DeserializeBlocks | messages/src/asc_pull_ack.rs:170-178 | reads blocks until something else comes, and fails on one block too many |
| Messages.CountReadsBack | messages/src/confirm_req.rs:119-165 | every count from 0 to 255 is read back from its V1 or V2 bits beside any block type and flag |
| Messages.Codes | messages/src/message_header.rs:19-36 | the four messages are types 4, 5, 10 and 15 and the pulls kinds 1, 2 and 3; requests and votes have up to 255 entries |
| Messages.ConfirmReqBits | messages/src/confirm_req.rs:119-226 | a request of 1, 15, 16 and 255 roots has bits 0x1100, 0xF100, 0x1101 and 0xF1F1, and the two formulas for all others |
| Messages.ConfirmAckBits | messages/src/confirm_ack.rs:96-103 | the count as for requests without a block type, and 4 for a rebroadcast |
| Messages.HandshakeBits | messages/src/node_id_handshake.rs:271-279 | 1 for a query, 2 for a response, 4 for V2 |
| Messages.PullAckBits | messages/src/asc_pull_ack.rs:112-120 | the bits are the length of the payload less 9 |
| Messages.AnnouncedLengths | messages/src/message_header.rs:209-228 | the payload length for each of the four types in terms of the bits, also for requests of single blocks |
| Messages.VoteRoundTrip | core/src/vote.rs:169-204 | a vote with up to 255 hashes is read back, and its size is the announced one |
| Messages.VoteAccepted | core/src/vote.rs:169-180 | which byte sequences are votes, and that each is the encoding of the vote returned |
| Messages.ConfirmReqRoundTrip | messages/src/confirm_req.rs:66-226 | the header announces the payload length, and the request is read back if and only if it is acceptable |
| Messages.ConfirmReqLayout | messages/src/confirm_req.rs:167-175 | hash before root, 64 bytes for each pair |
| Messages.ConfirmAckRoundTrip | messages/src/confirm_ack.rs:61-103 | the header announces the payload length; vote and rebroadcast flag are read back |
| Messages.ConfirmAckLayout | core/src/vote.rs:195-204 | account, signature, little-endian timestamp and hashes at their places |
| Messages.HandshakeRoundTrip | messages/src/node_id_handshake.rs:190-279 | the handshake is read back if and only if its version flag matches its response, and then the length is announced |
| Messages.HandshakeLayout | messages/src/node_id_handshake.rs:126-141 | query, node id, for V2 salt and genesis hash, and signature at their places |
| Messages.ResponseAccepted | messages/src/node_id_handshake.rs:91-112 | a response is read if and only if there are 96 bytes, or 160 for V2, and is what is written there |
| Messages.HandshakeMistaken | messages/src/node_id_handshake.rs:91-112 | a V2 response sent without the flag is read as a V1 response with salt and genesis hash for a signature |
| Messages.PullAckRoundTrip | messages/src/asc_pull_ack.rs:45-120 | the answer is read back if and only if its list is well-formed, and then its length fits and is announced, also at the maximum |
| Messages.PullAckLayout | messages/src/asc_pull_ack.rs:104-110 | kind, big-endian id and list or record at their places |
| Messages.InfoLayout | messages/src/asc_pull_ack.rs:235-245 | the six fields of an account record at their places in 144 bytes |
| Messages.InfoAccepted | messages/src/asc_pull_ack.rs:213-221 | an account record is read if and only if there are 144 bytes, and is what is written there |
| Messages.FrontiersLayout | messages/src/asc_pull_ack.rs:81-93 | account before hash, 64 bytes for each pair, and 64 zero bytes at the end |
| Messages.MessageRoundTrip | messages/src/message.rs:94-148 | for every message that can be constructed both hold if and only if it is well-formed |
| Messages.HeaderRoundTrip | messages/src/message_header.rs:155-200 | a header is read back exactly for known networks and message types |
| Messages.HeaderLayout | messages/src/message_header.rs:193-202 | network, the three versions, type and bits at their places, the bits with the low byte first; which networks and types are known |
| Messages.WireRoundTrip | messages/src/message_serializer.rs:26-41 | a well-formed message sent on a stream is received whole, and what follows it is left for the next one |
| Messages.Serialize | messages/src/message.rs:94-98 | writing element by element gives the payload |
| Messages.Deserialize | messages/src/message.rs:107-148 | reading element by element parses the payload |
| WriteQueue.RunKeeps | ledger/src/write_queue.rs:64-95 | every step of every thread keeps the queue free of duplicates and accounts for each entry |
| WriteQueue.WriteQueueIsFair | ledger/src/write_queue.rs:29-95 | in every interleaving at most one guard is owned, guards are given out in the order of arrival, and releasing pops the writer of the released guard although it does not look |
| WriteQueue.SomeoneCanProceed | ledger/src/write_queue.rs:83-95 | the front of the queue always holds its guard or may take it; a writer may join if and only if it does not wait already; an owned guard may be released |

## Left out

- LedgerObject.Ledger.Append: validation and insertion of blocks are represented by their contract only (dependencies known, next place of the chain, one block for each place); balances and signatures are not modelled.
- LedgerObject.Ledger.RollBack: takes away one unconfirmed head at a time; the planning of whole rollbacks is not modelled.
- LedgerStore.AppendKeepsConsistent: the same contract stands for insertion here.
- LedgerStore.RollBackKeepsConsistent: the same contract stands for rollback here.
- LedgerStore.Refresh: other writers save and roll back during a refresh but do not prune; the code states no order between pruning and a running search.
- LedgerObject.Ledger.ConfirmMax: the target must be stored when the call begins; the code panics otherwise.
- PruningScan.CollectTargets: the store is taken as unchanged although the read transaction is refreshed during the scan.
- PruningRun.DeletedAge: speaks of chains saved in order of time, as they are unless the clock is set back; `DeletedBelowTarget` says what holds in any case.
- CacheScan.FillCaches: the sum of all balances must fit 128 bits, as it does in a ledger whose supply fits.
- Receivable.AccountReceivable: the sum is unbounded; the code adds 128-bit amounts.
- TokenBuckets.TokenBucket.Refill: exact rational arithmetic rounded down instead of floating point, and one clock reading for both uses.
- PeerExclusions.PeerExclusion.PeerMisbehaved: scores and times are unbounded, except for the 32-bit cast and doubling of the score, which wrap as in an optimised build.
- Counters and heights are unbounded; the code uses 64 bits.
- Updates in place inside one database transaction are modelled on values; the objects that own the tables are updated in place.
- The database itself, its cursors' internal state, files, backups and upgrades.
- Hashing, signatures, password hashing, the block cipher and key derivation, which are arbitrary functions here.
- The digest of a received message, which is not part of the bytes, and the packing of vote timestamps.
- Watch-only wallet entries, wallet import, JSON forms and stored work values.
- Fixed-layout messages, telemetry, bulk pulls, RPC, websockets, sockets and wiring of the node: they would add easy members only.
- Statistics, observers and container information.
