# Key-value blockchain storage of Concord, modelled in Dafny

This project models the versioned key-value blockchain storage of Concord-BFT and the small protocols around it, and
proves what they keep over whole runs. `dafny verify dfyconfig.toml` checks everything.

## What is modelled

- **The Merkle tree adapter.** `AdapterSpec` states every operation of the adapter (adding, receiving raw blocks,
  linking, reading at a version, pruning from the front, rolling back from the end, construction) as a function on a
  typed database, the cached ids and the cached tree root. `Adapter` is the adapter itself, a class whose methods and
  loops are proved to do what these functions say. `ChainView` says which database a list of blocks determines, key by
  key; `Growth`, `Pruning`, `Rollback` and `OnlyBlock` prove what each operation does to it, `Reading` what reads return
  from it, `StoredTree` which internal nodes are stored, what they hold and where walking them leads, `Linking`,
  `Recovery` and `Crashes` treat state transfer and crashes, and `AdapterRuns` whole runs. `Answers` says what raw blocks
  and deletions are refused, and what getRawBlock returns off the chain.
  `RawChain` and `EveryRun` prove what holds on every run, without any condition on what was deleted or rolled back.
  A database is in order below when it satisfies the invariant that every run keeps (`RawChain.RawOk`).
  On the same runs `Import` says exactly when importing reproduces an exporter, `PrunedReads` when pruning changes no
  read, and `Undo` when a rollback undoes a block; `Export` and `RepeatedDelete` say it in terms of the chain.
  `Witnesses` holds runs from the empty database into the cases that the conditions shut out.
- **The bytes below it.** `ByteOrder`, `KeyCodec`, `NodeCodec`, `BlockCodec` and `RawBlockCodec` are the database keys,
  the serialized nodes and leaves and the two-layer raw block, and `Accepted` says exactly which bytes their decoders
  accept. `ByteQueries` and `ByteReads` prove that seeking and
  decoding in the ordered byte store finds what the typed database says, up to reading a value of the history, and
  `ByteWrites` that putting and deleting the bytes of each operation keeps the two in step.
- **The direct key-value adapter.** `DirectKeys` is its composite-key comparator, `DirectAdapter` its gap-closing loop
  and the scan after a restart.
- **Protocols.** `StateSync` (bringing the chain back in step with the metadata after a crash), `PruningAgreement`,
  `EpochProtocol` (wedging and new epochs), `TlsFraming` and `TlsConnection`, `Ticks` (tick throttling) and `Cron`
  (periodic actions and their saved schedule).

The sparse Merkle tree is the concrete model in `SparseTree`: a leaf per live key, an internal node at a path when it is
the root or at least two live keys share it, each with the version that last wrote it. Digests and state hashes stand
for what they are computed from. That different contents have different hashes is used only to say that two blocks
differ (`Import.ImportIff`, `Export.ImportExact`, `Witnesses.ImportRun`). Key hashes are required to differ
only on the keys in use (`ByteQueries.CollisionFree`). Exceptions, failed assertions and process termination are the
errors of `Common.Error`. Signature checks, clocks and the order of events on threads and sockets are parameters.

## What does not hold without a condition

Several natural claims fail in the code as it is. Each has its exact condition and a failing case:

- Deleting a key that is already deleted, while its leaf is stored, stamps the leaf again and revives the value at
  earlier versions (`Growth.ReadsSurviveIffDeletesLive`, `Growth.DeadKeyRevived`; reached in `Witnesses.RevivedRun`).
- While older blocks are there, or none ever were, rolling back is exact only for blocks without deletes that changed
  the tree or sit on the empty one. As the only block of a pruned chain, genesis == last > 1, a block is rolled back
  exactly only when the pruned blocks left nothing behind (`Rollback.DeleteLastExact`, `OnlyBlock.OnlyBlockExact`).
  Otherwise a leaf outlives the chain (`OnlyBlock.LeafOutlivesChain`) and is read as a value of the next one
  (`OnlyBlock.StrayValueRead`; reached in `Witnesses.StrayRun`).
  What holds on any database is stated by `Undo.UndoIff`.
- Pruning changes a read exactly when the newest leaf of a key at the next block became stale in the pruned block and
  reads differently from the older leaf left, or from none (`PrunedReads.PrunedReadsIff`). That happens
  after a key was deleted twice (`RepeatedDelete.PruningInvisibleIff`, `RepeatedDelete.PruningFlipsRead`; reached in
  `Witnesses.PruneRun`), also when the second delete was rolled back (`Witnesses.RollbackPruneRun`). Raw blocks and the
  latest root are never affected (`EveryRun.PruningKeepsRawBlocks`).
- Importing the exported blocks 1..N gives the same blocks exactly when the list replays: every delete is of a provable
  key that an earlier block of the list wrote, and every state hash is that of the values the list leads to
  (`Import.ImportIff`). It fails for a block recorded under a stale cached root with other values (`Export.ImportExact`;
  reached in `Witnesses.ImportRun`), and for one that deletes a key of which only a leaf from before the chain was
  emptied is left (reached in `Witnesses.StrayImportRun`). Without block deletions it cannot fail
  (`Import.GrowingRunImported`).
- A rollback does not reset the cached tree root (`Rollback.UntouchedTreeNeedsSync`,
  `Rollback.RootLostAfterRollback`), and for a block that shares its parent's version it removes the parent's root
  (`Rollback.RootLostByEmptyBlock`).
- A crash while blocks are linked is recovered from only if the cached root was the chain's or the first block made the
  adapter read it (`Crashes.CrashWhileLinkingExact`). Otherwise the adapter does not open any more
  (`Crashes.LostRootNotOpened`; reached in `Witnesses.CrashRun`).
- Non-provable keys of different lengths can hide each other (`KeyCodec.NonProvableOrderExact`,
  `ByteQueries.UnequalLengthsMiss`); the constructor refuses them (`Adapter.DBAdapter.Start`).
- The direct adapter's `addBlock` with later blocks present makes its cached ids wrong
  (`DirectAdapter.DBAdapter.AddBlock`).
- A compare-and-swap that fails spuriously reorders messages: for a new message while nothing is in flight
  (`TlsFraming.WriteOkUnlessSpuriousWhenIdle`, `TlsFraming.SpuriousFailureReorders`), and in the completion handler
  while messages wait, where it can also lose one (`TlsFraming.CompletionOkUnlessSpuriousWhenWaiting`,
  `TlsFraming.CompletionReorders`, `TlsFraming.CompletionLoses`).
- The stop of an install command is not on the chain and is lost in a restart (`EpochProtocol.InstallStopIsForgotten`).
- A periodic action positioned after the saving entry leaves the page behind when it fires, unless it is scheduled again
  for the time it had (`Cron.SavedUnlessLaterEntryMoves`). After a restart it then runs too early
  (`Cron.LateEntryRepeats`).
- A replica that keeps no block, which is the default, ends its process when it is asked to prune its last block
  (`PruningAgreement.BlocksToKeepSurvive`, `PruningAgreement.DefaultKeepsNothing`).
- A replica whose genesis block is beyond the persisted id, as it is when nothing was persisted, does not come up again,
  however often it is started: the sync cannot remove the only block (`StateSync.StartsComeUpIffPersisted`).

Where the code and its comments differ, the model follows the code: the comment on the write queue's limit says that a
message which would exceed it is dropped, the code drops a message only when the queue is already over the limit
(`communication/src/TlsWriteQueue.h:30-34`, `58-62`); and reading an unknown key type is called undefined, but aborts
(`kvbc/src/merkle_tree_key_manipulator.cpp:146-169`).

## Model

| member | source | states |
|---|---|---|
| `SparseTree.UpdateFollows` | kvbc/src/sparse_merkle/tree.cpp:148-193 | an update keeps the tree consistent, raises the version by one exactly when it touches something, gives each updated key a leaf at the new version, removes deleted ones, and leaves every other leaf at its old version; `SparseTree.UpdateNodes` says the same of internal nodes |
| `SparseTree.UpdateNodes` | kvbc/src/sparse_merkle/tree.cpp:148-193 | in every tree that updates lead to there is an internal node at a path if and only if it is the root or, below 64 nibbles, at least two keys of the tree share the path; an update rewrites at the new version exactly the nodes on the path of a key it writes or removes, and leaves the others at their version |
| `StoredTree.NodesWritten` | kvbc/src/merkle_tree_db_adapter.cpp:59-91 | on any database in order, a block writes the internal node at a path if and only if the hash of a provable key it updates or really removes starts with the path and the new tree has a node there, and indexes as stale exactly the nodes of the old tree on such a path |
| `StoredTree.BlockNodes` | kvbc/src/merkle_tree_db_adapter.cpp:59-91 | of every block on a represented chain that changed the tree, exactly those nodes are stored at its version and exactly those are in its stale index |
| `StoredTree.NodesAfterAdd` | kvbc/src/merkle_tree_db_adapter.cpp:362-442 | hence of the block that addBlock has just added |
| `StoredTree.NodeHolds` | kvbc/src/sparse_merkle/walker.cpp:34-42 | every node of every kept tree is stored, and holds the leaves, nodes, versions and values of that tree at and below its path, although an older block wrote it |
| `StoredTree.WalkFindsLeaf` | kvbc/src/sparse_merkle/walker.cpp:34-42 | from the stored root of any kept tree, descending the stored nodes by their versions ends at a leaf if and only if the tree has the key, and that leaf is stored with its value |
| `EveryRun.NodesOnEveryRun` | kvbc/src/sparse_merkle/tree.cpp:148-193 | on every run from the empty database each stored root has exactly the internal nodes that its keys call for |
| `ChainView.BlockLeaf` | kvbc/src/merkle_tree_db_adapter.cpp:398-416 | what a block does to a key's leaf in the tree: an update moves it to the block's version, a delete removes it, any other block leaves it alone |
| `ChainView.Persists` | kvbc/src/merkle_tree_db_adapter.cpp:417-420 | a leaf or node version that an earlier tree had reached and a later tree still contains was in every tree in between |
| `ChainView.KeptLeaf` | kvbc/src/merkle_tree_db_adapter.cpp:59-91 | every leaf still stored was written by the one block that moved the tree to its version |
| `Reading.ReadsRefineHistory` | kvbc/src/merkle_tree_db_adapter.cpp:180-219 | for every key and every version from the genesis block on, getValue returns the value and block id of the last write at or before it, and NotFound when there is none or a delete followed; blocks sharing a root version included |
| `Reading.RawBlockRebuilt` | kvbc/src/merkle_tree_db_adapter.cpp:289-341 | for every block still on the chain, getRawBlock rebuilds from the node and the leaves exactly the raw block it was added as |
| `EveryRun.HashChainOnEveryRun` | kvbc/src/merkle_tree_db_adapter.cpp:343-360 | on every run from the empty database, whatever it adds, receives, deletes, rolls back, prunes, imports or crashes in: every block on the chain is rebuilt, and each above the genesis block stores, in its node and its raw block, the digest of the raw block that getRawBlock now rebuilds for its parent |
| `EveryRun.RawBlocksNeverChange` | kvbc/src/merkle_tree_db_adapter.cpp:289-341 | on every run getRawBlock of a block returns the same for as long as the block is on the chain |
| `EveryRun.AddedBlockForGood` | kvbc/src/merkle_tree_db_adapter.cpp:289-341 | and that is what was added: its updates, the deletes that found a leaf, and the state hash of the tree it led to |
| `EveryRun.IdsOnEveryRun` | kvbc/src/merkle_tree_db_adapter.cpp:232-256 | on every run the block nodes are exactly [genesis, last] and the cached ids are what the load functions compute |
| `Answers.RawBlockOffChain` | kvbc/src/merkle_tree_db_adapter.cpp:289-302 | on every run from the empty database getRawBlock of an id outside [genesis, last] returns the block received last under it that was neither linked nor deleted since, as told by the calls and the reported last block, and NotFound if and only if there is none |
| `Answers.WaitingIsRead` | kvbc/src/merkle_tree_db_adapter.cpp:586-603 | in particular a block just received that has to wait is read back |
| `Answers.WaitingOnEveryRun` | kvbc/src/merkle_tree_db_adapter.cpp:513-560 | restarts and crashes take from the waiting blocks exactly those they link |
| `RawChain.AddKeepsRaw` | kvbc/src/merkle_tree_db_adapter.cpp:362-442 | adding a block keeps the invariant behind this (versions, index entries, leaves and roots that the nodes rely on) and changes no block |
| `RawChain.RollbackKeepsRaw` | kvbc/src/merkle_tree_db_adapter.cpp:717-745 | so does rolling back any last block, the ones that share a version or delete keys included |
| `RawChain.PruneKeepsRaw` | kvbc/src/merkle_tree_db_adapter.cpp:747-773 | and so does pruning |
| `Export.InvIsRaw` | kvbc/src/merkle_tree_db_adapter.cpp:289-360 | every database that represents a chain satisfies that invariant |
| `Reading.LatestRootIs` | kvbc/src/merkle_tree_db_adapter.cpp:449-466 | the root that the last block's node points to is stored, and is the tree of the whole chain |
| `Reading.NpRead` | kvbc/src/merkle_tree_db_adapter.cpp:167-178 | the newest stored entry of a non-provable key at or below the version holds its last write and the block that made it, whatever was pruned below, and there is none only when the history has none |
| `Growth.AddBlockExtends` | kvbc/src/merkle_tree_db_adapter.cpp:362-442 | addBlock succeeds and leaves, key by key, the database that the chain extended by the block determines: node, internal nodes, leaves with stamps, both stale indexes, non-provable entries |
| `Growth.AddSucceeds` | kvbc/src/merkle_tree_db_adapter.cpp:362-384 | on a represented chain addBlock fails only when it is asked to delete a non-provable key |
| `Growth.CachedVersionHarmless` | kvbc/src/merkle_tree_db_adapter.cpp:386-403 | a cached tree version beyond the chain, as a rollback leaves it, finds the same leaf to stamp as the chain's own version |
| `Growth.ReadsSurviveIffDeletesLive` | kvbc/src/merkle_tree_db_adapter.cpp:386-403 | after a block added to any represented chain, whatever tree is cached, all reads still agree with the history if and only if each of its deletes hits a live key or a key without a leaf; deleting a dead key stamps its leaf again |
| `Growth.DeadKeyRevived` | kvbc/src/merkle_tree_db_adapter.cpp:386-403 | the failing case, whatever tree is cached: deleting a dead key whose leaf is stored makes its old value readable at the previous block |
| `Growth.CachedTreeIgnored` | kvbc/src/merkle_tree_db_adapter.cpp:398-416 | a block that changes the tree is written the same whatever tree was cached |
| `Growth.UnreadRootReads` | kvbc/src/merkle_tree_db_adapter.cpp:407-420 | a block that leaves the tree alone may be recorded with the version of a newer cached tree; no read at any version notices |
| `Witnesses.RevivedRun` | kvbc/src/merkle_tree_db_adapter.cpp:386-403 | from the empty database: add a key, delete it, delete it again; after two blocks the key is dead with its leaf stored, and after the third it reads as present at block 2 |
| `Pruning.DeleteGenesisPrunes` | kvbc/src/merkle_tree_db_adapter.cpp:663-674 | deleteGenesisBlock leaves exactly the database of the same chain seen from the next block on |
| `Pruning.PruningInvisible` | kvbc/src/merkle_tree_db_adapter.cpp:663-674 | the case of a database that represents a chain: deleting the genesis block changes no getValue, no getRawBlock and not the latest root, for any key and any version above it; `PrunedReads.PrunedReadsIff` and `EveryRun.PruningKeepsRawBlocks` treat every database |
| `PrunedReads.PrunedReadsIff` | kvbc/src/merkle_tree_db_adapter.cpp:663-674 | on any database in order, whatever was deleted or rolled back before: deleting the genesis block changes no getValue, for any key and any version above it, if and only if for every provable key whose newest leaf at the next block is indexed as stale since the genesis block's version, that leaf and the next older one left are both stamped by then (or none is left), or hold the same value of the same block and are hidden from the same block on |
| `PrunedReads.RunPrunedReadsIff` | kvbc/src/merkle_tree_db_adapter.cpp:663-674 | hence under that condition, and only then, after every run from the empty database |
| `PrunedReads.PrunedRead` | kvbc/src/merkle_tree_db_adapter.cpp:747-773 | what getValue returns above the pruned block: for a provable key what the newest leaf not indexed as stale since its version says, for a non-provable key what it did |
| `PrunedReads.LostReadFlips` | kvbc/src/merkle_tree_db_adapter.cpp:747-773 | the failing case: when the only leaf of a key is so indexed and not stamped, a read that found it does not find it after pruning |
| `RepeatedDelete.PruningInvisibleIff` | kvbc/src/merkle_tree_db_adapter.cpp:386-403 | the case right after a block added to a represented chain, dead keys deleted again included, in terms of the chain: deleting the genesis block changes no getValue above it if and only if no such key has its newest leaf indexed as stale since the genesis block's version, or no block lies between the two; `PrunedReads.PrunedReadsIff` treats every database |
| `RepeatedDelete.PruningFlipsRead` | kvbc/src/merkle_tree_db_adapter.cpp:747-773 | the failing case: the value that the repeated delete brought back at the previous block is not found after pruning |
| `Witnesses.PruneRun` | kvbc/src/merkle_tree_db_adapter.cpp:747-773 | such a state is reached from the empty database: write k, delete it, write another key, prune, delete k again; pruning the next block flips the read of k at block 3 |
| `Witnesses.RollbackPruneRun` | kvbc/src/merkle_tree_db_adapter.cpp:717-745 | the same when the block that deleted k again was rolled back before the pruning: its stamp stays on the leaf, and the read of k at block 3 flips although no block of the chain deletes a dead key |
| `EveryRun.PruningKeepsRawBlocks` | kvbc/src/merkle_tree_db_adapter.cpp:663-674 | on every run pruning changes no raw block above the genesis block and not the latest root |
| `Pruning.NoGarbage` | kvbc/src/merkle_tree_db_adapter.cpp:747-773 | of the versions of a key or tree node written before the genesis block at most one is stored, and no stale index entry or block node from before it |
| `Rollback.DeleteLastExact` | kvbc/src/merkle_tree_db_adapter.cpp:645-661 | for every represented chain deleteLastReachableBlock leaves the database of the remaining chain if and only if: with older blocks there, or none ever, the block deleted nothing and changed the tree or sits on the empty tree; as the only block of a pruned chain, the pruned blocks left nothing that the block does not take along |
| `OnlyBlock.OnlyBlockExact` | kvbc/src/merkle_tree_db_adapter.cpp:652-656 | rolling back the only block of a pruned chain resets both ids and empties the database if and only if the pruned blocks wrote no non-provable key and left no tree, or an empty one under a block that does not change it |
| `OnlyBlock.LeafOutlivesChain` | kvbc/src/merkle_tree_db_adapter.cpp:717-745 | the failing case: the leaf of a pruned block is still stored when the adapter says it has no blocks |
| `OnlyBlock.StrayValueRead` | kvbc/src/merkle_tree_db_adapter.cpp:496-501 | after the next addBlock, which wrote another key, getValue returns a value for that leaf's key at block 1, although the new chain's history has none |
| `Witnesses.StrayRun` | kvbc/src/merkle_tree_db_adapter.cpp:645-661 | such a state is reached from the empty database by two blocks, pruning, a rollback and another block |
| `Rollback.RollbackInvertsAdd` | kvbc/src/merkle_tree_db_adapter.cpp:717-745 | the case of a represented chain: adding a block and rolling it back restores the identical database and ids under the same if-and-only-if condition; the cached tree root stays that of the removed block; `Undo.UndoIff` treats every database |
| `Undo.UndoIff` | kvbc/src/merkle_tree_db_adapter.cpp:645-661 | on any database in order, whatever was deleted or rolled back before: adding a block and deleting it again restores the identical database and ids if and only if nothing was stored yet under its version and id (internal nodes, index entries, leaves and non-provable entries of the keys it lists) and every key it really deletes carries its stamp already |
| `Undo.RunUndoIff` | kvbc/src/merkle_tree_db_adapter.cpp:645-661 | hence after every run from the empty database |
| `Undo.UpdateUndone` | kvbc/src/merkle_tree_db_adapter.cpp:717-745 | a block that updates a provable key and really deletes none is undone exactly on every such database that stores nothing beyond its last block, after repeated deletes too |
| `Rollback.UntouchedTreeNeedsSync` | kvbc/src/merkle_tree_db_adapter.cpp:407-420 | a following block that leaves the tree alone is recorded correctly if and only if the cached root is that of the chain |
| `Rollback.RootLostAfterRollback` | kvbc/src/merkle_tree_db_adapter.cpp:449-466 | with the stale cached root such a block leaves an adapter that cannot read its root |
| `Rollback.RootLostByEmptyBlock` | kvbc/src/merkle_tree_db_adapter.cpp:717-745 | rolling back a block that shares its parent's version removes the parent's root, and no provable update can be added from then on |
| `Linking.LinkIsAbsorb` | kvbc/src/merkle_tree_db_adapter.cpp:513-538 | linkSTChainFrom links the waiting blocks up to the first missing one and no other |
| `Linking.AddRawBlockAbsorbs` | kvbc/src/merkle_tree_db_adapter.cpp:562-603 | addRawBlock leaves what linking the new block together with all waiting ones leaves, whether it closes a gap or waits |
| `Linking.AbsorbMerge` | kvbc/src/merkle_tree_db_adapter.cpp:513-538 | linking before or after more blocks arrive ends in the same state |
| `Linking.DeliveryOrderIrrelevant` | kvbc/src/merkle_tree_db_adapter.cpp:562-603 | the state after any set of raw blocks depends on which blocks arrived and not on their order, also while gaps are open |
| `Linking.TransferOrderIndependent` | kvbc/src/merkle_tree_db_adapter.cpp:513-603 | any arrival order of blocks last+1..N ends with last = N, no temporary block, and the chain that adding them in ascending order gives |
| `Recovery.AdapterTransferOrderIndependent` | kvbc/src/merkle_tree_db_adapter.cpp:513-603 | the same for the adapter's own addBlock and link transaction: identical database, ids and tree, latest = last = N |
| `Recovery.CachedIdsReload` | kvbc/src/merkle_tree_db_adapter.cpp:232-256 | on a gap-free chain the load functions recompute the cached genesis and last ids |
| `Recovery.DeleteKeepsIds` | kvbc/src/merkle_tree_db_adapter.cpp:645-674 | deleting at either end keeps the block nodes exactly [genesis, last] |
| `Recovery.AddKeepsSync` | kvbc/src/merkle_tree_db_adapter.cpp:484-505 | after a block is added the cached root is the one a restart would read |
| `Recovery.OpenIsIdentity` | kvbc/src/merkle_tree_db_adapter.cpp:135-165 | constructing an adapter on the database of a settled one gives back its state |
| `Recovery.OpenAbsorbs` | kvbc/src/merkle_tree_db_adapter.cpp:135-165 | constructing an adapter on an interrupted state finishes the linking |
| `Recovery.CrashWhileLinking` | kvbc/src/merkle_tree_db_adapter.cpp:540-560 | a crash after any number of link transactions of an addRawBlock, followed by construction, ends in the state of the uninterrupted call whenever the block that closed the gap left the cached root in step with the database, also when it was not before |
| `Crashes.SyncedAfterAdd` | kvbc/src/merkle_tree_db_adapter.cpp:407-420 | after a block on a represented chain the cached root is the one the database leads to if and only if it was so before or the block made the adapter read the root |
| `Crashes.CrashWhileLinkingExact` | kvbc/src/merkle_tree_db_adapter.cpp:540-560 | hence on every represented chain such a crash is recovered from if and only if the cached root was the chain's or the block that closed the gap made the adapter read it |
| `Crashes.LostRootNotOpened` | kvbc/src/merkle_tree_db_adapter.cpp:449-466 | the failing case: after any number of link transactions construction fails, because the root of the recorded version is not stored |
| `Crashes.OpenKeepsBookkeeping` | kvbc/src/merkle_tree_db_adapter.cpp:135-165 | whatever a crash inside addRawBlock left, an adapter that opens on it has block nodes exactly [genesis, last] and no block left to link |
| `Crashes.RestartsAreOne` | kvbc/src/merkle_tree_db_adapter.cpp:513-560 | crashes of the constructor itself, after any number of its link transactions and any number of times, make no difference to the start that ends: same state, same error |
| `Crashes.RestartsKeepBookkeeping` | kvbc/src/merkle_tree_db_adapter.cpp:135-165 | and whatever was on disk, the adapter that opens in the end has block nodes exactly [genesis, last] and no block left to link |
| `Witnesses.CrashRun` | kvbc/src/merkle_tree_db_adapter.cpp:540-560 | from the empty database: after two blocks, a rollback and a received block that leaves the tree alone the call succeeds, but after a crash the adapter does not open |
| `AdapterRuns.BookkeepingOnEveryRun` | kvbc/src/merkle_tree_db_adapter.cpp:484-674 | over every run, with crashes after any number of link transactions of an addRawBlock or of a constructor, in which addBlock is not called while temporary blocks wait: every temporary id exceeds last+1 and the latest one is cached, besides what `EveryRun.IdsOnEveryRun` says of every run |
| `AdapterRuns.CleanRunsRefine` | kvbc/src/merkle_tree_db_adapter.cpp:484-674 | every run of adds, raw blocks, prunes, rollbacks, restarts and crashes inside addRawBlock and the constructor whose calls meet stated pre-call conditions never aborts and ends in the database that an abstract list of blocks determines |
| `AdapterRuns.CleanRollbackExact` | kvbc/src/merkle_tree_db_adapter.cpp:645-661 | what the run asks of a rollback, read off the last block's node and the stored keys, is exactly the condition under which the rollback leaves no trace |
| `AdapterRuns.ReachableStates` | kvbc/src/merkle_tree_db_adapter.cpp:180-360 | in every state such a run reaches from an empty database, reads agree with the history of the abstract list, and raw blocks and parent digests are those of its blocks; what needs no condition is stated by `EveryRun.HashChainOnEveryRun` |
| `AdapterRuns.ImportReproducesExport` | kvbc/src/merkle_tree_db_adapter.cpp:562-603 | the case of an exporter whose database represents a chain: importing in any order its raw blocks 1..N reproduces its database; `Import.ImportIff` treats every exporter |
| `Import.ImportIff` | kvbc/src/merkle_tree_db_adapter.cpp:562-603 | for every exporter whose database is in order and whose block 1 is not pruned: importing its raw blocks 1..N in any order never fails, gives last = N and no temporary block, each imported block is the closed form `ImportedRaw`, and every block comes out as exported if and only if each delete of the list is of a provable key that an earlier block of the list updated and each state hash is that of replaying the list up to its block |
| `Import.RunImportIff` | kvbc/src/merkle_tree_db_adapter.cpp:562-603 | hence for every run from the empty database that ends with block 1 on the chain, crashes and rollbacks included |
| `Import.GrowingRunImported` | kvbc/src/merkle_tree_db_adapter.cpp:362-442 | every run without block deletions, whatever keys it deletes and however it crashes, is imported in any order to the same database, ids and cached tree |
| `Import.ImportedIffReplays` | kvbc/src/merkle_tree_db_adapter.cpp:289-341 | for any hash-chained list of blocks whose deletes are provable and not updated: the blocks an importer stores are the list itself if and only if the list replays |
| `Import.ImporterStep` | kvbc/src/merkle_tree_db_adapter.cpp:362-442 | what an importer stores for the next block: its updates, of its deletes those that an earlier block wrote, the digest of what was stored before, and the state hash of the replayed values |
| `Import.ExportShaped` | kvbc/src/merkle_tree_db_adapter.cpp:289-360 | the raw blocks of any exporter are such a list: hash chained from the digest of no block, deletes provable and disjoint from updates |
| `Export.ImportExact` | kvbc/src/merkle_tree_db_adapter.cpp:407-420 | one block on a represented chain, under whatever cached root: imported in any order, it comes out as exported if and only if it made the exporter read its root or the cached tree held the chain's values, and the databases are the same if and only if it read its root or the cached tree was the chain's |
| `Witnesses.ImportRun` | kvbc/src/merkle_tree_db_adapter.cpp:407-420 | the failing case from the empty database: after two writes of a key and a rollback, an empty block is exported with the state hash of the tree that was rolled back, and its import differs |
| `Witnesses.StrayImportRun` | kvbc/src/merkle_tree_db_adapter.cpp:386-403 | a second failing case from the empty database: after two blocks, pruning, a rollback and a block that deletes the pruned key, the exported block 1 lists the delete, and its import lists none |
| `Adapter.DBAdapter.constructor` | kvbc/src/merkle_tree_db_adapter.cpp:135-143 | the cached ids are those loaded from the database |
| `Adapter.DBAdapter.Start` | kvbc/src/merkle_tree_db_adapter.cpp:144-165 | construction fails with the error of the root, then on non-provable keys of different lengths; otherwise it ends in the loaded state or, when asked to link, in the specified opening |
| `Adapter.DBAdapter.CheckNonProvableKeys` | kvbc/src/merkle_tree_db_adapter.cpp:149-156 | the loop accepts the non-provable keys if and only if all have one length |
| `Adapter.DBAdapter.SplitToProvableAndNonProvable` | kvbc/src/merkle_tree_db_adapter.cpp:119-132 | the two parts are disjoint, complete and divided by the non-provable set |
| `Adapter.DBAdapter.StampDeletes` | kvbc/src/merkle_tree_db_adapter.cpp:386-403 | exactly the deleted keys that have a leaf are stamped, each at its newest leaf, and reported |
| `Adapter.DBAdapter.BatchToDbUpdates` | kvbc/src/merkle_tree_db_adapter.cpp:59-91 | the writes are exactly the new items of the tree and the index of those the update dropped |
| `Adapter.DBAdapter.NonProvableUpdates` | kvbc/src/merkle_tree_db_adapter.cpp:422-433 | each pair is written at the block, and the entry it supersedes is indexed as stale |
| `Adapter.DBAdapter.LastReachableBlockDbUpdates` | kvbc/src/merkle_tree_db_adapter.cpp:362-442 | the loops build the specified batch and tree, with the same errors |
| `Adapter.DBAdapter.AddBlock` | kvbc/src/merkle_tree_db_adapter.cpp:484-505 | the new state is the specified one; on an error nothing changed |
| `Answers.AddFailsIff` | kvbc/src/merkle_tree_db_adapter.cpp:362-384 | on any database in order addBlock fails if and only if it is asked to delete a non-provable key, or reads the latest root and that is not stored; both are runtime errors |
| `Adapter.DBAdapter.LinkSTChainFrom` | kvbc/src/merkle_tree_db_adapter.cpp:513-560 | the loop ends in the specified state, or with the error of the block that failed |
| `Adapter.DBAdapter.AddRawBlock` | kvbc/src/merkle_tree_db_adapter.cpp:562-603 | existing ids are refused, the next one is added and linked, others wait; only a failed link ends the process |
| `Answers.AddRawExact` | kvbc/src/merkle_tree_db_adapter.cpp:562-603 | addRawBlock refuses an id with invalid_argument if and only if it is at most the last; beyond the next place the block waits and the chain stays; at the next place the error is that of addBlock or a failed link |
| `Adapter.DBAdapter.LastReachableBlockKeyDeletes` | kvbc/src/merkle_tree_db_adapter.cpp:717-745 | of the stored keys exactly those that belong to the last block are collected |
| `Adapter.DBAdapter.DeleteLastReachableBlock` | kvbc/src/merkle_tree_db_adapter.cpp:645-661 | the new state is the specified rollback; a missing node changes nothing |
| `Adapter.DBAdapter.GenesisBlockKeyDeletes` | kvbc/src/merkle_tree_db_adapter.cpp:747-773 | of the stored keys exactly the block node, the index entries of its version and block, and what they point to are collected |
| `Adapter.DBAdapter.DeleteGenesisBlock` | kvbc/src/merkle_tree_db_adapter.cpp:663-674 | the new state is the specified pruning |
| `Answers.PruneFailsIff` | kvbc/src/merkle_tree_db_adapter.cpp:663-674 | pruning is refused, as a failed assertion, if and only if the chain is empty or has one block |
| `Answers.RollbackNeverFails` | kvbc/src/merkle_tree_db_adapter.cpp:645-661 | a rollback never fails and leaves the cached tree; of an empty chain it does nothing, and of the only block it resets both ids |
| `Adapter.DBAdapter.DeleteBlock` | kvbc/src/merkle_tree_db_adapter.cpp:605-643 | missing ids are ignored, temporary blocks forgotten, both ends deleted, the only block and the middle refused |
| `Answers.DeleteBlockExact` | kvbc/src/merkle_tree_db_adapter.cpp:605-643 | of the ids up to the latest known one deleteBlock refuses with invalid_argument exactly those below the last block other than the genesis block, and with logic_error exactly the only block; any other block is removed, from the chain or from those waiting, and no other is |
| `Answers.DeletedIsGone` | kvbc/src/merkle_tree_db_adapter.cpp:605-643 | while no block can be linked: 1 <= id < last, id != genesis is invalid_argument, id == genesis == last is logic_error, and after every other call block id is stored nowhere |
| `Adapter.DBAdapter.RawBlockOf` | kvbc/src/merkle_tree_db_adapter.cpp:289-341 | the loop over the node's keys rebuilds the specified raw block or fails as specified |
| `Answers.RawBlockComplete` | kvbc/src/merkle_tree_db_adapter.cpp:303-341 | on any database, whatever is missing in it, a raw block that is returned has exactly the keys of its node, a value for every key not flagged as deleted, and the digest and state hash of the node; anything else aborts |
| `ByteOrder.BigEndianOrder` | kvbc/include/merkle_tree_serialization.h:59-70 | big-endian integers of one width compare bytewise as the integers do |
| `ByteOrder.LessFields` | kvbc/include/merkle_tree_serialization.h:59-70 | strings of fixed-width fields compare field by field |
| `KeyCodec.EncodingIsOrderEmbedding` | kvbc/src/merkle_tree_key_manipulator.cpp:41-73 | for all keys, bytewise order equals the order by type, subtype and fields, and bytes are equal only for equal fields |
| `KeyCodec.NonProvableOrderExact` | kvbc/src/merkle_tree_key_manipulator.cpp:41-43 | two non-provable keys are ordered by key and block for all block ids if and only if neither continues the other (save by eight 255 bytes); keys of one length always are |
| `KeyCodec.UnsafePairMisordered` | kvbc/src/merkle_tree_key_manipulator.cpp:41-43 | the failing family: for every other pair of keys two block ids whose entries are out of order |
| `KeyCodec.ExtractorsInvert` | kvbc/src/merkle_tree_key_manipulator.cpp:75-145 | every extractor returns the field its generator wrote, for every key |
| `ByteQueries.SeekLeafIsNewest` | kvbc/src/merkle_tree_db_adapter.cpp:775-786 | the seek finds exactly the newest leaf of the key at or below the version, among all keys of the database, and never aborts |
| `ByteQueries.SeekNonProvableIsNewest` | kvbc/src/merkle_tree_db_adapter.cpp:167-178 | with keys of one length the seek finds the last block that wrote the key, at or below the bound |
| `ByteQueries.UnequalLengthsMiss` | kvbc/src/merkle_tree_db_adapter.cpp:149-156 | why one length is required: an entry that is there is missed |
| `ByteQueries.SeekBlockIsNewest` | kvbc/src/merkle_tree_db_adapter.cpp:190-201 | the seek finds the newest block node at or below the version |
| `ByteQueries.SeeksLoadIds` | kvbc/src/merkle_tree_db_adapter.cpp:232-270 | the three load functions find the first block, the last block and the latest temporary block |
| `ByteQueries.KeysForVersion` | kvbc/src/merkle_tree_db_adapter.cpp:98-115 | the walk returns an ascending, gap-free run of keys of the version that ends at the first other key; it fails only on a key that cannot be read |
| `ByteQueries.KeysOfVersion` | kvbc/src/merkle_tree_db_adapter.cpp:689-715 | for internal keys and both stale indexes the walk returns exactly the stored keys of the version |
| `ByteReads.BytesRead` | kvbc/src/merkle_tree_db_adapter.cpp:180-219 | getValue on the bytes (seeks, version field, leaf decoding) equals getValue on typed keys, for every key and version |
| `ByteReads.BytesReadHistory` | kvbc/src/merkle_tree_db_adapter.cpp:180-219 | hence from the bytes of the database a read at any block of the chain gives what the history says |
| `ByteWrites.EncodeInjective` | kvbc/src/merkle_tree_key_manipulator.cpp:41-73 | two typed keys over keys in use have the same bytes only if they are the same, index entries and their targets included |
| `ByteWrites.EncodeBatch` | kvbc/src/merkle_tree_db_adapter.cpp:362-442 | every batch whose numbers fit their fields has bytes that hold exactly its entries |
| `ByteWrites.AddKeepsStores` | kvbc/src/merkle_tree_db_adapter.cpp:484-505 | putting the bytes of addBlock's batch gives the bytes of the database with the block, and disturbs no other key, temporary block or other component |
| `ByteWrites.BytesAfterAdd` | kvbc/src/merkle_tree_db_adapter.cpp:180-219 | after it, reads through the bytes give the history of the longer chain at every version |
| `ByteWrites.LinkKeepsStores` | kvbc/src/merkle_tree_db_adapter.cpp:540-560 | so does the link transaction, which removes the temporary block's bytes and puts the batch |
| `ByteWrites.WaitingKeepsStores` | kvbc/src/merkle_tree_db_adapter.cpp:586-603 | a raw block that has to wait is one put of its encoding, which leaves the chain and gives the bytes of the state with the block waiting |
| `ByteWrites.WaitingReadBack` | kvbc/src/merkle_tree_db_adapter.cpp:293-302 | the stored bytes of a waiting block parse to the updates, deletes, parent digest and state hash it was received with |
| `ByteWrites.LinkFromBytes` | kvbc/src/merkle_tree_db_adapter.cpp:540-560 | the link transaction that parses those bytes links the block as it was received |
| `ByteWrites.LastReachableBlockKeyDeletes` | kvbc/src/merkle_tree_db_adapter.cpp:717-745 | of the stored bytes the collected keys hit exactly those of the keys that belong to the last block |
| `ByteWrites.DeleteLastBytes` | kvbc/src/merkle_tree_db_adapter.cpp:645-661 | deleting them leaves the bytes of the rolled-back database |
| `ByteWrites.GenesisBlockKeyDeletes` | kvbc/src/merkle_tree_db_adapter.cpp:747-773 | of the stored bytes the collected keys, with targets extracted from index entries, hit exactly those that pruning removes |
| `ByteWrites.DeleteGenesisBytes` | kvbc/src/merkle_tree_db_adapter.cpp:663-674 | deleting them leaves the bytes of the pruned database |
| `NodeCodec.MaskBits` | kvbc/include/merkle_tree_serialization.h:187-193 | bit i of the mask is set exactly when slot i holds a child |
| `NodeCodec.NodeRoundTrip` | kvbc/include/merkle_tree_serialization.h:354-388 | every node of 31 slots comes back from its bytes, the empty one from the empty string, and the loop uses up the buffer |
| `Accepted.NodeAccepted` | kvbc/include/merkle_tree_serialization.h:354-388 | the bytes of an internal node are accepted if and only if they are empty or a mask followed by the encodings of exactly the children it names, and are read as those; all others abort |
| `NodeCodec.Serialize` | kvbc/include/merkle_tree_serialization.h:151-210 | appending children and overwriting the mask in place gives the specified bytes |
| `NodeCodec.Deserialize` | kvbc/include/merkle_tree_serialization.h:354-388 | the loop over the slots decodes or aborts as specified on every buffer |
| `BlockCodec.BlockNodeRoundTrip` | kvbc/include/merkle_tree_serialization.h:390-436 | a block node comes back from its bytes whatever order its keys were written in, and so does its version field alone |
| `Accepted.BlockNodeAccepted` | kvbc/include/merkle_tree_serialization.h:390-436 | the bytes of a block node are accepted if and only if they are a head followed by key entries, and are read as those, the first entry of a key counting and any flag but 0 saying deleted; all others abort |
| `BlockCodec.SerializeNode` | kvbc/include/merkle_tree_serialization.h:212-246 | the bytes are the encoding in some order of the keys; it aborts exactly when a key length exceeds 32 bits |
| `BlockCodec.DeserializeNode` | kvbc/include/merkle_tree_serialization.h:390-436 | the loop over the shrinking buffer ends and decodes or aborts as specified |
| `BlockCodec.MerkleDataRoundTrip` | kvbc/include/merkle_tree_serialization.h:438-467 | the state hash and the deleted keys come back if and only if no key is longer than its 32-bit length field can say |
| `Accepted.MerkleDataAccepted` | kvbc/include/merkle_tree_serialization.h:438-467 | user data is accepted if and only if it is a state hash followed by keys, each behind its length, and is read as those; all other data aborts |
| `BlockCodec.SerializeMerkleData` | kvbc/include/merkle_tree_serialization.h:248-267 | the bytes depend on the set of deleted keys only, written in ascending order |
| `BlockCodec.DeserializeMerkleData` | kvbc/include/merkle_tree_serialization.h:438-467 | the loop over the shrinking buffer ends and decodes or aborts as specified |
| `BlockCodec.LeafRoundTrip` | kvbc/include/merkle_tree_serialization.h:477-490 | a leaf value comes back if and only if it is not marked as deleted in block 0 |
| `Accepted.LeafAccepted` | kvbc/include/merkle_tree_serialization.h:477-490 | leaf bytes are refused if and only if they are shorter than the two block ids, and otherwise are the encoding of the leaf they are read as |
| `RawBlockCodec.EntriesTile` | kvbc/src/direct_kv_block.cpp:57-81 | entry i points at the i-th smallest key, its value follows, and the next key or the user data follows that: no gap and no overlap |
| `RawBlockCodec.BlockRoundTrip` | kvbc/src/direct_kv_block.cpp:102-141 | within the 16-bit and 32-bit bounds getData, getParentDigest and getUserData recover what the block was created from |
| `RawBlockCodec.BlockInjective` | kvbc/src/direct_kv_block.cpp:19-94 | blocks are equal as bytes exactly when their contents are |
| `RawBlockCodec.Create` | kvbc/src/direct_kv_block.cpp:19-94 | filling the buffer in place with running index and offset gives the specified block |
| `RawBlockCodec.GetData` | kvbc/src/direct_kv_block.cpp:102-115 | the loop over the entries collects the specified pairs |
| `RawBlockCodec.MerkleBlockRoundTrip` | kvbc/src/merkle_tree_block.cpp:25-45 | updates, deleted keys, parent digest and state hash all come back through both layers |
| `DirectKeys.BeforeIsStrictOrder` | kvbc/src/direct_kv_db_adapter.cpp:110-165 | the order by type and fields, with block ids descending within a data key and ascending for block keys, is a strict total order |
| `DirectKeys.ComparatorIsTotalOrder` | kvbc/src/direct_kv_db_adapter.cpp:110-165 | on generated keys the comparator never aborts, its sign is that order, and it is zero only on equal keys |
| `DirectKeys.CutCompare` | kvbc/src/direct_kv_db_adapter.cpp:313-339 | comparing the common length and then the lengths is the lexicographic order |
| `DirectKeys.IllFormedKeysCollapse` | kvbc/src/direct_kv_db_adapter.cpp:214-222 | longer strings ending in a block id compare as equal to its block key, so the generated form is needed |
| `DirectAdapter.DBAdapter.AddRawBlock` | kvbc/src/direct_kv_db_adapter.cpp:444-463 | for any arrival order the kept id is the largest N with blocks 1..N present, and the latest id the largest present |
| `DirectAdapter.DBAdapter.AddBlock` | kvbc/src/direct_kv_db_adapter.cpp:387-407 | adding behind later blocks breaks the kept ids, and only that does |
| `DirectAdapter.ScanBlockKeys` | kvbc/src/direct_kv_db_adapter.cpp:613-638 | the ordered scan returns the largest N with blocks 1..N present |
| `DirectAdapter.DBAdapter.FetchLastReachableBlockId` | kvbc/src/direct_kv_db_adapter.cpp:613-638 | a restart computes the id that was kept |
| `DirectAdapter.AddRawBlocks` | kvbc/src/direct_kv_db_adapter.cpp:409-464 | the kept ids are right after any sequence of raw blocks |
| `StateSync.ExecuteBasedOnBftSeqNum` | kvbc/src/replica_state_sync_imp.cpp:59-98 | the loop returns, throws and leaves the chain as specified: at most max blocks go, one more throws |
| `StateSync.ExecuteBasedOnBlockId` | kvbc/src/replica_state_sync_imp.cpp:100-144 | the loop returns, throws and leaves the chain as specified: reaching max throws even when nothing is left to remove |
| `StateSync.Execute` | kvbc/src/replica_state_sync_imp.cpp:29-57 | the first run goes by sequence number and persists the block id it leaves, later runs go by block id |
| `StateSync.SeqNumSyncIsExact` | kvbc/src/replica_state_sync_imp.cpp:59-98 | a normal return removes exactly the trailing blocks above the last executed number, and a second run nothing |
| `StateSync.BlockIdSyncIsExact` | kvbc/src/replica_state_sync_imp.cpp:100-144 | a normal return removes exactly the blocks beyond the persisted id |
| `StateSync.SeqNumSyncFailsIff` | kvbc/src/replica_state_sync_imp.cpp:59-98 | the sync is skipped while nothing was executed, throws a runtime error if and only if more blocks than the limit are above, and a logic error if and only if all blocks are and the limit allows to remove them |
| `StateSync.BlockIdSyncFailsIff` | kvbc/src/replica_state_sync_imp.cpp:100-144 | a limit of 0 turns it off; it throws a runtime error if and only if it has to remove as many blocks as the limit, and a logic error if and only if it reaches the only block before that |
| `StateSync.SecondRunRemovesNothing` | kvbc/src/replica_state_sync_imp.cpp:29-57 | after any normal return the next run removes nothing |
| `StateSync.LimitsDiffer` | kvbc/src/replica_state_sync_imp.cpp:78-142 | with exactly max blocks to remove, one loop returns and the other throws after removing them |
| `StateSync.PersistedPrefixSurvives` | kvbc/src/Replica.cpp:133-137 | in every run of adding, pruning, persisting, crashing and starting again, syncs that throw included and under any limit, blocks up to the persisted id and the genesis block stay; a sync that lets the replica come up leaves exactly those up to the persisted id unless the limit is 0 |
| `StateSync.StartsComeUpIffPersisted` | kvbc/src/replica_state_sync_imp.cpp:104-131 | starting again and again, on a pruned chain or not, brings the replica up if and only if the genesis block is persisted, there is none, or the limit is 0; what is left are the persisted blocks, all of them under a limit of 0, or else those up to the genesis block for ever |
| `PruningAgreement.Verify` | kvbc/src/pruning_handler.cpp:69-102 | accepted if and only if a non-replica sent it with positive parameters and the replies name every replica exactly once with valid signatures |
| `PruningAgreement.AgreedPrunableBlockId` | kvbc/src/pruning_handler.cpp:204-210 | the result is the smallest reply, and there is none only for no replies |
| `PruningAgreement.Chain.PruneThroughBlockId` | kvbc/src/pruning_handler.cpp:212-240 | blocks up to the id go; reaching the last block ends the process |
| `PruningAgreement.GenuineReplyKeepsBlocks` | kvbc/src/pruning_handler.cpp:196-210 | a replica whose own reply is genuine keeps its blocks whatever the others replied |
| `PruningAgreement.LatestBasedOnNumBlocksConfig` | kvbc/src/pruning_handler.cpp:196-202 | the reply for last block n is n minus the blocks to keep, and 0 when there are not that many |
| `PruningAgreement.SlowestDecides` | kvbc/src/pruning_handler.cpp:204-210 | with genuine replies the agreed block is the reply of the replica that was furthest behind |
| `PruningAgreement.PrunedToExactlyKeep` | kvbc/src/pruning_handler.cpp:196-232 | in a run of reply, added blocks and prune each replica is left with exactly the blocks to keep plus those it is ahead of where the slowest was, or all it had if fewer; the slowest, with none added, with exactly the blocks to keep |
| `PruningAgreement.NothingToPrune` | kvbc/src/pruning_handler.cpp:196-202 | a replica with at most the blocks to keep makes every replica prune nothing |
| `PruningAgreement.BlocksToKeepSurvive` | kvbc/src/pruning_handler.cpp:196-240 | in every run of growth, replies and accepted requests, for any numBlocksToKeep, such a replica survives if and only if no request asks for the block that is then its last, which cannot happen while at least one block is to be kept; once it has pruned it holds its last numBlocksToKeep blocks |
| `PruningAgreement.DefaultKeepsNothing` | bftengine/include/bftengine/ReplicaConfig.hpp:153 | with the default of 0, a reply followed by the request built on it ends the process if and only if no replica is behind and no block was added in between |
| `TlsFraming.HeaderRoundTrip` | communication/src/AsyncTlsConnection.cpp:181-197 | size and endpoint come back from the header |
| `TlsFraming.WriteKeepsOrder` | communication/src/AsyncTlsConnection.cpp:229-250 | a new message goes out at once or waits behind all accepted ones; the write in flight is not replaced |
| `TlsFraming.OnWrittenKeepsOrder` | communication/src/AsyncTlsConnection.cpp:273-275 | when its swap succeeds, the completion handler sends the first waiting message next, and something is in flight exactly when one was waiting |
| `TlsFraming.WriteOkUnlessSpuriousWhenIdle` | communication/src/AsyncTlsConnection.cpp:229-248 | a write of a new message keeps the sender in order if and only if the swap does not fail spuriously while nothing is in flight |
| `TlsFraming.SpuriousFailureReorders` | communication/src/AsyncTlsConnection.cpp:233-248 | why the swap must not fail spuriously: a message then waits with nothing in flight and is overtaken |
| `TlsFraming.CompletionOkUnlessSpuriousWhenWaiting` | communication/src/AsyncTlsConnection.cpp:271-275 | a completion keeps the sender in order if and only if its swap does not fail spuriously while messages wait |
| `TlsFraming.SpuriousCompletion` | communication/src/AsyncTlsConnection.cpp:233-248 | a spurious failure there sends nothing: the next message goes to the back, or is dropped exactly when those behind it exceed the limit |
| `TlsFraming.CompletionReorders` | communication/src/AsyncTlsConnection.cpp:271-275 | the failing case: three accepted messages go out in the opposite order |
| `TlsFraming.CompletionLoses` | communication/src/AsyncTlsConnection.cpp:271-275 | the failing case: an accepted message is gone |
| `TlsFraming.MessagesArriveInOrder` | communication/src/AsyncTlsConnection.cpp:44-144 | for every interleaving of sends, completions and reads of any size in which swaps fail spuriously only where that has no effect: one write in flight, waiting only behind one, queued bytes the sum of sizes and at most one message over the limit, and the receiver delivers the accepted messages in order, none longer than its buffer, all of them once it has taken what was sent; it stops if and only if it has read the whole header of a message longer than its buffer |
| `TlsConnection.WriteQueue.PushMsg` | communication/src/TlsWriteQueue.h:57-66 | a message is dropped exactly when the queue is over its limit; queued bytes stay the sum of sizes |
| `TlsConnection.WriteQueue.Pop` | communication/src/TlsWriteQueue.h:68-78 | first in, first out; queued bytes stay the sum of sizes |
| `TlsConnection.WriteQueue.Clear` | communication/src/TlsWriteQueue.h:80-83 | the queue is empty and its bytes are zero |
| `TlsConnection.AsyncTlsConnection.WriteMsg` | communication/src/AsyncTlsConnection.cpp:229-250 | with two swaps either of which may fail spuriously the new sender state is the specified one, and nothing happens once disposed |
| `TlsConnection.AsyncTlsConnection.OnWriteDone` | communication/src/AsyncTlsConnection.cpp:256-276 | the completion handler takes the specified step |
| `TlsConnection.AsyncTlsConnection.OnHeaderRead` | communication/src/AsyncTlsConnection.cpp:44-101 | header bytes accumulate across short reads; a complete header starts the body or disposes of the connection |
| `TlsConnection.AsyncTlsConnection.OnBodyRead` | communication/src/AsyncTlsConnection.cpp:105-144 | the message is delivered with the endpoint of its header |
| `EpochProtocol.EpochsGrow` | kvbc/src/reconfiguration_kvbc_handler.cpp:58-124 | along the chain epochs never decrease, and grow exactly where a block starts an epoch |
| `EpochProtocol.StopPointIsAhead` | bftengine/src/bftengine/ControlStateManager.cpp:32-40 | the stop is a multiple of the window in (seq+W, seq+2W] |
| `EpochProtocol.StopArmedExactly` | kvbc/src/Replica.cpp:210-241 | startup arms the stop exactly when no block after the latest wedge block starts an epoch |
| `EpochProtocol.RestartWedgesExactly` | kvbc/src/Replica.cpp:210-241 | on every run a restart wedges the replica if and only if no new epoch follows the latest wedge block and the last executed number is the multiple of the window in (seq + W, seq + 2W] of that block |
| `EpochProtocol.WedgedExactly` | kvbc/src/Replica.cpp:233-240 | over every run without install commands: executing wedges exactly at that number, only a supported unwedge without restart frees, and nothing else changes it |
| `EpochProtocol.CommandStops` | kvbc/src/reconfiguration_kvbc_handler.cpp:618-752 | which commands leave the stop on the chain, which arm it in memory only, and which do neither |
| `EpochProtocol.RestartStartsEpochIffAsked` | kvbc/src/Replica.cpp:242-279 | on every run a restart starts the next epoch if and only if a supported unwedge with restart reached the wedged replica since its last startup; the new epoch is persisted, disarms the stop and frees the replica |
| `EpochProtocol.UnwedgeStartsEpoch` | kvbc/src/reconfiguration_kvbc_handler.cpp:1003-1043 | a supported unwedge raises the epoch by one and disarms the stop, at once without restart and in the next startup with it |
| `EpochProtocol.EveryRunIsWellFormed` | kvbc/src/Replica.cpp:210-344 | in every run of commands, unwedges, executions, persists and restarts, interrupted ones included, whose state sync may remove blocks not persisted: wedge blocks carry their epoch, epochs never decrease, and the next restart keeps the persisted blocks and arms the stop as stated |
| `EpochProtocol.StopSurvivesRestarts` | kvbc/src/Replica.cpp:210-241 | without install commands the stop in memory is at all times the one the chain tells, and a restart whose sync removes no block that wedges or starts an epoch leaves it as it is |
| `EpochProtocol.InstallStopIsForgotten` | reconfiguration/src/reconfiguration_handler.cpp:215-226 | the stop of an install command survives a restart only if the chain asks for the same one |
| `EpochProtocol.Replica.HandleCommand` | kvbc/src/reconfiguration_kvbc_handler.cpp:618-752 | the handlers of reconfiguration commands take the specified step |
| `EpochProtocol.Replica.PersistNewEpochBlock` | kvbc/src/reconfiguration_kvbc_handler.cpp:112-124 | the block carries the next epoch, which becomes the replica's |
| `EpochProtocol.Replica.HandleUnwedge` | kvbc/src/reconfiguration_kvbc_handler.cpp:1003-1043 | a wedged replica starts a new epoch, or asks for one at restart, exactly when enough valid signatures of its epoch are there |
| `EpochProtocol.Replica.HandleNewEpochEvent` | kvbc/src/Replica.cpp:242-279 | the epoch of the chain is taken over, after a new-epoch block when one was asked for |
| `EpochProtocol.Replica.HandleWedgeEvent` | kvbc/src/Replica.cpp:210-241 | the stop is armed, and the replica wedged when it is already there, as specified |
| `EpochProtocol.Replica.Start` | kvbc/src/Replica.cpp:323-344 | a restart is the loss of memory and the removal of unpersisted blocks followed by the two events in this order |
| `Ticks.AtMostOne` | ccron/src/ticks_generator.cpp:85-112 | a component has at most one tick in the external queue and the pending requests together, and an internal tick sends exactly when it has none |
| `Ticks.NeverTwoTicks` | ccron/src/ticks_generator.cpp:85-137 | this holds after every interleaving of internal ticks, queue pops and executions |
| `Ticks.NoTickIsLost` | ccron/src/ticks_generator.cpp:85-137 | over every run each internal tick of a component with none on its way sends one, and every tick sent is executed or still on its way |
| `Ticks.TickLeavesOne` | ccron/src/ticks_generator.cpp:85-112 | an internal tick leaves its component with exactly one tick on its way and the others with what they had |
| `Ticks.PopMoves` | ccron/src/ticks_generator.cpp:114-117 | popping a tick moves it from the queue to the pending requests; the total stays |
| `Ticks.TicksGenerator.OnInternalTick` | ccron/src/ticks_generator.cpp:85-112 | the tick is sent or dropped as specified |
| `Ticks.TicksGenerator.SendClientRequestMsgTick` | ccron/src/ticks_generator.cpp:126-137 | the request is queued and recorded in both tables |
| `Ticks.TicksGenerator.PopTick` | ccron/src/ticks_generator.cpp:114-117 | popping frees the component in the queue table and registers its request |
| `Cron.PeriodsApart` | ccron/src/periodic_action.cpp:44-82 | whatever times ticks carry, consecutive executions of an entry not removed in between are at least its period apart |
| `Cron.FiresAtFirstDueTick` | ccron/src/periodic_action.cpp:47-66 | an entry runs again at a tick exactly when the tick is at or past one period after its last execution |
| `Cron.AddedEntryFires` | ccron/src/periodic_action.cpp:47-66 | an entry that is added runs at the first tick with a time unless it is still scheduled for later |
| `Cron.RemovedEntryFiresAgain` | ccron/src/periodic_action.cpp:76-81 | an entry that is removed is forgotten in memory and on the page, and added again runs at the next tick with a time and at none without |
| `Cron.RemovedPersistForgets` | ccron/src/periodic_action.cpp:84-97 | removing the saving entry empties the page, so that after a restart every entry runs at its next tick with a time |
| `Cron.SavedUnlessLaterEntryMoves` | ccron/src/periodic_action.cpp:84-97 | an evaluation leaves the page equal to the schedule if and only if every entry positioned after the saving one that fires is scheduled again for the time it had; it leaves a save pending if and only if such an entry fires |
| `Cron.SavedUnlessLaterEntryFires` | ccron/src/periodic_action.cpp:84-97 | when later entries have positive periods, the page stays equal to the schedule if and only if none of them fires |
| `Cron.LateEntryRepeats` | ccron/src/periodic_action.cpp:84-97 | the failing case: the page differs from the schedule, and after a restart the entry runs again before its period is over |
| `Cron.LateEntryUnmoved` | ccron/src/periodic_action.cpp:84-97 | an entry with period zero can fire behind the saving one and leave the page equal |
| `Cron.ScheduleSurvivesRestarts` | ccron/src/periodic_action.cpp:44-97 | with the saving entry last the page equals the schedule in memory after every event, and periods hold across restarts |
| `Cron.CronTable.EvaluateTick` | ccron/src/cron_table.cpp:60-70 | the loop over the positions takes the specified step, and ticks of other components none |
| `Cron.CronTable.RemoveCronEntry` | ccron/src/cron_table.cpp:22-33 | the entry, its schedule and the page change as specified; a missing position changes nothing |
| `Cron.CronTable.AddCronEntry` | ccron/src/cron_table.cpp:20 | an entry at a free position is added; a taken position keeps its entry |

## Left out

- The hashing and batching inside the sparse Merkle tree: a stored node holds the leaves and nodes below its path with their versions, not the hashes of its children, and its bytes are not tied to that.
- Block ids and versions that wrap around at 64 bits: ids grow without bound in the typed model, and the byte modules require them to fit.
- RocksDB, S3 and in-memory clients, their I/O errors and the metadata-table mode of the direct adapter: reads and atomic writes succeed.
- RawBlockCodec.Create: more than 32767 elements or blocks of 2 GiB and more are outside its precondition, because the source's 16-bit index and 32-bit offset then overflow.
- RawBlockCodec.GetData: reading a header or entry beyond the end of a block, which the source does not check, is modelled as an abort.
- ByteQueries.KeysOfVersion: bytes of internal nodes are not tied to the tree, only their keys; the same holds for `ByteWrites.AddKeepsStores`.
- DirectKeys.ComparatorIsTotalOrder: keys not made by the generators are left to `DirectKeys.IllFormedKeysCollapse`.
- The direct adapter's deleteBlock and getValue: data keys are written with block id 0 and looked up by block id, so there is no clean statement.
- StateSync.Execute: the sequence number a chain reports for each last block is a parameter, not read from block contents.
- PruningAgreement.Verify: whether a signature is valid is a parameter.
- TlsFraming.MessagesArriveInOrder: write errors, timers and disposal by the peer are not modelled, and payloads are shorter than the 32-bit size field can say.
- EpochProtocol.EveryRunIsWellFormed: no pruning and no state transfer, and only the keys of the protocol in a block; which unpersisted blocks the state sync removes is a parameter.
- Ticks.NeverTwoTicks: the timers that produce internal ticks are left out; a popped tick is registered as pending in the same step.
- Cron.ScheduleSurvivesRestarts: actions do not touch the schedule, and one table stands for all that share the page.
- Connection management, certificates, plain TCP and UDP, state snapshots, client reply building, metrics and logging.
