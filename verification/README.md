# A verified model of the go-nebulas core

go-nebulas is a blockchain node. This project models its six cores in Dafny and proves what the rest of the
node relies on:

- **Parallel execution.** A packer runs transactions in prepared multi-version tables, merges them optimistically
  and records dependencies in a graph; a verifier re-executes them in whatever order a dispatcher picks.
  `StagingTable`, `MvccRun` and `MvccStore` model the tables and what they hold, `Dag` and `Dispatcher` the graph and its scheduler, `Serial` what it
  means for transactions to commute, `Packing` and `BlockVerify` the two machines, and `EndToEnd` joins them: every
  interleaving on both sides ends in the same world state and the same trie roots. `Recording` says exactly when a
  verification can fail, and `Refusal` packs a block on which it does.
- **The Merkle Patricia trie** over a content-addressed store, with its iterator, the accounts and events kept in it
  (`TrieTree`, `TrieCanonical`, `TrieStore`, `Trie`, `TrieEntries`, `TrieIterator`, `TrieWalks`, `AccountState`), and the
  encoding its hashes are taken of (`TrieCodec`). The root is a function of the key-value map alone.
- **The canonical chain** (`Chain`), fork choice and the latest irreversible block, LIB (`Dpos`), and minting slots (`Slots`).
- **The transaction pool** (`TransactionPool`) on its sorted slice (`SortedSlice`).
- **SHA-3**: the in-place permutation (`Words`, `Lanes`, `RoundConstants`, `Keccak`, `KeccakBits`) and the buffered hasher (`Sponge`,
  `SpongeBits`, `Sha3`), against FIPS 202 on bit strings.
- **Gas and balances** (`Accounting`) and **message framing** (`NebMessage`, `ReadLoop`).

Objects whose methods update fields are classes; slices, maps and channels they hold are `seq`, `map` and `seq` fields.
Loops over Go maps pick keys in arbitrary order. `Prelude` holds what modules share. `dafny verify dfyconfig.toml` checks the whole project.

## Hypotheses

- The node hash is a parameter without collisions and never empty; `TrieCodec.EncodedHasher` reduces that to the digest
  of bytes. The CRC of messages is a parameter of which nothing is used; of the 32-bit digest of fork choice only that its
  values are finitely many.
- Packing and verifying start from a changelog into which nothing has been merged; the coinbase may be recorded in it.
- Lock-protected sections are single steps. Chain steps (storing blocks, fork choice, updating the LIB) are single steps.
- `Serial.Local`: a transaction's effect depends only on, and changes only, the accounts in its changelog when it merges.
  The changelog is emptied by `Reset` (core/state/world_state.go:328-339), so this is a real hypothesis on transactions.
- The parent table is not written directly while tables are prepared under it.
- All keys of one trie have one length.

## What turned out not to hold

- Verifying a packed block can fail. A transaction that records an account and then resets does not keep it in its
  footprint, so nothing orders it after others that merge that account. `Refusal.PackedThenRefused` packs such a block and
  gives the verifying run that is refused; `MvccRun.LateTouch` is the same at the level of tables. `Recording.WorkersExact` is
  the exact condition on the block: with one worker, which is what the node is set to (core/block.go:48), no run fails; with
  more, none fails exactly when the graph orders every transaction with those that keep an account it may record and
  drop. `BlockVerify.RunOk` says which step of a run it is.
- The last slot is not always one interval before the next slot: `Slots.LastSlotExact` and `Slots.NextSlotExact` give the
  exact times, which are around and before the epoch.
- The fork-choice tie-break compares a 32-bit digest of the hash, so it is not total: digests collide (`Dpos.DigestsCollide`),
  and hashes that do make a chain on which the visiting order decides the tail (`Dpos.Tie`). `Dpos.BestUnique` and
  `Dpos.OrderMatters` are the exact conditions.
- A message name with a zero byte, or reserved bytes that are not three, do not read back: `NebMessage.FieldsRoundTrip`.

## Model

| member | source | states |
|---|---|---|
| TrieCanonical.Unique | common/trie/trie.go:259-615 | Two canonical tries (no empty extension path, an extension always over a branch, a branch with at least two live slots) that answer every key of one length alike are the same trie. |
| TrieCanonical.UpdateCanon | common/trie/trie.go:259-430 | Writing a key of the trie's length into a canonical trie succeeds and gives a canonical trie, through every split of a leaf or an extension. |
| TrieCanonical.UpdateGet | common/trie/trie.go:259-430 | After a write the written key answers the written value and every other key answers as before. |
| TrieCanonical.DeleteCanon | common/trie/trie.go:470-615 | Deleting a present key succeeds and gives a canonical trie again, through both collapses; an absent key is reported not found. |
| TrieCanonical.DeleteGet | common/trie/trie.go:470-615 | After a delete that key is not found and every other key answers as before. |
| TrieStore.HashOfInjective | common/trie/trie.go:155-167 | A root hash determines the whole trie below it, for a hash without collisions. |
| TrieStore.NodeLayout | common/trie/trie.go:97-167 | What is hashed of a node: the byte 1, path and child hash of an extension; the byte 2, path and value of a leaf; the sixteen child hashes of a branch. |
| TrieStore.StoredGrows | common/trie/trie.go:155-167 | A trie that is in the store stays in the store, with the same root, whatever is written later; so every earlier root answers every key as before. |
| TrieStore.UpdateRepresents | common/trie/trie.go:244-257 | A write on a trie that stands for a map gives the trie of the updated map. |
| TrieStore.DeleteRepresents | common/trie/trie.go:456-468 | A delete gives the trie of the map without the key, and fails, changing nothing, exactly when the key is absent. |
| TrieStore.RepresentsUnique | common/trie/trie.go:259-615 | Two tries of one key length are equal exactly when the maps they stand for are. |
| TrieStore.HistoryIndependence | common/trie/trie.go:244-615 | Any two sequences of writes and deletes over keys of one length end in the same root exactly when they end in the same key-value map. |
| TrieCodec.EncodeVarint | common/trie/pb/trie.pb.go:95-103 | Writes the seven-bits-at-a-time form of a number at an offset of the buffer and touches nothing else. |
| TrieCodec.Size | common/trie/pb/trie.pb.go:104-114 | The size computed up front is exactly the length of the encoding. |
| TrieCodec.Marshal | common/trie/pb/trie.pb.go:51-75 | The bytes written are the encoding of the node's fields, filling the buffer exactly. |
| TrieCodec.Unmarshal | common/trie/pb/trie.pb.go:129-207 | The index-driven decoding loop gives the result, or the error, of the recursive decoder. |
| TrieCodec.VarintRoundTrip | common/trie/pb/trie.pb.go:95-103 | A number written in this form is read back, with exactly the bytes after it left over. |
| TrieCodec.TagExact | common/trie/pb/trie.pb.go:150-165 | A tag is taken for the field's exactly when its low 35 bits are those of field one, length-delimited. |
| TrieCodec.RoundTrip | common/trie/pb/trie.pb.go:51-207 | Decoding the encoding of any node whose fields are shorter than 2^63 bytes gives the node back. |
| TrieCodec.EncodeInjective | common/trie/pb/trie.pb.go:61-75 | Different nodes have different encodings. |
| TrieCodec.EncodedHasher | common/trie/trie.go:155-167 | Hashing the encoding with a collision-free digest is a collision-free hash of nodes, which is what the trie theorems ask of their hash. |
| Trie.PrefixLen | common/trie/trie.go:660-671 | Computes the length of the longest common prefix. |
| Trie.RouteOf | common/trie/trie.go:675-683 | Computes the route of a key, two nibbles per byte. |
| Trie.RouteToKey | common/trie/trie.go:687-694 | The key of a route of even length is the one whose route it is. |
| Trie.KeyToRouteInjective | common/trie/trie.go:675-683 | Different keys have different routes. |
| Trie.LenBranch | common/trie/trie.go:712-720 | Counts the live slots of a branch. |
| Trie.Trie.CommitNode | common/trie/trie.go:155-167 | Stores a node under its hash and changes no other entry. |
| Trie.Trie.GetAt | common/trie/trie.go:199-241 | The walk down the stored nodes answers what the trie below the root answers, including each error. |
| Trie.Trie.UpdateAt | common/trie/trie.go:259-287 | The recursive write over stored nodes commits exactly the nodes of the updated trie and returns its root; the store only grows. |
| Trie.Trie.UpdateWhenMeetBranch | common/trie/trie.go:290-301 | The branch case of a write. |
| Trie.Trie.UpdateWhenMeetExt | common/trie/trie.go:306-379 | The extension case of a write: descend on a full match, otherwise split. |
| Trie.Trie.UpdateWhenMeetLeaf | common/trie/trie.go:384-430 | The leaf case of a write: replace on a full match, otherwise split. |
| Trie.Trie.DelAt | common/trie/trie.go:470-545 | The recursive delete over stored nodes commits exactly the nodes of the trie without the key. |
| Trie.Trie.DeleteWhenMeetSingleExt | common/trie/trie.go:548-575 | An extension over a leaf or another extension absorbs it; over a branch it is left alone. |
| Trie.Trie.DeleteWhenMeetSingleBranch | common/trie/trie.go:578-615 | A branch with one live slot is replaced by that slot's subtrie, one nibble longer. |
| Trie.Trie.Put | common/trie/trie.go:244-257 | Sets the root to that of the updated trie and logs the write when logging is on, so that the log leads from where it began to the present trie; a failed write leaves the root. |
| Trie.Trie.Del | common/trie/trie.go:456-468 | Sets the root to that of the trie without the key, and the log leads there; a failed delete leaves the root and logs nothing. |
| Trie.Trie.Get | common/trie/trie.go:195-197 | Answers from the trie of the current root. |
| Trie.Trie.Clone | common/trie/trie.go:618-620 | A new trie on the same root and store, with an empty log. |
| Trie.Trie.Replay | common/trie/trie.go:628-657 | Applies another trie's log in order up to the first entry that fails, empties that log exactly on success, and leaves its own log as it was; replaying the log of a clone gives the clone's root. |
| Trie.LoggedReplays | common/trie/trie.go:628-657 | Repeating a log of writes and deletes from the trie it began with meets no failure and ends in the trie it ended with. |
| AccountState.AccountState.GetAccount | core/state/account_state.go:237-257 | Answers from the dirty accounts first and the trie second, and caches without changing what any address answers. |
| AccountState.AccountState.Flush | core/state/account_state.go:259-273 | Whatever order the dirty accounts are written in, the root becomes that of the one canonical trie of the merged map, and no address answers differently. |
| AccountState.MergedUnique | core/state/account_state.go:259-273 | There is one map that is the stored accounts overwritten with the dirty ones. |
| AccountState.AccountState.Replay | core/state/account_state.go:354-360 | Takes over another state's dirty accounts, address by address. |
| TrieEntries.EntriesAscending | common/trie/iterator.go:148-190 | Listing a trie slot by slot gives its keys in strictly ascending order. |
| TrieEntries.EntriesExact | common/trie/iterator.go:148-190 | The listing holds exactly the keys the trie answers, with their values. |
| TrieEntries.AscendingUnique | common/trie/iterator.go:148-190 | A strictly ascending listing is determined by its members. |
| TrieIterator.ValidElements | common/trie/iterator.go:47-59 | The slots from an offset on that are in use, in ascending order, none missing. |
| TrieIterator.Iterator.Append | common/trie/iterator.go:148-190 | Appending to a slice, in place when its backing array has room, changes no slice that is no longer than it. |
| TrieIterator.Iterator.Extend | common/trie/iterator.go:148-190 | Lengthening the current route leaves every route on the stack as it was, although they share arrays. |
| TrieIterator.Iterator.IntoBranch | common/trie/iterator.go:148-190 | Entering the first live slot and stacking the later ones leaves the entries still to deliver unchanged. |
| TrieIterator.Iterator.Next | common/trie/iterator.go:148-190 | Delivers exactly the next entry in key order, and reports the end exactly when none is left. |
| TrieWalks.GetSubTrie | common/trie/iterator.go:86-131 | Finds the subtrie below a prefix and the route to it, or reports that there is none. |
| TrieWalks.SubTrieExact | common/trie/iterator.go:86-131 | That subtrie holds exactly the entries whose key has the prefix. |
| TrieWalks.NewIterator | common/trie/iterator.go:62-84 | An iterator is refused exactly when no key has the prefix; otherwise it has exactly those entries to deliver, ascending. |
| TrieWalks.Scan | common/trie/iterator.go:62-190 | Iterating a prefix to the end gives exactly the entries whose key has it, each once, in ascending order. |
| TrieWalks.ScanUnique | common/trie/iterator.go:62-190 | That description fixes the sequence. |
| TrieWalks.TraverseDynasty | consensus/dpos/dpos_state.go:285-300 | The dynasty's members come in ascending key order, so every node sees the same order. |
| TrieWalks.BigEndianLess | core/state/world_state.go:144-173 | Big-endian counters of one width order as their numbers. |
| TrieWalks.EventKeyIs | core/state/world_state.go:155-164 | An event's key is the transaction hash followed by its number in eight bytes, most significant first; numbers start at one. |
| TrieWalks.ReplayEvents | core/state/world_state.go:144-173 | Writes a transaction's events under its hash and a counter, leaving every other entry. |
| TrieWalks.FetchEvents | core/state/world_state.go:441-466 | Returns the values under a transaction's hash in key order. |
| TrieWalks.EventsScan | core/state/world_state.go:144-173 | Under a hash that had no events, the scan is the recorded events in recording order. |
| TrieWalks.RecordAndFetch | core/state/world_state.go:441-466 | Recording events and fetching them gives them back in recording order. |
| StagingTable.CheckVersions | common/mvccdb/staging_table.go:217-263 | One pass over the child's keys in any order finds a conflict exactly when some key conflicts, and otherwise the transactions depended on. |
| StagingTable.CopyDirty | common/mvccdb/staging_table.go:265-284 | Copying the dirty items in any order gives the parent's items overwritten with them. |
| StagingTable.StagingTable.Prepare | common/mvccdb/staging_table.go:91-113 | A child table at the parent's current version; refused exactly when one with that id is prepared. |
| StagingTable.StagingTable.GetByKey | common/mvccdb/staging_table.go:121-165 | Looks a key up through the chain of tables, leaving in every table on the way the copy the lookup function puts there. |
| StagingTable.StagingTable.Put | common/mvccdb/staging_table.go:168-177 | Writes a key in the table after looking it up through the chain. |
| StagingTable.StagingTable.Del | common/mvccdb/staging_table.go:180-189 | Marks a key deleted after looking it up through the chain. |
| StagingTable.StagingTable.MergeToParent | common/mvccdb/staging_table.go:206-292 | Without a conflict the dirty items become the parent's one version up and the transactions depended on are returned; with one, nothing changes; without a parent it is refused. |
| StagingTable.FetchReads | common/mvccdb/staging_table.go:121-165 | On a chain of any length a lookup answers with the nearest table's value, deletion mark and version, and when no table holds the key with the stored value exactly when it loads and there is one. |
| StagingTable.FetchRefused | common/mvccdb/staging_table.go:121-165 | It is refused exactly when a strict table on the way was prepared before that value was merged. |
| StagingTable.FetchKeeps | common/mvccdb/staging_table.go:121-165 | It disturbs no other key of any table and no item already there. |
| StagingTable.WriteReads | common/mvccdb/staging_table.go:168-189 | A write sets the value and a delete the mark; both make the item dirty and leave its version. |
| StagingTable.MergeableBy | common/mvccdb/staging_table.go:341-371 | A merge goes through exactly when every shared key has the version it was looked up with or, in the compatible mode, says the same in both tables. |
| StagingTable.DependsOn | common/mvccdb/staging_table.go:217-263 | A merge depends on a transaction exactly when that one, and not the parent's owner, wrote an item of a key both tables hold; never in the compatible mode. |
| MvccStore.MergedContents | common/mvccdb/staging_table.go:265-284 | After a merge every key the child wrote has the child's value and deletion mark in the parent, one version up, and every other key is as it was. |
| MvccStore.StepRefines | common/mvccdb/mvccdb.go:271-389 | Every step of the tables is the step of a plain store: writes go to a transaction's buffer, reads see the buffer over the state at Prepare, a merge that succeeds applies the buffer, reset and close drop it. |
| MvccStore.EveryRunValues | common/mvccdb/staging_table.go:206-292 | In every run the root holds, of every key, the value the last merge or direct write that wrote it left. |
| MvccStore.GetReads | common/mvccdb/staging_table.go:116-165 | In every reachable state a transaction reads its own write, or else the value committed when it was prepared, or else what the key was before. |
| MvccStore.FirstRead | common/mvccdb/staging_table.go:121-165 | The first read of a key no table holds returns the stored value exactly when there is one. |
| MvccStore.PutMergeGet | common/mvccdb/staging_table.go:168-292 | A value put and merged is what a transaction prepared afterwards reads. |
| MvccRun.MergeableExact | common/mvccdb/staging_table.go:206-292 | In every reachable state a merge succeeds exactly when no key its table holds was merged since its Prepare. |
| MvccRun.ReadsAreCurrent | common/mvccdb/staging_table.go:206-292 | A merge that succeeds read only values that are the parent's at merge time. |
| MvccRun.DependenciesExact | common/mvccdb/staging_table.go:206-292 | The transactions a merge reports are exactly the last committers of the keys its table holds. |
| MvccRun.FetchExact | common/mvccdb/staging_table.go:121-165 | A lookup from a child fails exactly when the child does not hold the key and it was merged since the child's Prepare. |
| MvccRun.PutExact | common/mvccdb/staging_table.go:168-177 | The same for a write, which otherwise keeps the invariant. |
| MvccRun.PutFrame | common/mvccdb/staging_table.go:168-177 | A write adds one dirty key to its own table and disturbs no other table, key or the history. |
| MvccRun.CheckAndUpdateInv | common/mvccdb/mvccdb.go:309-333 | Merging keeps the invariant that ties every version in every table to the history of merges. |
| MvccRun.StepInv | common/mvccdb/mvccdb.go:271-389 | So does every operation: prepare, read, write, reset, close, merge, and a direct write while nothing is prepared. |
| MvccRun.EveryRun | common/mvccdb/staging_table.go:399-409 | In every run a key's version is the number of successful merges that wrote it. |
| MvccRun.LateTouch | common/mvccdb/staging_table.go:121-165 | A run in which a transaction's write is refused because another one merged that key after both were prepared. |
| Serial.SameOutcome | core/block.go:905-970 | A transaction all of whose earlier conflicts, and no later ones, have run does what it did in packing order. |
| Serial.StepReached | core/block.go:905-970 | Running such a transaction keeps every account, fee and record at its value in packing order cut off at the transactions that touched it. |
| Serial.AllReached | core/block.go:905-970 | Once everything has run the world state is that of packing order. |
| Serial.BlockLeaves | core/state/world_state.go:110-142 | After every transaction of a block, each account is as its last writer left it or as it was, the fees are the sums charged, and each transaction has its own record. |
| Serial.FeesAsPacked | core/state/world_state.go:129-141 | Every sum of fees a merge computes, in whatever order, is one packing computed, so adding fees up overflows on one side exactly where it does on the other. |
| Serial.FeesBounded | core/state/world_state.go:129-141 | Sums of fees stay within the number of transactions times the largest fee. |
| Serial.Stable | core/block.go:905-970 | An account no transaction in a range touches does not change over it. |
| Dag.Dag.AddNode | common/dag/dag.go:174-183 | Adds a node under the next number, or refuses a key that exists; parent counts stay right. |
| Dag.Dag.AddNodeWithIndex | common/dag/dag.go:186-195 | Adds a node under a given number and remembers the number, or refuses a key that exists. |
| Dag.Dag.AddEdge | common/dag/dag.go:198-220 | Adds an edge exactly when both ends exist and it is new; every node's count stays the number of its parents. |
| Dag.ToProto | common/dag/dag.go:66-90 | The message holds each node at its number, with its children's numbers. |
| Dag.FromProto | common/dag/dag.go:93-110 | The graph rebuilt from any message has exactly its nodes, and exactly its edges between nodes it names. |
| Dag.ProtoRoundTrip | common/dag/dag.go:66-110 | A message has an edge between two numbers exactly when the graph has one between the nodes they number. |
| Dag.StuckHasCycle | common/dag/dispatcher.go:184-208 | A non-empty set of nodes each with a parent in the set contains a cycle. |
| Dag.TopologicalNoCycle | common/dag/dispatcher.go:184-208 | A graph whose nodes can be listed after their parents has no cycle. |
| Dispatcher.StartInv | common/dag/dispatcher.go:78-103 | Queueing the roots in any order establishes the dispatcher's invariant. |
| Dispatcher.WithinCapacity | common/dag/dispatcher.go:178-181 | At every moment the queue holds at most as many nodes as the graph, the channel's capacity. |
| Dispatcher.TakeInv | common/dag/dispatcher.go:106-156 | A node taken from the queue was never taken before and all its parents have completed. |
| Dispatcher.CompleteInv | common/dag/dispatcher.go:184-222 | Completing a node never meets a negative count and keeps the invariant. |
| Dispatcher.UpdateExact | common/dag/dispatcher.go:211-222 | Counting a node down fails exactly when its count was not above zero, and queues it exactly when it was one. |
| Dispatcher.UpdateFails | common/dag/dispatcher.go:184-208 | A failed count ends the walk over the children. |
| Dispatcher.VerdictExact | common/dag/dispatcher.go:184-208 | Once as many nodes are complete as were queued the verdict is circular exactly when the graph has a cycle, and otherwise every node has run. |
| Dispatcher.Stopped | common/dag/dispatcher.go:184-208 | When completed equals queued, fewer nodes than the graph mean a cycle, and as many mean every node has run and there is none. |
| Dispatcher.Dispatcher.Run | common/dag/dispatcher.go:78-103 | Sets every count and queues the roots; a graph with nodes and no root is refused, and does have a cycle. |
| Dispatcher.Dispatcher.TakeNode | common/dag/dispatcher.go:106-156 | A worker's receive: the node is new and its parents are complete. |
| Dispatcher.Dispatcher.UpdateDependenceTask | common/dag/dispatcher.go:211-222 | Counts a node down and queues it at zero; a count below zero is reported. |
| Dispatcher.Dispatcher.OnCompleteParentTask | common/dag/dispatcher.go:184-208 | Counts the children down, always with room in the queue, and gives the exact verdict. |
| Packing.SameAtEnd | core/block.go:601-663 | A transaction whose merge succeeds would have done the same at the end of the block. |
| Packing.TouchExact | core/block.go:601-663 | Recording an account that was merged since Prepare and is not held ends the execution; otherwise it is held from now on. |
| Packing.DepsAreLastTouchers | core/block.go:648-655 | The edges a merge adds lead from exactly the last transactions that touched its accounts. |
| Packing.CommitInv | core/block.go:601-663 | A successful merge appends a transaction that runs at the end of the block and links it; a refused one changes nothing. |
| Packing.CommitOutcome | core/block.go:601-663 | A transaction one of whose accounts was merged since Prepare is dropped and the block stands; every other one is appended; either way its table is closed. |
| Packing.LeadsInv | core/block.go:499-663 | Every interleaving of workers preparing, touching, resetting, abandoning and merging keeps the packing invariant. |
| Packing.PackingIsSerial | core/block.go:499-663 | However the packing workers interleave, the packed world state is that of running the block's transactions one after the other in the order they were appended: accounts as their last writers left them, fees as charged, one record each. |
| Packing.ConflictsAreLinked | core/block.go:648-655 | Any two packed transactions with overlapping footprints are joined by a path in the block's graph, earlier to later. |
| BlockVerify.TakenIsReady | core/block.go:919-945 | A transaction the dispatcher hands out has all its earlier conflicts merged and none of its later ones. |
| BlockVerify.RunningOutcome | core/block.go:919-945 | What a transaction does while a block is verified is what it did when the block was packed. |
| BlockVerify.FootprintUntouched | core/block.go:919-945 | No account of a running transaction's footprint is merged between its Prepare and its merge. |
| BlockVerify.MergeSucceeds | core/block.go:938-942 | A verification merge never meets a conflict. |
| BlockVerify.MergeStepExact | core/block.go:938-942 | In any reachable state of the tables a merge is reported good exactly when no account in its table was merged since Prepare, and otherwise changes nothing. |
| BlockVerify.TouchStepInv | core/block.go:934-936 | Recording an account is refused exactly when the final footprint does not keep it, the table does not hold it and it was merged since Prepare. |
| BlockVerify.ResetStepExact | core/state/world_state.go:328-339 | A reset empties the transaction's table and touches nothing else. |
| BlockVerify.StepOk | core/block.go:919-945 | A step of verifying a well-packed block fails exactly when it is such a refused recording. |
| BlockVerify.RunOk | core/block.go:905-970 | A whole verification run fails exactly when it contains a refused recording. |
| BlockVerify.IdleIsFinished | core/block.go:947-970 | When the workers have nothing left to do, every transaction has merged and the world state is that of packing order. |
| Recording.RefusedIsExposed | core/block.go:919-945 | A refused recording is of an account that another transaction keeps, and the graph orders the two neither way. |
| Recording.SafeRun | core/block.go:905-970 | No run fails when the graph orders every transaction with those that keep an account it may record and drop, or when one callback runs at a time. |
| Recording.ExposedFails | core/block.go:905-970 | Where the graph leaves such a pair unordered, two workers can bring both to the same moment and run into the error. |
| Recording.WorkersExact | core/block.go:905-970 | For a bound on the accounts each transaction records: verifying with n workers never fails exactly when n is one, as ParallelNum is, or the graph orders every such pair. |
| EndToEnd.HeaderGraph | common/dag/dag.go:66-110 | The graph a verifier rebuilds from the header is the packed graph by transaction number. |
| EndToEnd.NoCycle | core/block.go:648-655 | The packed graph has no cycle. |
| EndToEnd.PackedIsWellPacked | core/block.go:601-663 | What packing guarantees is what verification needs. |
| EndToEnd.VerifyingReproducesPacking | core/block.go:905-970 | For every interleaving of packers and every interleaving of dispatcher and verifiers, verification fails only through refused recordings, and ends in the packed world state, with every account, fee and record as the block's transactions leave it. |
| EndToEnd.WorkersReproducePacking | core/block.go:905-970 | On any packed block, with n workers and a bound on what is recorded, no verification fails exactly under that condition, and every one that leaves nothing to do ends in the packed world state. |
| Refusal.PackOne | core/block.go:601-663 | A packing worker that records an account, starts over, records what it keeps and merges appends its transaction. |
| Refusal.PackedThenRefused | core/block.go:905-970 | For any two transactions that keep different accounts, the first recording and dropping one the second keeps: a packing run appends both, with no edge between them, and a verifying run of that block is refused. |
| EndToEnd.VerifyingReproducesRoots | core/block.go:905-970 | So the tries over any part of the world state have the same roots after packing and after verifying. |
| Chain.BlockChain.GetBlockOnCanonicalChainByHeight | core/blockchain.go:419-430 | Returns the tail's ancestor of that height, and nothing above the tail or at height zero. |
| Chain.BlockChain.FindCommonAncestorWithTail | core/blockchain.go:465-501 | Finds the fork point of the tail's chain and the block's (or, unstored, its parent's); fails exactly when neither is stored. |
| Chain.ForkIsHighest | core/blockchain.go:465-501 | The fork point is the highest common ancestor: a block is on both chains exactly when it is on the fork point's. |
| Chain.BlockChain.RevertBlocks | core/blockchain.go:302-326 | Fails exactly when the LIB lies above the fork point, and otherwise reverts exactly the blocks above it, newest first; it never misses a parent. |
| Chain.BlockChain.BuildIndexByBlockHeight | core/blockchain.go:353-369 | Enters exactly the new chain's hashes above the fork point and leaves every other height; it never misses a parent. |
| Chain.BlockChain.SetTailBlock | core/blockchain.go:372-416 | Succeeds exactly when the new tail's stored chain holds the LIB; then every height up to the new tail indexes its ancestor; a failure changes nothing. |
| Chain.BlockChain.PutVerifiedNewBlocks | core/blockchain.go:558-581 | Stored blocks stay a tree, every existing chain stays as it is, and the candidates become the new ends without the parent. |
| Chain.Finality | core/blockchain.go:372-416 | In every run of steps a block that was ever the LIB is on the canonical chain ever after and at or below every later LIB. |
| Dpos.ForkChoice | consensus/dpos/dpos.go:174-211 | The tail becomes the highest candidate, of those as high one of largest digest, and the only one whenever none ties with it, unless its chain lacks the LIB, and then nothing changes. |
| Dpos.BestUnique | consensus/dpos/dpos.go:166-171 | A best candidate is the only one exactly when no other candidate has its height and digest. |
| Dpos.BestExact | consensus/dpos/dpos.go:166-171 | A candidate is best exactly when it is at least as high as all and no candidate as high has a larger digest. |
| Dpos.PickBest | consensus/dpos/dpos.go:182-186 | The loop computes the walk over the candidates in their order. |
| Dpos.DetachedTailBlocks | core/blockchain.go:584-594 | Lists every candidate once. |
| Dpos.ChooseIsBest | consensus/dpos/dpos.go:182-186 | The walk ends at a best candidate: the tail when that is one, and otherwise the first best one visited. |
| Dpos.OrderMatters | consensus/dpos/dpos.go:174-211 | The chosen block is the same for every visiting order exactly when the tail is a best candidate or only one candidate is best. |
| Dpos.DigestsCollide | util/byteutils/bytes.go:170-179 | Any digest with finitely many values has the same value at two different hashes. |
| Dpos.Tie | consensus/dpos/dpos.go:174-211 | From any two hashes with one digest: a valid chain with two best candidates, each of them chosen when it is visited first. |
| Dpos.SupportStep | consensus/dpos/dpos.go:214-275 | The proposers counted at a block are those counted above it in the same dynasty, and its own. |
| Dpos.DynastySeconds | consensus/dpos/dpos.go:219-225 | From the epoch on a block's dynasty is its timestamp divided by 3150 seconds. |
| Dpos.DynastyBoundary | consensus/dpos/dpos.go:219-225 | Blocks on either side of a multiple of 3150 seconds are counted in different runs. |
| Dpos.PruneIsSafe | consensus/dpos/dpos.go:226-229 | Where the fast prune stops, no block above the LIB can gather enough proposers. |
| Dpos.UpdateLIB | consensus/dpos/dpos.go:214-275 | Picks the highest block above the LIB at which the distinct proposers since its dynasty run began reach 15, or leaves the LIB when there is none; the new LIB is a strict descendant and on the canonical chain. |
| Dpos.CertificatesOverlap | consensus/dpos/dpos_state.go:41-50 | Two blocks with enough support from one 21-member dynasty share at least nine supporters, whatever chains they are on. |
| Slots.NextSlotExact | consensus/dpos/dpos.go:458-460 | For whole seconds the next slot is the least multiple of 15 seconds not before now, except before the epoch where rounding toward zero moves it. |
| Slots.LeastSlotIsLeast | consensus/dpos/dpos.go:458-460 | A slot less than an interval ahead is the least one. |
| Slots.LastSlotExact | consensus/dpos/dpos.go:454-456 | The last slot is one interval before the next one exactly outside the fourteen seconds up to the epoch. |
| Slots.DeadlineBounds | consensus/dpos/dpos.go:462-469 | The deadline lies between now and the next slot, and within the longest minting time. |
| Slots.CheckDeadlineExact | consensus/dpos/dpos.go:471-485 | By the whole seconds left to the next multiple of fifteen: refused when the tail is on or past it; granted when the tail is fifteen seconds before it or two seconds or less are left, until the slot when five seconds or less are left and for 5250 ms otherwise; and made to wait in every other case. |
| Slots.MintWindow | consensus/dpos/dpos.go:471-485 | At any millisecond minting starts once the slot before is filled or at most 2250 ms are left. |
| Slots.ProposerExact | consensus/dpos/dpos_state.go:220-240 | From the epoch on, the proposer at a slot is the miner numbered by the slot modulo 21, across dynasty boundaries; between slots there is none. |
| Slots.ProposerBeforeEpoch | consensus/dpos/dpos_state.go:220-240 | Before the epoch only slots that start a round have a proposer, the first miner. |
| Slots.EachMinerOnce | consensus/dpos/dpos_state.go:220-240 | Over any 21 consecutive slots each of 21 distinct miners proposes exactly once. |
| Slots.CheckProposerExact | consensus/dpos/dpos.go:487-514 | A miner may propose exactly when the tail is on an earlier slot and the next slot is that miner's; the state then carries that slot. |
| Slots.VerifyBlockExact | consensus/dpos/dpos.go:330-373 | A block is accepted exactly when its two timestamps agree on a slot after the epoch and that slot's miner signed it. |
| Slots.MintedIsVerified | consensus/dpos/dpos.go:471-514 | A block minted by a miner that passed both checks meets every rule of the verifier. |
| SortedSlice.Insert | common/sorted/slice.go:38-67 | The binary search ends at a place where the value fits: the slice with the value spliced in there is sorted. |
| SortedSlice.Remove | common/sorted/slice.go:90-100 | Removes the first occurrence of a value, or nothing when there is none. |
| SortedSlice.Slice.Push | common/sorted/slice.go:38-67 | Splices the value in and keeps the slice sorted. |
| SortedSlice.Slice.PopLeft | common/sorted/slice.go:70-77 | Takes out a least value, or nothing from an empty slice. |
| SortedSlice.Slice.PopRight | common/sorted/slice.go:80-87 | Takes out a greatest value, or nothing from an empty slice. |
| SortedSlice.Slice.Del | common/sorted/slice.go:90-100 | Takes out one occurrence and keeps the slice sorted. |
| TransactionPool.Orderings | core/transaction_pool.go:65-81 | Both comparisons are total preorders. |
| TransactionPool.HeadIsLowest | core/transaction_pool.go:324-348 | A sender's head has the sender's lowest nonce, and the best price among those of that nonce. |
| TransactionPool.TransactionPool.PushTx | core/transaction_pool.go:324-348 | Splices a transaction into its sender's bucket, makes the bucket's head its candidate, and stamps only a new bucket. |
| TransactionPool.TransactionPool.PopTx | core/transaction_pool.go:350-361 | Takes a head out of its bucket and makes the next one the candidate, or drops the empty bucket with its stamp. |
| TransactionPool.TransactionPool.DropTx | core/transaction_pool.go:363-388 | Drops the last transaction of a longest bucket, whatever order the buckets are visited in. |
| TransactionPool.TransactionPool.Push | core/transaction_pool.go:247-322 | Admits or refuses with the first reason that applies, keeps the four structures in agreement, and never leaves more than the pool's size: a full pool takes the transaction in and then drops the last one of a longest bucket. |
| TransactionPool.TransactionPool.Pop | core/transaction_pool.go:417-429 | Takes out a transaction of greatest gas price among all senders' heads; nothing only from an empty pool. |
| TransactionPool.TransactionPool.PopWithBlacklist | core/transaction_pool.go:391-414 | The same among the heads whose sender and receiver are not barred; nothing exactly when all are. |
| TransactionPool.TransactionPool.Del | core/transaction_pool.go:432-483 | Takes out exactly the sender's transactions up to that nonce and leaves every other bucket; a bucket that stays is stamped exactly when something was taken out, and all other stamps stand. |
| TransactionPool.TransactionPool.EvictExpiredTransactions | core/transaction_pool.go:492-530 | Takes out exactly the buckets not updated for longer than the lifetime. |
| Lanes.PlaceStep | crypto/sha3/keccakf.go:39-412 | The place a lane has in the next round is where this round's input to it was: moving the places absorbs the pi step. |
| Lanes.PlaceApart | crypto/sha3/keccakf.go:39-412 | In every round different lanes have different places. |
| RoundConstants.TableIsDerived | crypto/sha3/keccakf.go:10-35 | Every entry of the table is the constant the shift register of section 3.2.5 of FIPS 202 makes for its round. |
| RoundConstants.OffsetValues | crypto/sha3/keccakf.go:48-137 | The rotations of the unrolled rounds are the triangular numbers along the walk of section 3.2.2 of FIPS 202. |
| Keccak.RoundAt | crypto/sha3/keccakf.go:39-412 | One round of theta, rho, pi, chi and iota, lane by lane. |
| Keccak.ColumnPlaced | crypto/sha3/keccakf.go:49-58 | The columns' sums do not depend on the order the lanes lie in. |
| Keccak.Effects | crypto/sha3/keccakf.go:49-58 | The five theta words computed from the array are those of the state it stands for. |
| Keccak.Plane0 | crypto/sha3/keccakf.go:60-73 | Rewrites the five words of one output row, with the round constant, and nothing else of the state. |
| Keccak.Plane1 | crypto/sha3/keccakf.go:75-89 | The second output row. |
| Keccak.Plane2 | crypto/sha3/keccakf.go:91-105 | The third output row. |
| Keccak.Plane3 | crypto/sha3/keccakf.go:107-121 | The fourth output row. |
| Keccak.Plane4 | crypto/sha3/keccakf.go:123-137 | The fifth output row. |
| Keccak.Round1 | crypto/sha3/keccakf.go:48-137 | The first unrolled round, reading lanes at home and leaving them in the first arrangement, is one round of the standard. |
| Keccak.Round2 | crypto/sha3/keccakf.go:139-228 | The second unrolled round, from the first arrangement to the second. |
| Keccak.Round3 | crypto/sha3/keccakf.go:230-319 | The third unrolled round, from the second arrangement to the third. |
| Keccak.Round4 | crypto/sha3/keccakf.go:321-410 | The fourth unrolled round brings every lane home. |
| Keccak.KeccakF1600 | crypto/sha3/keccakf.go:39-412 | The in-place permutation is the 24 rounds of section 3 of FIPS 202 on every state, with round constants and rotations derived as there. |
| KeccakBits.ThetaAgrees | crypto/sha3/keccakf.go:49-58 | Theta on words is theta on the bits of the state (section 3.2.1 of FIPS 202). |
| KeccakBits.RhoAgrees | crypto/sha3/keccakf.go:60-137 | Rho on words is rho on the bits of the state (section 3.2.2). |
| KeccakBits.PiAgrees | crypto/sha3/keccakf.go:60-137 | Pi on words is pi on the bits of the state (section 3.2.3). |
| KeccakBits.ChiAgrees | crypto/sha3/keccakf.go:69-73 | Chi on words is chi on the bits of the state (section 3.2.4). |
| KeccakBits.IotaAgrees | crypto/sha3/keccakf.go:10-35 | Iota on words is iota on the bits of the state (section 3.2.5). |
| KeccakBits.PermutationAgrees | crypto/sha3/keccakf.go:39-412 | The permutation of words is KECCAK-p[1600, 24], defined on bits alone, of the string the words stand for. |
| Sponge.XorInGeneric | crypto/sha3/xor_generic.go:12-20 | Xors a block's little-endian words into the first words of the state. |
| Sponge.CopyOutGeneric | crypto/sha3/xor_generic.go:23-28 | Copies out the state's first bytes. |
| Sponge.ByteRoundTrip | crypto/sha3/xor_generic.go:12-28 | Writing a word out gives back the bytes it was read from. |
| Sponge.AbsorbSplit | crypto/sha3/sha3.go:125-157 | Absorbing two runs of blocks in turn is absorbing them as one. |
| Sponge.SqueezeSplit | crypto/sha3/sha3.go:160-181 | Two reads in a row give what one long read gives. |
| SpongeBits.PadIsStandard | crypto/sha3/sha3.go:96-121 | For every message and every suffix of up to six bits, the padded bytes are the message, the suffix and pad10*1 (section 5.1 of FIPS 202) as bits. |
| SpongeBits.XorInBit | crypto/sha3/xor_generic.go:12-20 | Absorbing a block flips exactly the state bits at which it has ones. |
| SpongeBits.FirstBytesBit | crypto/sha3/xor_generic.go:23-28 | The bytes squeezed are the state's bits from the start. |
| SpongeBits.AbsorbAgrees | crypto/sha3/sha3.go:125-157 | Absorbing bytes is absorbing their bits, block by block, with the permutation on strings. |
| SpongeBits.SqueezeAgrees | crypto/sha3/sha3.go:160-181 | The bits of the squeezed bytes are what the squeezing loop of section 4 of FIPS 202 produces. |
| SpongeBits.SpongeIsStandard | crypto/sha3/sha3.go:98-181 | For every message, every suffix of up to six bits, every rate and every output length, the bits of the output are SPONGE (section 4 of FIPS 202), defined on bits alone, of the message and the suffix. |
| SpongeBits.DomainBytes | crypto/sha3/hashes.go:16-39 | The domain bytes 0x01, 0x06 and 0x1f are the empty suffix, 01 and 1111, each with the first bit of the padding. |
| Sha3.Hasher.Reset | crypto/sha3/sha3.go:57-64 | Back to an empty message. |
| Sha3.Hasher.Write | crypto/sha3/sha3.go:125-157 | For any way of cutting the input, the message grows by the data, whether by the fast or the buffered path; after reading it is refused. |
| Sha3.Hasher.PadAndPermute | crypto/sha3/sha3.go:98-121 | Starts squeezing from the state that has absorbed the padded message. |
| Sha3.Hasher.Read | crypto/sha3/sha3.go:160-181 | However reads are cut, each returns the next bits of SPONGE of the message and the suffix its domain byte stands for. |
| Sha3.Hasher.Sum | crypto/sha3/sha3.go:185-192 | Appends SPONGE of the message and the suffix, and leaves the hasher as it was. |
| Sha3.Sum | crypto/sha3/hashes.go:41-71 | SHA3-224, -256, -384 and -512 as section 6.1 of FIPS 202 defines them. |
| Sha3.ShakeSum | crypto/sha3/shake.go:48-60 | SHAKE128 and SHAKE256 as section 6.2 of FIPS 202 defines them, for output of any length. |
| Sha3.Keccak256 | crypto/hash/hash.go:48-54 | The digest of any list of byte strings is SPONGE of their concatenation with no suffix, rate 1088, 256 bits. |
| NebMessage.NewNebMessage | net/neb_message.go:175-228 | Refuses data or a name that is too long, and otherwise fills the buffer with the fields in their places. |
| NebMessage.FieldsRoundTrip | net/neb_message.go:106-162 | Every field of a built message reads back; the name exactly when it has no zero byte, the reserved bytes exactly when there are three. |
| NebMessage.ParseRoundTrip | net/neb_message.go:231-304 | A built message passes both checks and comes back whole, whatever follows it. |
| ReadLoop.ParseMore | net/stream.go:304-379 | Parsing a stream that grows goes on from exactly where the shorter one stood. |
| ReadLoop.BufferBound | net/stream.go:304-379 | Between reads the buffer is short of one message, so the 32-bit length comparison never truncates. |
| ReadLoop.OnlyGoodDelivered | net/stream.go:304-379 | Whatever the bytes: every message delivered has the magic number, the chain, both checksums and a length within the limit; the messages are the front of the stream in order; a connection no handler closes is closed exactly when a bad frame comes next. |
| ReadLoop.GoodThenBad | net/stream.go:304-379 | Good frames followed by a bad one: exactly the good ones are delivered and the connection closes. |
| ReadLoop.Stream.OnRead | net/stream.go:323-377 | The inner loop takes exactly the messages the buffer now holds. |
| ReadLoop.Stream.ReadLoop | net/stream.go:304-379 | For every way of cutting the bytes into reads, what is delivered and whether the connection closes is what parsing the whole stream gives. |
| ReadLoop.SentIsDelivered | net/neb_message.go:175-304 | A stream of built messages is delivered message for message. |
| Accounting.TotalUpdate | core/state/account_state.go:139-159 | Changing one balance changes the sum of all by the difference. |
| Accounting.WorldState.AddBalance | core/state/account_state.go:139-146 | Adds exactly when the sum fits. |
| Accounting.WorldState.SubBalance | core/state/account_state.go:149-159 | Subtracts exactly when the balance covers it. |
| Accounting.WorldState.Transfer | core/block.go:1051-1070 | Succeeds exactly when the sender covers the value and the receiver can hold it, moves it, and keeps the sum of all balances, also within one account. |
| Accounting.WorldState.SubmitTx | core/transaction.go:351-388 | Undoes a failed transaction, records its fee, and cannot overflow. |
| Accounting.WorldState.VerifyExecution | core/transaction.go:391-507 | A transaction is kept off chain exactly for the first applicable reason; otherwise, for any payload and any reported gas, the gas charged and whether it fails are those of the rules, a failure undoes its balances, and without code it succeeds exactly when the sender can pay. |
| Accounting.RefusalExact | core/transaction.go:391-440 | A transaction is let through exactly when its whole fee fits into 128 bits, its sender covers it, and its limit covers 20000 gas and one for each byte. |
| Accounting.WorldState.CheckTransaction | core/transaction.go:737-755 | Accepts exactly the nonce after the account's. |
| Accounting.WorldState.AcceptTransaction | core/transaction.go:758-779 | Counts the sender's nonce up by one. |
| Accounting.WorldState.ExecuteTransaction | core/block.go:1076-1102 | Succeeds exactly with the next nonce and no refusal; without code the value moves exactly when the sender can pay, no other balance changes, and the base fee is charged. |
| Accounting.WorldState.ReplayGas | core/state/world_state.go:129-141 | Adds a fee to the sender's exactly when the sum fits. |
| Accounting.WorldState.RewardCoinbaseForMint | core/block.go:1025-1032 | Adds the block reward exactly when it fits. |
| Accounting.WorldState.RewardCoinbaseForGas | core/block.go:1034-1049 | Whatever the order, every sender ends with its fees less and the coinbase with all others' fees more. |
| Accounting.WorldState.Execute | core/block.go:905-970 | If a block of transactions without code executes, every account ends with what it had, less values sent and fees, plus values received, and the coinbase with the reward and all fees on top; the sum grows by exactly the reward, and nonces count up one by one. |
| Accounting.NoncesGrow | core/transaction.go:737-779 | No sender's nonce repeats within an executed block. |

## Left out

- Generated protobuf and gRPC code other than the trie node's, rpc, cmd, neblet, account, logging, configuration and peer routing: plumbing.
- Key storage, signatures, snappy, LRU eviction, LevelDB and RocksDB: libraries; storage is a map that does not fail, so errors while a height index or a LIB is written are not modelled.
- The contract engine: payloads are parameters, and the conservation result is for payloads without code, since creating a contract account installs a fresh zero balance.
- Whether the settlement of fees at the end of a block succeeds: fees are charged only there, after the checks of each transaction.
- The error a dispatcher's Run returns: its verdict is held in an inner variable (common/dag/dispatcher.go:133), so the property is stated on the verdict itself. Timeouts, Stop and callback errors of the dispatcher are not modelled.
- dag IsCirclular and hasCirclularDep: no production code calls them.
- StagingTable.StagingTable.MergeToParent: both modes are modelled here, but the history theorems of MvccRun are for the strict mode of the changelog, in which nothing is deleted. Purge of tables prepared under a prepared table, and Detach, are not modelled. Nothing is claimed about a Put after a Del, which leaves the deleted flag set, or about reading a stored key after a discarded blind write, which leaves an empty default in the parent.
- MVCC commit and rollback to storage.
- Trie proofs, and key lengths that differ within one trie.
- TrieCodec.Unmarshal: unknown fields are reported instead of skipped, and the wrap-around of an index near 2^63 is not modelled.
- Serial.StepReached: fees are unbounded here; the error a fee sum over 128 bits returns is not a step. Serial.FeesAsPacked shows it would strike packing too, Serial.FeesBounded that at the largest gas and price (core/transaction.go:48-52) it needs more than 10^15 transactions, and Accounting.WorldState.ReplayGas models it.
- Packing.PackingIsSerial: accounts, fees, transaction records and events are the parts of the world state modelled; the consensus state, which no transaction changes, is not.
- Events are opaque byte strings: their JSON form is not modelled.
- Dpos.UpdateLIB: products of timestamps are unbounded integers, not 64-bit; so are heights, nonces and the slot arithmetic.
- Slots.VerifyBlockExact: the signature check is a recovered signer; the cache of slots seen and double-mint detection are not modelled.
- Sync, the block pool's network side, block headers beyond parent, height, timestamp and proposer.
- Chain.BlockChain.PutVerifiedNewBlocks: the tree of linked blocks the pool hands over is a list whose blocks follow their parents; the eviction of candidates beyond 128 is not modelled.
- TransactionPool.TransactionPool.Push: the keyword filter of super nodes and the events triggered are not modelled; hash and signature checks are one flag. Buckets are values of a map, not shared slice objects.
- SortedSlice.Slice.Push: the reuse of a slice's backing array is not modelled.
- Keccak.KeccakF1600: words are sets of bit positions, shifts and ors of a rotation are one rotation, and the four unrolled rounds share the code of their five rows. The assembly version is not modelled.
- Sha3.Hasher.Sum: only from the absorbing state; cloning while squeezing depends on slice capacities. Buffers are values, not windows into shared storage.
- NebMessage.NewNebMessage: compression of the data before framing is not modelled.
- ReadLoop.Stream.ReadLoop: the handshake before the loop, timestamps, and what handlers do beyond closing the connection are not modelled.
- Accounting.WorldState.Execute: runs the block in packing order; that every parallel order gives the same result is the subject of EndToEnd. Nonces are unbounded.
