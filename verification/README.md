# BeastDB storage engine: a verified model

This project models the storage engine of BeastDB in Dafny and proves what its layers promise each other. Each
stateful layer is proved to refine something simple, over every input and every sequence of calls.

- **B+ tree** (`Nodes`, `NodePages`, `TreeInvariant`, `BPlusTree`, `Occupancy`, `TreeRebalance`, `TreeDelete`,
  `TreeFill`, `DeleteExample`, `Cursor`, `Scan`): pages by number, with a ghost key span for every page. Insertion is a
  map update through cascading splits and root growth. Deletion keeps the tree exactly under a stated condition. Cursors
  list a range exactly, also while the tree is written to, and paginated scans cover it.
- **Record store** (`Codec`, `Crc32`, `SlottedPage`, `LargeValues`, `FreeSpace`, `RecordStore`, `ScanSearch`): slotted
  pages, the table of pages with room, chained large values, and the tree that leads to them, in one file. Together they
  are a map from keys to bytes whose footprints are disjoint and account for every live tuple, as long as the tree
  survives every deletion.
- **Buffer pool** (`BufferPool`, `PoolClient`): over every sequence of calls clients cannot tell it from a flat store of
  pages with pin counts.
- **Log and recovery** (`WalRecord`, `WalBatch`, `WalLog`, `Recovery`, `RecoveryRun`, `StoredEngine`, `StoredRun`): the
  log format with its torn tails, and an engine that commits, halts, flushes, rotates, crashes and reopens, over every
  run. `DurableEngine` runs over a map; `StoredEngine` runs over the record store and its tree, and every run is one
  over the map, to its end unless the file is full or a deletion has broken the tree. Damage to up to four bytes in a
  row of a record's key and value is always found.
- **Replication** (`Broadcast`, `Replication`, `ReplicationSafety`, `ReplicationHandoff`, `ReplicationHole`,
  `ReplicationDelivery`, `Follower`): leader, broadcaster and followers as one machine of interleaved steps, whose runs
  are arbitrary legal sequences of events; whatever the run, a follower holds what the leader held after a prefix of its
  log, and whatever state it is in, the files decide whether it can be brought up to the end of the log.
- **Index-like structures** (`HashMap`, `Heap`, `LruList`, `CacheSpec`, `Cache`, `CacheClient`, `SecondaryIndex`).

`Types`, `Sequences` and `Buffers` hold what the layers share. Classes stand for the objects the program updates in
place; the ghost fields of a class hold the value it represents, `Valid()` ties the two together, and each method's
contract says what the call does to that value. Steps under one lock are atomic. The checksum is a fold over the bits
of the data: updating it chunk by chunk gives the checksum of the whole, and every step is injective in the register and
over runs of up to 32 bits, so that no overwriting of up to four bytes in a row goes unnoticed.

Nine promises hold only under a condition, and what decides is proved in both directions:

- **Deletion.** A merge looks for the separator by the absorbed leaf's current first key, and takes its right sibling
  from the leaf chain whatever its parent. `BPlusTree.Delete` keeps the tree if and only if no rebalancing is needed or
  those two choices happen to be right; otherwise no assignment of spans and contents makes the pages a tree. The
  condition can be read off the pages beforehand (`KeepsTree`), and it decides every deletion on every tree reached from
  the empty one. `DeleteBreaksTree` is a run of 201 insertions and two deletions that ends without a tree, and
  `LookupAndScanDisagree` and `BorrowLosesKey` show what later calls then get wrong: a borrow across parents makes a key
  unfindable that was not deleted. What builds on the tree inherits the condition: `RecordStore.ApplyDelete` is a map
  removal exactly under it, `StoredEngine.Delete` is applied exactly under it, and `StoredRuns.Run` stops only there or
  at a full file, with everything committed still in the log.
- **New pages of the buffer pool.** A page fetched before the file reached it may still be cached when `NewPage` comes to
  it. The pool stays sound if and only if it is not, or sits in the very frame the clock takes (`FetchBeyondEnd` is the
  other case). For clients that fetch only pages of the file it always does.
- **Unpinning.** The pool stays sound if and only if the last pin on a page that was written is not given up as clean
  while nobody has reported the write and the disk lacks it (`UnpinPage`); eviction then drops the write (`EvictDrops`).
- **Torn log tail.** The tail is not cut off on reopening. Records appended later survive every replay if and only if the
  log ended at a record boundary (`AppendsSurvive`).
- **Hand-over to the live stream.** It is free of gaps when the files there still reach back far enough as the archive is
  opened, and no rotation renames the log between that and opening the active log (`HandoffHasNoGap`). Otherwise the
  stream can step into a hole (`LateOpen`), and never mends: it sends nothing more, or its follower has a gap ahead
  (`HoleNeverMends`). `OverlapLosesRecord` is a run in which a rotation between the two opens brings that about.
- **Catching up.** A follower that lacks records and connects can be brought up to the end of the log if and only if the
  log files reach back to the next record it needs; otherwise that connection brings it nothing, whatever happens
  (`ServedExactly`).
- **Acknowledgements.** The leader keeps the one that arrived last, where its comment promises the highest: of two it is
  the highest if and only if the higher one did not arrive first (`AckOvertaken`).
- **Restarting a follower.** Its own log numbers single writes only, while batches are applied without logging. It asks
  for the right record if and only if it has applied no batch (`RestartInStep`), and may otherwise lose one for good
  (`RestartLosesBatch`).
- **Expiry sweep.** It always leaves nothing expired. It takes only expired entries if and only if no key that came due
  was set again without an expiry (`SweepIsExact`; `SweepTakesUnexpired` is a run in which one was).

The checksum of a log record covers its key and value only: with another number or kind in its header a record is still
accepted, as that one (`HeaderDamageMissed`). The batch size check counts no value for deletes, while the log encodes
it: `CheckedIsLogged` says when the two agree, and `LogBatch` that a checked batch is refused by the log only over such
values. The engine then halts, and refuses every write until it is started again (`BatchHalts`, `HaltedUntilReopened`).

## Model

| member | source | states |
|---|---|---|
| BPlusTrees.BPlusTree.constructor | internal/index/bplus_tree.go:27-42 | a new tree is a valid, empty map |
| BPlusTrees.BPlusTree.Open | internal/api/engine_init.go:51-75 | a tree opened at the root its meta page names is the map it was |
| BPlusTrees.BPlusTree.Find | internal/index/bplus_tree.go:67-94 | returns what the map holds for the key, or not-found exactly when it holds nothing |
| BPlusTrees.BPlusTree.Descend | internal/index/bplus_tree.go:67-94 | ends in the one leaf whose key span contains the key, in exactly as many steps as the root is high, recording the path there |
| BPlusTrees.BPlusTree.Insert | internal/index/bplus_tree.go:97-127 | a map update, through leaf splits, cascading splits and root growth; every non-root page stays at least half full; the epoch moves exactly when the leaf that owns the key is full, and otherwise only that leaf is written |
| BPlusTrees.BPlusTree.SplitLeafAndInsert | internal/index/tree_split.go:8-35 | a full leaf is split and the entry inserted into the proper half, and the tree is whole again |
| BPlusTrees.BPlusTree.CreateNewRoot | internal/index/tree_split.go:38-56 | two halves of the old root become the children of a new root one level up, without changing the map, and the meta page names the new root |
| BPlusTrees.BPlusTree.SetParent | internal/index/tree_split.go:59-69 | changes nothing but the parent and root mark of one page |
| BPlusTrees.BPlusTree.InsertIntoParent | internal/index/tree_split.go:72-120 | a pending split becomes a separator of the parent, splitting parents up the path as far as needed, and the map is unchanged; without a path nothing happens |
| BPlusTrees.BPlusTree.UpdateChildrenParent | internal/index/tree_split.go:123-130 | every listed child, and no other page, gets the new parent |
| Nodes.LookupIsEntries | internal/index/leaf_node.go:71-80 | a leaf lookup is a lookup in the map of the leaf's entries |
| Nodes.LeafInsertIsMapUpdate | internal/index/leaf_node.go:83-104 | a leaf insert keeps the order and is a map update, growing by one exactly for a new key |
| Nodes.LeafDeleteIsMapRemove | internal/index/leaf_node.go:137-155 | a leaf delete keeps the order and removes exactly the key |
| Nodes.LeafSplitLeft | internal/index/leaf_node.go:112-134 | the left half holds exactly the entries below the split key |
| Nodes.LeafSplitRight | internal/index/leaf_node.go:112-134 | the right half holds exactly the entries from the split key on |
| TreeInvariant.RouteSpan | internal/index/internal_node.go:75-84 | routing leads to the child whose span contains the key |
| TreeInvariant.LeafSplitPends | internal/index/tree_split.go:8-35 | splitting a leaf leaves a tree that is whole but for one separator its parent does not have yet |
| TreeInvariant.RouteSplitPends | internal/index/internal_node.go:110-132 | splitting a routing page moves the missing separator one level up and keeps every other span |
| TreeInvariant.LinkSettles | internal/index/internal_node.go:87-102 | putting the missing separator into the parent makes the tree whole |
| TreeInvariant.NewRootSettles | internal/index/tree_split.go:38-56 | a new root over both halves makes the tree whole |
| BPlusTrees.SplitLeafKeepsFilled | internal/index/leaf_node.go:112-134 | after a leaf split every page but the root is still at least half full, both halves included |
| BPlusTrees.SplitLeafSizes | internal/index/leaf_node.go:112-134 | each half of a full leaf holds 100 or 101 entries once the new one is in |
| BPlusTrees.LinkSplitKeepsSizes | internal/index/internal_node.go:110-132 | both halves of a split routing page hold at least 99 keys and at most 200 |
| Occupancy.KeysBelow | internal/index/leaf_node.go:112-134 | a page at height h in a tree built by insertion covers at least 100^(h+1) keys |
| Occupancy.TreeIsDense | internal/index/internal_node.go:110-132 | a tree whose root is at height h holds at least 2 * 100^h keys, which bounds the descent |
| NodePages.LeafPage.Lookup | internal/index/leaf_node.go:71-80 | the search in the page buffer agrees with the leaf as a value |
| NodePages.LeafPage.Insert | internal/index/leaf_node.go:83-104 | shifting entries in place is the insertion on the leaf as a value, as long as the page has room for the entry |
| NodePages.LeafPage.Split | internal/index/leaf_node.go:112-134 | copying the upper half to the other buffer gives both halves of the split |
| NodePages.LeafPage.Delete | internal/index/leaf_node.go:137-155 | closing the gap in place is the deletion on the leaf as a value |
| NodePages.InternalPage.Lookup | internal/index/internal_node.go:75-84 | the search in the page buffer routes as the routing page as a value does |
| NodePages.InternalPage.Insert | internal/index/internal_node.go:87-102 | shifting separators and children in place is the insertion on the routing page as a value, as long as the page has room, repeated separators included |
| NodePages.InternalPage.Split | internal/index/internal_node.go:110-132 | the middle key goes up, and the buffers hold the two halves around it |
| NodePages.InternalPage.Delete | internal/index/internal_node.go:135-153 | removing a separator in place removes its right child with it |
| BPlusTrees.BPlusTree.Delete | internal/index/tree_delete.go:12-52 | removes the key if it is there and says so; the pages are a tree for the rest if and only if the leaf needs no rebalancing or the rebalancing conditions hold, and otherwise no assignment of spans and contents makes them a tree; one of the two for every tree reached from the empty one, whose leaves with siblings stay at their minimum |
| BPlusTrees.BPlusTree.KeepsTree | internal/index/tree_delete.go:12-142 | the condition of Delete can be read off the pages before the call |
| BPlusTrees.UnderflowFacts | internal/index/tree_delete.go:28-52 | a leaf with siblings that falls below its minimum holds exactly one entry less than it, and its place under the parent decides the outcome |
| TreeFill.SiblingsFilled | internal/index/tree_delete.go:106-140 | where leaves with siblings are at their minimum, as `Insert` and every tree-keeping `Delete` leave them, the sibling a merge reads is never empty |
| TreeFill.LinkFills | internal/index/tree_split.go:72-120 | linking a split-off page keeps that, since both halves are filled |
| TreeFill.MovedFills | internal/index/tree_delete.go:72-126 | borrowing keeps that |
| TreeFill.MergedFills | internal/index/tree_delete.go:91-140 | merging keeps that, even where the parent ends with a single child |
| TreeFill.MergedCount | internal/index/tree_delete.go:91-140 | two merged neighbours hold as many entries as both did |
| BPlusTrees.BPlusTree.HandleLeafUnderflow | internal/index/tree_delete.go:56-142 | borrowing or merging keeps the tree exactly when the neighbour has the same parent and, for a merge, the separator is the absorbed leaf's first key; otherwise no tree is left |
| BPlusTrees.BPlusTree.BorrowFromLeft | internal/index/tree_delete.go:56-90 | moving the last entry of the left sibling keeps the map, the separators and the leaf chain |
| BPlusTrees.BPlusTree.BorrowFromRight | internal/index/tree_delete.go:106-126 | moving the first entry of the right sibling keeps the map, the separators and the chain when they share a parent |
| BPlusTrees.BPlusTree.MergeNeighbours | internal/index/tree_delete.go:91-103 | a merge into the left sibling keeps the tree exactly when the separator is found by its exact key |
| BPlusTrees.BPlusTree.LeftSiblingID | internal/index/tree_delete.go:146-161 | the child just before the leaf under its parent, or none for the first |
| BPlusTrees.BPlusTree.UpdateParentKey | internal/index/tree_delete.go:164-172 | changes exactly the separator before the child; the first child has none |
| TreeRebalance.MovedSettles | internal/index/tree_delete.go:56-142 | entries moved between two neighbours under one parent, with the separator moved along, leave a whole tree |
| TreeRebalance.MergedSettles | internal/index/tree_delete.go:91-103 | two neighbours merged, with separator and child removed together, leave a whole tree |
| TreeDelete.BypassBreaks | internal/index/tree_delete.go:127-140 | a leaf chain that skips a leaf still routed to is no tree, whatever spans one assigns |
| TreeDelete.StrayKeyBreaks | internal/index/tree_delete.go:106-126 | a key in a leaf that routing does not lead to is no tree, whatever spans one assigns |
| DeleteExample.DeleteBreaksTree | internal/index/tree_delete.go:91-103 | a run from the empty tree, 201 insertions and two deletions, after which the pages are no tree for any spans and contents |
| DeleteExample.MergeMisses | internal/index/tree_delete.go:98-98 | two leaves at their minimum: deleting the separator's own key makes the merge miss it |
| DeleteExample.LookupAndScanDisagree | internal/index/tree_delete.go:91-103 | after a merge that missed the separator, a key inserted below the left-over page is found by a lookup, and listed by no scan that starts at another leaf |
| DeleteExample.SoughtIsFound | internal/index/bplus_tree.go:67-94 | in a tree, following the separators from a page that owns a key finds exactly what the map holds |
| DeleteExample.BorrowLosesKey | internal/index/tree_delete.go:106-126 | after a borrow across parents a key that was not deleted is found by no search from the root any more |
| Cursors.Cursor.constructor | internal/index/cursor.go:38-85 | a cursor stands before the least key from the start key on; an empty range gives a closed one |
| Cursors.Cursor.Next | internal/index/cursor.go:89-132 | yields the next key of the map in the range, skipping none; ends when there is none; refuses once the tree has been restructured, sound or not; over slots that moved under it, it still yields entries of the map |
| Cursors.InsertKeepsCursor | internal/index/cursor.go:89-112 | an insertion that does not move the epoch leaves an open cursor right if and only if it adds no key that the cursor has passed in its leaf; otherwise the next entry is one already passed |
| Cursors.DeleteKeepsCursor | internal/index/cursor.go:89-112 | a deletion that does not move the epoch leaves an open cursor right if and only if it takes no key that the cursor has passed in its leaf; otherwise the entry under the cursor is skipped |
| Cursors.InsertDuringScan | internal/index/cursor.go:89-132 | an insertion while a cursor is open moves the epoch, or the cursor goes on over the new map exactly under that condition |
| Cursors.DeleteDuringScan | internal/index/cursor.go:89-132 | the same for a deletion; one that breaks the tree has moved the epoch |
| Scans.ListingUnique | internal/index/cursor.go:89-132 | a range has only one listing, so what a scan yields is determined by the map |
| ScanSearches.ScanRecords | internal/api/engine_scan.go:30-73 | the same page with the values: exactly the keys and values of the range up to nextKey |
| Scans.ScanAllPages | internal/api/engine_scan.go:30-73 | following nextKey lists the whole range, nothing missed and nothing repeated |
| ScanSearches.ScanSearchChunk | internal/api/engine_scan.go:79-148 | a chunk finds exactly the records up to nextKey whose value matches; it counts exactly the keys it has looked at, and leaves something for later only once it has as many matches, or has looked at as many keys, as asked for |
| ScanSearches.SearchAll | internal/api/engine_scan.go:79-148 | following nextKey finds every match in the range, once |
| SlottedPages.TupleInsertedKeeps | internal/storage/page.go:64-85 | a tuple that fits goes to a slot that was not live, and no other tuple changes |
| SlottedPages.TupleDeletedKeeps | internal/storage/page.go:113-121 | deletion removes one tuple, keeping every other slot number and its bytes |
| SlottedPages.CompactedKeeps | internal/storage/page.go:124-145 | compaction changes no tuple, and then the free space is the page less the directory and the live bytes |
| SlottedPages.SlotsAreFew | internal/api/engine_large.go:11-23 | slot numbers stay below the bit that marks large values |
| SlottedPages.SlottedPage.InsertTuple | internal/storage/page.go:64-85 | the page buffer refuses exactly when the tuple does not fit, and else refines the insertion on the page as a value |
| SlottedPages.SlottedPage.FindFreeSlot | internal/storage/page.go:88-95 | the first tombstone, or the next new slot |
| SlottedPages.SlottedPage.GetTuple | internal/storage/page.go:98-110 | returns a live tuple's bytes and nothing for a tombstone or an unused number |
| SlottedPages.SlottedPage.DeleteTuple | internal/storage/page.go:113-121 | the page buffer refines the deletion on the page as a value |
| SlottedPages.SlottedPage.Compact | internal/storage/page.go:124-145 | copying through a second buffer refines the compaction on the page as a value |
| Crc32.CrcUpdateConcat | internal/api/engine_large.go:173-180 | updating chunk by chunk gives the checksum of the whole |
| Crc32.BurstChangesCrc | internal/wal/record.go:60-61 | overwriting up to four bytes in a row, anywhere in data of any length, changes the checksum |
| Crc32.CrcKeepsApart | internal/api/engine_large.go:173-180 | the same data appended to two different checksums leaves them different |
| LargeValues.ChunkRoundTrip | internal/api/engine_large.go:60-70 | a chunk tuple reads back as its successor's address and its payload |
| LargeValues.ManifestRoundTrip | internal/api/engine_large.go:96-114 | a manifest within the limits reads back field by field |
| LargeValues.WalkLinked | internal/api/engine_large.go:118-138 | walking a chain meets exactly its chunks, in order, and ends where the manifest says |
| LargeValues.JoinedParts | internal/api/engine_large.go:45-70 | the chunks of a value, put together, are the value |
| LargeValues.LoadStored | internal/api/engine_large.go:141-157 | a stored value loads back exactly, from exactly its footprint |
| LargeValues.StoredFrame | internal/api/engine_large.go:141-157 | a value stays readable as long as its own tuples are left alone |
| LargeValues.DamageRefused | internal/api/engine_large.go:141-157 | whatever has become of the chunks, a value that differs from the stored one in up to four bytes in a row, or in its length, is never returned |
| RecordStores.WalkChain | internal/api/engine_large.go:118-138 | the loop computes the chain walk, failing on the same checks |
| RecordStores.ReadValue | internal/api/engine_large.go:141-157 | returns the bytes when every check passes and nothing otherwise |
| RecordStores.Measure | internal/api/engine_large.go:173-180 | the running length and checksum are those of the whole value |
| RecordStores.TuplesToFree | internal/api/engine_large.go:163-186 | exactly the tuples a sound value was read from; none behind an unsound chain |
| RecordStores.RecordStore.FreeValue | internal/api/engine_large.go:163-186 | frees exactly a sound value's footprint and touches nothing behind a chain that fails a check |
| RecordStores.RecordStore.WriteChunks | internal/api/engine_large.go:58-77 | written tail first, the chunks form a chain that carries the parts, on addresses that held nothing |
| RecordStores.RecordStore.InsertValue | internal/api/engine_large.go:45-89 | the value is stored on fresh addresses, or nothing is left behind because the file may not grow and some piece of the value fits on no page |
| FreeSpaces.SearchReclaim | internal/api/engine_space.go:74-106 | returns a page with room if it finds one; finding none means no tracked page has room once compacted; known entries stay exact |
| RecordStores.RecordStore.NextDataPage | internal/api/engine_space.go:74-106 | a fresh page only when no tracked page has size + 4 bytes free after compaction |
| RecordStores.RecordStore.TrackFree | internal/api/engine_space.go:109-116 | the mark that a page must be measured again survives any exact entry, and every other page keeps its entry |
| RecordStores.RecordStore.InsertTuple | internal/api/engine_space.go:22-62 | any tuple of up to 4000 bytes is stored unless the file may not grow and every page is full; pages with room stay tracked |
| RecordStores.RecordStore.FreeTuple | internal/api/engine_space.go:119-129 | exactly one address becomes empty, and its page, unless it is the active one, is marked to be measured again |
| RecordStores.PutKeeps | internal/api/engine_space.go:133-150 | writing the new value beside the old one and then freeing the old one is a map update with disjoint footprints and no leak |
| RecordStores.DeleteKeeps | internal/api/engine_space.go:152-162 | freeing a key's footprint is a map removal with disjoint footprints and no leak |
| RecordStores.RecordStore.PutBeside | internal/api/engine_space.go:133-147 | the value is stored and the tree leads to it; it is not only if the file is full and the value has no place in it, or the tree had to split a full leaf |
| RecordStores.RecordStore.ApplyPut | internal/api/engine_space.go:133-150 | a map put through the tree and the data pages; refused only when the file is full and the value has no place in it, or the leaf for its key had to be split |
| RecordStores.RecordStore.ApplyDelete | internal/api/engine_space.go:152-162 | a map removal if and only if the tree survives the deletion of the key, the live tuples then being exactly the union of the footprints; otherwise no tree is left |
| RecordStores.RecordStore.DeletesCleanly | internal/api/engine_space.go:152-162 | which of the two it will be can be read off the pages before the call |
| RecordStores.RecordStore.ReadTuple | internal/api/engine_ops.go:80-97 | a record the tree leads to holds the bytes last put under its key |
| RecordStores.RecordStore.Get | internal/api/engine_ops.go:80-97 | the bytes last put under the key, or nothing |
| RecordStores.RecordStore.CheckCondition | internal/api/engine_conditional.go:40-71 | "if absent" holds exactly when the key is not in the map, "if present" exactly when it is, "if equal" exactly when it is there with that value |
| RecordStores.AllMetIs | internal/api/engine_batch.go:57-62 | the conditions are met exactly when each one describes the contents |
| RecordStores.RecordStore.ApplyOne | internal/api/engine_ops.go:60-77 | one operation is a map update; a deletion fails exactly when the tree does not survive it, and a put fails only on a full file |
| RecordStores.RecordStore.ApplyAll | internal/api/engine_batch.go:95-108 | the operations in order; if one is not applied, it is the one that meets a full file or that the tree does not survive |
| RecordStores.RecordStore.BatchWriteIf | internal/api/engine_batch.go:42-116 | refused with nothing changed exactly when some condition fails; otherwise the operations apply in order, and stop only where the file is full or the tree does not survive a deletion, at the operation that meets this |
| RecordStores.RecordStore.Open | internal/api/engine_init.go:51-75 | a file reopened is the map it held, with no page known to have room |
| RecordStores.RecordStore.ToImage | internal/storage/buffer_pool.go:139-152 | a flush leaves a file that holds exactly the map |
| BufferPools.BufferPool.FindVictim | internal/storage/buffer_pool_eviction.go:60-79 | the clock takes the first frame from the hand on that is empty or unpinned without a reference bit, and if there is none the first unpinned one; it fails exactly when every frame is pinned; exactly the unpinned frames it passed lose their reference bit, and the hand stands behind the victim |
| BufferPools.BufferPool.EvictFrame | internal/storage/buffer_pool_eviction.go:42-56 | frees the frame without changing any page as clients see it or any pin count |
| BufferPools.BufferPool.LoadPage | internal/storage/buffer_pool_eviction.go:5-38 | brings a page in, pinned once, and caches nothing else; changes nothing clients see and no other pin; fails exactly when all frames are pinned |
| BufferPools.BufferPool.FetchPage | internal/storage/buffer_pool.go:43-66 | returns the page as the flat store holds it with one pin more and marked as recently used; every other pin count stays, and pinned pages stay in their frames |
| BufferPools.BufferPool.NewPage | internal/storage/buffer_pool.go:69-95 | adds the page at the end of the file and changes no other page and no other pin; the pool stays sound if and only if that page was not cached before the call, or cached in the frame the clock takes; in particular not if somebody had it pinned |
| PoolClients.FetchBeyondEnd | internal/storage/buffer_pool.go:43-95 | a pool that is not sound any more: a page fetched before the file reached it, and then the next new page |
| BufferPools.InstallSound | internal/storage/buffer_pool.go:83-95 | a page put into an empty frame leaves table and frames in bijection if and only if it was not in the table |
| BufferPools.BufferPool.WriteTo | internal/storage/page.go:148-150 | a client that has the page pinned changes that page, no other and no pin |
| BufferPools.BufferPool.UnpinPage | internal/storage/buffer_pool.go:98-116 | gives up one pin, keeping every other and what clients see; errors exactly when the page is not pinned; the pool stays sound if and only if this is not the last pin on an unsaved write that nobody has reported |
| BufferPools.BufferPool.FlushPage | internal/storage/buffer_pool.go:119-136 | afterwards the disk agrees with the page, with every pin as it was |
| BufferPools.BufferPool.FlushAll | internal/storage/buffer_pool.go:139-152 | afterwards the disk agrees with every page not still being written, with every pin as it was |
| PoolClients.FullWhenExhausted | internal/storage/buffer_pool_eviction.go:60-79 | every frame is pinned exactly when as many pages are pinned as there are frames, so exhaustion depends on pins and not on what is cached |
| PoolClients.ServeAll | internal/storage/buffer_pool.go:43-152 | every sequence of calls whose clients fetch pages of the file, write only pages they pinned and unpin written pages as dirty is answered as by a flat store with pin counts, failures included, and leaves its pages |
| PoolClients.Session | internal/storage/buffer_pool.go:43-152 | from a new pool to a final flush: the file then holds the flat store, pages still being written apart |
| BufferPools.EvictKeeps | internal/storage/buffer_pool_eviction.go:42-56 | evicting an unpinned frame keeps table and frames in bijection and the view unchanged |
| BufferPools.EvictDrops | internal/storage/buffer_pool_eviction.go:42-56 | evicting a frame that is not marked dirty makes clients see what the disk has, whatever the frame held |
| BufferPools.UpdateSound | internal/storage/buffer_pool.go:98-116 | a frame given other pins, bits or bytes leaves the pool sound if and only if that frame is |
| WalRecords.DecodeEncoded | internal/wal/record.go:68-109 | a well-formed record reads back whatever follows it |
| WalRecords.EncodedDecode | internal/wal/record.go:68-109 | the decoder accepts nothing but encodings of well-formed records |
| WalRecords.DecodeTorn | internal/wal/record.go:68-109 | every proper prefix of a record is refused: end of file if empty, unexpected end within the header, torn after it |
| WalRecords.DamageFound | internal/wal/record.go:95-101 | a record whose key and value were overwritten in up to four bytes in a row is refused as torn |
| WalRecords.HeaderDamageMissed | internal/wal/record.go:60-61 | the checksum does not cover the header: with another number or kind in it a record is accepted, as that one |
| WalRecords.ReplayLog | internal/wal/recovery.go:17-55 | a log followed by a torn tail replays exactly its records, and is reported torn exactly when the tail is not empty |
| WalRecords.DamagedLog | internal/wal/recovery.go:17-55 | a replay stops at a record damaged like this: it applies every record before it and none behind it |
| WalRecords.AppendsSurvive | internal/wal/wal.go:180-184 | since a torn tail is not cut off, all records appended later survive every replay if and only if the log ended at a record boundary; the same holds if only puts of the engine are appended |
| WalRecords.HiddenPut | internal/wal/wal.go:180-184 | behind a torn tail, whatever number comes next, some put of an 8-byte key under that number is lost |
| WalLogs.EncodeRecord | internal/wal/record.go:42-65 | filling the buffer field by field gives the encoding |
| WalLogs.DecodeRecord | internal/wal/record.go:68-109 | reading header and payload from the stream is the decoding, with the same errors, and stops right after the record |
| WalLogs.Replay | internal/wal/recovery.go:17-55 | the loop hands over exactly the whole records up to the first one refused, and reports the highest number and whether it stopped at a torn one |
| WalLogs.FindHighestLSN | internal/wal/wal.go:161-185 | the highest number in the file, refusing only a header that claims less than its own size |
| WalLogs.LogStops | internal/wal/wal.go:161-185 | a log with a torn tail is never refused |
| WalLogs.OpenWAL | internal/wal/wal.go:20-53 | numbering resumes from the log, or from the archive when the log has no record |
| WalLogs.WAL.Write | internal/wal/wal.go:56-84 | appends under the next number, or refuses an oversized frame and leaves the number unused |
| WalLogs.WAL.SetCurrentLSN | internal/wal/wal.go:101-107 | never lowers the number |
| WalLogs.WAL.Checkpoint | internal/wal/wal.go:128-159 | the log becomes the archive and a fresh one begins, with the numbering unchanged |
| WalBatches.BatchRoundTrip | internal/wal/batch.go:66-111 | a batch decodes to the operations it was encoded from |
| WalBatches.BatchTorn | internal/wal/batch.go:66-111 | no proper prefix of an encoded batch decodes |
| WalBatches.EncodeBatchPayload | internal/wal/batch.go:31-63 | filling the buffer gives the encoding; an empty batch is an error |
| WalBatches.DecodeBatchPayload | internal/wal/batch.go:66-111 | parsing by offset is the decoding, refusing the same payloads |
| WalBatches.CheckValueSizes | internal/api/engine_limits.go:10-26 | refuses exactly oversized puts and batches whose checked size is over the limit |
| WalBatches.CheckedIsLogged | internal/api/engine_limits.go:10-26 | the checked size is the encoded size if and only if no delete carries a value |
| Recoveries.ReplayIsIdempotent | internal/api/recovery.go:11-46 | changes replayed over a store that already holds any prefix of them give the same result |
| Recoveries.ReplayRestores | internal/api/recovery.go:11-46 | replay from the checkpoint over a data file at or past it restores everything committed |
| Recoveries.BatchReplaysAsCommitted | internal/api/recovery.go:49-92 | recovery reads a batch record as exactly the operations that were committed |
| Recoveries.ApplyRecords | internal/api/recovery.go:11-46 | applies exactly the records above the checkpoint, in order, and fails only on an unreadable one |
| Recoveries.NumberingResumes | internal/api/engine_init.go:51-75 | opening log and archive and then raising the number to the checkpoint resumes right after the last committed record |
| Recoveries.DurableEngine.Commit | internal/api/engine_ops.go:60-77 | the record is in the log before it applies, under a number never used before, or its frame is refused and the engine halts; the promise for later crashes needs a log that ended at a record boundary |
| Recoveries.DurableEngine.LogPut | internal/api/engine_ops.go:28-38 | a put commits as one record, refused exactly above 2 MiB or by a halted engine |
| Recoveries.DurableEngine.LogDelete | internal/api/engine_delete.go:19-37 | a delete commits as one record, refused exactly by a halted engine |
| Recoveries.DurableEngine.BatchWriteIf | internal/api/engine_batch.go:42-116 | a batch commits as one record, all or none; it is refused exactly when it is empty, too large, the engine has halted or a condition fails, in that order; if the log refuses it, over values carried by deletes, the engine halts |
| Recoveries.CommittedAsGuarded | internal/api/engine_conditional.go:40-71 | a batch commits only over contents that every one of its conditions describes |
| Recoveries.PutIfAbsentOnce | internal/api/engine_conditional.go:74-90 | of two batches that put a key if it is absent, one after the other, at most one commits |
| Recoveries.DurableEngine.LogBatch | internal/api/engine_batch.go:66-95 | a batch that passed the checks is one record, logged unless the values of its deletes make the frame too large, and then the engine halts |
| Recoveries.DurableEngine.FlushPages | internal/storage/buffer_pool.go:139-152 | the data file may run ahead of the checkpoint its meta page names |
| Recoveries.DurableEngine.CrashInRotation | internal/wal/wal.go:139-143 | a crash after the old archive is removed loses nothing |
| Recoveries.DurableEngine.FlushWithMeta | internal/api/engine_checkpoint.go:38-50 | the data file holds everything committed and its meta page names the last record |
| Recoveries.DurableEngine.Checkpoint | internal/api/engine_checkpoint.go:38-58 | flush and then rotate: nothing committed is lost and the new log is clean |
| Recoveries.DurableEngine.CrashAndReopen | internal/api/recovery.go:11-46 | after a crash at any point the reopened map is the fold of all committed records, numbering goes on after them, and the engine takes writes again |
| RecoveryRuns.Run | internal/api/recovery.go:11-46 | over every run of puts, deletes, batches, flushes, rotations, crashes and reopenings the contents are those of the committed operations in order, and writes are refused exactly from a refused frame to the next start |
| RecoveryRuns.RunFromEmpty | internal/api/engine_init.go:51-75 | the same from a new engine on |
| RecoveryRuns.HaltedUntilReopened | internal/api/engine_space.go:10-18 | after a halt no event but a restart changes the contents or ends the halt |
| RecoveryRuns.BatchHalts | internal/api/engine_batch.go:49-93 | a batch that passes every check of its sizes and halts the engine over the value a delete carries |
| StoredEngines.ReplayInto | internal/api/recovery.go:11-46 | over the record store and its tree: the records above the checkpoint applied in order; it stops only at an operation that meets a full file or that the tree does not survive |
| StoredEngines.NothingToRefuse | internal/api/recovery.go:11-46 | with nothing to replay nothing can stop it |
| StoredEngines.LogCovers | internal/api/recovery.go:11-46 | what replay finds in a log with a torn tail leads from the flushed contents to everything committed, and its highest number is the last one committed |
| StoredEngines.RecoverStore | internal/api/engine_init.go:51-75 | log, data file and tree reopened hold everything committed; replay gives up only where the file is full or the tree does not survive a logged deletion, and then the files stay as they are |
| StoredEngines.StoredEngine.Commit | internal/api/engine_ops.go:60-77 | logged and then applied to the store; it halts the engine only over a frame the log refuses, or over an operation that meets a full file, and the record then stays logged for the next start |
| StoredEngines.StoredEngine.Put | internal/api/engine_ops.go:28-38 | what is committed is a map put, refused exactly above 2 MiB or by a halted engine; it is applied to the store unless the file is full and the value has no place in it or a full leaf would have to be split |
| StoredEngines.StoredEngine.Delete | internal/api/engine_delete.go:19-37 | what is committed is a map removal, refused exactly by a halted engine; it never halts the engine, and is applied to the store unless the key is there and the tree does not survive its deletion |
| StoredEngines.StoredEngine.BatchWriteIf | internal/api/engine_batch.go:42-116 | decides as the engine over a map does, reading the conditions from the store; all of the batch is committed or none, and one guarded by absence only where the key was absent; the store fails to apply it only at an operation that meets a full file or that the tree does not survive |
| StoredEngines.StoredEngine.Checkpoint | internal/api/engine_checkpoint.go:38-58 | the data file holds everything committed and the log is fresh |
| StoredEngines.StoredEngine.CrashAndReopen | internal/api/recovery.go:11-46 | halted half way or not, everything committed is back in the store; replay gives up only where the file is full or the tree does not survive a logged deletion, and then nothing on disk has changed |
| StoredRuns.Perform | internal/api/recovery.go:11-46 | every event commits exactly what it commits over a map; the store goes along with it unless the file is full or the tree has broken |
| StoredRuns.Run | internal/api/recovery.go:11-46 | a run is a run over a map, through every flush, rotation, crash and restart, to its end unless the file is full or a deletion has broken the tree |
| StoredRuns.ReadAfter | internal/api/engine_ops.go:80-97 | a value read at the end of a run from a new file is the one the committed operations leave; a run that does not get there leaves a full file or a broken tree |
| Broadcasts.Broadcaster.Subscribe | internal/replication/broadcaster.go:23-45 | a new channel replaces and closes the replica's old one |
| Broadcasts.Broadcaster.Unsubscribe | internal/replication/broadcaster.go:35-43 | closes the channel only while it is still the replica's |
| Broadcasts.Broadcaster.Broadcast | internal/replication/broadcaster.go:49-61 | every subscriber with room gets the record, every full one is evicted and its channel closed |
| Broadcasts.SentHolds | internal/replication/broadcaster.go:49-61 | after a broadcast exactly the subscribers that had room are still subscribed |
| ReplicationSafety.SendOne | internal/replication/leader.go:67-98 | one more message keeps a stream free of gaps exactly when it follows on from what came before |
| ReplicationSafety.Step | internal/replication/leader.go:53-104 | every step of commits, announcements, rotations in their three steps, subscriptions, replay, live drain, eviction, receipt, acknowledgement and reconnection keeps the invariant |
| ReplicationSafety.AppliedIsARun | internal/replication/follower.go:48-112 | over every interleaving a follower has applied one unbroken run of the log, and no acknowledgement exceeds it |
| ReplicationSafety.WholeHasNoGap | internal/replication/leader.go:53-104 | a stream whose files began where it had got to never shows the follower a gap |
| ReplicationHandoff.HandoffHasNoGap | internal/replication/leader.go:53-104 | if the files there are still reach back to FromLsn when the archive is opened and no rotation renames the log between the two opens, the follower never sees a gap, eviction included |
| ReplicationHandoff.HoleSendsGap | internal/replication/leader.go:53-82 | reading on from a file adds a gap to the wire exactly when its next record is beyond what was sent |
| ReplicationHandoff.HoleDrainsGap | internal/replication/leader.go:86-104 | when the files held nothing more, the live channel adds a gap to the wire exactly when it begins beyond what was sent |
| ReplicationHoles.LateOpen | internal/replication/leader.go:64-82 | a file or channel that begins beyond what was sent leaves the stream in a hole, unless that file is empty |
| ReplicationHoles.HoleNeverMends | internal/replication/leader.go:53-104 | over every run from there the stream sends its follower nothing more, or a gap is ahead of the follower for good |
| ReplicationHandoff.OverlapLosesRecord | internal/replication/leader.go:64-82 | a run in which a rotation between the two opens leaves the follower with a gap |
| ReplicationDelivery.OneDrain | internal/replication/leader.go:86-104 | every drain takes the first record off the channel, and the stream then reaches past it |
| ReplicationDelivery.ReceiveAll | internal/replication/follower.go:61-92 | taking in what is on the wire leaves the follower exactly where its stream has got to |
| ReplicationDelivery.DeliverLive | internal/replication/leader.go:86-104 | from any live, subscribed, gap-free stream there is a way on that gives its follower everything announced |
| ReplicationDelivery.CatchUp | internal/replication/leader.go:53-104 | from any state a follower whose next record the files still reach back to can connect and be brought up to the end of the log, through archive, active log and channel, in the middle of a rotation too |
| ReplicationDelivery.Reconnect | internal/replication/follower.go:36-59 | the same for a follower that drops a stream, whatever that has come to, and connects again |
| ReplicationDelivery.ServedExactly | internal/replication/leader.go:53-104 | a follower that lacks records and connects can be brought up to the end of the log if and only if the files reach back to what it needs; otherwise no run brings it a single record on that connection |
| ReplicationDelivery.CommitReaches | internal/replication/leader.go:86-104 | a record committed while a follower is subscribed with room in its channel can be brought to it, and is then the last it has applied |
| ReplicationDelivery.Acknowledged | internal/replication/leader.go:107-113 | what arrives at the leader is how far the follower had got when it acknowledged |
| ReplicationDelivery.AckOvertaken | internal/replication/leader.go:107-120 | the leader keeps the acknowledgement that arrived last; of two it is the highest if and only if the higher one did not arrive first |
| ReplicationDelivery.AcksAreTrue | internal/replication/follower.go:103-112 | over every run each acknowledgement sent or delivered is exactly how far its follower had got at some moment |
| ReplicationDelivery.EndedForGood | internal/replication/leader.go:86-104 | over every run a cancelled or overflowed stream sends nothing more and is never subscribed again |
| ReplicationDelivery.RotationKeepsLast | internal/wal/wal.go:128-159 | after a rotation exactly what the active log held can still be read, as the archive |
| Followers.FollowerClient.Receive | internal/replication/follower.go:61-92 | applies the next record to the follower's engine, skips a duplicate, refuses a gap, and stops at a record the engine does not take in; in the last three cases nothing changes |
| Followers.ReplicaEngine.ApplyReplicatedRecord | internal/api/engine.go:110-162 | single writes are logged again and applied, batches only applied; refused exactly when halted, too large to log or undecodable, with the contents as they were |
| Followers.ReplicaEngine.ApplyAll | internal/api/engine.go:140-157 | the operations of a batch in order, those that are neither puts nor deletes of whole keys skipped |
| Followers.FlatEffects | internal/api/engine.go:110-162 | a follower makes of every record the leader logs what recovery makes of it |
| Followers.FollowerHoldsPrefix | internal/replication/follower.go:48-112 | over every interleaving a follower holds exactly what the leader held after the last record applied |
| Followers.RestartInStep | internal/replication/follower.go:36-43 | a follower started again asks for the next record if and only if it has applied single writes only, and then it has lost nothing |
| Followers.RestartLosesBatch | internal/replication/follower.go:36-59 | a batch followed by a single write, not flushed: started again, the follower never asks for the batch |
| HashMaps.HashTable.constructor | internal/dsa/hash_map.go:31-40 | an empty map of at least the requested capacity |
| HashMaps.HashTable.Get | internal/dsa/hash_map.go:89-104 | a map lookup; the probe always comes to an empty slot |
| HashMaps.HashTable.Set | internal/dsa/hash_map.go:53-86 | a map update; moves to a table of twice the size exactly when 70% would be used, and keeps the load below that |
| HashMaps.HashTable.Delete | internal/dsa/hash_map.go:107-127 | a map removal that reports whether the key was there |
| HashMaps.HashTable.Grow | internal/dsa/hash_map.go:129-142 | the same map in twice the slots, without tombstones, and no Set on the way grows again |
| HashMaps.EmptyMeansAbsent | internal/dsa/hash_map.go:89-104 | an empty slot on the probe sequence shows that the key is absent |
| HashMaps.DeleteKeeps | internal/dsa/hash_map.go:107-127 | a tombstone keeps every other key's probe sequence unbroken |
| HashMaps.SearchEnds | internal/dsa/hash_map.go:53-86 | a search cannot pass every slot |
| Heaps.RootIsLeast | internal/dsa/heap.go:60-66 | the root of a heap is a minimum, for any comparator that is an order |
| Heaps.Heap.Push | internal/dsa/heap.go:35-38 | adds one element and keeps the heap order |
| Heaps.Heap.SiftUp | internal/dsa/heap.go:77-86 | restores the order upwards and keeps the elements |
| Heaps.Heap.SiftDown | internal/dsa/heap.go:88-105 | restores the order downwards and keeps the elements |
| Heaps.Heap.Pop | internal/dsa/heap.go:41-57 | takes out a minimum, and only that |
| LruLists.LRUList.PushFront | internal/cache/lru_list.go:36-49 | the node becomes the head and the links agree with the new sequence |
| LruLists.LRUList.MoveToFront | internal/cache/lru_list.go:52-58 | the node moves to the front and the others keep their order |
| LruLists.LRUList.Remove | internal/cache/lru_list.go:61-77 | exactly the node leaves the list, from wherever it was |
| LruLists.LRUList.RemoveTail | internal/cache/lru_list.go:80-87 | the least recently used node leaves the list |
| Caches.Cache.Set | internal/cache/cache.go:45-71 | the entry goes to the front, expiring ttl from now, or never for no ttl; the others keep their order, and a new key at capacity drops exactly the least recently used one; expiry is queued |
| Caches.Cache.Get | internal/cache/cache.go:77-114 | returns the value of the key's entry exactly when that has no expiry or one in the future, and moves it to the front; an expired entry is dropped, a missing key changes nothing |
| Caches.Cache.Delete | internal/cache/cache.go:117-129 | removes exactly the key's entry, the others in their order, and says whether it was there |
| Caches.Cache.EvictExpired | internal/cache/cache.go:139-161 | drops exactly the entries whose key came due and whose expiry is not in the future; nothing expired is left, and exactly the due expiries leave the queue |
| Caches.SweepCases | internal/cache/cache.go:139-161 | an entry survives the sweep unless its expiry is not in the future and some queued expiry of its key came due |
| CacheClients.ServeAll | internal/cache/cache.go:45-161 | every sequence of sets, gets, deletes and sweeps, at any times, is answered as by a list of entries in most-recent-use order |
| CacheSpecs.AfterDueIsKept | internal/cache/cache.go:147-158 | due entries one after the other make up the sweep |
| CacheSpecs.SweepIsExact | internal/cache/cache.go:153-153 | the sweep drops only expired entries if and only if no key that came due has been set again without expiry |
| CacheClients.SweepTakesUnexpired | internal/cache/cache.go:153-153 | a run in which it has been, and the entry that never expires is swept out |
| SecondaryIndexes.AddsPosting | internal/index/secondary.go:43-56 | puts the key on exactly one list, which stays strictly sorted |
| SecondaryIndexes.RemovesPosting | internal/index/secondary.go:75-87 | takes the key off exactly one list, and an empty list goes |
| SecondaryIndexes.SecondaryIndex.Index | internal/index/secondary.go:24-57 | every list holds a key exactly when the token is among the key's latest tokens |
| SecondaryIndexes.SecondaryIndex.Unindex | internal/index/secondary.go:60-73 | the key is on no list, and every other key is where it was |
| SecondaryIndexes.SecondaryIndex.Lookup | internal/index/secondary.go:90-101 | the keys that have the token, in order |
| SecondaryIndexes.SecondaryIndex.LookupIntersect | internal/index/secondary.go:104-140 | exactly the keys that have all the tokens, in order; none for no tokens |
| SecondaryIndexes.IntersectSorted | internal/index/secondary.go:142-157 | exactly the common elements of two sorted lists, in order |

## Left out

- BPlusTrees.BPlusTree.Insert: the tree methods work on pages as values; `NodePages` shows that the in-place buffer
  operations of leaves and routing pages refine those values. Page numbers do not wrap at 2^64.
- BPlusTrees.BPlusTree.Delete: after a deletion that the tree does not survive, nothing is claimed of later calls beyond
  `LookupAndScanDisagree` and `BorrowLosesKey`.
- Page pool exhaustion and I/O errors inside tree operations.
- Cursors.Cursor.Next: the engine's own scans hold its read lock until they are closed, so that no write falls into
  them; the lock is not modelled, and writes between calls are taken one at a time.
- RecordStores.RecordStore.PutBeside: a tree insertion that needs more pages than the file may have halts the engine
  half way, and nothing is claimed then.
- RecordStores.RecordStore.BatchWriteIf: a batch ends at a deletion that the tree does not survive, where the program
  goes on with the remaining operations over the broken tree. Empty and oversized batches are refused in
  `DurableEngine.BatchWriteIf` and `StoredEngine.BatchWriteIf`.
- RecordStores.RecordStore.NewPage: the page file may grow to a limit of at most 2^64 pages; reaching it stands for
  every reason a page cannot be allocated. Writing the active page's number to the meta page is not modelled.
- FreeSpaces.SearchReclaim: the branch that drops the active page from the table is unreachable, since the active page
  is never in it, and is not modelled. The table starts empty after a restart, so space freed earlier is then not reused
  until its page is touched; `RecordStore.lost` names those pages.
- Page and slot headers of slotted pages as bytes: the directory and the data area are separate fields.
- PoolClients.ServeAll: a flush of a page that nobody has pinned may find it evicted and then fails; that answer shows
  what is cached, and both are allowed.
- BufferPools.BufferPool.FetchPage: pins go up under the pool's lock; the shared-lock fast path and atomics are not
  modelled. Disk errors and the reuse of page buffers are left out.
- Recoveries.DurableEngine.FlushPages: a flush is atomic; crashes inside it, and pages evicted by the pool between
  flushes, are left out. The same holds for `StoredEngine.Flush`.
- StoredEngines.StoredEngine.Commit: after a deletion that the tree does not survive, or a write that ran out of pages
  half way, nothing is claimed of the store; the program would still flush it and rotate the log at the next checkpoint.
- StoredRuns.Run: a run ends at the first event the store does not go along with; what the program answers to later
  calls over a full file or a broken tree is not modelled.
- Recoveries.DurableEngine.Commit: numbers do not wrap at 2^64; a failed file write, which halts the engine, is left
  out.
- In the machine of `Replications` a follower process lives on; `Followers` says what a restart does to it. Messages
  within a stream arrive in order; timers decide only when acknowledgements are sent, so they may be sent at any time.
- ReplicationDelivery.CatchUp: the result is that a way on exists; that a scheduler takes it is not claimed.
- A replay that meets a record still being written stops there as if the file ended, since that record is announced
  after the replica subscribed; partial writes are therefore not separate steps of the replication machine.
- Followers.ReplicaEngine.ApplyReplicatedRecord: the follower's contents are a map; page exhaustion inside a batch,
  which halts the engine half way, is left out.
- HashMaps.HashTable.Set: the hash function is a parameter; masking by the capacity is taking the remainder, since the
  capacity is a power of two.
- Caches.Cache.Set: the clock is a parameter; the background sweeper and the read-lock fast path are left out.
- SecondaryIndexes.SecondaryIndex.LookupIntersect: the lists are sorted by size with an insertion sort.
- Caches.Cache.Get: a get promotes its entry, as the code does; a comment in the program says that only writes do. Times
  are whole milliseconds, so a lifetime below one is not modelled.
- ScanSearches.ScanSearchChunk: whether a value matches the query is a parameter; case folding is not modelled.
- Counting keys by partition, conditional single writes beyond the condition check, snapshots and migration: easy
  members or outside the core.
- gRPC and HTTP servers, authentication, the command line, the Studio interface, tokenizing, session and token stores,
  the rate limiter, RESP and frame codecs, vectors, ring buffers, sharding and metrics: plumbing with no hard property.
