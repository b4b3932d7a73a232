# Verified models of the APFSearch core and service

APFSearch keeps an index of files in immutable in-memory snapshots, admits query and background work to a
small pool of CPU threads, caches derived results under a byte budget, persists its index as sections on
disk beside a journal of changed ids, and offers file operations, file-list import and export, and offline
engines through a service. This project models the parts of that system whose correctness is a matter of
protocols, invariants and representations, and proves what they promise.

| file | models |
|---|---|
| `TextArena.dfy`, `EntryBlock.dfy`, `Interning.dfy`, `EntryChunk.dfy`, `EntryTable.dfy`, `EntryRuns.dfy` | the columnar table of rows: references into a shared text arena, interning, labels, sparse properties, reclamation of dead text, and whole runs of updates |
| `RefCounts.dfy`, `Sharing.dfy`, `Snapshots.dfy` | snapshots that share blocks and blocks that share columns, with reference counts and copy-on-write, and the whole table of rows over that storage |
| `ChunkedVec.dfy` | the small vector in blocks of 4096 |
| `DerivedCache.dfy` | the sharded cache of derived results with one ledger and one byte budget |
| `CpuExecutor.dfy` | the admission protocol, as atomic steps of any number of activities |
| `EngineRegistry.dfy` | the registry that loads, shares, leases and evicts offline engines |
| `CsvReader.dfy`, `CsvGrammar.dfy`, `FileList.dfy` | the streaming CSV reader, a grammar for what it accepts, and the export and import of file lists |
| `FileTransfer.dfy`, `TreeCopy.dfy`, `IdentityChanges.dfy` | rename, move and copy of one reviewed object, the copy of a tree with hard links, and the chasing of identities |
| `IndexSections.dfy`, `IndexWriter.dfy`, `CacheJournal.dfy` | reading and writing of the index sections, and the bounded journal of changed ids with its reader |
| `Common.dfy` | types that several models share |

`dafny verify dfyconfig.toml` checks everything.

How the models are built:

- Code that changes fields is a class with those fields, and each method says what the new state is as a
  function of the old one. Lemmas state what that means.
- Text is bytes. Integers are unbounded where the source only compares and stores them. The bounds that the
  source asserts or checks (an arena below 4 GiB, limits of the CSV reader, overflow of file times, sizes in
  the manifest) are branches; a failed assertion is a result of the method.
- Atomic operations are steps of a sequentially consistent machine. A condition variable may wake up at any
  time. A lock is either a field of the state or an atomic method, with other threads acting between methods.
- The clock of the cache and of the registry is a counter that grows with every use.
- Codecs, hashes, partitions, the store of sections and UTF-8 decoding are parameters. What a result asks of them
  is asked of the data at hand only: the bitmap codec of sets of slots below the count, the store of the sections
  that were published. `IndexWriter.SomeFormat` shows for every index that this can be met, and
  `IndexWriter.OneDirectory` is such an index.
- Failure of any system call, and cancellation, are nondeterministic branches.

Where comments and code differ, the models follow the code:

- The comment in `core/src/entry_table.rs:1264-1266` promises to reclaim a block when at least half of its
  bytes are dead. The code does so when more than half are, and only in blocks whose arena changed its length
  since the last update. `EntryTable.EntryTable.FinishUpdate` says exactly which blocks end dense, and
  `EntryTable.OverwrittenTextRemains` is a run that leaves an arena of dead bytes behind.
- An export followed by an import gives back a modification time only above the threshold that the importer
  uses to tell file times from seconds. `FileList.TimeRecovered` states the exact range, `FileList.Reimport`
  what follows for whole lists, and `FileList.LostTime` is a row whose time is lost.

## Model

| member | source | states |
|---|---|---|
| TextArena.SortOrdered | core/src/entry_table.rs:1249 | the sorted references are in order of their start and are the same references, with repetitions |
| TextArena.Merge | core/src/entry_table.rs:1250-1262 | for overlapping, nested and empty references alike, the merged ranges are nonempty, in order and apart, hold every nonempty reference whole, and hold no byte that no reference reads |
| TextArena.MergedCount | core/src/entry_table.rs:1263 | the bytes counted as live are exactly the distinct positions that some reference reads |
| TextArena.Pack | core/src/entry_table.rs:633-640 | the new arena is the ranges one after the other, and each placement tells where its range went |
| TextArena.PartitionPoint | core/src/entry_table.rs:645-646 | the binary search returns the number of placements that start at or before the offset |
| TextArena.HomeIsHolder | core/src/entry_table.rs:645-647 | for a position inside a range, the search ends at that range and no other |
| TextArena.RelocatedReads | core/src/entry_table.rs:641-652 | every relocated reference lies in the new arena and reads the text it read before |
| TextArena.NoDeadByte | core/src/entry_table.rs:633-677 | each position of the new arena is read by some relocated reference |
| TextArena.PackedIsLive | core/src/entry_table.rs:633-677 | the length of the new arena is its own number of live bytes and that of the old arena |
| EntryBlock.StateBitsRead | core/src/entry_table.rs:787-798 | the five state bits decode to the directory, symlink, indexed, null and stored-properties facts of the row they were built from |
| EntryBlock.PropertiesColumn | core/src/entry_table.rs:793-806 | writing a row keeps the sparse map in step with the state bits: exactly the slots with the bit have a value |
| EntryBlock.RowWrittenMeans | core/src/entry_table.rs:842-953 | a block written column by column holds the new row in the slot in every field, and every other slot reads what it read |
| EntryBlock.MovedText | core/src/entry_table.rs:654-661 | every name, folded name, search name and parent reads the same after compaction |
| EntryBlock.MovedPath | core/src/entry_table.rs:662-673 | every path, folded path and search path reads the same after compaction, from both of its halves |
| EntryBlock.CompactionMeans | core/src/entry_table.rs:633-677 | compaction keeps all rows of a block and leaves an arena in which every byte is live |
| EntryChunks.SetColumn | core/src/entry_table.rs:496-520 | a slot is overwritten or the next one appended; an equal value changes nothing |
| EntryChunks.EntryChunk.Append | core/src/entry_table.rs:548-566 | the arena grows by the text, and the reference reads it; it panics exactly when the arena would pass its 32-bit bound |
| Interning.CostJoined | core/src/entry_table.rs:807-841 | what a sequence of texts appends is what its first part appends and then, with that part known, its second |
| Interning.CostBound | core/src/entry_table.rs:807-841 | never more than all texts together, and nothing if and only if each is known or empty |
| Interning.NeededBound | core/src/entry_table.rs:842-939 | a row never appends more than the lengths of its texts and paths |
| EntryChunks.EntryChunk.BuildDictionary | core/src/entry_table.rs:807-834 | the dictionary has exactly the texts that some reference reads, and each entry reads back its key |
| EntryChunks.EntryChunk.InternUpdate | core/src/entry_table.rs:807-841 | the reference reads the value; the arena grows by the value exactly when it was unknown; it fails exactly for an unknown value without room; afterwards known is what was known and the value |
| EntryChunks.EntryChunk.SetText | core/src/entry_table.rs:856-882 | the slot reads the value, other columns and slots are the same, earlier references read what they read, and the arena grows by the value exactly when neither slot nor dictionary had it; it fails exactly when what it appends has no room |
| EntryChunks.EntryChunk.SetPath | core/src/entry_table.rs:883-897 | the two halves, split after the last slash, read back the path, and the arena grows by the unknown halves; it fails exactly when what it appends has no room |
| EntryChunks.EntryChunk.SetParent | core/src/entry_table.rs:898-915 | a parent stored as the beginning of the path prefix, or interned, reads back exactly, and only the interned one can grow the arena; it fails exactly when what it appends has no room |
| EntryChunks.EntryChunk.Label | core/src/entry_table.rs:692-700 | the position names an equal label, positions handed out before keep their label, and a known label adds nothing |
| EntryChunks.EntryChunk.SetProperties | core/src/entry_table.rs:787-806 | the state byte and the sparse map become those of the row |
| EntryChunks.EntryChunk.Set | core/src/entry_table.rs:842-953 | the rows of the block are the old ones with the row at the slot, or after the last; the arena grows by exactly the bytes that the row needs, counting each unknown text once, and it fails if and only if they have no room |
| EntryChunks.EntryChunk.At | core/src/entry_table.rs:1035-1142 | the accessors of an entry view read the row of the slot |
| EntryChunks.RelocateColumn | core/src/entry_table.rs:641-661 | each reference of the new column is the relocated one of the old column |
| EntryChunks.EntryChunk.CompactText | core/src/entry_table.rs:633-677 | the rows stay, the arena shrinks to its live bytes, the dictionary goes |
| EntryChunks.EntryChunk.CompactIntegers | core/src/entry_table.rs:759-786 | sharing equal columns changes no column, and the dictionary goes |
| EntryChunks.EntryChunk.Reclaim | core/src/entry_table.rs:1226-1270 | the rows and the number of live bytes stay; an arena more than half dead becomes fully live, any other is left as it is |
| EntryTable.EntryTable.Get | core/src/entry_table.rs:1186-1191 | the row of the slot within the length, and nothing beyond it |
| EntryTable.EntryTable.Last | core/src/entry_table.rs:1192-1194 | the last row, or nothing for an empty table |
| EntryTable.EntryTable.Collect | core/src/entry_table.rs:1195-1199 | iteration gives all rows in order |
| EntryTable.EntryTable.Push | core/src/entry_table.rs:1200-1210 | the table is the old one with the row at the end; all blocks but the last hold 4096 rows; the block is marked as changed in both sets and no other changes; it fails if and only if the last or new block has no room for what the row needs |
| EntryTable.EntryTable.Set | core/src/entry_table.rs:1211-1220 | the table is the old one with the row at the slot; the block is marked for text reclamation exactly when its arena changed its length, and no other changes; it fails if and only if that block has no room for what the row needs |
| EntryTable.EntryTable.Clone | core/src/entry_table.rs:1167-1173 | the clone has the same rows, arenas and marks, and no block that the original can change; the sharing of blocks behind this is `Snapshots` |
| EntryTable.EntryTable.FinishUpdate | core/src/entry_table.rs:1221-1277 | the rows stay, no dictionary remains, a block ends with an arena at most twice its live bytes if and only if its text was marked or it was that dense before, and a block that was not marked does not change |
| EntryTable.OverwrittenTextRemains | core/src/entry_table.rs:1211-1277 | a run after which an arena holds only dead bytes although the update was finished |
| EntryTable.AllRowsBlock | core/src/entry_table.rs:1304-1321 | blocks whose sizes are accepted hold consecutive stretches of the rows |
| EntryTable.FromChunks | core/src/entry_table.rs:1304-1321 | a table exactly when no block is empty or too long, all but the last are full and the length fits 32 bits, with the rows of the blocks in order; a block may be given twice |
| EntryRuns.HoldsPush | core/src/entry_table.rs:1200-1210 | a push stores the last row of the new slot and of no other |
| EntryRuns.HoldsSet | core/src/entry_table.rs:1211-1220 | a set stores the last row of its slot and of no other |
| EntryRuns.Step | core/src/entry_table.rs:1200-1277 | an update fails if and only if the arena of the block it writes has no room, and leaves the other blocks as they are |
| EntryRuns.Perform | core/src/entry_table.rs:1200-1277 | after any run of push, set and finish_update, each slot reads exactly the last row the run stored there, and slots beyond the pushes read nothing; a run stops early only at an update whose own block has no room in its 4 GiB arena for what the row needs |
| RefCounts.ExactAppend | core/src/entry_table.rs:496-505 | retaining a cell for one more handle keeps every count equal to the number of handles |
| RefCounts.ExactPop | core/src/entry_table.rs:496-505 | releasing a handle keeps every count exact, and frees a cell exactly when nobody names it |
| RefCounts.ExactReplace | core/src/entry_table.rs:759-772 | putting another cell into a place keeps every count exact, also when both are the same cell |
| RefCounts.OnlyHolder | core/src/entry_table.rs:500 | a cell whose count is one is named by one place only |
| Sharing.EditedBlock | core/src/entry_table.rs:1200-1220 | a change to a block with one holder is seen by that holder alone |
| Sharing.Store.MakeMutBlock | core/src/entry_table.rs:1213 | afterwards nobody else holds the block, every snapshot reads the same, and no existing block has changed |
| Sharing.Store.SetCell | core/src/entry_table.rs:496-520 | the value is written, other snapshots keep their handles and rows, the other blocks stay shared, and a block or a part of it is written in place only when its count was one |
| Sharing.Store.SetColumn | core/src/entry_table.rs:654-673 | one column of one snapshot gets new values, and nothing else changes for anybody |
| Sharing.Store.ShareColumn | core/src/entry_table.rs:759-772 | equal columns of a block become one shared column, and every snapshot reads the same |
| Sharing.Store.PushBlock | core/src/entry_table.rs:1200-1203 | a new block ends the table, and its earlier blocks stay shared |
| Sharing.Store.Clone | core/src/entry_table.rs:1167-1173 | the clone names the same blocks and reads the same rows; nothing is copied |
| Sharing.Store.Drop | core/src/chunked_vec.rs:12-16 | what only the dropped snapshot held is freed, and every other snapshot reads the same |
| Sharing.Store.Perform | core/src/entry_table.rs:1165-1277 | over any run of new tables, clones, writes, aliasing, compaction and drops, every living snapshot reads what it would read if nothing were shared; one that no operation names keeps its handles, and any other keeps those of the blocks that no operation names |
| Sharing.OwnOnly | core/src/entry_table.rs:1165-1277 | what a snapshot reads after a run is what its own operations make of what it read before, whatever the others do |
| Sharing.CloneReads | core/src/entry_table.rs:1167-1173 | a clone reads what its original read then, followed by its own operations only |
| Snapshots.Encoded | core/src/entry_table.rs:569-597 | a block is its twenty-five parts: taking it apart and putting it together loses nothing |
| Snapshots.OwnSaved | core/src/entry_table.rs:1200-1220 | writing back the parts that differ, and pushing the new blocks, leaves the table with the changed contents |
| Snapshots.SavedAlone | core/src/entry_table.rs:1213 | a block whose parts do not differ is not written |
| Snapshots.Snapshots.Get | core/src/entry_table.rs:1186-1191 | the row of the slot, read through the handles of table, block and part, and nothing beyond the length |
| Snapshots.Snapshots.Update | core/src/entry_table.rs:1200-1277 | a push, set or finish_update of one snapshot over shared blocks, columns, arenas, labels and properties changes the rows of that snapshot alone; the others keep all their blocks and this one those that the update does not write; it fails if and only if an arena has no room for what the row needs |
| Snapshots.Snapshots.Perform | core/src/entry_table.rs:1165-1277 | over any run of new tables, clones, drops and updates, every living snapshot has the rows it would have if nothing were shared; a run stops early only at an update whose arena has no room for what the row needs |
| Snapshots.Isolated | core/src/entry_table.rs:1165-1277 | a snapshot that no action names has the same rows at the end |
| Snapshots.ClonePinned | core/src/entry_table.rs:1167-1173 | a clone keeps the rows of the moment it was made, whatever is done to its original afterwards |
| ChunkedVec.FlatAt | core/src/chunked_vec.rs:31-35 | division and remainder find exactly the item at the slot, for every slot within the length and no other |
| ChunkedVec.FlatUpdate | core/src/chunked_vec.rs:79-84 | replacing an item of its block replaces the item at the slot and no other |
| ChunkedVec.ChunkedVec.Get | core/src/chunked_vec.rs:31-35 | the item at the slot, or nothing from the length on |
| ChunkedVec.ChunkedVec.Push | core/src/chunked_vec.rs:43-51 | the item follows all others, in a new block exactly when all are full |
| ChunkedVec.ChunkedVec.Assign | core/src/chunked_vec.rs:79-84 | the items are the old ones with the value at the slot |
| ChunkedVec.ChunkedVec.FromItems | core/src/chunked_vec.rs:52-67 | the vector holds the items in order, in full blocks but for the last |
| DerivedCache.Ledger.Add | core/src/derived_cache.rs:131-141 | counts stay equal to the occurrences over all entries, and an allocation is charged once, when it first occurs |
| DerivedCache.Ledger.Remove | core/src/derived_cache.rs:142-153 | counts stay exact, an allocation is credited when its last occurrence goes, and no subtraction goes below zero |
| DerivedCache.ChargeRemove | core/src/derived_cache.rs:142-153 | an entry accounts for exactly its own occurrences, overhead and place |
| DerivedCache.OldestFront | core/src/derived_cache.rs:244-256 | the globally least recent entry is the front of its shard, and every other front was touched later |
| DerivedCache.HeldTotal | core/src/derived_cache.rs:156-181 | the eight shards together hold as many entries as the one recency list they cut up |
| DerivedCache.Cache.EntriesHeld | core/src/derived_cache.rs:118-153 | the entry count of the ledger is the total over the eight shards |
| DerivedCache.TouchedKeeps | core/src/derived_cache.rs:190-193 | a touch moves the entry to the back of the global order and keeps every charge |
| DerivedCache.TrimPrefix | core/src/derived_cache.rs:235-264 | the victims are a prefix of the global recency order, and no longer than the budget demands |
| DerivedCache.NewestSurvives | core/src/derived_cache.rs:211-264 | the inserted entry survives if and only if its own charge fits beside the reservations |
| DerivedCache.AdmittedFound | core/src/derived_cache.rs:198-269 | an entry that was admitted alone is found again if and only if its own charge fits beside the reservations |
| DerivedCache.Cache.Get | core/src/derived_cache.rs:182-197 | a hit returns the product last admitted under exactly this owner and key, with the kind of the key, and becomes the most recent entry |
| DerivedCache.Cache.Oldest | core/src/derived_cache.rs:244-256 | other threads may touch entries before each shard is read, and a shard that is not empty is found whenever the cache is not; alone, it is the shard of the globally least recent entry |
| DerivedCache.Cache.Insert | core/src/derived_cache.rs:198-269 | whatever other threads touch or release meanwhile, also between the reads of two shards, bytes plus reservations are within the limit and entries within 512 at the end; alone, it is one step of a single global LRU list; a product over the limit changes nothing |
| DerivedCache.Cache.ReserveBuffer | core/src/derived_cache.rs:429-441 | granted exactly when the bytes fit beside the charges, so that the budget holds again |
| DerivedCache.Cache.DropReservation | core/src/derived_cache.rs:442-446 | exactly its own bytes return, and the budget holds |
| DerivedCache.Cache.RemoveOwner | core/src/derived_cache.rs:270-291 | exactly the products of other owners remain, with exact charges, whatever other threads touch between two shards; alone, in their order |
| DerivedCache.Cache.Orders | core/src/derived_cache.rs:292-307 | exactly the cached orders of the owner, whatever other threads touch between two shards; alone, shard by shard and in each from the least recent one on |
| DerivedCache.Cache.Clear | core/src/derived_cache.rs:308-322 | nothing is cached and nothing is charged |
| DerivedCache.Cache.Do | core/src/derived_cache.rs:182-322 | one hit, admission, reservation, release, removal of an owner or clearing is one step of a single global list with one budget, and gives its answer |
| DerivedCache.Cache.Perform | core/src/derived_cache.rs:154-322 | over every run of these the eight shards, the ledger and the reservations hold and answer what that list does |
| DerivedCache.Cache.WithinBudget | core/src/derived_cache.rs:235-265 | charges and reservations together fit the limit, the entries fit 512, and the ledger's bytes are the charge of exactly what is cached |
| DerivedCache.DerivedCache.GetPage | core/src/derived_cache.rs:375-380 | a page exactly when there is one under the key, then the one last admitted, and the entry becomes the most recent; another kind of product cannot be found there |
| DerivedCache.DerivedCache.GetMatches | core/src/derived_cache.rs:384-389 | matches exactly when there is one under the key, then the one last admitted, and the entry becomes the most recent; another kind of product cannot be found there |
| DerivedCache.DerivedCache.GetOrder | core/src/derived_cache.rs:393-398 | an order exactly when there is one under the key, then the one last admitted, and the entry becomes the most recent; another kind of product cannot be found there |
| DerivedCache.DerivedCache.GetHierarchy | core/src/derived_cache.rs:366-371 | a hierarchy exactly when there is one under the key, then the one last admitted, and the entry becomes the most recent; another kind of product cannot be found there |
| DerivedCache.DerivedCache.InsertPage | core/src/derived_cache.rs:381-383 | the page becomes the last one admitted under the text, with the kind that the reader expects, unless it is over the limit |
| DerivedCache.DerivedCache.InsertMatches | core/src/derived_cache.rs:390-392 | the same for matches |
| DerivedCache.DerivedCache.InsertOrder | core/src/derived_cache.rs:399-401 | the same for an order |
| DerivedCache.DerivedCache.InsertHierarchy | core/src/derived_cache.rs:372-374 | the same for the hierarchy |
| DerivedCache.DerivedCache.FromOrders | core/src/derived_cache.rs:405-413 | a new view starts with the given orders, each the last one admitted under its sort unless it is over the limit |
| DerivedCache.DerivedCache.InsertAndGetPage | core/src/derived_cache.rs:375-383 | a page that was just inserted alone is found again if and only if its own charge fits beside the reservations |
| CpuExecutor.ThreadCount | core/src/cpu_executor.rs:20-24 | half the hardware threads, rounded up, between one and eight |
| CpuExecutor.StepInv | core/src/cpu_executor.rs:47-151 | every atomic step of every activity keeps the accounting of units, waiters, permits and duties |
| CpuExecutor.ReachableInv | core/src/cpu_executor.rs:47-151 | the invariant holds after every schedule of any number of activities |
| CpuExecutor.Conservation | core/src/cpu_executor.rs:47-76 | free units and held units always add up to the capacity, the background counter is the number of background permits, and the mutex has one holder at most |
| CpuExecutor.NoUnderflow | core/src/cpu_executor.rs:89-99 | whoever is about to leave a counter is still counted, so no counter goes below zero |
| CpuExecutor.NoLostWakeup | core/src/cpu_executor.rs:77-103 | a query is blocked beside free capacity only while somebody has returned capacity and has yet to notify |
| CpuExecutor.CancelledIsWoken | core/src/cpu_executor.rs:104-107 | a query that is blocked although it is cancelled has a wake call still to come |
| CpuExecutor.BackgroundProgress | core/src/cpu_executor.rs:108-124 | beside blocked background work there is an outstanding permit, a pending notification or a query that runs |
| CpuExecutor.NoDeadlock | core/src/cpu_executor.rs:77-151 | when everybody is idle or blocked, nobody is blocked and all capacity is free |
| CpuExecutor.BackgroundShare | core/src/cpu_executor.rs:111-120 | background work admitted while a query waits is the only background work |
| EngineRegistry.OfflineEngineRegistry.Acquire | macos/SearchService.swift:253-282 | a resident engine is referenced, a loading one is waited for, a missing one is the caller's to load; there is no fourth case, so the loop never repeats |
| EngineRegistry.OfflineEngineRegistry.FinishLoad | macos/SearchService.swift:296-319 | the result is published with one reference for the loader and one for each waiter, and one signal owed to each; a loaded engine stays and only idle ones leave, a failed one leaves alone |
| EngineRegistry.OfflineEngineRegistry.Signal | macos/SearchService.swift:311-317 | one owed signal is given, to a thread that waits |
| EngineRegistry.OfflineEngineRegistry.PassSemaphore | macos/SearchService.swift:266 | a thread that passes was waiting, and takes one signal |
| EngineRegistry.OfflineEngineRegistry.ReadResult | macos/SearchService.swift:267-277 | after the wait the result is there, and a loaded engine is already referenced for the reader |
| EngineRegistry.OfflineEngineRegistry.MakeLease | macos/SearchService.swift:324-329 | a granted reference becomes a lease, and the number of references is the same |
| EngineRegistry.OfflineEngineRegistry.Release | macos/SearchService.swift:331-343 | the entry of a live lease is still the resident one, exactly its reference goes, and only idle engines leave the table |
| EngineRegistry.OfflineEngineRegistry.EvictIdle | macos/SearchService.swift:347-357 | only idle engines go, the most recently used one stays, and one idle engine remains at most |
| EngineRegistry.OfflineEngineRegistry.ReferencesExact | macos/SearchService.swift:246-343 | references equal leases plus what is granted to the loader and reserved for waiters; a referenced engine is resident |
| EngineRegistry.OfflineEngineRegistry.TableEntries | macos/SearchService.swift:246-322 | every entry of the table is loading or has an engine, and the threads still waiting are the signals given or owed |
| CsvReader.CSVReader.Consume | macos/SearchService.swift:970-986 | one byte takes the reader to the specified next state, with the specified error |
| CsvReader.CSVReader.Feed | macos/SearchService.swift:937-952 | the state after a chunk depends only on all bytes so far, across the buffered mark; a chunk beyond the byte limit is refused untouched |
| CsvReader.CSVReader.Close | macos/SearchService.swift:987-992 | the rows and the error are those of parsing the whole input at once, however it was cut |
| CsvReader.RunAppend | macos/SearchService.swift:937-952 | reading two pieces one after the other is reading them joined |
| CsvReader.RunFailed | macos/SearchService.swift:970-986 | after an error no byte changes anything |
| CsvGrammar.RunReflects | macos/SearchService.swift:953-986 | after every accepted prefix the state reflects a derivation whose text is that prefix |
| CsvGrammar.Sound | macos/SearchService.swift:937-992 | what the reader accepts is in the language, and the rows are its values |
| CsvGrammar.Complete | macos/SearchService.swift:937-992 | everything in the language within the limits is accepted, with its values |
| CsvGrammar.Accepts | macos/SearchService.swift:937-992 | an input is accepted with some rows if and only if a derivation within the limits renders to it and has those values (section 2 of RFC 4180, with bare CR, bare LF and blank records) |
| CsvGrammar.RunInBounds | macos/SearchService.swift:911-969 | field, column, row and record bounds hold in every state, accepted or not |
| FileList.DecimalDigits | macos/SearchService.swift:882-883 | decimal digits read back as the number they were written from |
| FileList.Export | macos/SearchService.swift:788-818 | the bytes are the header and the rows in order; it fails exactly when some time has no file time |
| FileList.Import | macos/SearchService.swift:854-886 | a file over the byte limit is refused unread; otherwise, for every way to cut the input, the outcome is that of the whole input: the header is judged when the first record is handed on, before any later error, and a change of the file after all has been read; past the byte limit it is that of the chunks before |
| FileList.SettledEarly | macos/SearchService.swift:854-872 | a header without a path column, or an error, in a prefix decides the outcome of every longer input |
| FileList.TimeRecovered | macos/SearchService.swift:803-808 | a time has a file time up to the last second 64 bits can hold, and import recovers it if and only if it is above -11644463600 |
| FileList.ExportParses | macos/SearchService.swift:800-810 | parsing an export gives back the header and the rows, with quotes, commas and newlines in paths |
| FileList.ImportUndoesExport | macos/SearchService.swift:854-885 | import of an export recovers path, size and directory flag of every row, in order |
| FileList.RecoveredExactly | macos/SearchService.swift:880-881 | the rows come back unchanged if and only if every time is above the threshold |
| FileList.Reimport | macos/SearchService.swift:788-886 | importing an export, cut into chunks in any way, lists every row again, and exactly the exported rows if and only if every time is above the threshold |
| FileTransfer.FileSystem.RenameIn | macos/FileOperations.swift:174-179 | an exclusive rename moves the object into an unused name, changing at most its status-change time |
| FileTransfer.FileSystem.RenameOut | macos/FileOperations.swift:174-179 | an exclusive rename never replaces an existing name |
| FileTransfer.FileSystem.TrashItem | macos/FileOperations.swift:354-362 | the captured object is in the Trash, or still captured |
| FileTransfer.FileSystem.CopyIn | macos/FileOperations.swift:411-479 | only a success leaves a complete copy, with the names, contents and inode sharing of the tree as `TreeCopy.CopyTree` makes it; anything else left behind counts as a copy of nothing |
| FileTransfer.FileSystem.Remove | macos/FileOperations.swift:480-490 | a failed removal may leave part of a tree, which counts as no copy of anything |
| FileTransfer.FileSystem.Attempt | macos/FileOperations.swift:336-394 | at most one object is captured; up to the first error it is unchanged in staging, in the Trash, or one placement has delivered it |
| FileTransfer.FileSystem.Perform | macos/FileOperations.swift:331-410 | success leaves the reviewed object, or a complete copy of its tree, at the target or in the Trash; whenever an object was captured, after any failure it is back at its source, in a listed recovery path, completely at the target, or in the Trash; exactly what is left in staging is listed, except an output whose existence cannot be read, and the Trash exactly when that told where it put the object |
| TreeCopy.AddLink | macos/FileOperations.swift:434-441 | linking to the recorded copy of an inode keeps names, contents and sharing as in the source |
| TreeCopy.AddFirst | macos/FileOperations.swift:442-478 | the first path of an inode gets a new one that nothing in the copy shares |
| TreeCopy.CopyOutput.Copy | macos/FileOperations.swift:411-479 | on success exactly the paths of the subtree were added, earlier nodes are the same, and the links table still describes the copy |
| TreeCopy.CopyTree | macos/FileOperations.swift:411-479 | the copy has the names and contents of the source, and two of its files share an inode if and only if they share one in the source |
| IdentityChanges.OperationIdentityChanges.Record | macos/FileOperations.swift:498-501 | only a change to another identity with the same payload is recorded |
| IdentityChanges.OperationIdentityChanges.Current | macos/FileOperations.swift:502-507 | it ends on every map; the result has the same payload and is the chain end where there is one; every other chain keeps its end; an acyclic map stays acyclic with the same answers |
| IdentityChanges.CompressedAcyclic | macos/FileOperations.swift:505 | path compression changes no answer of an acyclic map |
| IdentityChanges.CycleNeverEnds | macos/FileOperations.swift:502-507 | an identity on a cycle has no chain end |
| IdentityChanges.RecordAcyclic | macos/FileOperations.swift:498-501 | recording keeps an acyclic map acyclic if and only if the new identity does not already lead back |
| IndexSections.ReadOrder | core/src/index_sections.rs:159-192 | any accepted order lists every live slot exactly once, and a written order is accepted unchanged |
| IndexSections.ReadLive | core/src/index_sections.rs:147-156 | accepted ties are live, slots are below the count, and the number of live slots is the announced one |
| IndexSections.ReadPosting | core/src/index_sections.rs:208-236 | a written posting reads back, with the position after it |
| IndexSections.ReadShard | core/src/index_sections.rs:198-240 | accepted postings have new, distinct keys that belong to the shard, and a written shard is accepted unchanged |
| IndexSections.ReadShards | core/src/index_sections.rs:194-240 | the keys of all shards together are distinct |
| IndexSections.ReadHeader | core/src/index_sections.rs:115-137 | exactly the plausible headers are accepted |
| IndexSections.OrderCount | core/src/index_sections.rs:126-130 | an order of n slots has between n / 4096, rounded up, and n blocks, so the plausibility test refuses no real order |
| IndexSections.RootHeader | core/src/index_sections.rs:94-103 | every manifest over sections that the store keeps has a plausible header and names the sections in order |
| IndexSections.WriteSections | core/src/index_sections.rs:34-106 | the manifest describes all parts in the order live set, name order, path order, postings |
| IndexSections.Read | core/src/index_sections.rs:107-269 | whatever is accepted is a valid index: both orders permute the live set, ties are live, keys are distinct, each flag group is there once; what was written to a store that keeps its sections comes back unchanged |
| IndexWriter.ListsOnce | core/src/index_sections.rs:85 | a set of postings has one list in the order of their keys, so sorting gives the same bytes in whatever order they were collected |
| IndexWriter.Collect | core/src/index_sections.rs:76-85 | the group of a shard is exactly the postings of that shard, sorted |
| IndexWriter.GroupedWritable | core/src/index_sections.rs:67-95 | the 256 groups hold every posting once, each in its own shard, as the reader asks |
| IndexWriter.Write | core/src/index_sections.rs:34-106 | the manifest of the collected and sorted postings, the live set, the ties and both orders |
| IndexWriter.RoundTrip | core/src/index_sections.rs:34-269 | for every valid index, reading what was written to a store that keeps its sections gives the same live set, ties, orders and postings |
| IndexWriter.AcceptedIsIndexed | core/src/index_sections.rs:107-269 | an accepted index is one that can be written again |
| IndexWriter.SomeFormat | core/src/index_sections.rs:34-106 | for every valid index there are a codec and a store that meet what the round trip asks |
| CacheJournal.Database.CountInsert | core/src/cache_journal.rs:20-28 | the counter is the number of distinct ids and at most 65536; beyond that the journal is emptied and marked |
| CacheJournal.Database.CountDelete | core/src/cache_journal.rs:17-19 | the counter is again the number of journaled ids and within the limit, so that the trigger of the limit stays silent |
| CacheJournal.Database.DeleteAllChanges | core/src/cache_journal.rs:17-28 | deleting every id brings the counter to zero, also from one beyond the limit |
| CacheJournal.Database.Record | core/src/index_store.rs:1551-1556 | an id is journaled once, when there is a checkpoint and no overflow |
| CacheJournal.Database.InsertFile | core/src/index_store.rs:1551 | a refused insertion changes nothing; a successful one journals exactly its id, and gives the journal up only when it was full; an overflow mark stays set |
| CacheJournal.Database.DeleteFile | core/src/index_store.rs:1552 | the row is gone with its content, exactly its id is journaled, and no other visible row changes; an overflow mark stays set |
| CacheJournal.Database.UpdateFile | core/src/index_store.rs:1553 | the id is journaled exactly when a compared column changed, and the journal still covers every visible difference; an overflow mark stays set |
| CacheJournal.Database.PutContent | core/src/index_store.rs:1554-1555 | exactly the file at the path is journaled when the content changed, and nothing when it did not; only a full journal is given up; an overflow mark stays set |
| CacheJournal.Database.DeleteContent | core/src/index_store.rs:1556 | exactly the file at the path is journaled when there was content to remove; only a full journal is given up; an overflow mark stays set |
| CacheJournal.Database.Commit | core/src/index_store.rs:1970-1972 | a transaction that changed something makes a new revision, which shows the current visible rows |
| CacheJournal.Database.Checkpoint | core/src/index_store.rs:2452-2470 | done exactly when the revision is still the published one; then the journal is empty, unmarked and relative to its rows, and otherwise nothing changes |
| CacheJournal.Database.Rollback | core/src/cache_journal.rs:1-3 | rows, journal, counter and overflow mark return together |
| CacheJournal.Database.ReadChanges | core/src/change_reader.rs:42-85 | a returned delta has exactly one current row or tombstone for each journaled id, in order; it is never cut off |
| CacheJournal.ApplyLookup | core/src/change_reader.rs:57-85 | applying a delta gives each listed id its new row or none, and leaves all others |
| CacheJournal.Replayed | core/src/cache_journal.rs:1-31 | the base rows with the journaled ids brought up to date are the current visible rows |
| CacheJournal.Database.Recover | core/src/index_store.rs:2471-2500 | recovery gives exactly the current visible rows, or nothing; something if and only if the cache file is that of the last checkpoint and there is no later revision or between 1 and 65536 ids were edited since |
| CacheJournal.Database.Perform | core/src/index_store.rs:1551-1556 | over every legal run of edits, transactions, publications and checkpoints the database has the tables, the revision and the ids edited since the checkpoint of one that keeps those ids in a set without a bound |
| CacheJournal.RecoverAfter | core/src/index_store.rs:2471-2500 | after every such run recovery gives exactly the rows of that simpler database, or nothing, and says exactly when |
| CacheJournal.RolledBack | core/src/cache_journal.rs:1-3 | a transaction that is rolled back leaves neither rows nor edited ids, whatever it did |
| CacheJournal.StaysRefused | core/src/index_store.rs:2479-2483 | once a run has committed edits of more than 65536 ids since the checkpoint, recovery refuses until the next checkpoint, whatever else follows |
| CacheJournal.RunDated | core/src/index_store.rs:1970-1972 | in every run ids are edited since the checkpoint only by transactions that make a later revision |

## Left out

- EntryChunks.EntryChunk.Label: label positions are unbounded, where the source stores them in 32 bits.
- EntryTable.FromChunks: asks for blocks without a dictionary, which is what loading produces; a block given twice is copied, and sharing itself is the subject of `Sharing` and `Snapshots`.
- EntryTable.EntryTable.Push: a table owns its blocks here; what make_mut does to shared ones is in `Sharing` and `Snapshots`.
- EntryRuns.Perform: each update works on a clone, so what a panic leaves of the table is not observed there.
- Sharing.Store.SetCell: a part of a block is written as a whole; the change of one slot of a column is in `EntryChunks.SetColumn`. A dictionary is shared like a column, where the source copies it with its block.
- DerivedCache.Cache.Insert: with other threads at work it states the budget and the accounting, not the exact victims, which then depend on the interleaving.
- Snapshots.Snapshots.Update: the update works on a copy of the blocks and writes back what differs, so what a panic leaves half done is not observed.
- DerivedCache.Cache.Orders: insertions and removals between two shards are not interleaved, only hits and released reservations.
- CsvReader.CSVReader.Feed: cancellation and errors thrown by the row callback are not modelled.
- FileList.Export: quotes in a path are doubled byte by byte; `replacingOccurrences` without the literal option may treat a quote followed by a combining mark as another character, and such paths are assumed not to occur.
- FileList.Import: batches, the derived name and the import database are not modelled; empty paths are skipped as in the source.
- FileTransfer.FileSystem.CopyIn: what the pinned handle opens is a tree that does not change while it is copied; names in a directory are distinct and one inode has one content.
- FileTransfer.FileSystem.Perform: access-control lists, the trust of the staging directory and the bookmark of a trashed object are not modelled; an object that the Trash takes without telling where is not listed, as in the source.
- TreeCopy.CopyOutput.Copy: the source does not change during the copy; metadata other than content, link target and hard links is not modelled.
- EngineRegistry.OfflineEngineRegistry.Acquire: the check of the identifier and of the index file, the load itself and weak references are not modelled.
- IndexSections.WriteSections: sections are published anew; the reuse of published sections and their hashes are not modelled, and bitmap encoding, partition and key validation are parameters.
- IndexSections.ReadOrder: the set of remaining slots is a set, not its bitmap.
- CacheJournal.Database.Recover: the decoding of the cache file and its own integrity checks are not modelled; the file holds the rows that a reader of its revision saw, and revisions and generations are unbounded.
- CpuExecutor.StepInv: memory is sequentially consistent, and poisoned mutexes do not occur.
- Building blocks from whole lists of rows (`from_rows`), with its prefix interning, which has the same readers.
- Cut points inside UTF-8 characters: texts are bytes, and ranges that references read end at characters.
- Memory-mapped columns, which read like owned ones, and compact integer columns, which are plain sequences.
- JSON serialization, memory inventory and size estimates.
- File-system events, disk arbitration, content extraction, SQLite internals, user interface, packaging.
