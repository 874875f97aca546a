# MkDB in Dafny

MkDB is a log-structured document store. Records are JSON objects. A write appends the
whole new version of a record as one line to an append-only segment file, and a primary
index in memory, backed by a journal file, points at the latest line of every id. Writes
are debounced in a queue, sealed segments are compacted, queries are answered from
numeric and full-text indexes or by scanning, and a RAM cache sits in front of it all.

This project models that engine and the two client-side diff functions, and proves what
they promise. Where a promise does not hold in general, a lemma gives the exact condition
under which it does.

| files | part of the system |
|---|---|
| `Text`, `Decimal`, `Json`, `Serializer` | text, numbers, JSON values, record lines |
| `Delta`, `PutLaws`, `Shapes`, `Debounce`, `DictDebounce`, `PythonPatch`, `TypeScriptPatch`, `TypeScriptSession` | merging, partitioning and diffing of records |
| `DiskLines`, `LogManager`, `IndexManager`, `Store`, `Compactor`, `Bootstrap`, `Recovery`, `StoreRun` | the storage engine: first over lines, then over the bytes of segments, blobs and journal |
| `WriteQueue`, `WriteQueueRun`, `QueueLaws`, `StoreFront` | the debounced queue, and the store with queue and cache |
| `Tokenizer`, `TokenLaws`, `Postings`, `PostingFile`, `NumericIndex`, `FullTextIndex` | the secondary indexes and their files |
| `QueryModel`, `QueryLaws`, `QueryAgreement`, `QueryEngine`, `IndexUpkeep`, `IndexRun` | queries, and the indexes over whole runs |
| `RecencyList`, `RamCache`, `WorkerCache` | the caches |
| `Framing`, `ResultRouting`, `RateLimit` | socket frames, result routing, the rate limit |
| `Witnesses` | one printer of each kind that the hypotheses below ask for |

Objects whose methods change their fields are classes, loops are loops, and each method is
proved against functions on values; the theorems are lemmas about those functions and
methods that run any sequence of steps.

## What the model takes as given

- One character is one byte; UTF-8 and case folding beyond ASCII are not modelled.
- JSON printing is a codec with a round trip, one line of text and no white space at its
  ends (`Serializer.Codec.Sound`). Python's `str` and `float` on floats lose nothing
  (`NumericIndex.Exact`, `IndexRun.NumberLaw`). `Witnesses` has a codec, a format and a
  pair of printers that meet these three.
- Numbers are counted in units of 2^-1074, of which every finite double and every integer
  is a whole number; there is no rounding, no infinity and no NaN. Python's `==` is
  `Json.PyEq`, which makes `True == 1`.
- Record ids are words without `:` and `,` and do not start with `!`
  (`Serializer.ValidId`): mkdb/db/storage/serializer.py:30-33, index_manager.py:56-67
  and numeric_index.py:86 break other ids.
- Threads are steps: every method that takes a lock, or does one queue operation, is one
  step, and runs take steps in any order. Compaction is one step with respect to reads,
  writes and deletes.
- Iteration order over Python sets and dictionaries is left open, except where it decides
  the result (`RamCache`, and the order of keys in a delta).

## Where code and documentation disagree

- docs/RECORD_TRACKING.md:54 says that a None in a delta removes the key. This holds with
  nested queries enabled; the flat merge (mkdb/db/objects/store.py:251) stores a null.
- The TypeScript snapshot is described as being updated to the current state after a
  patch (client-ts/src/index.ts:197). `Object.assign` removes nothing, so deleted keys stay
  in the snapshot (`TypeScriptPatch.RestoredKeyIsNotSent`). With nothing changed,
  `patch()` throws, because `calculateDelta` returns undefined.
- The header of mkdb/db/query/query_engine.py:4-11 gives `id` a fast path; the code has
  none, and `id` is a field like any other.
- mkdb/db/query/query_engine.py:213-223 removes deleted records from the indexes, but is
  never reached: `delete` empties the cache before it looks there for the old values
  (mkdb/db/objects/store.py:291-301).
- mkdb/db/storage/index_manager.py:90 means to process every log file; the pattern takes
  exactly three digits, so segments from 1000 on are not scanned (`Bootstrap`).

## Promises that hold under a condition

Each of these is proved as an if-and-only-if, or with a concrete case where it fails.

- Coalescing two deltas in nested mode.  Without dict values (`Debounce.DebounceInvisible`):
  not when the later one has a new key below a key of the earlier one, where the coalesced
  write raises although both were fine; not when it writes below a key of the earlier one
  that both have overwritten; and not when it removes a key whose parent only the earlier
  one makes, which leaves a None.  With dict values, when no key lies above another
  (`DictDebounce.DictsInvisible`): exactly when every dict that replaces a pending value
  absorbs it.
- The round trips of both client-side diffs (`PythonPatch.PatchRoundTrip`,
  `TypeScriptPatch.PatchRoundTrip`).
- Recovery of the index from the logs: not for blobs, nor for segments from 1000 on, and
  deleted records come back (`Bootstrap`).
- The order of the log: a restart of a store that has reached segment 1000 opens an older
  segment for appending. No record is lost (`Store.Store.Restart`), but later copies then
  stand before earlier ones, which the scan of the logs relies on (`Bootstrap`).
- A TypeScript snapshot that has kept deleted keys still brings later edits across, unless a
  kept key is written again with something of what it was (`TypeScriptSession`).
- Reading what was just written, and deleting for good (`StoreFront`).
- A full-text index outside RAM keeps its content: not when a token has a colon inside, as
  "10:30" has, because the file ends a token at the first colon (`FullTextIndex`).
- Queries through indexes answer like a scan (`QueryAgreement`), and go on doing so while
  records change (`IndexRun`).
- A rebuilt numeric index covers every number: not bools (`IndexRun.RebuiltNumbers`).
- The cache's eviction loop ends (`RamCache.EvictionProgress`), and a cache under lfu
  takes new records in (`RamCache.LfuAdmits`).

## Model

| member | source | states |
|---|---|---|
| `Witnesses.ASoundCodec` | mkdb/db/storage/serializer.py:13-38 | there is a codec with the round trip that storage asks of JSON |
| `Witnesses.AnExactFormat` | mkdb/db/query/numeric_index.py:79-104 | there is a printer and reader of numbers that lose nothing |
| `Witnesses.ANumberLaw` | mkdb/db/query/query_engine.py:125-138 | there are printers of values and readers of numbers that go together as Python's do |
| `Delta.DeepUpdateDict` | mkdb/objects/__init__.py:94-105 | the in-place recursive merge computes the merge of two records in which None removes a key |
| `Delta.AssignThroughGates` | mkdb/objects/__init__.py:114-124 | the walk of one dotted key through its gates inserts the value at that path, or raises at a non-dict on the way |
| `Delta.PartitionObject` | mkdb/objects/__init__.py:108-125 | the loop over all keys nests a flat delta, raising as soon as one key does |
| `Delta.DeepUpdateIsMakeAll` | mkdb/objects/__init__.py:94-125 | merging any partitioned delta is making its changes one at a time: a value is assigned at its path, a dict is merged into the dict the record had there, and a None removes, or is stored as it is where the record has no parent for it |
| `Delta.MergeOfRead` | mkdb/db/objects/store.py:273-287 | merging a delta that does not name _id into a record as read, with its id added, is merging it into the stored record |
| `Delta.FlatMergeElsewhere` | mkdb/db/objects/store.py:251 | a flat merge leaves every field that no change names |
| `Delta.FlatMergeLast` | mkdb/db/objects/store.py:251 | and gives every other field the value of the last change that names it |
| `Shapes.PartitionRaises` | mkdb/objects/__init__.py:108-125 | partitioning raises if and only if some key is written below a value other than a dict that the keys before it have put there; without dict values, if and only if a key is written strictly below an earlier one |
| `Shapes.LeafHasKey` | mkdb/objects/__init__.py:108-125 | every leaf of a partitioned delta is a leaf of the value of one of its keys |
| `Shapes.PartitionShape` | mkdb/objects/__init__.py:108-125 | the tree of any partitioned delta at every path: the last key above, at or below the path decides |
| `Shapes.MergedShape` | mkdb/objects/__init__.py:94-125 | the record after any merge at every path, from the keys and values of the delta and the old record alone |
| `Shapes.SameShapes` | mkdb/objects/__init__.py:94-105 | a record is determined by what is at its paths |
| `PutLaws.LeavesAfterPut` | mkdb/objects/__init__.py:94-125 | the leaves of a record after one change, at every path: the new leaf, nothing at comparable paths, all others as before |
| `PutLaws.PutCommutes` | mkdb/objects/__init__.py:94-125 | changes at incomparable paths commute |
| `Debounce.CoalesceShadowing` | mkdb/db/cache/write_queue.py:73-76 | two deltas that can each be partitioned coalesce into one that can, exactly when no key of the later one that the earlier one lacks lies below a key of the earlier one |
| `Debounce.DebounceInvisible` | mkdb/db/cache/write_queue.py:73-76 | nested mode, any two deltas without dict values that can each be written: the coalesced merge raises exactly in that case, and equals merging one after the other if and only if besides no topmost key of the later one lies below a topmost key of the earlier one, and it removes nothing whose parent only the earlier one makes |
| `Debounce.CoalescedRaises` | mkdb/db/cache/write_queue.py:73-76 | one such pair: a := 1, then a.b := 2 |
| `Debounce.RemovalBecomesNone` | mkdb/db/cache/write_queue.py:73-76 | another: a.x := 1, then a.b := None |
| `Debounce.DictValueIsLost` | mkdb/db/cache/write_queue.py:73-76 | deltas with dict values, as the TypeScript client sends them, can lose a value when they coalesce: one such pair |
| `DictDebounce.AbsorbedIs` | mkdb/objects/__init__.py:94-105 | one value written after another does what it does alone exactly when it absorbs the other: it is no dict, or a dict that overwrites everything the other changes |
| `DictDebounce.DictsInvisible` | mkdb/db/cache/write_queue.py:73-76 | two deltas with values of any kind, none of whose keys lies above another: the coalesced merge never raises, and equals merging one after the other if and only if every pending value that is overwritten is absorbed, and no key is removed whose parent only the earlier one makes |
| `DictDebounce.UndottedApart` | client-ts/src/index.ts:193-200 | deltas without dots in their keys, as the TypeScript client sends them, are of that kind, and for them only the absorption is asked |
| `PythonPatch.FormatItems` | client/mkdb_client/responses.py:20-43 | what `json` shows: no None, no key with two underscores, no None in a list, at any depth; ShownList, ShownUnchanged and LeavesOfShown say what that comes to |
| `PythonPatch.ShownList` | client/mkdb_client/responses.py:20-30 | a list is shown item by item and in order, from exactly the places that do not hold None |
| `PythonPatch.ShownUnchanged` | client/mkdb_client/responses.py:20-43 | a value is shown as it is if and only if it has no None in a list or a dict, and no key with two underscores, at any depth |
| `PythonPatch.InternalKeys` | client/mkdb_client/responses.py:31-35 | a key is left out exactly when it contains two underscores in a row |
| `PythonPatch.LeavesOfShown` | client/mkdb_client/responses.py:20-65 | the leaves that are shown are the leaves of the record at paths of shown keys, other than None |
| `PythonPatch.Flatten` | client/mkdb_client/responses.py:105-113 | the recursive loop yields the dotted names of all leaves with their values, and nothing else |
| `PythonPatch.FlatteningIsView` | client/mkdb_client/responses.py:105-113 | where no shown leaf has a key with a dot on its path, dotted names and paths of shown leaves correspond one to one |
| `PythonPatch.DetectUpdates` | client/mkdb_client/responses.py:123-126 | lists exactly the names that are new or differ by Python's `==`, with the current values |
| `PythonPatch.DetectRemovals` | client/mkdb_client/responses.py:128-131 | lists exactly the names that went, with None |
| `PythonPatch.SnapshotBaseObject.Bind` | client/mkdb_client/responses.py:96-103 | the snapshot becomes the flattening of what the object shows |
| `PythonPatch.SnapshotBaseObject.Patch` | client/mkdb_client/responses.py:115-139 | raises when it is not bound; sends updates then removals, nothing when there are none; takes the current state as its snapshot once the call has returned, and keeps the old one when it raises |
| `PythonPatch.PatchRoundTrip` | client/mkdb_client/responses.py:115-139 | the server's merge of the sent delta succeeds and shows the leaves of the tracked object if and only if no leaf changed places with a dict and no change went unnoticed by Python's `==`, whatever else the server's record hides |
| `PythonPatch.LeafToDictExample` | client/mkdb_client/responses.py:123-131 | from {"a": 5} to {"a": {"b": 1}} the delta leaves nothing |
| `PythonPatch.PatchServer` | client/mkdb_client/responses.py:115-139 | one call of patch with the server's merge of what it sends: afterwards the server shows what the object shows exactly when no leaf changed places with a dict and Python saw every change, and then the new snapshot is a view of the server's record |
| `PythonPatch.Session` | client/mkdb_client/responses.py:115-139 | any number of edits and patches: the server's record is the fold of its merges of the deltas sent, each of them made from the snapshot of the moment, and while the edits are of that kind server and object stay in step |
| `PythonPatch.PatchOfRead` | mkdb/db/objects/store.py:273-287 | a tracked object is read with its id; patching it patches the stored record as long as no change names the id |
| `TypeScriptPatch.CalculateDelta` | client-ts/src/index.ts:209-240 | the key loop computes the nested difference of two objects as JSON, or undefined; inherited names and the length of an array count as present, and `__proto__` is never sent |
| `TypeScriptPatch.DiffOfDisjoint` | client-ts/src/index.ts:215-239 | the delta is the whole new object exactly when the two share nothing |
| `TypeScriptPatch.ApplyDiff` | client-ts/src/index.ts:209-240 | merging the delta gives the new record if and only if no null was written, no array replaced or was changed within an object or array, no array gave way to an object that shares something with it, no key with the name of an inherited one was deleted and `__proto__` did not change |
| `TypeScriptPatch.PatchRoundTrip` | client-ts/src/index.ts:189-200 | the same through partition_object, for every order of the keys: it holds if and only if besides no top-level key with a dot changed |
| `TypeScriptPatch.Snapshot.Patch` | client-ts/src/index.ts:193-200 | what is sent and the next snapshot; with nothing to send it throws and the snapshot stays |
| `TypeScriptPatch.SnapshotCatchesUp` | client-ts/src/index.ts:197-198 | the next snapshot is the current state if and only if no top-level key was deleted |
| `TypeScriptPatch.RestoredKeyIsNotSent` | client-ts/src/index.ts:197-198 | a key deleted, patched, and put back as it was is not in the next delta |
| `TypeScriptSession.ApplyStale` | client-ts/src/index.ts:193-200 | merging the delta of a snapshot that may have kept deleted keys gives the new record if and only if no field is unsendable and no kept key is written again with a value that shares something with the one it had |
| `TypeScriptSession.PatchServer` | client-ts/src/index.ts:193-200 | one call of patch with the server's merge: the server has the edited record exactly under that condition, and if no top-level key with a dot changed |
| `TypeScriptSession.Session` | client-ts/src/index.ts:185-206 | any number of edits and patches of one snapshot: the server has each edited record in turn if and only if every edit comes across, given the ones before it |
| `TypeScriptPatch.DeletionNotSent` | client-ts/src/index.ts:222-224 | deleting a key called toString sends an empty delta |
| `TypeScriptPatch.LengthNotSent` | client-ts/src/index.ts:222-236 | an empty array replaced by an object with a length of 0 is not sent |
| `TypeScriptPatch.PrototypeNotSent` | client-ts/src/index.ts:225-227 | a new key called `__proto__` is not sent |
| `TypeScriptPatch.ListMethodNotSent` | client-ts/src/index.ts:222-236 | lists inherit more names than objects: an object with a key called map that gives way to a list sends an empty delta |
| `Decimal.ParsePrint` | mkdb/db/storage/index_manager.py:68-69 | printed offsets and sizes read back as themselves |
| `Serializer.DeserializeSerialize` | mkdb/db/storage/serializer.py:13-38 | a record line reads back as its id and record, with or without its newline, and has no newline inside |
| `Serializer.DeserializeAny` | mkdb/db/storage/serializer.py:22-38 | of any line, the id is what stands before the first space and the rest is JSON; without a space, or with bad JSON, it is no record |
| `Text.LinesMakeFile` | mkdb/db/storage/index_manager.py:50-52 | the lines of a file put together are the file, cut after every newline and nowhere else |
| `DiskLines.AppendRefines` | mkdb/db/objects/store.py:258-265 | appending a line updates one record of the simple map, and in a log that is in order every stale copy stays older than the current one |
| `DiskLines.OpenRefines` | mkdb/db/storage/log_manager.py:54-59 | opening a segment, new or not, changes no record, and keeps the log in order exactly when nothing comes after it |
| `DiskLines.BlobRefines` | mkdb/db/storage/blob_store.py:17-33 | a blob write updates its record, and exactly those others whose ids share its sanitised file name |
| `DiskLines.DeleteRefines` | mkdb/db/storage/index_manager.py:141-149 | a delete removes one record of the map |
| `DiskLines.CompactRefines` | mkdb/db/maintenance/compactor.py:69-118 | keeping only the live lines of a sealed segment changes no record |
| `LogManager.SegNameParses` | mkdb/db/storage/log_manager.py:83-99 | zero-padded segment numbers parse back and are never taken for blob paths |
| `LogManager.SegNameWidth` | mkdb/db/storage/log_manager.py:50-52 | segment names are the number with zeros in front, three characters or as many as the number needs |
| `LogManager.SafeIdIsSafe` | mkdb/db/storage/blob_store.py:15 | a sanitised id has no separator and no two dots in a row, and an id without them is left as it is |
| `LogManager.ReadLineAt` | mkdb/db/storage/log_manager.py:88-103 | reading the recorded extent of a line gives that line |
| `LogManager.LogManager.Append` | mkdb/db/storage/log_manager.py:65-86 | the extent returned is where the line went, the segment grows by it, and a full segment rolls over to the next, which is opened for appending |
| `LogManager.LogManager.WriteBlob` | mkdb/db/storage/blob_store.py:17-33 | the blob file of the id holds the data, other files are untouched |
| `IndexManager.LoadEntry` | mkdb/db/storage/index_manager.py:61-71 | a journal line parses back to its id and entry, segment paths included |
| `IndexManager.LoadTombstone` | mkdb/db/storage/index_manager.py:56-60 | a tombstone line removes its id |
| `IndexManager.LoadParts` | mkdb/db/storage/index_manager.py:61-71 | any line of four parts or more is an id, a segment, an offset and a size, in this order |
| `IndexManager.LoadOthers` | mkdb/db/storage/index_manager.py:52-70 | blank lines and lines with fewer parts are skipped, and loading raises exactly when offset or size is no number |
| `IndexManager.ReplayAppend` | mkdb/db/storage/index_manager.py:43-73 | replaying a journal and then one more line is replaying the longer file |
| `IndexManager.IndexManager.Load` | mkdb/db/storage/index_manager.py:43-73 | the loop over the lines rebuilds exactly the map the journal stands for |
| `IndexManager.IndexManager.Set` | mkdb/db/storage/index_manager.py:134-139 | map and journal change together: replaying the journal still gives the map |
| `IndexManager.IndexManager.Delete` | mkdb/db/storage/index_manager.py:141-149 | so does deleting with a tombstone; an unknown id writes nothing |
| `IndexManager.IndexManager.SaveFull` | mkdb/db/storage/index_manager.py:117-124 | so does rewriting the journal from the map |
| `IndexManager.IndexManager.RecordsInSegment` | mkdb/db/storage/index_manager.py:155-157 | lists each id of the segment once |
| `Store.EntryReadsBack` | mkdb/db/objects/store.py:236-243 | following any index entry through the bytes gives the line and record of its id |
| `Store.Store.Read` | mkdb/db/objects/store.py:275-287 | a live id reads as its record with its id added, any other as absent |
| `Store.Store.WriteToStorage` | mkdb/db/objects/store.py:224-266 | one write merges onto the record on disk and stores it as a line or a blob; a delta that cannot be partitioned changes nothing |
| `Store.Store.Delete` | mkdb/db/objects/store.py:289-296 | the id goes from the contents |
| `StoreRun.Execute` | mkdb/db/objects/store.py:224-303 | over every run of writes, deletes, compactions and restarts, with the rollovers they cause, files and index stand for exactly the fold of the operations over records and shared blobs, and with distinct blob names over a plain map |
| `StoreRun.ShelfIsMap` | mkdb/db/storage/blob_store.py:17-33 | ids whose sanitised blob names differ never see each other's blobs |
| `StoreRun.FoldIsDeltasSinceDelete` | mkdb/db/objects/store.py:224-303 | in that fold an id reads as the left fold of its deltas since its last delete, and is absent if there are none |
| `Compactor.LogicalAtMostPhysical` | mkdb/db/maintenance/compactor.py:30-39 | the live bytes of a segment never exceed its file, and equal it exactly when every line in it is live |
| `Compactor.Compactor.ComputeLogicalSize` | mkdb/db/maintenance/compactor.py:30-39 | the sum over the index is the live bytes of the segment |
| `Compactor.Compactor.NeedsCompaction` | mkdb/db/maintenance/compactor.py:41-63 | for a segment of a store: true exactly when the bytes of its lines that are no longer current, newlines included, exceed the threshold times the length of the file |
| `Compactor.SizesAddUp` | mkdb/db/maintenance/compactor.py:30-39 | the logical size and the dead bytes of a segment make up its file |
| `Compactor.SealedOnlyDies` | mkdb/db/maintenance/compactor.py:41-63 | a write or a delete adds to the dead bytes of a sealed segment exactly the line that was current for its id, and nothing else |
| `Compactor.StaysTooDead` | mkdb/db/maintenance/compactor.py:41-63 | so a write or a delete never turns the answer for a sealed segment from true to false |
| `Compactor.Compactor.CopyLive` | mkdb/db/maintenance/compactor.py:92-109 | the copied file is the live lines in order, and the new extents tile it |
| `Compactor.Compactor.CompactSegment` | mkdb/db/maintenance/compactor.py:69-118 | contents and all other segments stay; afterwards every line of the segment is live and it needs no compaction, unless it had no live line and was skipped |
| `Bootstrap.BootstrapRecovers` | mkdb/db/storage/index_manager.py:75-115 | scanning the logs finds the current position of a live id exactly when it is in a log, not a blob, and in a segment below 1000, with no later copy in sight; in a log that is in order there is none |
| `Bootstrap.BootstrapFindsLines` | mkdb/db/storage/index_manager.py:95-112 | the scan finds exactly the ids with a line left in a segment below 1000, and such a line for each; so only deleted ids can reappear |
| `Bootstrap.BootstrapForgetsDeletes` | mkdb/db/storage/index_manager.py:109-111 | a delete makes no difference to the scan: the id comes back exactly when it has such a line |
| `Bootstrap.BlobComesBackOld` | mkdb/db/storage/index_manager.py:95-112 | a record that grew into a blob comes back in its old state |
| `Recovery.BootstrapFromLogs` | mkdb/db/storage/index_manager.py:95-112 | the byte-by-byte scan recovers the index entry of an id under exactly that condition |
| `Recovery.ScanSeesThreeDigits` | mkdb/db/storage/index_manager.py:90 | the segments in sight are those whose names have three digits |
| `LogManager.FindHighest` | mkdb/db/storage/log_manager.py:35-45 | the loop finds the highest segment whose number has exactly three digits |
| `LogManager.LogManager.Reopen` | mkdb/db/storage/log_manager.py:29-49 | a new process opens the highest segment with a three-digit name, or makes segment 1 |
| `IndexManager.IndexManager.Reload` | mkdb/db/storage/index_manager.py:36-73 | and loads the same index from the journal |
| `Store.Store.Restart` | mkdb/db/objects/store.py:55-63 | a restart loses no record; the log stays in order exactly when the active segment was below 1000, and then nothing changes at all |
| `WriteQueue.DispatchKeepsView` | mkdb/db/cache/write_queue.py:141-156 | dispatching the next task changes nobody's view, even when its merge raises |
| `WriteQueue.FlatCoalesce` | mkdb/db/cache/write_queue.py:73-76 | flat mode: coalescing two deltas is the same as writing both, always |
| `WriteQueue.EnqueueAppliesToView` | mkdb/db/cache/write_queue.py:52-79 | accepting a delta does to the view of its id what writing it would, and nothing to others; in nested mode under the conditions of DebounceInvisible or DictsInvisible |
| `WriteQueue.WriteQueue.Enqueue` | mkdb/db/cache/write_queue.py:52-79 | coalesces and sets the timer of the id to now, leaving the id in its place; skips a task without id; refuses exactly a new id when max_pending are waiting |
| `WriteQueue.WriteQueue.DrainDue` | mkdb/db/cache/write_queue.py:114-128 | moves exactly the entries whose window has passed to the end of the queue, in the order of the dictionary; no view changes |
| `WriteQueue.WriteQueue.FlushAll` | mkdb/db/cache/write_queue.py:81-95 | moves all of them, in that order; no view changes |
| `WriteQueue.WriteQueue.Bury` | mkdb/db/cache/write_queue.py:154-156 | the failed task becomes the newest dead letter; there are never more than 1000 |
| `WriteQueue.WriteQueue.Dispatch` | mkdb/db/cache/write_queue.py:130-156 | takes the oldest task; a write goes to the dead letters if and only if it cannot be partitioned, and then nothing is stored |
| `WriteQueue.WriteQueue.Delete` | mkdb/db/objects/store.py:289-296 | a delete leaves what is in flight: the view of the id is then made of that alone, and no other view changes |
| `WriteQueueRun.DebouncingInvisible` | mkdb/db/cache/write_queue.py:52-156 | debouncing is invisible: over every interleaving of enqueues, drains, flushes, compactions, dispatches and deletes, what an id will hold is the fold of its accepted deltas, and after a delete the fold, from nothing, of those then in flight and those accepted since, provided each delta is coalesced harmlessly |
| `WriteQueueRun.FlatIsHarmless` | mkdb/db/cache/write_queue.py:73-76 | in flat mode every run is harmless |
| `WriteQueueRun.ApartIsHarmless` | mkdb/db/cache/write_queue.py:73-76 | in nested mode a run is harmless when deltas have no None and no dict values and no key written to an id lies below another one |
| `WriteQueueRun.NothingRefused` | mkdb/db/cache/write_queue.py:61-72 | without deletes, when there is room for every id, the accepted deltas are all that were enqueued, in order |
| `WriteQueueRun.AsIfWrittenAtOnce` | mkdb/db/cache/write_queue.py:52-156 | then every id will hold the fold of all deltas enqueued for it |
| `WriteQueueRun.Run` | mkdb/db/cache/write_queue.py:52-156 | the queue, the timers, their order and the records on disk after any steps are exactly those of the machine these lemmas are about, and so is every view |
| `QueueLaws.WindowAfterEnqueue` | mkdb/db/cache/write_queue.py:73-79 | the debounce window: after an accepted enqueue, whatever was pending, a drain leaves the id pending before now plus the window, and takes it from then on |
| `QueueLaws.ClockIsLastEnqueue` | mkdb/db/cache/write_queue.py:77 | over every run the clock of an id that waits is its last accepted enqueue |
| `QueueLaws.DrainedWasQuiet` | mkdb/db/cache/write_queue.py:114-128 | so a drain takes a pending id exactly when its last accepted enqueue is at least a window ago |
| `QueueLaws.TasksInOrder` | mkdb/db/cache/write_queue.py:121-128 | moved deltas stand in the queue one by one in the order of their ids, each with what was pending |
| `QueueLaws.DueInOrder` | mkdb/db/cache/write_queue.py:117-120 | due ids come in dictionary order |
| `QueueLaws.EnqueueKeepsPlace` | mkdb/db/cache/write_queue.py:73-77 | coalescing keeps the place of an id, a new id goes last |
| `QueueLaws.FlushedToDisk` | mkdb/db/cache/write_queue.py:81-95 | after a flush and as many dispatches as tasks are waiting, nothing is in flight and the disk holds every view |
| `QueueLaws.LettersAreTheLast` | mkdb/db/cache/write_queue.py:154-156 | of all tasks that ever failed the last thousand are kept, oldest first |
| `StoreFront.StoreFront.Write` | mkdb/db/objects/store.py:203-222 | the cache takes the delta before the queue does, also when the queue then refuses it |
| `StoreFront.StoreFront.Read` | mkdb/db/objects/store.py:268-287 | a fresh cached record, or else the record on disk whatever is in flight |
| `StoreFront.StoreFront.Delete` | mkdb/db/objects/store.py:289-303 | cache and index forget the id, and its view becomes what is in flight alone |
| `StoreFront.ReadAfterWrite` | mkdb/db/cache/ram_cache.py:83-109 | flat mode: after a write the cache shows the view if and only if the two agreed on the fields the write left alone |
| `StoreFront.WriteToCached` | mkdb/db/cache/ram_cache.py:101-109 | so a cached record stays right, and after a miss only a write of every field is |
| `StoreFront.NestedWriteToCached` | mkdb/db/cache/ram_cache.py:90-109 | nested mode: a right cached record stays right, and after a miss of an id that has nothing yet the cached delta is right if and only if it sets no field to None |
| `StoreFront.ReadFromDisk` | mkdb/db/objects/store.py:275-287 | flat mode: a read that misses the cache shows the view if and only if the disk already has every value in flight |
| `StoreFront.DeleteSticks` | mkdb/db/objects/store.py:289-303 | a deleted id stays absent if and only if nothing in flight for it can be written: in flat mode nothing may be in flight, in nested mode nothing that can be partitioned |
| `StoreFront.WriteThenRead` | mkdb/db/objects/store.py:203-287 | flat mode: a write is queued exactly when there is room for its id, the view then takes the delta, and the read right after it shows the cached record with the delta, which is the view if and only if the two, as read, agreed on the fields the write left alone |
| `Tokenizer.Tokenize` | mkdb/db/query/tokenizer.py:27-54 | the loop computes the tokens of a text, which TokensOfTwo and TokenOfWord determine |
| `Tokenizer.TokensAreTokens` | mkdb/db/query/tokenizer.py:27-54 | every emitted token is lower case, without white space, without punctuation at its ends, longer than one character and no stop word |
| `Tokenizer.TokenizeFixpoint` | mkdb/db/query/tokenizer.py:27-54 | tokenizing a string gives just that string if and only if it is such a token |
| `TokenLaws.TokensOfTwo` | mkdb/db/query/tokenizer.py:50-53 | the tokens of a text are those of its parts in order, wherever it is cut at white space; no text has no tokens |
| `TokenLaws.TokenOfWord` | mkdb/db/query/tokenizer.py:50-53 | a word is its core in lower case, whatever punctuation is around it, if that is longer than one character and no stop word, and nothing otherwise |
| `TokenLaws.LowerLetters` | mkdb/db/query/tokenizer.py:50 | capitals become the small letters with the same place in the alphabet, all else stays |
| `TokenLaws.StripsEnds` | mkdb/db/query/tokenizer.py:51 | strip takes the given characters off both ends and nothing else |
| `PostingFile.WriteFile` | mkdb/db/query/numeric_index.py:79-87 | the file has one line for each value that has ids, with exactly those ids |
| `PostingFile.LoadDiskMap` | mkdb/db/query/full_text_index.py:81-92 | the loop reads the map the lines stand for, skipping what does not parse |
| `PostingFile.RowIsCut` | mkdb/db/query/full_text_index.py:86-91 | a line is cut at its first colon, and skipped without one or when its value does not read |
| `PostingFile.FileRoundTrip` | mkdb/db/query/full_text_index.py:72-92 | what is read back is the relation that was written if and only if no value prints with a colon |
| `NumericIndex.RangeFrom` | mkdb/db/query/numeric_index.py:184-204 | two bisections and a walk over the slice give the ids of the plain filter, for all inclusive, exclusive and open bounds |
| `NumericIndex.NumericIndex.Add` | mkdb/db/query/numeric_index.py:136-144 | adds one pair, in either mode; in disk mode it is lost exactly when the same pair is waiting to be removed |
| `NumericIndex.NumericIndex.Remove` | mkdb/db/query/numeric_index.py:146-159 | removes one pair, in either mode, and keeps values and map parallel |
| `NumericIndex.NumericIndex.FlushPending` | mkdb/db/query/numeric_index.py:106-130 | merging adds and then removes into the file keeps the relation |
| `NumericIndex.NumericIndex.Save` | mkdb/db/query/numeric_index.py:64-77 | writing the file, and leaving RAM, keeps the relation |
| `NumericIndex.NumericIndex.ExactQuery` | mkdb/db/query/numeric_index.py:165-170 | the ids paired with the value, in either mode |
| `NumericIndex.NumericIndex.RangeQuery` | mkdb/db/query/numeric_index.py:172-182 | the plain filter of the relation, in either mode |
| `FullTextIndex.FullTextIndex.Add` | mkdb/db/query/full_text_index.py:118-125 | pairs the id with every token of the text; in disk mode pairs waiting to be removed stay lost |
| `FullTextIndex.FullTextIndex.Remove` | mkdb/db/query/full_text_index.py:127-138 | takes those pairs out, leaving no token without ids |
| `FullTextIndex.FullTextIndex.FlushPending` | mkdb/db/query/full_text_index.py:94-112 | keeps the relation if and only if no token in it has a colon |
| `FullTextIndex.FullTextIndex.Save` | mkdb/db/query/full_text_index.py:57-70 | leaving RAM keeps the relation under exactly the same condition |
| `FullTextIndex.ColonStaysInToken` | mkdb/db/query/tokenizer.py:47-54 | the condition can fail: "10:30" is a token |
| `FullTextIndex.FullTextIndex.Search` | mkdb/db/query/full_text_index.py:144-176 | per keyword the ids under some token of it, over keywords their intersection or union |
| `FullTextIndex.FoundAfterAdd` | mkdb/db/query/full_text_index.py:118-125 | after a text is added a keyword finds its id exactly when it did before or shares a token with the text, every token of the text among them, and no other id changes |
| `QueryEngine.QueryEngine.constructor` | mkdb/db/query/query_engine.py:44-55 | an engine starts well formed and without indexes |
| `QueryEngine.QueryEngine.FullScanFilter` | mkdb/db/query/query_engine.py:526-565 | exactly the ids whose value passes the test; raises exactly when a test does |
| `QueryEngine.QueryEngine.TextMatch` | mkdb/db/query/query_engine.py:567-587 | the candidates of the index verified against their records, or a scan |
| `QueryEngine.QueryEngine.EvalOps` | mkdb/db/query/query_engine.py:472-520 | the live ids that pass every operator; raises exactly when an operator does |
| `QueryEngine.QueryEngine.EvalLogicBlock` | mkdb/db/query/query_engine.py:401-448 | sound and complete: the ids of the filter's meaning, or a raise for a cause that is there; a too deep, malformed or clashing filter never gives ids |
| `QueryEngine.QueryEngine.Query` | mkdb/db/query/query_engine.py:344-358 | a falsy filter finds every live id, any other what its block means, from depth 0 |
| `QueryLaws.EqualWhenSame` | mkdb/db/query/query_engine.py:555-558 | Python's `==` holds exactly between values that are the same once bools are numbers |
| `QueryLaws.EqLaw` | mkdb/db/query/query_engine.py:555 | `eq` answers the live ids whose value equals the target, and never raises |
| `QueryLaws.NeqLaw` | mkdb/db/query/query_engine.py:556 | `neq` answers the live ids that `eq` does not |
| `QueryLaws.InListLaw` | mkdb/db/query/query_engine.py:557 | `in` over a list answers what `eq` answers over one of its items |
| `QueryLaws.InStringLaw` | mkdb/db/query/query_engine.py:557 | `in` over a string answers its substrings, and raises exactly when some value is no string |
| `QueryLaws.InDictLaw` | mkdb/db/query/query_engine.py:557 | `in` over a dict answers its keys, and raises exactly when some value is a list or a dict |
| `QueryLaws.InOtherLaw` | mkdb/db/query/query_engine.py:557 | `in` over anything else raises as soon as there is a record |
| `QueryLaws.NinLaw` | mkdb/db/query/query_engine.py:505-506 | `nin` raises when `in` does, and otherwise answers the live ids that `in` does not |
| `QueryLaws.ExistsLaw` | mkdb/db/query/query_engine.py:497-500 | `exists` answers the live ids whose value is none of None, "" and []; with a falsy target, the others |
| `QueryLaws.MissingField` | mkdb/db/query/query_engine.py:497-500 | a missing field does not exist |
| `QueryLaws.FalsyValues` | mkdb/db/query/query_engine.py:500 | falsy are None, zero, False and what is empty |
| `QueryLaws.NumberOrder` | mkdb/db/query/query_engine.py:560-563 | with a number, comparisons answer the numbers, bools among them, on its side; they raise exactly when some value is neither number nor None |
| `QueryLaws.StringOrder` | mkdb/db/query/query_engine.py:560-563 | with a string, comparisons answer the strings on its side by code point |
| `QueryLaws.ListOrder` | mkdb/db/query/query_engine.py:560-563 | lists compare at their first unequal items, or else by length |
| `QueryLaws.OppositesPartition` | mkdb/db/query/query_engine.py:560-563 | opposite comparisons raise together, and otherwise share out the live ids that have a value |
| `QueryLaws.ContainsLaw` | mkdb/db/query/query_engine.py:559 | `contains` answers the strings with the target inside, whatever the case |
| `QueryLaws.ContainsOther` | mkdb/db/query/query_engine.py:559 | a target that is no string raises exactly when there is a string to look into |
| `QueryLaws.Aliases` | mkdb/db/query/query_engine.py:25-32 | the six aliases answer what they stand for |
| `QueryLaws.PlainField` | mkdb/db/query/query_engine.py:536-539 | a field reads as itself, or None when it is missing; in flat mode dots mean nothing |
| `QueryLaws.DottedField` | mkdb/db/query/query_engine.py:540-547 | in nested mode a dotted field is read key by key |
| `QueryLaws.IndexedComparison` | mkdb/db/query/query_engine.py:479-495 | through a numeric index a comparison answers the live ids it has a value for on that side; None is no bound |
| `QueryLaws.IndexedClash` | mkdb/db/query/query_engine.py:479-495 | a bound that neither is nor reads as a number raises |
| `QueryLaws.IndexedContains` | mkdb/db/query/query_engine.py:508-512 | through a text index `contains` asks for every token of the target |
| `QueryLaws.IndexedString` | mkdb/db/query/query_engine.py:567-587 | a string through a text index answers the live records that have it and are found under its tokens, or all when it has none |
| `QueryLaws.IndexedList` | mkdb/db/query/query_engine.py:466-469 | a list through a text index answers the ids found under some token of each item |
| `QueryLaws.IndexedNumber` | mkdb/db/query/query_engine.py:458-461 | a number through a numeric index answers the ids it has that number for |
| `QueryLaws.ShortClauses` | mkdb/db/query/query_engine.py:458-470 | a bare number or string asks for equality, a list for any of it, None for nothing |
| `QueryLaws.OperatorsAreAnd` | mkdb/db/query/query_engine.py:472-520 | the operators of one field are met all together |
| `QueryLaws.BlockIsAnd` | mkdb/db/query/query_engine.py:428-446 | the fields of a filter are met all together |
| `QueryLaws.ListBlocks` | mkdb/db/query/query_engine.py:412-426 | `$and` is all of a list and `$or` any of it |
| `QueryLaws.EmptyBlock` | mkdb/db/query/query_engine.py:412-442 | an empty filter answers every live id, an empty `$or` none |
| `QueryLaws.TooDeep` | mkdb/db/query/query_engine.py:405-407 | nested blocks are evaluated down to the limit, and raise one further |
| `QueryLaws.OrWantsList` | mkdb/db/query/query_engine.py:412-414 | an `$or` that is no list raises |
| `QueryLaws.ClashInside` | mkdb/db/query/query_engine.py:428-438 | a filter raises for what one of its fields raises for |
| `QueryAgreement.TextMatchAgrees` | mkdb/db/query/query_engine.py:567-587 | through a complete text index, stale or not, exact matching equals the scan if and only if the value has a token or every live record has it |
| `QueryAgreement.NumericMatchAgrees` | mkdb/db/query/query_engine.py:458-461 | number clauses equal the scan for all numbers if and only if the index is exact |
| `QueryAgreement.IndexesAgreeWithScan` | mkdb/db/query/query_engine.py:401-524 | for every filter tree without index-only forms: complete indexes lose no answer of the scan, and exact ones give the same answers |
| `QueryAgreement.IndexesRaiseNothingNew` | mkdb/db/query/query_engine.py:401-524 | such a filter raises through the indexes only if the scan raises for the same cause |
| `QueryAgreement.ContainsMeansTokens` | mkdb/db/query/query_engine.py:508-514 | an index-only form: `contains` finds substrings in a scan, and only whole tokens in an index |
| `QueryAgreement.ListMeansKeywords` | mkdb/db/query/query_engine.py:466-470 | another: a list is any-of in a scan and all-of in a text index |
| `QueryEngine.QueryEngine.OnWrite` | mkdb/db/query/query_engine.py:125-138 | every index gains the new values of its field and keeps the old |
| `IndexUpkeep.WriteAdds` | mkdb/db/query/query_engine.py:125-138 | pair by pair: a write adds the id under every token of the new value, or under the new value as a number, and nothing else |
| `QueryEngine.QueryEngine.RebuildText` | mkdb/db/query/query_engine.py:265-291 | the rebuilt index is the tokens of the stored values |
| `IndexUpkeep.RebuiltTextAt` | mkdb/db/query/query_engine.py:277-287 | pair by pair: a rebuilt text index holds the tokens of the stored values that are not None |
| `QueryEngine.QueryEngine.RebuildNumeric` | mkdb/db/query/query_engine.py:265-291 | the rebuilt index is the stored values whose text reads as a number |
| `IndexRun.Step` | mkdb/db/objects/store.py:94-104 | store and engine move together, in flat and nested mode: a write, delete or compaction of the store, with the engine told of it, leaves the engine reading what the store holds, and its indexes with the new values added |
| `IndexRun.Run` | mkdb/db/objects/store.py:94-104 | so over any operations, to the fold of the contents and the indexes the lemmas below are about |
| `IndexRun.FailedWriteChangesNothing` | mkdb/db/objects/store.py:94-104 | a write that cannot be partitioned leaves records and indexes as they are |
| `IndexRun.RunKeepsComplete` | mkdb/db/query/query_engine.py:125-138 | over every run in flat mode, complete indexes stay complete |
| `IndexRun.StepKeepsExact` | mkdb/db/query/query_engine.py:125-138 | an exact numeric index stays exact over an operation if and only if it overwrites no number by another value, deletes none and writes no numeric string |
| `IndexRun.RunAnswers` | mkdb/db/query/query_engine.py:401-524 | after any run, queries through the indexes give at least the answers of the scan, and after a run of such quiet operations exactly those |
| `IndexRun.RebuiltTextIsComplete` | mkdb/db/query/query_engine.py:277-287 | a rebuilt text index is complete |
| `IndexRun.RebuiltNumbers` | mkdb/db/query/query_engine.py:277-287 | a rebuilt numeric index is complete if and only if no live value is a bool, and exact if and only if besides no live string reads as a number |
| `RecencyList.AmongTheLast` | mkdb/db/cache/ram_cache.py:140-144 | an id is among the last n accessed exactly when fewer than n other ids were accessed since |
| `RamCache.EvictionProgress` | mkdb/db/cache/ram_cache.py:111-134 | an eviction from a cache that is too big removes something if and only if clean_type is one the code knows |
| `RamCache.LruShrunk` | mkdb/db/cache/ram_cache.py:55-56 | under lru the loop of set keeps the ids accessed last |
| `RamCache.LfuAdmits` | mkdb/db/cache/ram_cache.py:122-124 | under lfu a full cache keeps a new id if and only if some entry was accessed no more than once |
| `RamCache.LfuRefuses` | mkdb/db/cache/ram_cache.py:122-124 | room for one, and that one read once: no other id is ever cached |
| `RamCache.CountsAccesses` | mkdb/db/cache/ram_cache.py:140-144 | every access counts one, from one on, and for its id alone |
| `RamCache.LivesForTtl` | mkdb/db/cache/ram_cache.py:146-150 | an entry expires exactly when its last access is longer ago than the ttl, and never without one |
| `RamCache.TtlEvicts` | mkdb/db/cache/ram_cache.py:123-134 | under ttl an eviction takes all that has expired, and one more, the one accessed longest ago, exactly when the rest is still too big |
| `RamCache.RamCache.Touch` | mkdb/db/cache/ram_cache.py:140-144 | counts and stamps an access; the log stays the cached ids in the order of their last access, and all structures hold the same ids |
| `RamCache.RamCache.Get` | mkdb/db/cache/ram_cache.py:33-42 | a miss, an expired entry that is dropped, or the record, now the last accessed |
| `RamCache.RamCache.Set` | mkdb/db/cache/ram_cache.py:44-56 | overwriting touches; a new id evicts until it fits, which ends with at most max_size entries; with an unknown clean_type as long as there is room |
| `RamCache.RamCache.Evict` | mkdb/db/cache/ram_cache.py:111-134 | removes exactly the victims of the policy, in all structures |
| `RamCache.RamCache.Delete` | mkdb/db/cache/ram_cache.py:58-61 | the id goes from all structures |
| `RamCache.RamCache.ApplyDelta` | mkdb/db/cache/ram_cache.py:83-109 | merges into a cached record, or stores the delta alone on a miss; never evicts |
| `RamCache.Run` | mkdb/db/cache/ram_cache.py:33-56 | over every run of reads and fills under lru without expiry, the cache holds exactly the last max_size distinct ids accessed, where every fill and every hit is an access, each with the record last set for it |
| `WorkerCache.WorkerCache.Get` | mkdb/db/query_workers/worker.py:53-60 | a miss, an expired entry that is dropped, or the value; the contents stay the last ones accessed |
| `WorkerCache.WorkerCache.Set` | mkdb/db/query_workers/worker.py:62-72 | never more than the maximum, and the last ones accessed |
| `Framing.LengthInverse` | mkdb/server/coms/socket_protocol.py:14-17 | a 32-bit big-endian length reads back |
| `Framing.MostSignificantFirst` | mkdb/server/coms/socket_protocol.py:14-17 | of two lengths the smaller has the smaller byte where they first differ: the first byte counts most |
| `Framing.FramesOfWire` | client-ts/src/socket_connection.ts:74-79 | parsing any list of frames and an incomplete tail gives the payloads and the tail |
| `Framing.NothingLost` | client-ts/src/socket_connection.ts:74-79 | every byte stream is the frames the parser takes from it and the rest it keeps |
| `Framing.SocketConnection.ProcessBuffer` | client-ts/src/socket_connection.ts:74-101 | consumes exactly the whole frames and handles their payloads in order |
| `Framing.SocketConnection.Send` | client-ts/src/socket_connection.ts:53-71 | an error when there is no connection; else the request waits from before anything is written, and written is the frame of the payload; when that is too long the promise is rejected, and only the entry of the request stays |
| `Framing.Receive` | client-ts/src/socket_connection.ts:42-45 | however a stream is cut into chunks, the same payloads are handled in the same order |
| `Framing.SettledByFirstResponse` | client-ts/src/socket_connection.ts:84-93 | a waiting request is settled exactly when a response to it arrives, by the first one, and never twice |
| `Framing.UpdatesInOrder` | client-ts/src/socket_connection.ts:94-96 | the updates emitted are exactly the payloads that are updates, in the order they came |
| `Framing.Socket.RecvExact` | mkdb/server/coms/socket_protocol.py:46-54 | exactly n bytes however they arrive, or the error of a closed peer |
| `Framing.Socket.ReadFrame` | mkdb/server/coms/socket_protocol.py:25-38 | one frame, with the empty frame, the 10 MB limit and early close as the code has them |
| `Framing.ReadersAgree` | mkdb/server/coms/socket_protocol.py:25-38 | blocking reader and incremental parser agree on a whole frame if and only if it is not empty and within the limit |
| `Framing.ReadSent` | mkdb/server/coms/socket_protocol.py:25-38 | reading what was sent, and where the stream is left after a frame that is too large |
| `ResultRouting.Dispatcher.Register` | mkdb/db/query_workers/dispatcher.py:206-210 | the event is registered before the task is queued |
| `ResultRouting.Dispatcher.Collect` | mkdb/db/query_workers/dispatcher.py:221-228 | a woken submitter always finds its result, the one computed for its task |
| `ResultRouting.Dispatcher.GiveUp` | mkdb/db/query_workers/dispatcher.py:213-219 | a timeout withdraws event and result |
| `ResultRouting.Dispatcher.Post` | mkdb/db/query_workers/worker.py:313-330 | a worker posts once per task, under its id |
| `ResultRouting.Dispatcher.Store` | mkdb/db/query_workers/dispatcher.py:393-395 | the router stores a result and looks up its event in one step |
| `ResultRouting.Dispatcher.Signal` | mkdb/db/query_workers/dispatcher.py:397-398 | setting the event is a later step |
| `ResultRouting.Dispatcher.Safety` | mkdb/db/query_workers/dispatcher.py:211-233 | a set event means the result is there until taken; a returned result was computed for its own task and cannot be handed out again; a routed result has woken its submitter |
| `ResultRouting.Dispatcher.NothingLost` | mkdb/db/query_workers/worker.py:302-332 | a queued task is always in the queue, with a worker, posted or routed |
| `ResultRouting.Dispatcher.Leftovers` | mkdb/db/query_workers/dispatcher.py:221-228 | what is never cleaned up, and stays for good: the event of a submit that returned, and the result of a task whose submitter had timed out before the result was stored |
| `ResultRouting.Run` | mkdb/db/query_workers/dispatcher.py:186-233 | every interleaving of submitters, workers and router takes queues, dictionaries, events and threads exactly where the steps as functions take them, and keeps the invariant, timeouts included; a submit that ended stays as it ended |
| `RateLimit.TrackedIsLastSecond` | mkdb/server/coms/http_handlers.py:122-126 | filtering the kept list again gives all arrivals of the last second |
| `RateLimit.PassesByCount` | mkdb/server/coms/http_handlers.py:120-128 | a request passes exactly when no more than the limit, itself included, came in the second that ends with it |
| `RateLimit.RateLimiter.CheckRateLimit` | mkdb/server/coms/http_handlers.py:104-165 | a request passes exactly when the arrivals of the last second, itself included, are within the limit, first per IP and then per store |
| `RateLimit.WindowBound` | mkdb/server/coms/http_handlers.py:122-134 | in no window of one second, wherever it starts, do more requests pass than the limit |
| `RateLimit.RateLimiter.NeverMoreThanTheLimit` | mkdb/server/coms/http_handlers.py:104-165 | so for every IP, and every IP and store, at any time |

## Left out

- Sockets, HTTP routing, CORS, heartbeats, reconnecting, the SDK request wrappers, the
  control panel, access control, sessions and metrics: plumbing, or single branches.
- Reed-Solomon parity: it rests on a library that is not part of this model.
- Worker replicas of index and engine: they share state across stores and are not
  refreshed (mkdb/db/query_workers/worker.py:148-155, 291-297), so they do not agree with
  the main index in general.
- Sorting and paging of query results, query timeouts, schema discovery, id generation,
  timers beyond "any due set" and the drain at shutdown: easy, random, or not promised by
  the code (the worker loop leaves with tasks still queued).
- Aliasing between nested dictionaries of cached, returned and merged records: records are
  values, and the in-place walk of partition_object is a walk over values.
- `deep_update` with more than one updating mapping: one is all its callers use.
- `compact_object` and the attribute access of `base_object`: not used by storage.
- Files cut short by a crash in the middle of a line: every append is one step.
- Several clock readings within one call of the cache: each call has one.
- Debounce.DebounceInvisible: for deltas without dict values; DictDebounce.DictsInvisible is for
  deltas with any values whose keys do not lie above one another.  For deltas with dict
  values and such keys no condition is given.
- WriteQueueRun.DebouncingInvisible: in nested mode the condition is on the state at each
  enqueue; WriteQueueRun.ApartIsHarmless gives one on the keys alone.
- PythonPatch.PatchRoundTrip: where no leaf that is shown has a key with a dot on its path;
  such names cannot be told from paths.
- PythonPatch.SnapshotBaseObject.Patch: a record with a field called json cannot be tracked,
  and fields called get, update, bind or patch hide the methods; neither is modelled.
- TypeScriptPatch.Snapshot.Patch: `Object.assign` would set the prototype of the snapshot if
  the current state had a `__proto__` of its own and the snapshot had not, which takes
  Object.defineProperty; the names of inherited methods are those of ECMAScript 2023.
- WriteQueue.WriteQueue.Dispatch: a queue is used with ids whose sanitised blob names differ.
- IndexRun.RunAnswers: flat mode only, since in nested mode on_write sees dotted names and
  rebuilt indexes see whole values.
- QueryEngine.QueryEngine.OnWrite: for an index outside RAM, only values without a colon in
  a token, because FullTextIndex.FullTextIndex.FlushPending then loses them.
- RamCache.RamCache.Set: for a max_size that is not negative, and with an unknown clean_type
  not for a new id in a full cache, where the loop does not end (RamCache.EvictionProgress).
- Store.Store.Restart: for a store whose index file exists; without one the index is rebuilt from
  the logs, which is Recovery.BootstrapFromLogs.
- IndexRun.Run: within one process; a restart loads or rebuilds the indexes.
- QueryEngine.QueryEngine.FullScanFilter: records are read as they are stored; the program
  reads them through the cache, which StoreFront.ReadAfterWrite compares with the store.
- RateLimit.RateLimiter.CheckRateLimit: limits do not change while it runs.
