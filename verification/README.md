# Verified model of bkndb

bkndb is an embedded database that combines a property graph with relational
tables, with bindings for Python, Go, Kotlin and Swift. This project models the parts of
it whose correctness rests on an argument rather than on a glance at the code, and
proves what they promise.

* **Values, keys and LIKE** (`Bytes`, `Values`, `Like`). The partial order of property
  values, the order used for sorting, the byte encoding whose lexicographic order every
  key and index relies on, and the one-backtrack-point pattern matcher.
* **Storage engine** (`Keyspace`, `Merge`, `Wal`, `Engine`, `Leftover`, `TableScans`). The
  log-structured engine: layered lookups, the streaming k-way merge, commits through a
  write-ahead log, flush, compaction, write errors, and recovery after a crash at any point.
* **Tables and indexes** (`IndexKeys`, `Schemas`, `RowStates`, `RowStore`,
  `Storage`, `Transactions`, `SharedTransaction`). Row writes that maintain secondary indexes
  and UNIQUE columns, the byte-range lookups through those indexes, and transactions that keep
  all writes or none, also when threads share one.
* **Queries** (`Query`, `Planner`, `Execution`, `Tables`, `Selects`, `Paging`, `Joins`). Filter
  trees from the Python operators to the engine, the query planner with its six access
  paths, ordering and windows, keyset pagination against a table that changes, and the joins
  between nodes and rows.
* **Row files** (`RowJson`, `RowFiles`). JSON lines export and import.
* **The wire format** (`Utf`, `WireFormat`, `WireValues`, `SwiftWire`, `KotlinWire`,
  `Crossing`). The tagged format in which values cross the FFI boundary: written by Kotlin
  into a buffer sized beforehand or appended by Swift, and read by either.
* **Native handles** (`KotlinHandle`, `GoHandle`). The atomic call counter and the
  read-write lock that decide when a native object is freed, as step machines over any
  number of threads.

Code that computes is modelled by functions; code that updates things step by step by
methods with loops, and classes where an object is updated in place. Each method is
proved against a specification that does not mention how it works.

## What the proofs found

* `prefix_upper_bound` has no answer for a prefix of 0xFF bytes only, which its comment
  says never happens for real encoded values. It does: `Int` and `Timestamp` at their
  maximum, and one UUID, encode to 0xFF bytes only. An index range whose lower bound
  *excludes* such a value therefore returns everything below it instead of nothing.
  `IndexKeys.LowerExact` and `RowStore.RangeLookup` give the exact condition. Queries are
  not affected, because the planner's candidates are filtered again
  (`Execution.MatchingRows`).
* `total_cmp` is documented as a total order. On lists it is not even transitive
  (`Values.MixedListsAreNotAPreorder`); `Values.TotalCmpChainsExactly` says for exactly
  which pairs of values it can be relied on. Sorting needs no more than that each column's
  lists share a shape (`Selects.SelectIn`).
* The JSON lines format is documented to round-trip types exactly. A map whose only key
  is `$bytes`, `$datetime` or `$uuid` does not, and that is the only exception
  (`RowJson.JsonRoundTrip`). A table comes back from export and import exactly when, in
  addition, no column with a default was left without a value
  (`RowFiles.ExportThenImport`).
* The Kotlin converter's interface comment speaks of 3 bytes per code point; the code
  reserves 3 per UTF-16 unit. The comment's number would be too small
  (`Utf.ThreeBytesPerPointIsNotEnough`), the code's always suffices
  (`KotlinWire.AllocationSuffices`).
* Crashes lose nothing that was committed (`Engine.Run`), with one exception: bytes that an
  interrupted flush leaves behind the log can read as a log frame, and are then taken for a
  commit (`Wal.ExactIffUnreadable`, `Engine.CrashDuringFlush`). `Leftover.LeftoverReads` and
  `Leftover.LeastKeyDecides` say for exactly which least key of the memtable; its first four
  bytes stand where the checksum does. Every record has such a key
  (`Leftover.EveryRecordHasAKey`), but a table's name fixes those bytes
  (`Leftover.TableNameDecides`).
* Write *errors* are another matter, because the engine carries on after them. Later commits
  are appended behind what a failed append left. They are replayed exactly if the leftover
  bytes and theirs together happen to read as those commits (`Wal.NextCommitSurvives`,
  `Wal.LaterCommitsSurvive`); behind a complete header they are all lost unless they happen to
  meet it (`Wal.LaterCommitsHidden`), and behind a failed flush unless its least entry looks
  like a frame (`Leftover.CommitsBehindLeftover`). A commit whose sync failed comes back
  although it was reported as failed (`Wal.UnsyncedComesBack`).
* A failed flush leaves its memtable in memory only. The next successful one restarts the log
  without it, and until a restart the old memtable hides what was flushed after it:
  `Engine.FlushFailsThenSucceeds` gives the exact keys for which recovery and for which reads
  are wrong, `Engine.ReadsExactly` and `Engine.RecoversExactly` do so for every run.
* A commit whose flush fails is reported as failed although it has taken effect
  (`Engine.CommitPending`). A compaction that fails between its rename and the switch to the new
  file leaves the engine writing to a file without a name: later commits are gone on reopening,
  except for keys that keep their value (`Engine.CompactionFailsLate`).
* A Swift dictionary takes canonically equivalent keys for one key, a Kotlin map does not. A
  Kotlin map with "é" spelled in one scalar and in two loses an entry on the way
  (`WireValues.ComposedAndDecomposed`). A value arrives whole exactly when none of its maps has
  two such keys (`WireValues.ComesBackExactly`, `Crossing.KotlinThenSwift`).
* A transaction sets its abort flag after releasing the worker. A commit by another thread in
  between keeps the half-done writes of the operation that failed
  (`SharedTransaction.FailureIsCommitted`); it does so exactly if every failed call is still on
  its way to the flag (`SharedTransaction.CommitExactly`).
* An index prefix lookup compares the prefix with the whole index key, past the end of the
  string. With a NUL in the prefix it can therefore return rows whose string does not start with
  it (`RowStore.NulPrefixFindsMore`); it is exact otherwise (`RowStore.PrefixLookup`). The
  planner never asks for such a prefix.
* The filter contract says that every node but the last is referenced exactly once.
  `build_expr` also accepts children under leaf nodes and drops them
  (`Query.LeafChildrenAreDropped`); apart from that it accepts exactly the contract
  (`Query.AcceptsExactlyTheContract`).

## Model

| member | source | states |
|---|---|---|
| `Bytes.PrefixUpperBound` | crates/bkndb-core/src/relational/codec.rs:146-155 | the popping loop computes the byte-string successor |
| `Bytes.UpperBoundExact` | crates/bkndb-core/src/relational/codec.rs:142-155 | for every prefix and key, the range from the prefix to its upper bound (or to the end) holds exactly the keys that start with the prefix |
| `Bytes.BigEndianOrder` | crates/bkndb-core/src/value.rs:87 | big-endian bytes of one width compare as the numbers do |
| `Bytes.LtMeans` | crates/bkndb-core/src/value.rs:102-130 | less means a proper prefix, or a lesser byte at the first difference |
| `Values.CompareValuesLoop` | crates/bkndb-core/src/value.rs:102-130 | the early-returning loop over zipped lists computes the recursive comparison |
| `Values.CompareValuesSwap` | crates/bkndb-core/src/value.rs:102-130 | swapping the arguments reverses the answer, nested lists and incomparable pairs included |
| `Values.CompareValuesEqual` | crates/bkndb-core/src/value.rs:102-130 | `Some(Equal)` holds exactly for equal non-null values |
| `Values.CompareValuesTransitive` | crates/bkndb-core/src/value.rs:102-130 | `Less` is transitive on arbitrarily nested values |
| `Values.StrictPartialOrder` | crates/bkndb-core/src/value.rs:102-130 | `compare_values` is a strict partial order |
| `Values.TotalCmpSwap` | crates/bkndb-core/src/value.rs:132-156 | `total_cmp` is antisymmetric on all optional values |
| `Values.NullsFirst` | crates/bkndb-core/src/value.rs:132-156 | missing and null values tie and come before every other |
| `Values.KindsInOrder` | crates/bkndb-core/src/value.rs:132-156 | booleans, integers, texts, bytes, timestamps, UUIDs, lists, maps: each kind before the next |
| `Values.ScalarsInOrder` | crates/bkndb-core/src/value.rs:102-156 | false before true, numbers by size, texts, bytes and UUIDs byte by byte |
| `Values.ListsInOrder` | crates/bkndb-core/src/value.rs:113-127 | the first unequal elements of two lists decide, and without such the lengths do |
| `Values.IncomparableStaysBelow` | crates/bkndb-core/src/value.rs:113-127 | a value incomparable with `y` is never strictly above something `y` is below |
| `Values.TotalCmpChainsExactly` | crates/bkndb-core/src/value.rs:132-156 | for all optional values: `total_cmp` chains through a pair with every third value if and only if they are not two lists or are comparable |
| `Values.TotalPreorder` | crates/bkndb-core/src/value.rs:132-156 | on values whose lists share a kind and nesting depth `total_cmp` is a total preorder |
| `Values.MixedListsAreNotAPreorder` | crates/bkndb-core/src/value.rs:132-156 | `[2]`, `["a"]`, `[1]` break transitivity |
| `Values.SortableRoundTrip` | crates/bkndb-core/src/relational/codec.rs:99-130 | decoding the key of a keyable value gives the value back |
| `Values.SortableKeyOrder` | crates/bkndb-core/src/value.rs:70-97 | keys of one kind, whatever bytes follow, compare as `compare_values` and `total_cmp` do, and on equal values as what follows does |
| `Values.SortableKeyPrefixFree` | crates/bkndb-core/src/value.rs:85-97 | a key begins an extension of another key of its kind only if the values are equal |
| `Values.TupleKeyOrder` | crates/bkndb-core/src/relational/codec.rs:132-140 | concatenated keys sort as the tuples of values do |
| `Like.Turn` | crates/bkndb-core/src/value.rs:173-186 | one iteration keeps the reduction of the whole question to the current and the saved position, and moves forward in the lexicographic measure |
| `Like.Decide` | crates/bkndb-core/src/value.rs:169-188 | the loop answers true exactly if the recursive LIKE relation holds, within text length times (pattern length + 1) iterations |
| `Like.LaterStartIsUseless` | crates/bkndb-core/src/value.rs:177-183 | once a later `%` is reached, no other placement of an earlier one can help: one saved point is enough |
| `Like.LikeMatches` | crates/bkndb-core/src/value.rs:160-188 | the entry point folds both sides and decides the relation |
| `Like.MatchesConcat` | crates/bkndb-core/src/value.rs:160-188 | a pattern in two parts matches exactly the texts that split into two parts that match |
| `Like.Wildcards` | crates/bkndb-core/src/value.rs:160-188 | `%` matches every text, `_` exactly the single characters |
| `Like.LiteralPattern` | crates/bkndb-core/src/value.rs:160-188 | a pattern without wildcards matches itself only |
| `Like.FoldConcat` | crates/bkndb-core/src/value.rs:160-168 | folding goes character by character |
| `Keyspace.ScanBoundsExact` | crates/bkndb-storage-lsm/src/engine/tx.rs:84-105 | a table scan's byte range contains exactly that table's own keys in the requested range, for every combination of bounds, and no key of another table |
| `Keyspace.PrefixDecides` | crates/bkndb-storage-lsm/src/keys.rs:13-33 | a key starts with a table's prefix exactly if it is that table's |
| `Merge.MergeIter.constructor` | crates/bkndb-storage-lsm/src/compaction.rs:33-44 | every source's first entry is parked and nothing has been read |
| `Merge.MergeIter.Take` | crates/bkndb-storage-lsm/src/compaction.rs:46-56 | pops the least key of the newest source and parks that source's next entry |
| `Merge.MergeIter.Discard` | crates/bkndb-storage-lsm/src/compaction.rs:72-80 | older versions of the key are consumed in every source, and nothing else is |
| `Merge.PoppedIsNewest` | crates/bkndb-storage-lsm/src/compaction.rs:26-28 | the popped entry is the one of the newest source that has the key |
| `Merge.MergeIter.Next` | crates/bkndb-storage-lsm/src/compaction.rs:63-86 | the next live key in ascending order with its newest value; no live key is skipped, and the end is reported only when none is left |
| `Merge.MergeAll` | crates/bkndb-storage-lsm/src/compaction.rs:19-87 | the whole stream is ascending and is exactly the live keys with their newest values |
| `Wal.Replay` | crates/bkndb-storage-lsm/src/wal.rs:65-97 | the loop reads frames up to the first that is truncated, mismatched or unparsable, and reports where it ended |
| `Wal.FrameReads` | crates/bkndb-storage-lsm/src/wal.rs:34-50 | an appended frame is read back, whatever surrounds it |
| `Wal.TornFrame` | crates/bkndb-storage-lsm/src/wal.rs:75-87 | a frame cut short at any byte is not read, whatever the checksum |
| `Wal.ReplayConcat` | crates/bkndb-storage-lsm/src/wal.rs:63-97 | bytes that replay to their end, followed by any others, replay to the records of the one and then of the other |
| `Wal.CutIsLog` | crates/bkndb-storage-lsm/src/engine/mod.rs:301-314 | truncating where replay stopped leaves a log of exactly the replayed commits |
| `Wal.Append` | crates/bkndb-storage-lsm/src/wal.rs:31-50 | appending a commit to a log gives the log of its commits and that one |
| `Wal.ExactIffUnreadable` | crates/bkndb-storage-lsm/src/wal.rs:52-64 | that is so if and only if the bytes behind it do not read as a frame |
| `Wal.NextCommitSurvives` | crates/bkndb-storage-lsm/src/wal.rs:45-49 | after an append that failed after `n` bytes, the next commit is recovered, alone, if and only if `n` is 0 or the leftover bytes with its frame read as it |
| `Wal.LaterCommitsSurvive` | crates/bkndb-storage-lsm/src/wal.rs:45-49 | all later commits of the session are recovered, and nothing else, if and only if `n` is 0 or those bytes replay as exactly them |
| `Wal.SurviveOnlyBehindNothing` | crates/bkndb-storage-lsm/src/wal.rs:45-49 | with a decoder that accepts only what the encoder writes: if and only if `n` is 0 |
| `Wal.NextSurvivesOnlyBehindNothing` | crates/bkndb-storage-lsm/src/wal.rs:45-49 | and so for the next commit alone |
| `Wal.LogLength` | crates/bkndb-storage-lsm/src/wal.rs:63-97 | with such a decoder a log is exactly as long as the frames of its commits |
| `Wal.LaterCommitsHidden` | crates/bkndb-storage-lsm/src/wal.rs:75-92 | behind a complete header nothing of the session comes back if and only if what follows does not meet the header's length, checksum and parsing |
| `Wal.SmallCommitsHidden` | crates/bkndb-storage-lsm/src/wal.rs:75-79 | commits that together do not fill up the torn frame are never recovered |
| `Wal.UnsyncedComesBack` | crates/bkndb-storage-lsm/src/wal.rs:47-48 | if only the sync fails, the commit reported as failed is recovered before the later ones |
| `Leftover.LeftoverReads` | crates/bkndb-storage-lsm/src/sstable/format.rs:4-15 | the beginning of an SSTable reads as a log frame if and only if its least entry looks like one, for every number of bytes written |
| `Leftover.LeastKeyDecides` | crates/bkndb-storage-lsm/src/sstable/format.rs:4-15 | for keys of four bytes or more: if and only if the checksum of the key's rest and the next four bytes is the key's first four bytes, and they parse |
| `Leftover.EveryRecordHasAKey` | crates/bkndb-storage-lsm/src/wal.rs:75-92 | under every sound format whose decoder ignores trailing bytes, every record has a key whose SSTable entry is read as a frame of that record |
| `Leftover.TableNameDecides` | crates/bkndb-storage-lsm/src/keys.rs:13-33 | since keys begin with their table's name, an entry looks like a frame if and only if the name's first bytes are the checksum of the rest of the name, the user's key and the next four bytes, and those parse |
| `Leftover.CommitsBehindLeftover` | crates/bkndb-storage-lsm/src/wal.rs:45-49 | commits appended behind a failed flush's bytes are not replayed, if and only if the least entry does not look like a frame |
| `Leftover.CrashInSSTable` | crates/bkndb-storage-lsm/src/engine/write.rs:88-126 | after a crash at any byte of the SSTable all commits and only they are back if and only if the memtable's least entry does not look like a frame |
| `Engine.Lookup` | crates/bkndb-storage-lsm/src/engine/tx.rs:6-33 | the newest layer that has the key decides; a tombstone hides older values |
| `Engine.Scan` | crates/bkndb-storage-lsm/src/engine/tx.rs:47-82 | a range scan returns, in key order, exactly what lookups would find in the range |
| `Engine.Compacted` | crates/bkndb-storage-lsm/src/engine/write.rs:190-224 | one layer holding what the merged layers show, without tombstones |
| `Engine.CompactionKeepsView` | crates/bkndb-storage-lsm/src/engine/write.rs:163-167 | replacing all SSTables by the merged one changes no lookup above them |
| `Engine.Database.constructor` | crates/bkndb-storage-lsm/src/engine/mod.rs:275-298 | a new file has no contents and satisfies the recovery invariant |
| `Engine.Database.Commit` | crates/bkndb-storage-lsm/src/engine/write.rs:21-60 | exactly the commits that fit a frame and are written in full take effect; one that fails after any number of bytes leaves them in the file and nothing else changes; the accounting of log, memtables and contents is kept either way |
| `Engine.Database.Flush` | crates/bkndb-storage-lsm/src/engine/write.rs:62-151 | contents are unchanged; the memtable becomes the newest SSTable and the log starts over, or, if the flush fails, the memtable stays below the active one and the bytes written stay behind the log |
| `Engine.Database.Compact` | crates/bkndb-storage-lsm/src/engine/write.rs:191-238 | contents are unchanged; one SSTable and an empty log are left when merging was worth it; a failure before the rename changes nothing, one after it leaves the merged file at the path and the engine on the replaced one |
| `Engine.Database.Open` | crates/bkndb-storage-lsm/src/engine/mod.rs:301-342 | whatever the log region holds: replaying, truncating and rebuilding give a state without loose ends that shows the SSTables under exactly the replayed commits |
| `Engine.ReadsExactly` | crates/bkndb-storage-lsm/src/engine/tx.rs:6-33 | in every reachable state a read is right if and only if no memtable of a failed flush hides a newer SSTable entry with another value |
| `Engine.ReplaysExactly` | crates/bkndb-storage-lsm/src/wal.rs:52-97 | in every reachable state replay gives the commits of the readable part and whatever the bytes behind it read as |
| `Engine.RecoversExactly` | crates/bkndb-storage-lsm/src/engine/mod.rs:301-327 | if the log replays in full, a key is recovered right if and only if its value was not left in a failed flush's memtable when the log restarted, or shows through all the same |
| `Engine.HiddenCommitsExactly` | crates/bkndb-storage-lsm/src/engine/mod.rs:301-327 | if the commits behind a failed write are not replayed, a key they wrote is recovered right if and only if it had that value before |
| `Engine.ReplacedExactly` | crates/bkndb-storage-lsm/src/engine/write.rs:220-229 | after a compaction that failed behind its rename, a key is recovered right if and only if what was committed under it, before or since, is what the merged table shows |
| `Engine.CompactionFailsLate` | crates/bkndb-storage-lsm/src/engine/write.rs:220-229 | the commits that follow such a failure: a key is recovered right if and only if none of them wrote it, or wrote the value it had |
| `Engine.CommitPending` | crates/bkndb-storage-lsm/src/engine/write.rs:21-60 | a whole commit with the flush and the compaction it triggers: when it is reported as failed, and that after a failed flush it has taken effect, is read back, and is recovered unless the flush's bytes read as a frame |
| `Engine.UndisturbedIsRight` | crates/bkndb-storage-lsm/src/engine/mod.rs:301-327 | while no write has failed, reads and recovery are both right for every key |
| `Engine.FlushFailsThenSucceeds` | crates/bkndb-storage-lsm/src/engine/write.rs:69-145 | a failed flush, a commit and a successful flush: for exactly which keys recovery, and for which keys reads, are wrong |
| `Engine.Crash` | crates/bkndb-storage-lsm/src/engine/mod.rs:252-351 | reopening shows exactly what was recoverable, and everything if no write had failed |
| `Engine.CrashDuringCommit` | crates/bkndb-storage-lsm/src/wal.rs:5-11 | after a crash at any byte of a frame the commit has happened if and only if the frame was complete, and nothing else is lost |
| `Engine.CrashDuringFlush` | crates/bkndb-storage-lsm/src/engine/mod.rs:301-309 | after a crash before the header write exactly the commits are replayed if and only if the leftover bytes do not read as a frame; then all contents are back |
| `Engine.CrashDuringCompaction` | crates/bkndb-storage-lsm/src/engine/write.rs:157-170 | after a crash in a compaction, before its rename or after, nothing is lost |
| `Engine.Run` | crates/bkndb-storage-lsm/src/engine/mod.rs:252-351 | over any sequence of commits, flushes, compactions, crashes and write errors the accounting holds; without write errors reads and recovery show exactly the completed commits in order |
| `Engine.FaultFreeIsHarmless` | crates/bkndb-storage-lsm/src/engine/mod.rs:301-309 | the events that such a run may have: all without write errors, every crash but one in a flush whose bytes read as a frame |
| `Engine.LastCommitDecides` | crates/bkndb-storage-lsm/src/engine/write.rs:21-60 | what a run is expected to show under a key: the last entry of the last completed commit that has it, and nothing if none has |
| `Engine.LastEntryDecides` | crates/bkndb-storage-lsm/src/engine/write.rs:42-50 | within a commit the last entry for a key counts, and other keys keep their values |
| `TableScans.ScanTable` | crates/bkndb-storage-lsm/src/engine/tx.rs:34-82 | over any layers: in key order exactly the table's own entries in the requested range, with the prefix stripped |
| `IndexKeys.PkRoundTrip` | crates/bkndb-core/src/relational/codec.rs:225-253 | splitting an index key gives back the primary key that went in, for every pair of kinds |
| `IndexKeys.IndexKeyInjective` | crates/bkndb-core/src/relational/codec.rs:136-140 | an index key determines its value and its primary key |
| `IndexKeys.IndexKeyOrder` | crates/bkndb-core/src/relational/codec.rs:132-140 | index keys sort by value, then by primary key |
| `IndexKeys.EqualRangeExact` | crates/bkndb-core/src/relational/db/read.rs:44-57 | the byte range of an equality lookup contains the keys of that value and no others |
| `IndexKeys.UpperExact` | crates/bkndb-core/src/relational/codec.rs:278-295 | the upper byte bound selects exactly the keys of the values below the bound, inclusive or exclusive |
| `IndexKeys.LowerExact` | crates/bkndb-core/src/relational/codec.rs:255-276 | so does the lower one if and only if it does not exclude the largest value of its kind; then it selects everything |
| `IndexKeys.LargestHasNoUpperBound` | crates/bkndb-core/src/relational/codec.rs:142-155 | the values without a byte-string successor are exactly the largest integers, timestamps and UUIDs |
| `IndexKeys.PrefixRangeExact` | crates/bkndb-core/src/relational/codec.rs:157-169 | for every prefix, the byte range holds exactly the index keys that start with it; for a prefix without NUL they are those of the strings that start with it |
| `Schemas.EntryOwner` | crates/bkndb-core/src/relational/db/write.rs:72-76 | the index entry of an accepted row leads back to that row's primary key |
| `Schemas.AcceptsExactly` | crates/bkndb-core/src/relational/db/write.rs:112-122 | a row is accepted if and only if its columns are declared, its values are of their kinds and no column that may not be null is missing or null |
| `Schemas.EncodableExactly` | crates/bkndb-core/src/relational/codec.rs:87-97 | an accepted row can be indexed if and only if no key or indexed text has a NUL |
| `RowStates.ExactStep` | crates/bkndb-core/src/relational/db/write.rs:145-159 | removing the old row's entry and adding the new row's keeps an index equal to the entries of the rows |
| `RowStates.UniqueStep` | crates/bkndb-core/src/relational/db/write.rs:78-104 | writing a row without conflict keeps every UNIQUE column unique |
| `RowStates.SameRows` | crates/bkndb-core/src/relational/db/read.rs:22-36 | two ascending lists of the same rows are the same list |
| `RowStates.WrittenMeans` | crates/bkndb-core/src/relational/db/write.rs:106-163 | a write is rejected if and only if the row is not acceptable, another row has one of its UNIQUE values, or its key is taken and may not be replaced; otherwise exactly the row under its key is replaced |
| `RowStates.DeletedMeans` | crates/bkndb-core/src/relational/db/write.rs:249-266 | exactly the row found under the key is gone |
| `RowStates.UpdatedMeans` | crates/bkndb-core/src/relational/db/write.rs:268-310 | the row under the key takes the new values, unless they are not acceptable or not UNIQUE; a key that finds no row changes nothing, and one of another kind is rejected |
| `RowStates.StoredRowsAreWhole` | crates/bkndb-core/src/relational/db/write.rs:112-122 | every stored row has a value of the right kind in every column that may not be null |
| `RowStates.AppliedAllMeans` | bindings/python/bkndb/_ops_core.py:319-325 | operations in order lead through states each of which is the row-by-row effect of one on the state before, up to the end or to the first that is rejected |
| `RowStore.Store.constructor` | crates/bkndb-core/src/relational/db/mod.rs:52-59 | an empty table satisfies the index and uniqueness invariants |
| `RowStore.Store.GetRow` | crates/bkndb-core/src/relational/db/read.rs:4-20 | for a key of the table's kind, exactly the stored row that has it, if there is one; unencodable keys find nothing |
| `RowStore.Store.ResolveRows` | crates/bkndb-core/src/relational/db/read.rs:102-128 | stale entries aside, exactly the rows of the given entries, in entry order |
| `RowStore.Store.IndexLookupEq` | crates/bkndb-core/src/relational/db/read.rs:38-59 | fails exactly on unencodable values; for a value of the column's kind, exactly the rows that have it in primary-key order; nothing for a column without an index |
| `RowStore.EqualLookup` | crates/bkndb-core/src/relational/db/read.rs:38-59 | the byte-range form of an equality lookup is the filtered scan |
| `RowStore.Store.IndexLookupRange` | crates/bkndb-core/src/relational/db/read.rs:61-76 | fails exactly on unencodable bounds; otherwise the rows whose entries lie in the byte range, in entry order, and nothing for a column without an index |
| `RowStore.RangeLookup` | crates/bkndb-core/src/relational/db/read.rs:61-76 | exactly the rows in the range of values, except that a lower bound excluding the largest value of the kind does not count |
| `RowStore.Store.IndexLookupPrefix` | crates/bkndb-core/src/relational/db/read.rs:78-100 | refuses columns that are not strings; otherwise the rows of the prefix range |
| `RowStore.PrefixLookup` | crates/bkndb-core/src/relational/db/read.rs:78-100 | for every prefix, exactly the rows whose entry starts with it; they are the rows whose string does if and only if the prefix has no NUL or no stored entry starts with it |
| `RowStore.NulPrefixFindsMore` | crates/bkndb-core/src/relational/db/read.rs:78-100 | a row holding a string is found under that string with a NUL behind it, with which it does not start |
| `RowStore.KindsShareKeys` | crates/bkndb-core/src/value.rs:81-83 | an integer and a timestamp with the same number have the same key, for every number |
| `RowStore.Store.ScanAll` | crates/bkndb-core/src/relational/db/read.rs:22-36 | every stored row once, in primary-key order |
| `RowStore.Store.CheckUnique` | crates/bkndb-core/src/relational/db/write.rs:78-104 | passes only if no other row holds a UNIQUE value of the row, and fails only then or on an unencodable value |
| `RowStore.Store.WriteRow` | crates/bkndb-core/src/relational/db/write.rs:106-163 | succeeds if and only if the row is acceptable, no other row has one of its UNIQUE values, and, in error mode, none has its key; then exactly the row under that key is replaced, and every index is exact |
| `RowStore.Store.DeleteRow` | crates/bkndb-core/src/relational/db/write.rs:249-266 | exactly the row found under the key and its index entries are gone |
| `RowStore.Store.UpdateRow` | crates/bkndb-core/src/relational/db/write.rs:268-310 | a stored row takes the new values if and only if they are acceptable and UNIQUE, all other rows stay; touching only indexes whose value changed leaves every index exact |
| `Transactions.Transaction.Run` | crates/bkndb-ffi/src/transaction.rs:143-199 | refused once ended or aborted; a failed operation aborts |
| `Transactions.Transaction.End` | crates/bkndb-ffi/src/transaction.rs:159-178 | only committing an unaborted transaction keeps its writes; every other ending restores the state it began with |
| `Transactions.RunAll` | bindings/python/bkndb/_ops_core.py:319-325 | any sequence of writes, updates and deletes takes effect as a whole or not at all, and either way keeps every index exact and every UNIQUE column unique |
| `SharedTransaction.NextKeepsInv` | crates/bkndb-ffi/src/transaction.rs:143-198 | every step of every thread keeps: the flag is set if and only if a failed call has got to it, and one ending at most has the worker |
| `SharedTransaction.CommitExactly` | crates/bkndb-ffi/src/transaction.rs:159-172 | the ending that has the worker commits if and only if it is a commit, the commit goes well and every call that failed is still on its way to the flag; otherwise it rolls back |
| `SharedTransaction.StepsExactly` | crates/bkndb-ffi/src/transaction.rs:159-198 | an operation runs if and only if the flag was not set when it looked and the worker is still there; the first ending takes the worker |
| `SharedTransaction.CommittedFailuresWereLate` | crates/bkndb-ffi/src/transaction.rs:143-198 | over all interleavings: what a committed transaction holds of failed operations had not reached the flag when the commit read it |
| `SharedTransaction.QuietCommitIsSafe` | crates/bkndb-ffi/src/transaction.rs:185-198 | if no failed call is on its way to the flag when the worker is taken, a commit never keeps a failed operation's writes |
| `SharedTransaction.EndingIsFinal` | crates/bkndb-ffi/src/transaction.rs:159-163 | the first ending to take the worker decides for good |
| `SharedTransaction.FailureIsCommitted` | crates/bkndb-ffi/src/transaction.rs:185-198 | a run in which a failed operation is committed |
| `Query.FlattenSame` | bindings/python/bkndb/query.py:86-93 | the parts of both operands in order, spliced when of the same operator |
| `Query.OperatorMeaning` | bindings/python/bkndb/query.py:32-39 | `&`, `\|` and `~` mean and, or and not on every row |
| `Query.OperatorsKeepFlat` | bindings/python/bkndb/query.py:32-39 | no AND gets an AND child and no OR an OR child |
| `Query.WhereExpr` | bindings/python/bkndb/query.py:169-182 | nothing for an empty dict, else a flat filter true exactly when all equalities are |
| `Query.NodeList.Emit` | bindings/python/bkndb/query.py:77-80 | appends the post-order nodes without disturbing earlier ones and returns the index of the root |
| `Query.BuildExpr` | crates/bkndb-ffi/src/relational/expr.rs:9-63 | the slot-taking loop computes the specified rebuilding, errors included |
| `Query.RoundTrip` | bindings/python/bkndb/query.py:196-202 | rebuilding the emitted nodes of a well-formed filter gives that filter |
| `Query.AcceptsExactlyTheContract` | bindings/bkndb_ffi.swift:2823-2832 | nodes are accepted exactly if children come earlier, every node but the last is used once and each node fits its operator |
| `Query.RebuiltMeaning` | crates/bkndb-core/src/relational/expr.rs:175-203 | evaluating the nodes bottom-up gives the truth of the rebuilt filter on every row |
| `Query.LeafChildrenAreDropped` | crates/bkndb-ffi/src/relational/expr.rs:15-24 | children listed under a leaf are consumed and vanish |
| `Planner.ConjunctsHold` | crates/bkndb-core/src/relational/query/plan.rs:15-22 | a row matches the filters if and only if it satisfies every spliced conjunct, and no conjunct is a conjunction |
| `Planner.DedupValues` | crates/bkndb-core/src/relational/query/plan.rs:29-35 | the same values, none twice |
| `Planner.RangeBounds` | crates/bkndb-core/src/relational/query/plan.rs:37-77 | bounds if and only if a conjunct gives one; every matching row lies within, and a value of the kind does if and only if it passes every such conjunct |
| `Planner.Plan` | crates/bkndb-core/src/relational/query/plan.rs:79-126 | the first kind of path that the conjuncts offer, in the documented order, with exactly the values and the tightest bounds they give; it can be carried out and covers every row that matches the filters |
| `Execution.Candidates` | crates/bkndb-core/src/relational/query/plan.rs:149-183 | every access path fetches exactly the stored rows it covers, none twice, a lower bound that excludes the largest value not counting; scans and key ranges in key order |
| `Execution.MatchingRows` | crates/bkndb-core/src/relational/query/plan.rs:185-194 | whatever the plan, exactly the matching rows come back, each once |
| `Execution.EngineIsFaithful` | crates/bkndb-core/src/relational/expr.rs:175-203 | the engine's evaluation of comparisons is one the plan is right for |
| `Execution.NullTests` | crates/bkndb-core/src/relational/expr.rs:175-203 | is-null holds exactly of rows without the column or with a null in it, and is-not-null of all others |
| `Execution.Comparisons` | crates/bkndb-core/src/relational/expr.rs:175-203 | of less, equal and greater exactly one holds of comparable values and none of others; not-equal, at-most and at-least are made up of them; they agree with `total_cmp` |
| `Execution.Membership` | crates/bkndb-core/src/relational/expr.rs:175-203 | membership is equality with one of the non-null values |
| `Execution.MatchesMeans` | crates/bkndb-core/src/relational/query/plan.rs:185-194 | filters hold together as their conjunction, and a single comparison as its semantics says |
| `Tables.Select` | crates/bkndb-core/src/relational/query/exec.rs:15-26 | stopping after enough matches gives the first rows of the filtered scan |
| `Selects.RowCmpChains` | crates/bkndb-core/src/relational/query/exec.rs:30-39 | ordering by several keys, ascending or descending, is transitive when each column's lists share a shape |
| `Selects.Sort` | crates/bkndb-core/src/relational/query/exec.rs:29-39 | the same rows, in order |
| `Selects.RowCmpDecides` | crates/bkndb-core/src/relational/query/exec.rs:30-39 | the comparison of rows is that order, stated by `total_cmp` and the direction of each key |
| `Selects.SelectIn` | crates/bkndb-core/src/relational/query/exec.rs:4-50 | under every plan, sorted or streamed: all matching rows in order, where the first order key that tells two rows apart puts the lesser first if ascending and the greater if descending; of these the rows from the offset on, at most the limit, with exactly the columns asked for |
| `Selects.PlanDoesNotShow` | crates/bkndb-core/src/relational/query/exec.rs:7-12 | with the primary key among the order keys the answer does not depend on the plan |
| `Selects.ByPkIsFilteredScan` | crates/bkndb-core/src/relational/query/exec.rs:8-12 | ordered by primary key it is the filtered scan |
| `Paging.BatchReaches` | bindings/python/bkndb/_ops_io.py:84-90 | a matching key after the last one read is in the batch, or after all of a full batch |
| `Paging.Resume` | bindings/python/bkndb/_ops_io.py:76-83 | on an unchanged table, asking for keys after the k-th match skips exactly the first k |
| `Paging.IterRows` | bindings/python/bkndb/_ops_io.py:58-90 | over any sequence of table states: strictly increasing keys, only rows that matched when read, and on return every key that matched in all states read; on a fixed table exactly the matching rows after one more batch than they fill |
| `Joins.JoinNodesWithTable` | crates/bkndb-core/src/hybrid.rs:28-52 | succeeds exactly for an integer key and ids that fit; each node with the one row of that key |
| `Joins.GroupRows` | crates/bkndb-core/src/hybrid.rs:83-104 | one pass groups exactly the rows of every requested key, in scan order |
| `Joins.JoinNodesByColumn` | crates/bkndb-core/src/hybrid.rs:54-117 | succeeds exactly for an integer column and ids that fit; one entry per requested id in order, with exactly the rows that refer to it, index or not |
| `Joins.IndexDoesNotMatter` | crates/bkndb-core/src/hybrid.rs:82-115 | the indexed and the grouped path give equal entries |
| `Joins.NodeOfId` | crates/bkndb-core/src/hybrid.rs:28-43 | an id in the graph is joined with the record stored under it, any other with none |
| `Joins.JoinRowsWithNodes` | crates/bkndb-core/src/hybrid.rs:119-138 | every row with the record of the node its column names, and with none if it names none |
| `Joins.ForwardThenBack` | crates/bkndb-core/src/hybrid.rs:106-137 | every row returned for an id resolves back to that id's node |
| `Joins.BackThenForward` | crates/bkndb-core/src/hybrid.rs:106-137 | every stored row that resolves to a node is returned for that node's id |
| `Joins.DirectIsColumnJoin` | crates/bkndb-core/src/hybrid.rs:45-51 | on an integer primary key the direct join returns the only row of the column join |
| `RowJson.JsonRoundTrip` | bindings/python/bkndb/_io.py:47-77 | for values whose instants are within years 1 to 9999, reading back what was written gives the value if and only if no map inside it has a reserved key as its only key |
| `RowJson.JsonForms` | bindings/python/bkndb/_io.py:47-59 | scalars as themselves; bytes, timestamps and UUIDs as one-key objects under `$bytes`, `$datetime` and `$uuid` |
| `RowJson.ReservedKeyFails` | bindings/python/bkndb/_io.py:61-73 | such a map over anything but text cannot be read back at all |
| `RowJson.RowToJson` | bindings/python/bkndb/_io.py:80-84 | the loop fills one object with all columns and the primary key |
| `RowJson.LineRoundTrip` | bindings/python/bkndb/_io.py:47-84 | a row's line gives back its values and key if and only if no value looks tagged |
| `RowFiles.ImportJsonl` | bindings/python/bkndb/_ops_io.py:119-166 | for every batch size: all lines are written and counted, or the table is unchanged |
| `RowFiles.ExportJsonl` | bindings/python/bkndb/_ops_io.py:92-102 | one line per row of the iteration, and their number |
| `RowFiles.StoredColumns` | crates/bkndb-core/src/relational/db/write.rs:113-122 | given values are stored as given, defaults fill in exactly the columns that were not given, the primary key is not stored |
| `RowFiles.ExportThenImport` | bindings/python/bkndb/_ops_io.py:92-102 | importing an export into an empty table reproduces the table if and only if every row survives |
| `Utf.Utf8RoundTrip` | bindings/uniffi/bkndb_ffi/bkndb_ffi.kt:1801-1807 | UTF-8 as in section 3 of RFC 3629: strict decoding undoes encoding |
| `Utf.FromUtf8Exactly` | bindings/uniffi/bkndb_ffi/bkndb_ffi.kt:1801-1807 | strict decoding accepts exactly the encodings: no overlong form and no surrogate |
| `Utf.LossyOnUtf8` | bindings/bkndb_ffi.swift:601-605 | the substituting decoder is exact on well-formed text |
| `Utf.Utf16RoundTrip` | bindings/uniffi/bkndb_ffi/bkndb_ffi.kt:1801-1807 | UTF-16 as in section 2 of RFC 2781: a string without lone surrogates is determined by its scalars |
| `Utf.Utf16Inverse` | bindings/uniffi/bkndb_ffi/bkndb_ffi.kt:1795-1800 | and every sequence of scalars has such a string |
| `Utf.ThreeBytesPerUnit` | bindings/uniffi/bkndb_ffi/bkndb_ffi.kt:1819-1826 | UTF-8 needs at most three bytes per UTF-16 unit |
| `Utf.ThreeBytesPerPointIsNotEnough` | bindings/uniffi/bkndb_ffi/bkndb_ffi.kt:158-166 | three bytes per code point would not do |
| `WireFormat.ReadsBackAt` | bindings/bkndb_ffi.swift:5291-5386 | reading a written value at any offset, whatever stands around it, gives the value and stops at its end |
| `WireFormat.EncodingIsPrefixFree` | bindings/bkndb_ffi.swift:5333-5386 | no encoding begins another, and different values differ in their bytes |
| `WireFormat.TagComesFirst` | bindings/bkndb_ffi.swift:5291-5386 | a value begins with its kind's number in four big-endian bytes, and no other number is read |
| `WireFormat.BoolLayout` | bindings/bkndb_ffi.swift:5333-5386 | then one byte, 1 for true and 0 for false |
| `WireFormat.NumberLayout` | bindings/bkndb_ffi.swift:5333-5386 | or eight bytes in big-endian two's complement |
| `WireFormat.HalfLayout` | bindings/bkndb_ffi.swift:5333-5386 | or the 64 bits of a float, big-endian |
| `WireFormat.UuidLayout` | bindings/bkndb_ffi.swift:5333-5386 | or the two halves of a UUID, the upper one first |
| `WireValues.FirstSpellingLastValue` | bindings/bkndb_ffi.swift:6510-6520 | of the entries with equivalent keys the dictionary has the first one's spelling and the last one's value |
| `WireValues.LiftLower` | bindings/uniffi/bkndb_ffi/bkndb_ffi.kt:8106-8137 | the only Swift value that a Kotlin value can stand for is the one Swift makes of its bytes, for every iteration order of every map |
| `WireValues.ComesBackExactly` | bindings/bkndb_ffi.swift:6510-6520 | what Swift makes of what Kotlin writes is the same value if and only if no map inside it has two canonically equivalent keys |
| `WireValues.EquivalentKeysMerge` | bindings/bkndb_ffi.swift:6514-6518 | two equivalent keys come out as one entry with the first key and the second value |
| `WireValues.ComposedAndDecomposed` | bindings/bkndb_ffi.swift:6514-6518 | that happens to a letter with an accent in one scalar and in two |
| `WireValues.LiftedIsHashed` | bindings/bkndb_ffi.swift:6510-6520 | every dictionary read is filed by canonical form, however the bytes repeat or vary its keys |
| `WireValues.KotlinToSwift` | bindings/bkndb_ffi.swift:5291-5331 | bytes written by Kotlin are read by Swift up to exactly their end, and as the same value if and only if no map has two canonically equivalent keys |
| `WireValues.SameBytesSameValue` | bindings/bkndb_ffi.swift:6500-6521 | equal bytes stand for equal values |
| `SwiftWire.ReadValue` | bindings/bkndb_ffi.swift:5291-5331 | the reader computes the specified reading, failures included |
| `SwiftWire.ReadList` | bindings/bkndb_ffi.swift:6436-6444 | the list loop reads the counted items |
| `SwiftWire.ReadDictionary` | bindings/bkndb_ffi.swift:6510-6520 | the dictionary loop inserts the counted entries; one with a canonically equivalent key gives an earlier one its value |
| `SwiftWire.LiftBuffer` | bindings/bkndb_ffi.swift:241-249 | a buffer is accepted exactly if it is one value and nothing more |
| `SwiftWire.WriteValue` | bindings/bkndb_ffi.swift:5333-5386 | appends, in whatever order dictionaries iterate, what Kotlin writes for the same value; it is read back as exactly the value |
| `SwiftWire.WriteDictionary` | bindings/bkndb_ffi.swift:6501-6508 | one entry per key, and their number in front |
| `SwiftWire.WriteThenRead` | bindings/bkndb_ffi.swift:5291-5386 | writing and reading back with any bytes before and after is the identity |
| `KotlinWire.ByteBuffer.Put` | bindings/uniffi/bkndb_ffi/bkndb_ffi.kt:1828-1832 | appends if and only if there is room |
| `KotlinWire.Write` | bindings/uniffi/bkndb_ffi/bkndb_ffi.kt:6791-6848 | succeeds exactly if no string has a lone surrogate and the bytes fit, and then appends the encoding |
| `KotlinWire.WriteList` | bindings/uniffi/bkndb_ffi/bkndb_ffi.kt:8036-8041 | the same for a list |
| `KotlinWire.WriteMap` | bindings/uniffi/bkndb_ffi/bkndb_ffi.kt:8127-8136 | the same for a map in iteration order |
| `KotlinWire.AllocationSuffices` | bindings/uniffi/bkndb_ffi/bkndb_ffi.kt:6721-6789 | the size computed beforehand is at least what is written |
| `KotlinWire.LowerIntoRustBuffer` | bindings/uniffi/bkndb_ffi/bkndb_ffi.kt:176-190 | lowering fails exactly on a lone surrogate, never on a full buffer |
| `Crossing.KotlinThenSwift` | bindings/uniffi/bkndb_ffi/bkndb_ffi.kt:176-190 | lowered by Kotlin and lifted by Swift: fails exactly on a lone surrogate, and arrives as the value sent if and only if no map has two canonically equivalent keys |
| `Crossing.PutKnown` | bindings/uniffi/bkndb_ffi/bkndb_ffi.kt:8107-8116 | assigning under a known key gives its entry the new value in its place and touches no other |
| `Crossing.PutNew` | bindings/uniffi/bkndb_ffi/bkndb_ffi.kt:8107-8116 | assigning under a new key adds an entry at the end |
| `Crossing.KotlinRoundTrip` | bindings/uniffi/bkndb_ffi/bkndb_ffi.kt:6685-6719 | what Kotlin wrote Kotlin reads back, maps in the same order |
| `Crossing.KotlinThenKotlin` | bindings/uniffi/bkndb_ffi/bkndb_ffi.kt:176-206 | lowered and lifted by Kotlin: the identity, except that a lone surrogate fails |
| `Crossing.SwiftThenKotlin` | bindings/uniffi/bkndb_ffi/bkndb_ffi.kt:195-206 | lowered by Swift and lifted by Kotlin, every value arrives |
| `KotlinHandle.NextKeepsInv` | bindings/uniffi/bkndb_ffi/bkndb_ffi.kt:2284-2329 | every atomic step keeps the counter equal to the undropped initial count plus the calls in flight |
| `KotlinHandle.HandleSafety` | bindings/uniffi/bkndb_ffi/bkndb_ffi.kt:2284-2329 | in every run of any threads: freed at most once, no call body after the free, and freed once destroyed and idle |
| `KotlinHandle.OnlyDestroyedRefuses` | bindings/uniffi/bkndb_ffi/bkndb_ffi.kt:2308-2319 | in every run, a call that ended without running its body read a counter of zero or at the limit, on an object that was destroyed or at the limit |
| `KotlinHandle.RefusedExactly` | bindings/uniffi/bkndb_ffi/bkndb_ffi.kt:2311-2318 | reading the counter ends a call if and only if it is zero or at the limit |
| `KotlinHandle.LiveCallRuns` | bindings/uniffi/bkndb_ffi/bkndb_ffi.kt:2308-2323 | on a live object below the limit a call that is not disturbed is in its body two steps later |
| `KotlinHandle.DestroyedInTheEnd` | bindings/uniffi/bkndb_ffi/bkndb_ffi.kt:2284-2294 | once a destroy has looked at the flag the object is destroyed, for good |
| `KotlinHandle.ZeroIsFinal` | bindings/uniffi/bkndb_ffi/bkndb_ffi.kt:2308-2319 | once zero the counter stays zero |
| `KotlinHandle.OneDecrementSeesZero` | bindings/uniffi/bkndb_ffi/bkndb_ffi.kt:2292-2329 | in a run at most one decrement observes zero |
| `KotlinHandle.RunProgresses` | bindings/uniffi/bkndb_ffi/bkndb_ffi.kt:2308-2329 | every step spends one of finitely many counter changes, retires a stale read of the counter, or moves its thread forward |
| `KotlinHandle.DestroyedIsEventuallyFreed` | bindings/uniffi/bkndb_ffi/bkndb_ffi.kt:2292-2329 | under every scheduler the started calls and destroys finish, and a destroyed object ends up freed exactly once |
| `GoHandle.NextKeepsInv` | bindings/go/bkndb/bkndb.go:39-81 | every step of every goroutine keeps the lock and handle invariant |
| `GoHandle.GoHandleSafety` | bindings/go/bkndb/tx.go:35-51 | over all interleavings: freed at most once, no driver call on a zero or freed handle, no ending overlapping a call, at most one of commit and rollback |
| `GoHandle.CheckDecides` | bindings/go/bkndb/bkndb.go:50-81 | an operation that has the lock calls the driver with the open handle if and only if the handle is set; otherwise it has been freed |
| `GoHandle.DoneCalledOrClosed` | bindings/go/bkndb/tx.go:97-122 | in every run, an operation that is done has made its driver call or found the handle freed |
| `GoHandle.EndingFrees` | bindings/go/bkndb/tx.go:97-122 | in every run, when a close, commit, rollback or finalizer is done the native handle has been freed and is held no more |
| `GoHandle.NoDeadlock` | bindings/go/bkndb/bkndb.go:39-81 | while a goroutine is not done some goroutine can move, and every move brings one closer to its end |

## Left out

- Floats: `PropValue` has no `Float` variant (NaN, signed zero and the rounding of integers to doubles are not modelled); on the wire a float is its 64 bits.
- Like.LikeMatches: case folding is a function from a character to its lower-case characters passed in, not Unicode's table.
- RowJson.JsonRoundTrip: base64, ISO 8601 (for years 1 to 9999) and UUID text are functions assumed to have inverses; JSON text itself is not parsed.
- RowFiles.ImportJsonl: rows of auto-increment tables that name no primary key (and the counter behind them) are not modelled; such a line is a failure here.
- RowStore.Store.WriteRow: rows are kept decoded in the base table rather than as bincode bytes, and the search-index hook is absent.
- Planner.Plan: dotted paths into list and map columns never select an access path and are covered only as operands whose truth is arbitrary.
- Execution.EngineIsFaithful: the truth of Contains, LIKE and ILIKE comparisons is arbitrary there; planning does not look at them.
- Selects.SelectIn: the check for unknown columns is not modelled, counts are unbounded, and the order of rows that tie in all order keys is left open.
- Tables.Select: takes the rows as they come, with a limit only; `Selects.SelectIn` has offset, order and projection.
- Paging.IterRows: rows are collected rather than handed out one by one, and a run ends where the given table states end.
- WireValues.Lift: Unicode's canonical equivalence is a function to a canonical form passed in, not its table.
- Crossing.KotlinLift: Kotlin's reading loops are modelled on values, and what its decoder puts in place of bytes that are not UTF-8 is passed in.
- SwiftWire.ReadValue: a negative count is a failure here and a trap there; reserving capacity for a huge count is not modelled.
- KotlinWire.LowerIntoRustBuffer: buffers beyond the JVM's size limits are not modelled.
- Transactions.Transaction.Run: one thread at a time; `SharedTransaction` has the interleavings, without the rows.
- Transactions.Transaction.End: one thread at a time; `SharedTransaction` has the interleavings, without the rows.
- KotlinHandle.HandleSafety: the garbage-collector cleaner is not modelled, only explicit destruction; at 2^63 - 1 calls in flight a call throws instead of counting, which the model has too.
- GoHandle.GoHandleSafety: driver calls are atomic events; what the native library does in them is not modelled.
- The graph layer, full-text and vector search, the SQL and MATCH languages, aggregation, the catalog, CSV files, C and JNA plumbing, and error messages.
- Storage.Range: for the relational layer a storage table is an ordered set of keys; the engine below it is modelled separately.
- Merge.MergeIter.Next: sources do not fail; the error a failing source leaves behind is not modelled.
- Wal.FrameReads: bincode and CRC-32 are functions assumed only to decode what they encoded and to fit 32 bits; a crash leaves a prefix of what was being written, not arbitrary garbage.
- Engine.Database.Open: SSTable blocks, bloom filters, the manifest's encoding and the two alternating header slots are not modelled: the header's switch to a new manifest is atomic and does not fail.
- Leftover.LeftoverReads: the first block is taken to be uncompressed; a compressed one is other bytes, for which `Engine.CrashDuringFlush` has the condition.
- Leftover.CrashInSSTable: the first block is taken to be uncompressed.
- Wal.SurviveOnlyBehindNothing: bincode itself ignores trailing bytes; for it `Wal.LaterCommitsSurvive` has the condition.
- Engine.Database.Commit: the append only; `Engine.CommitPending` adds the flush, whose trigger, a size in bytes, is passed in.
- The redb and in-memory backends, backup, statistics and integrity checks.
