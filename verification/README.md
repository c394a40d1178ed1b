# A verified model of stellard's storage

This Dafny project models the storage side of stellard: the log-structured
merge engine in `src/hyperleveldb`, from log bytes to the `Get` a client calls,
and the code in `src/ledger` that keeps SQL tables in step with the last closed
ledger. All results are proofs about the model, and
`dafny verify dfyconfig.toml` checks them.

## What is proved

**The engine as one state machine** (`Store`, `StoreInvariant`, `StoreHistory`,
`StoreReads`).
Writes, memtable switches, flushes, trivial moves, snapshots, and compactions
that run between taking and releasing two level locks, interleave in any order.
After any list of actions `StoreReads.Get` returns what a plain map of the
union of their batches would return, at every snapshot they left live; what was
written and what is live is told from the list alone. The pieces are
the compaction loop (`Compactions`), the level search (`Lookups`), the choice
of a flush level (`Placement`) and the choice of compaction inputs
(`OverlapInputs`, `Picking`), each proved against its own specification and
then used by the state machine.

**Crashes of that machine, and iterators over it** (`LogReplay`, `ReplayCuts`,
`StoreRecovery`, `CrashRuns`, `RecoveryReads`, `StoreIters`). A crash keeps only the recorded version and what
the logs give back, and recovery turns that into level-0 tables in the order of
the logs. Whatever the logs lost and in whatever order they are, the search after
a recovery is right for every key if and only if the last table that holds a key
holds its newest entry; the whole invariant is restored if and only if the tables
are in age order. After any run with any number of crashes, each followed by a
recovery of the second kind, `Get` and the user's iterator, which drives a merge
of the memtables, the level-0 tables and the joined deeper levels, show exactly
what was written and not lost, told from the list of actions and crashes.

**Writers, readers and crashes** (`WriteProtocol`, `ConcurrentReads`,
`Durability`, `CrashSafety`, `ProtocolHistory`, `ProtocolProgress`,
`FlushGuards`). Writers take tickets, reserve log extents, fill them fragment by
fragment, insert and publish in any interleaving with flushes, log deletions and
crashes. Tickets are published in sequence order. At every moment a read at
the last sequence sees each published batch whole and nothing of any other, even
if part of that other batch is in a memtable. After a crash at any point
of any run, a logged batch is recovered if and only if its log is obsolete (its
memtable was flushed) or no unwritten fragment of another writer hides it.
`ProtocolHistory` tells from the list of actions alone what every crash leaves,
acknowledged or not, and what every read sees. `ProtocolProgress` shows that no
writer is ever stuck.

**The log** (`LogFormat`, `LogLayout`, `LogWriters`, `LogReaders`,
`LogRoundTrip`, `LogChecks`, `LogAssembly`, `LogHoles`, `LogCrashes`,
`CrashImages`, `RecoveredLogs`). Writers that reserve
extents and write concurrently, in any interleaving, produce the bytes of a
serial log. When any subset of those writes reached a file of any length, the
reader returns exactly the records none of whose fragments comes at or behind an
unwritten one in its block. In every reachable state of the protocol these are
the records it calls readable, once the fragments in the file are counted. On
arbitrary bytes the buffered reader refines a parser that only knows a file
position, that parser returns exactly the fragments whose checksum is right, the
records are exactly the matches of the fragment pattern, and every byte is
returned, reported or behind a zeroed header.

**The memtable** (`SkipLists`, `MemTables`, `WriteBatches`, `BatchFaults`,
`Comparators`). Skip-list insertion through hints of any age; searches
interleaved pointer by pointer with insertions, which are linearizable; encoded
rows that sort as the operations do; what arbitrary batch bytes mean, faults
included.

**Tables** (`Coding`, `BlockFormat`, `BlockBuilders`, `BlockIters`, `Blooms`,
`FilterBlocks`, `Tables`). Round trips at byte level, the exact false positives
of a filter, and a table lookup that reads one block and yet answers for the
whole table.

**Iterators** (`Mergers`, `InternalIters`, `TwoLevelIters`, `DbIters`). Any run of operations
with any changes of direction is a run of a cursor over a sorted sequence, or
over the map a snapshot shows. The user's iterator drives a merging iterator.

**Versions** (`VersionEdits`, `EditCodec`, `EditLayout`, `EditFaults`,
`VersionBuilders`, `Manifests`). The manifest codec, its bytes and what arbitrary
bytes mean, and recovery that rebuilds the file sets and the counters the
running database had.

**The cache** (`HandleTables`, `LruCaches`). The hash table is a map; reference
counts, charges and evictions are exact, and the list is in order of last use,
told from the history of calls.

**Ledger tables** (`LedgerSync`, `LedgerMasters`). Incremental catch-up equals a
full import, and every committed state is consistent with its marker.

## Where the code does not meet the property

Each of these has a concrete case and, beside it, the exact condition.

- A write can be lost after it was acknowledged. An extent reserved by an
  earlier caller and not yet written leaves zeros; the reader drops the rest of
  the block there and reports nothing. `CrashImages.ZerosHideRecord` is such a
  file and `FlushGuards.AcknowledgedWriteLost` a run that ends with an
  acknowledged write unrecoverable. `CrashImages.CrashReads` gives the condition
  on the bytes and `CrashSafety.LoggedIsRecoveredIff` the one on the writers.
  `CrashSafety.OrderedLogKeepsAcknowledged` says when acknowledged writes are
  safe: extents reserved in ticket order and no earlier writer failed.
- Output tables are closed by size alone, so two of them can share a user key.
  `SplitKeys.SplitKeyBreaksGet` is a run from the empty store: three flushes, a
  snapshot, the compaction loop, the trivial move that `PickCompaction` then
  makes, and a `Get` that returns the older value. `Compactions.EverySplitSafeIff`
  gives the condition on the compaction's inputs. The state machine requires
  splits at user-key boundaries.
- The flush thread waits only for an immutable memtable to exist, not for its
  writers. `FlushGuards.UnguardedFlushLosesBatch` shows a run in which a logged
  batch is then in no table and in no log the manifest names.
  `FlushGuards.FlushSafeIff` gives the condition: every continuation is safe if
  and only if each writer of that memtable with a non-empty batch has finished or
  failed. The protocol's flush step waits for all writers of that memtable.
- Log order can differ from sequence order: `FlushGuards.LogNeedNotBeOrdered` is
  a run that ends with a whole log in reverse, and
  `RecoveryReads.ReversedLogBreaksGet` a recovery after which `Get` returns the
  older of two writes. `RecoveryReads.RecoveryReadsIff` gives the condition on the
  tables that recovery writes, and `LogReplay.ReplayReadsIff` the one on the logs,
  over all buffer limits: for each key, the last record that holds it holds its
  newest entry. A log out of order can meet it (`LogReplay.DisorderCanBeHarmless`).
- A failed import leaves the old ledger in memory and empty or part-filled
  tables on disk. `LedgerMasters.StaleLedgerBreaksCatchUp` shows what the next
  catch-up by difference commits. `LedgerMasters.CatchUpAfterFailedImportIff`
  gives the condition after an import that stopped anywhere, for a catch-up to the
  same ledger, `LedgerMasters.LaterCatchUpIff` for any later one, and
  `LedgerSync.CatchUpFromAnyTablesIff` the one for arbitrary tables.
  `LedgerMasters.LedgerMaster.LoadLastKnown` is the restart that repairs it.

Two more laws fail on inputs that the rest of the code does not produce.

- `VersionEdit::Clear` keeps compact pointers. `EditCodec.EditRoundTrip` says
  when decoding gives back the edit. The code decodes only into new objects,
  which have no compact pointers.
- A ledger entry whose type or key changes at one index leaves a wrong row.
  `LedgerSync.IncrementalEqualsFullIff` gives the condition. Such a change needs
  two entries with one hash or an entry that changes its type.
  `LedgerSync.IdentifiedCatchUp` is unconditional when the index determines type,
  key and the columns an UPDATE leaves alone.

## Hypotheses the theorems need

- `StoreRecovery.RunKeepsFull`, `StoreRecovery.Get` and `StoreIters.Iterate` are
  about runs in which every recovery wrote its tables in age order. The code does
  not ensure this; `StoreRecovery.OrderedLogsRecover` says which logs do, and
  `RecoveryReads` is about the others.
- A fragment that the write protocol counts as written survives the crash. In
  `RecoveredLogs.ReaderReturns` its two writes are in the file, with any part of
  the writes of unfinished fragments.
- The oldest snapshot of a compaction is below the sentinel sequence.
  `Compactions.SentinelSnapshotLosesData` shows why, and
  `StoreInvariant.OldestSnapshotIsReal` that every reachable state meets it.
- A file number is added to a level once. `VersionBuilders.ReturningNumberRevivesFile`
  shows why, and `VersionBuilders.ApplyMeansEditIff` is the exact condition for
  one edit. The code takes a new number for each table; a trivial move takes a
  number only downwards.
- A fragment whose header reached the file and whose payload did not is caught by
  its checksum. `CrashImages.CrashReads` needs this of the file it reads.
- User keys are integers in the storage layers. `Comparators.PositionsAreTheOrder`
  justifies this for any total comparator, and
  `Comparators.InternalOrderIsEntryOrder` ties it to the bytes.
- Internal keys are unique, since each entry has its own sequence number.
- A section of code under the database mutex is one step. The flush level is
  chosen and installed against the same version.
- In `Store` a batch enters the memtable and becomes visible in one step.
  `WriteProtocol` is the finer model, in which logging, insertion and publishing
  are separate steps of concurrent writers. In `StoreRecovery` a crash may lose
  any part of the memtables; what it does lose is the subject of `CrashSafety`.
- Block, filter and key sizes stay below 4 GB, where the source uses 32-bit
  lengths.
- The checksum step, the bloom hash, the cache hash, the size limits and the
  write-buffer limit are arbitrary functions, so results hold for all of them.
- A ledger hash names one ledger, and the index of an entry is a function of its
  type and primary key.

## Model

| member | source | states |
|---|---|---|
| `Entries.ReadNewest` | src/hyperleveldb/db/db_impl.cc:1261-1307 | A read of a key at a snapshot has one answer: any entry that is newest among the visible ones gives it, and a deletion marker gives "not found" |
| `Entries.ReadSubset` | src/hyperleveldb/db/db_impl.cc:1093-1131 | Removing entries changes no read as long as the newest visible entry of the key is kept |
| `Compactions.Compaction.constructor` | src/hyperleveldb/db/version_set.cc:1577-1585 | A new compaction's cached level pointers are sound and behind every key |
| `Compactions.Compaction.IsBaseLevelForKey` | src/hyperleveldb/db/version_set.cc:1605-1624 | For keys asked in nondecreasing order, the cached pointers give exactly the answer of a full scan of all deeper levels, and stay sound for the next key |
| `Compactions.DoCompactionWork` | src/hyperleveldb/db/db_impl.cc:1083-1158 | The loop with its running state writes, concatenated over the output tables, exactly the entries the drop rule keeps, and for sequences below the sentinel these are, sorted, the entries that stay by the rule of KeptIffStays, which looks at the whole input and not at a running state; no table is empty, every table but the last is closed by the size limit and no earlier, and the last one too or it never reached the limit |
| `Compactions.KeptIffStays` | src/hyperleveldb/db/db_impl.cc:1093-1131 | For sequences below the sentinel, an input entry is in the output if and only if it stays: the newest of its key in the input, unless it is a marker at or below the oldest snapshot, below the garbage cutoff and with no deeper file over its key; an older one, if no newer one at or below the oldest snapshot hides it and it is not a marker at or below that snapshot with no deeper file over its key |
| `Compactions.KeptElements` | src/hyperleveldb/db/db_impl.cc:1093-1131 | An entry is in the output if and only if it is an input entry that neither drop rule applies to |
| `Compactions.KeptSorted` | src/hyperleveldb/db/db_impl.cc:1093-1131 | Output stays in internal-key order |
| `Compactions.OlderIsDropped` | src/hyperleveldb/db/db_impl.cc:1102-1107 | An entry behind another of the same user key that the oldest snapshot already sees is always dropped |
| `Compactions.DroppedNewestIsObsolete` | src/hyperleveldb/db/db_impl.cc:1105-1128 | If compaction drops the newest visible entry of a key, it is a deletion and nothing of that key is left to show through |
| `Compactions.CompactionPreservesReads` | src/hyperleveldb/db/db_impl.cc:1093-1131 | For every key and every snapshot not older than the oldest live one, replacing the inputs by what is kept changes no read of the whole store |
| `Compactions.SentinelSnapshotLosesData` | src/hyperleveldb/db/db_impl.cc:1081-1105 | Concrete input no run produces: with the sentinel sequence as oldest snapshot a live value is dropped, so the bound on the snapshot is needed |
| `Compactions.NoSnapshotLeavesOnePerKey` | src/hyperleveldb/db/db_impl.cc:1093-1131 | When no snapshot is older than the inputs, one entry per user key is left |
| `Compactions.EverySplitSafeIffOnePerKey` | src/hyperleveldb/db/db_impl.cc:1147-1155 | Wherever the cuts by size fall each user key stays in one table, if and only if the output holds one entry per key; EverySplitSafeIff puts this on the inputs |
| `Compactions.KeptOnePerKeyIff` | src/hyperleveldb/db/db_impl.cc:1093-1131 | The output holds one entry per user key if and only if, for any two neighbouring inputs of one key with the newer above the oldest snapshot, the older is a deletion at or below that snapshot at its base level |
| `Compactions.EverySplitSafeIff` | src/hyperleveldb/db/db_impl.cc:1093-1155 | No split of the output by size can part a user key, if and only if that condition on the inputs holds |
| `Compactions.LoopSplitsKey` | src/hyperleveldb/db/db_impl.cc:1083-1155 | Concrete run of the loop: a snapshot between two versions of a key, and any size limit that the first reaches and the second with the next key does not, give two tables that share the key |
| `Lookups.TableGetAnswers` | src/hyperleveldb/db/version_set.cc:307-320 | The first row at or after the lookup key is the newest visible entry of the table, or the table has none |
| `Lookups.FindFile` | src/hyperleveldb/db/version_set.cc:102-121 | Binary search returns the first file whose largest key is not before the lookup key |
| `Lookups.InsertByNumber` | src/hyperleveldb/db/version_set.cc:396-411 | Level-0 candidates stay sorted newest first with the same members plus the new one |
| `Lookups.NewestCovering` | src/hyperleveldb/db/version_set.cc:396-411 | The candidates are exactly the level-0 files whose range covers the key, newest first |
| `Lookups.GetLevelZero` | src/hyperleveldb/db/version_set.cc:396-411 | On any tables with different numbers, trying the covering ones newest number first gives the answer of the largest-numbered one that has a visible entry; if larger numbers are newer, that is the newest visible entry of the level |
| `Lookups.OnlyCandidate` | src/hyperleveldb/db/version_set.cc:412-429 | On a sorted level no file but the one binary search finds can hold a visible entry of the key |
| `Lookups.GetLevel` | src/hyperleveldb/db/version_set.cc:412-429 | The one-file probe of a sorted level answers for the whole level |
| `Lookups.Get` | src/hyperleveldb/db/version_set.cc:371-468 | On any version, the level-by-level search gives the answer of the first level with a visible entry; if lower levels and larger level-0 numbers are newer, that is the newest visible entry of all files, and it misses only when none is visible |
| `Lookups.SearchIsRight` | src/hyperleveldb/db/version_set.cc:371-468 | For one key, if lower levels and larger level-0 numbers are newer for that key, the search is right for it |
| `Placement.SomeFileOverlapsRange` | src/hyperleveldb/db/version_set.cc:137-172 | True if and only if some file meets the range, for disjoint and overlapping levels and for missing bounds |
| `Placement.PickLevelForMemTableOutput` | src/hyperleveldb/db/version_set.cc:541-561 | The loop returns the deepest quiet level allowed: nothing in levels 0 up to it overlaps the new table |
| `Placement.ChooseFlushLevel` | src/hyperleveldb/db/db_impl.cc:512-524 | The flush goes to the deepest level at or above the quiet one that no running compaction has locked, or to level 0 |
| `StoreInvariant.InitInv` | src/hyperleveldb/db/db_impl.cc:111-166 | The empty store satisfies the invariant |
| `StoreInvariant.WriteStep` | src/hyperleveldb/db/db_impl.cc:1514-1537 | A write of new sequence numbers keeps the invariant; StoreHistory.HistoryOfRun says that its batch is what it adds |
| `StoreInvariant.SwitchStep` | src/hyperleveldb/db/db_impl.cc:1566-1589 | Switching a full memtable to the immutable slot keeps the invariant |
| `StoreInvariant.FlushStep` | src/hyperleveldb/db/db_impl.cc:483-575 | Installing the flushed table at the chosen level keeps every file invariant and every running compaction's promises |
| `StoreInvariant.BeginStep` | src/hyperleveldb/db/db_impl.cc:735-746 | Picking inputs and locking two levels establishes what the compaction will rely on when it finishes |
| `StoreInvariant.JobRestIsNewer` | src/hyperleveldb/db/version_set.cc:1605-1624 | At any later moment of a run, whatever else happened, a key the compaction treats as base-level has only newer entries outside its inputs |
| `StoreInvariant.InstallStep` | src/hyperleveldb/db/db_impl.cc:1032-1051 | Replacing the inputs by the outputs, after any steps of other threads, keeps levels disjoint, levels aged and every live read unchanged |
| `StoreInvariant.TrivialMoveStep` | src/hyperleveldb/db/db_impl.cc:752-760 | Moving non-overlapping files down one level keeps the invariant |
| `StoreInvariant.SnapshotStep` | src/hyperleveldb/db/db_impl.cc:1464-1472 | Taking and releasing snapshots and abandoning a compaction keep the invariant |
| `StoreInvariant.StepKeepsInv` | src/hyperleveldb/db/db_impl.cc:533-811 | Every step of the engine keeps the invariant |
| `StoreInvariant.RunKeepsInv` | src/hyperleveldb/db/db_impl.cc:533-811 | In every reachable state reads at live snapshots see all that was ever written, which StoreHistory.HistoryOfRun tells from the actions, files at levels above 0 are disjoint, upper levels are newer and level-0 numbers follow age |
| `StoreHistory.HistoryOfRun` | src/hyperleveldb/db/db_impl.cc:1514-1537 | In the last state of every run what counts as written is the union of the batches of its write actions, and the last sequence and the snapshots are those the actions gave out |
| `StoreHistory.LiveOfRun` | src/hyperleveldb/db/db_impl.cc:1464-1472 | Which snapshots are live is told from the actions alone |
| `StoreHistory.WriteIsRead` | src/hyperleveldb/db/db_impl.cc:1514-1537 | After any run any batch with the next sequences can be written, and a read then gives what the batch says about a key and otherwise what was there |
| `StoreInvariant.OldestSnapshotIsReal` | src/hyperleveldb/db/db_impl.cc:1066-1072 | In every reachable state the oldest snapshot a compaction takes is below the sentinel sequence |
| `StoreReads.MemGetAnswers` | src/hyperleveldb/db/memtable.cc:140-178 | A memtable lookup answers for the memtable's entries |
| `StoreReads.VersionByAge` | src/hyperleveldb/db/version_set.cc:371-468 | In a reachable state the version's levels are ordered by age, its level-0 numbers follow age, and it lists exactly the stored entries |
| `StoreReads.AnswerIsRead` | src/hyperleveldb/db/db_impl.cc:1261-1307 | Stopping at the first of memtable, immutable memtable and files that answers gives the read of the whole history |
| `StoreReads.Get` | src/hyperleveldb/db/db_impl.cc:1261-1307 | After any list of actions, writes, flushes, compactions, moves and snapshots in any order, Get at a snapshot that the actions left live returns what a plain map of the union of all their batches would return |
| `StoreRecovery.StepKeepsFull` | src/hyperleveldb/db/version_set.cc:853-871 | Every step of the engine keeps the recorded sequence sound: the files alone show all settled writes at that sequence and later, and hold nothing newer |
| `StoreRecovery.RecoverySafeIff` | src/hyperleveldb/db/db_impl.cc:341-476 | Whatever part of the memtables the logs lost, recovery restores the whole invariant, which all later steps rely on, if and only if the tables it writes are in age order for each key; RecoveryReadsIff is the condition for reads alone |
| `StoreRecovery.NumbersTrustedIff` | src/hyperleveldb/db/db_impl.cc:435-476 | Level-0 numbers follow age after recovery if and only if the replayed tables were written in age order |
| `StoreRecovery.OrderedLogsRecover` | src/hyperleveldb/db/db_impl.cc:368-377 | Logs that taken together are in sequence order for each key, replayed with any buffer limit and closed by a table each, recover the invariant |
| `StoreRecovery.CompleteLogRestoresReads` | src/hyperleveldb/db/db_impl.cc:341-382 | If the logs gave everything back, every read of the newest state is what it was before the crash |
| `StoreRecovery.RunKeepsFull` | src/hyperleveldb/db/db_impl.cc:300-385 | The invariant holds after every run with any number of crashes, if each recovery wrote its tables in age order |
| `StoreRecovery.HistoryOfRun` | src/hyperleveldb/db/db_impl.cc:300-385 | After any run with crashes the state agrees with what the list of actions and crashes tells: what was written and survived, what the memtables hold, the last sequence, the recorded one and the snapshots |
| `CrashRuns.AnyPartMayBeLost` | src/hyperleveldb/db/db_impl.cc:341-382 | After any run a crash can come and lose any part of what is in no table yet, and the history loses exactly that |
| `StoreRecovery.Get` | src/hyperleveldb/db/db_impl.cc:1261-1307 | After any list of actions and crashes, each recovered with tables in age order, Get at a snapshot that they left live returns what a plain map would return of the batches written since, and of the earlier ones less what each crash lost |
| `StoreIters.NewInternalIterator` | src/hyperleveldb/db/db_impl.cc:1214-1248 | The memtables, each level-0 table and one joined child for each deeper level are sorted, share no internal key and together hold exactly what the store holds |
| `StoreIters.JoinedIsLevel` | src/hyperleveldb/db/version_set.cc:273-290 | Joining the tables of a level above 0 in order gives all its entries sorted |
| `StoreIters.SameReadsSameMoves` | src/hyperleveldb/db/db_iter.cc:146-308 | What a user iterator may do depends only on what reads return |
| `StoreIters.Iterate` | src/hyperleveldb/db/db_impl.cc:1309-1318 | After any list of actions and crashes, each recovered with tables in age order, any operations on a new iterator, which drives the merge, move over exactly the keys that a plain map of the batches written and not lost would show at the snapshot |
| `RecoveryReads.AnswerOfBack` | src/hyperleveldb/db/version_set.cc:371-468 | After any recovery, a key that came back from the logs has exactly one answer: the newest entry of the last table recovery wrote that holds it |
| `RecoveryReads.OldFilesAnswer` | src/hyperleveldb/db/version_set.cc:371-468 | After any recovery, a key that did not come back is answered right |
| `RecoveryReads.RecoveryReadsIff` | src/hyperleveldb/db/db_impl.cc:341-476 | After any recovery the search returns a newest entry for every key, at every snapshot a reader can then have, if and only if for each key the last table that holds it holds its newest entry |
| `RecoveryReads.RecoveredValueIff` | src/hyperleveldb/db/db_impl.cc:1261-1307 | The value read for one key is right if and only if the last table that holds the key reads as all that came back does |
| `RecoveryReads.RecoveredLogsReadIff` | src/hyperleveldb/db/db_impl.cc:368-377 | Logs whose last record of each key holds its newest entry are read right after recovery with any buffer limit; with a limit that every record reaches, only those are |
| `RecoveryReads.ReversedLogBreaksGet` | src/hyperleveldb/db/db_impl.cc:435-476 | Concrete run: two writes of one key, a crash, a recovery from a log that holds them in reverse, and the search returns the older one |
| `SplitKeys.PlacedByRun` | src/hyperleveldb/db/db_impl.cc:483-575 | Concrete run from the empty store: three flushes that the placement rule puts at levels 2, 1 and 0 |
| `SplitKeys.CompactLevelZero` | src/hyperleveldb/db/db_impl.cc:1083-1155 | The compaction of level 0 that follows writes two tables that share a user key |
| `SplitKeys.MoveAndGet` | src/hyperleveldb/db/version_set.cc:1462-1470 | PickCompaction then moves the first of them and not the second, which overlaps the level below, and Get on the version that results returns the older entry |
| `SplitKeys.SplitKeyBreaksGet` | src/hyperleveldb/db/db_impl.cc:1147-1155 | The whole story: a run of the engine up to the running compaction, its outputs installed, the picked move an enabled step, and Get at the last sequence returns the older entry although the newer one was written |
| `DbIters.DbIter.FindNextUserEntry` | src/hyperleveldb/db/db_iter.cc:177-207 | Lands on the first live row past the start and the skipped key, and passes over no row it should stop at |
| `DbIters.DbIter.ScanForward` | src/hyperleveldb/db/db_iter.cc:177-207 | The loop over the internal iterator stops at a row past the skipped key, or at the end, and passes over no row but those of that key |
| `DbIters.SearchStep` | src/hyperleveldb/db/db_iter.cc:182-201 | One entry: hidden, a marker that hides its key from here on, or a row |
| `DbIters.DbIter.FindPrevUserEntry` | src/hyperleveldb/db/db_iter.cc:236-276 | Lands on the last live row at or behind the start with that row's value saved |
| `DbIters.DbIter.ScanBackward` | src/hyperleveldb/db/db_iter.cc:240-264 | The loop holds the newest visible entry of the last key behind the start, if it is a value, and has gone past all entries of that key |
| `DbIters.DbIter.Next` | src/hyperleveldb/db/db_iter.cc:146-175 | From either direction, moves to the smallest visible key above the current one, with its visible value |
| `DbIters.DbIter.Prev` | src/hyperleveldb/db/db_iter.cc:209-234 | From either direction, moves to the largest visible key below the current one |
| `DbIters.DbIter.SkipKeyBackwards` | src/hyperleveldb/db/db_iter.cc:212-230 | A change of direction goes back to the last entry before the current key |
| `DbIters.DbIter.Seek` | src/hyperleveldb/db/db_iter.cc:278-290 | Moves to the smallest visible key at or above the target |
| `DbIters.DbIter.SeekToFirst` | src/hyperleveldb/db/db_iter.cc:292-301 | Moves to the smallest visible key |
| `DbIters.DbIter.SeekToLast` | src/hyperleveldb/db/db_iter.cc:303-308 | Moves to the largest visible key |
| `DbIters.Replay` | src/hyperleveldb/db/db_iter.cc:146-308 | Any run of operations on an iterator that drives a merging iterator, with any changes of direction, is a run of a cursor over the map its snapshot shows |
| `DbIters.MovesUnique` | src/hyperleveldb/db/db_iter.cc:146-308 | The cursor specification fixes the outcome of every operation |
| `DbIters.RowIsRead` | src/hyperleveldb/db/db_iter.cc:177-207 | A row the iterator may stop at is exactly what a read of its key returns |
| `DbIters.NoRowIsAbsent` | src/hyperleveldb/db/db_iter.cc:177-207 | A key without such a row is absent from the snapshot's map |
| `Mergers.MergingIterator.FindSmallest` | src/hyperleveldb/table/merger.cc:155-168 | Chooses the valid child with the smallest entry |
| `Mergers.MergingIterator.FindLargest` | src/hyperleveldb/table/merger.cc:170-183 | Chooses the valid child with the largest entry |
| `Mergers.MergingIterator.AlignForward` | src/hyperleveldb/table/merger.cc:62-78 | After a change to forward every other child stands at its first entry above the current one |
| `Mergers.MergingIterator.AlignBackward` | src/hyperleveldb/table/merger.cc:88-107 | After a change to backward every other child stands at its last entry below the current one |
| `Mergers.MergingIterator.Next` | src/hyperleveldb/table/merger.cc:59-83 | From either direction, moves one place forward in the sorted merge |
| `Mergers.MergingIterator.Prev` | src/hyperleveldb/table/merger.cc:85-112 | From either direction, moves one place backward in the sorted merge |
| `Mergers.MergingIterator.Seek` | src/hyperleveldb/table/merger.cc:51-57 | Moves to the first merged entry at or after the target |
| `Mergers.MergingIterator.SeekToFirst` | src/hyperleveldb/table/merger.cc:35-41 | Moves to the first merged entry |
| `Mergers.MergingIterator.SeekToLast` | src/hyperleveldb/table/merger.cc:43-49 | Moves to the last merged entry |
| `Mergers.MergeExists` | src/hyperleveldb/table/merger.cc:16-25 | Sorted children with distinct entries have a sorted merge |
| `Mergers.MergeUnique` | src/hyperleveldb/table/merger.cc:16-25 | That merge is unique |
| `Mergers.SmallestIsNext` | src/hyperleveldb/table/merger.cc:155-168 | When all children are cut at one point, the smallest of them is the next merged entry |
| `Mergers.LargestIsPrevious` | src/hyperleveldb/table/merger.cc:170-183 | When all children are cut at one point, the largest before it is the previous merged entry |
| `Mergers.Replay` | src/hyperleveldb/table/merger.cc:35-112 | Any run of operations, with any changes of direction, is a run of a cursor over the sorted merge |
| `TwoLevelIters.TwoLevelIterator.InitDataBlock` | src/hyperleveldb/table/two_level_iterator.cc:156-170 | A block is open exactly when the index iterator is valid, and re-opening the same block keeps the position in it |
| `TwoLevelIters.TwoLevelIterator.SkipEmptyDataBlocksForward` | src/hyperleveldb/table/two_level_iterator.cc:125-136 | Skipping exhausted and empty blocks forward does not change the place in the concatenation |
| `TwoLevelIters.TwoLevelIterator.SkipEmptyDataBlocksBackward` | src/hyperleveldb/table/two_level_iterator.cc:138-149 | Skipping exhausted and empty blocks backward lands on the entry just before |
| `TwoLevelIters.TwoLevelIterator.Seek` | src/hyperleveldb/table/two_level_iterator.cc:91-96 | Seeking the index and then the block it names lands on the first entry of the concatenated blocks at or after the target, past empty blocks |
| `TwoLevelIters.SeekInIndex` | src/hyperleveldb/table/two_level_iterator.cc:91-92 | The index seek stops at the first index key not before the target |
| `TwoLevelIters.IndexLands` | src/hyperleveldb/table/two_level_iterator.cc:91-96 | With index keys that separate the blocks, the block the index seek stops at is the first that can hold the target |
| `TwoLevelIters.TwoLevelIterator.SeekToFirst` | src/hyperleveldb/table/two_level_iterator.cc:98-103 | Lands on the first entry of the concatenation |
| `TwoLevelIters.TwoLevelIterator.SeekToLast` | src/hyperleveldb/table/two_level_iterator.cc:105-110 | Lands on the last entry of the concatenation |
| `TwoLevelIters.TwoLevelIterator.Next` | src/hyperleveldb/table/two_level_iterator.cc:112-116 | Moves one place forward in the concatenation |
| `TwoLevelIters.TwoLevelIterator.Prev` | src/hyperleveldb/table/two_level_iterator.cc:118-122 | Moves one place backward in the concatenation |
| `TwoLevelIters.TwoLevelIterator.Shows` | src/hyperleveldb/table/two_level_iterator.cc:34-44 | The key and value offered are those of the concatenation at the cursor's place |
| `TwoLevelIters.Replay` | src/hyperleveldb/table/two_level_iterator.cc:91-122 | Any run of operations, with any changes of direction, is a run of a cursor over the concatenated blocks |
| `SkipLists.SkipList.FindGreaterOrEqual` | src/hyperleveldb/db/skiplist.h:287-307 | Finds, at every level in use, the exact neighbours of the key; returns the first node at or after it |
| `SkipLists.SkipList.FindLessThan` | src/hyperleveldb/db/skiplist.h:310-328 | Returns the last node before the key |
| `SkipLists.SkipList.FindLast` | src/hyperleveldb/db/skiplist.h:331-348 | Returns the last node of the list |
| `SkipLists.SkipList.MakeHint` | src/hyperleveldb/db/skiplist.h:369-378 | A hint made without the lock brackets the key at every level |
| `SkipLists.HintSurvives` | src/hyperleveldb/db/skiplist.h:381-398 | A hint stays valid whatever other writers link meanwhile |
| `SkipLists.SkipList.UpdateHint` | src/hyperleveldb/db/skiplist.h:381-398 | Advancing a stale hint gives exactly what a fresh search would |
| `SkipLists.SkipList.InsertWithHint` | src/hyperleveldb/db/skiplist.h:401-448 | Insertion through a hint of any age adds exactly the one key, in order, at exactly the levels below its height, and moves nothing else |
| `SkipLists.SkipList.Contains` | src/hyperleveldb/db/skiplist.h:451-458 | True if and only if the key is in the list |
| `SkipLists.LinkGrows` | src/hyperleveldb/db/skiplist.h:401-448 | Each single pointer store leaves a well-formed list, with all earlier nodes in place |
| `SkipLists.SearchIsLinearizable` | src/hyperleveldb/db/skiplist.h:287-307 | A search interleaved read by read with any insertions returns the right answer for the list at one moment of the search |
| `SkipLists.ReaderNeverMisses` | src/hyperleveldb/db/skiplist.h:287-307 | A concurrent search finds every key that was present when it began |
| `WriteProtocol.OnlyFrontMoves` | src/hyperleveldb/db/db_impl.cc:1615-1622 | A writer can leave the spin only when it is the oldest unfinished ticket |
| `WriteProtocol.TurnKeepsOrder` | src/hyperleveldb/db/db_impl.cc:1592-1631 | Leaving the spin, publishing and releasing happen to the oldest unfinished ticket only, keep sequence order, and never lower the last sequence |
| `WriteProtocol.StepKeepsOrder` | src/hyperleveldb/db/db_impl.cc:1592-1631 | Every step keeps ticket ranges adjacent and disjoint and turns in sequence order, and the last sequence never goes back while the database is open |
| `Durability.TakeStep` | src/hyperleveldb/db/db_impl.cc:1592-1603 | A new ticket keeps every log accounted for |
| `Durability.ReserveStep` | src/hyperleveldb/db/log_writer.cc:35-59 | Reserving an extent keeps log extents in order, one for each writer, and every logged batch in a table or a named log |
| `Durability.WriteStep` | src/hyperleveldb/db/log_writer.cc:61-129 | Writing one fragment of a reserved extent keeps the same |
| `Durability.FinishStep` | src/hyperleveldb/db/db_impl.cc:1526-1533 | Counting a record as logged once its fragments are written keeps the same, so that every logged batch has its extent whole in its log or is in a table |
| `Durability.FlushCovered` | src/hyperleveldb/db/db_impl.cc:546-575 | If all writers of the immutable memtable finished or failed, recording its table and dropping its log keeps every logged entry in a table or a named log |
| `Durability.DeleteStep` | src/hyperleveldb/db/db_impl.cc:240-298 | Deleting logs the manifest does not name takes nothing that recovery reads |
| `Durability.CrashStep` | src/hyperleveldb/db/db_impl.cc:341-382 | Recovery from any reachable state re-establishes the invariant |
| `Durability.StepKeepsInv` | src/hyperleveldb/db/db_impl.cc:1514-1631 | Every step of writers, flush thread and recovery keeps the protocol invariant |
| `CrashSafety.RunKeepsFull` | src/hyperleveldb/db/db_impl.cc:1514-1631 | The invariant holds in every reachable state, and so does this: tables hold no sequence above the recorded one, and nothing newer than the last open that a writer of a named log wrote |
| `CrashSafety.PublishedMeansWorked` | src/hyperleveldb/db/db_impl.cc:1615-1631 | In every reachable state, a sequence at or below the last sequence belongs to a writer whose log and memtable work is finished or failed |
| `CrashSafety.LoggedIsRecoveredIff` | src/hyperleveldb/db/db_impl.cc:341-382 | After a crash in any reachable state a logged entry is recovered if and only if its log is obsolete or no unwritten fragment of any writer comes at or before one of its fragments in the same block; ProtocolHistory.CrashLeaves tells all that is recovered from the actions |
| `CrashSafety.NothingLoggedIsLost` | src/hyperleveldb/db/db_impl.cc:341-382 | After a crash at any point of any run every logged entry is recovered unless an unwritten extent hides it, no recovered sequence is handed out again, and the invariant holds |
| `CrashSafety.WholeLogsLoseNothing` | src/hyperleveldb/db/db_impl.cc:341-382 | If no named log has an unwritten fragment, every logged entry is durable |
| `CrashSafety.OrderedLogKeepsAcknowledged` | src/hyperleveldb/db/db_impl.cc:1615-1631 | If extents were reserved in ticket order and no earlier writer failed, every acknowledged write is durable |
| `ConcurrentReads.PublishedIff` | src/hyperleveldb/db/db_impl.cc:1615-1631 | The last sequence lies between the published tickets, which are finished or failed, and all others |
| `ConcurrentReads.ReadsSeePublished` | src/hyperleveldb/db/db_impl.cc:1261-1307 | In every reachable state, with any part of unpublished batches already in a memtable, a read at the last sequence of memtables and tables sees exactly what was there at open and the published batches |
| `ConcurrentReads.BatchesAreAtomic` | src/hyperleveldb/db/db_impl.cc:1514-1631 | A batch is among those whole once its writer has published it, and no part of it before that or if its log append failed |
| `ProtocolProgress.FrontGoesOn` | src/hyperleveldb/db/db_impl.cc:1514-1631 | In every state of the protocol the oldest writer that is not done has a step that brings it on |
| `ProtocolProgress.EveryWriterCanFinish` | src/hyperleveldb/db/db_impl.cc:1514-1631 | Every run can go on, by the steps of its writers alone, until all are done and every batch whose log append did not fail is published: no state is a deadlock |
| `ProtocolProgress.EveryRunCanFlush` | src/hyperleveldb/db/db_impl.cc:533-575 | And on, until the immutable memtable is flushed and the next switch can come |
| `ProtocolHistory.HistoryOfRun` | src/hyperleveldb/db/db_impl.cc:1514-1631 | Every state of every run, crashes included, agrees with what its list of actions tells of each writer: its batch, its sequences, its log, how far it is, where its extent lies and which fragments of it are written |
| `ProtocolHistory.ReturnedIffNotShadowed` | src/hyperleveldb/db/log_reader.cc:59-162 | A log's record is readable if and only if no writer of that log left a fragment unwritten at or before one of its own in the same block |
| `ProtocolHistory.SurvivingIsDurable` | src/hyperleveldb/db/db_impl.cc:341-382 | What a state would give back after a crash is what the history says survives |
| `ProtocolHistory.CrashLeaves` | src/hyperleveldb/db/db_impl.cc:341-382 | All that recovery finds after a crash at any moment of any run, told from the actions: what was found at the last open, the batches that went to flushed memtables, and those in a named log that nothing shadows, acknowledged or not |
| `ProtocolHistory.ReadsSeeHistory` | src/hyperleveldb/db/db_impl.cc:1261-1307 | A read at the last sequence, in every reachable state and with any part of unpublished batches in a memtable, sees exactly what was found at open and the batches whose writers the actions took as far as publishing |
| `CrashSafety.OnceDurable` | src/hyperleveldb/db/db_impl.cc:533-575 | What is logged and durable stays so through every step, crashes included |
| `CrashSafety.GuardedTableIsComplete` | src/hyperleveldb/db/db_impl.cc:533-545 | When all writers of the immutable memtable are released, it holds everything they logged |
| `FlushGuards.FlushSafeIff` | src/hyperleveldb/db/db_impl.cc:546-575 | Every continuation after a flush keeps all logged entries in a table or a named log, if and only if each writer of that memtable with a non-empty batch has finished or failed |
| `FlushGuards.UnfinishedLoses` | src/hyperleveldb/db/db_impl.cc:546-575 | For every writer that has not, there is a continuation that loses its batch |
| `FlushGuards.UnguardedFlushLosesBatch` | src/hyperleveldb/db/db_impl.cc:533-545 | Concrete run: a flush that waits only for the memtable loses a batch |
| `FlushGuards.LogNeedNotBeOrdered` | src/hyperleveldb/db/log_writer.cc:35-59 | For any two records that fit in a block: a run that ends with a whole log, both batches logged, the newer entry of one key first |
| `FlushGuards.AcknowledgedWriteLost` | src/hyperleveldb/db/log_reader.cc:220-226 | For any two records that fit in a block: a run in which a write is logged, inserted, published and released, and a crash loses it because an extent before it is unwritten |
| `LogReplay.RecoverLogFile` | src/hyperleveldb/db/db_impl.cc:435-476 | The replay loop makes the tables the replay function describes; ReplayCuts.ReplayCutsIff says which |
| `ReplayCuts.ReplayCutsIff` | src/hyperleveldb/db/db_impl.cc:435-476 | The tables are the result if and only if each is what a run of consecutive records holds, no shorter run from its start fills the buffer, and it does, or the log ends there; what is left over holds nothing |
| `LogReplay.RecoverLogs` | src/hyperleveldb/db/db_impl.cc:368-377 | The loop over the logs makes the tables of each log in turn |
| `LogReplay.LogsKeepEntries` | src/hyperleveldb/db/db_impl.cc:368-377 | Replaying several logs neither loses nor invents an entry |
| `LogReplay.ReplayKeepsEntries` | src/hyperleveldb/db/db_impl.cc:435-476 | Replay neither loses nor invents an entry |
| `LogReplay.OrderedLogGivesOrderedTables` | src/hyperleveldb/db/db_impl.cc:435-476 | A log in sequence order for each key gives tables in age order |
| `LogReplay.OrderedLogsGiveOrderedTables` | src/hyperleveldb/db/db_impl.cc:368-377 | Logs that taken together are in sequence order for each key give tables in age order |
| `LogReplay.ReplayTrustedIffLogOrdered` | src/hyperleveldb/db/db_impl.cc:435-476 | Whatever the buffer limit, replay gives tables in age order for each key, which the invariant needs, if and only if the log is in sequence order for each key; ReplayReadsIff is the condition for reads |
| `LogReplay.LastTableHasLastRecord` | src/hyperleveldb/db/db_impl.cc:435-476 | Whatever the limit, the last table that holds a key takes in the last record that holds it |
| `LogReplay.ReplayReadsIff` | src/hyperleveldb/db/db_impl.cc:368-476 | Whatever the limit, the last table that holds a key holds its newest entry, if and only if for each key the last record of all logs that holds it does |
| `LogReplay.DisorderCanBeHarmless` | src/hyperleveldb/db/db_impl.cc:435-476 | Concrete log out of sequence order that meets the condition for reads |
| `Coding.FixedRoundTrip` | src/hyperleveldb/util/coding.cc:9-45 | Little-endian fixed-width integers decode to what was encoded |
| `Coding.VarintRoundTrip` | src/hyperleveldb/util/coding.cc:81-180 | A varint followed by any bytes decodes to the value and its length, within five or ten bytes |
| `Coding.PutVarint32` | src/hyperleveldb/util/coding.cc:47-79 | The five-branch encoder writes the same bytes as the general one |
| `Coding.PutVarint64` | src/hyperleveldb/util/coding.cc:81-96 | The loop writes the varint of the value |
| `Coding.VarintLength` | src/hyperleveldb/util/coding.cc:103-110 | Counts exactly the bytes the encoder writes |
| `Coding.GetVarint` | src/hyperleveldb/util/coding.cc:131-180 | On arbitrary bytes, decodes or fails as the parser does, with the value truncated to the word width |
| `Coding.PutLengthPrefixed` | src/hyperleveldb/util/coding.cc:98-101 | Appends length and contents, the length truncated to 32 bits |
| `Coding.GetLengthPrefixed` | src/hyperleveldb/util/coding.cc:182-192 | On arbitrary bytes, gives slice and rest or fails as the parser does |
| `Coding.PrefixedRoundTrip` | src/hyperleveldb/util/coding.cc:98-192 | A length-prefixed slice followed by any bytes is read back with the rest untouched |
| `LogFormat.ExtendConcat` | src/hyperleveldb/util/crc32c.h:14-22 | The checksum of a concatenation is the checksum extended piece by piece |
| `LogFormat.UnmaskMask` | src/hyperleveldb/util/crc32c.h:31-40 | Unmasking inverts masking on every 32-bit checksum |
| `LogFormat.Emit` | src/hyperleveldb/db/log_writer.cc:61-107 | The bytes of a record fill exactly the extent reserved for it |
| `LogLayout.RecordLayout` | src/hyperleveldb/db/log_writer.cc:35-129 | In numbers: where each fragment of a record has its header, that all but the last fill their blocks, and which type each has |
| `LogLayout.PayloadsAreData` | src/hyperleveldb/db/log_writer.cc:61-107 | The payloads of the fragments, one after the other, are the record |
| `LogWriters.NextFragment` | src/hyperleveldb/db/log_writer.cc:42-56 | Offset arithmetic gives the block trailer and fragment length of the layout |
| `LogWriters.Writer.Reserve` | src/hyperleveldb/db/log_writer.cc:35-59 | The reservation loop advances the shared offset to the end of the record it will hold |
| `LogWriters.Writer.EmitPhysicalRecordAt` | src/hyperleveldb/db/log_writer.cc:109-129 | Writes header and payload at the given offset |
| `LogWriters.Writer.EmitRecord` | src/hyperleveldb/db/log_writer.cc:61-107 | The fragment loop issues exactly the writes of the record |
| `LogWriters.ExtentsTile` | src/hyperleveldb/db/log_writer.cc:35-59 | Reserved extents follow each other without gap or overlap |
| `LogWriters.RecordFillsExtent` | src/hyperleveldb/db/log_writer.cc:61-107 | A record's writes cover every byte of its extent and no other |
| `LogWriters.PartialLogAgrees` | src/hyperleveldb/db/log_writer.cc:61-107 | Any subset of the writes, in any order and number, leaves bytes that agree with the serial log |
| `LogWriters.AnyInterleavingWritesTheLog` | src/hyperleveldb/db/log_writer.cc:29-107 | Concurrent writers' positioned writes, in any interleaving, make exactly the bytes a single writer would make |
| `LogReaders.Reader.ReadBlock` | src/hyperleveldb/db/log_reader.cc:181-205 | Refilling the block buffer does not change what is read next |
| `LogReaders.Reader.ParseHeader` | src/hyperleveldb/db/log_reader.cc:207-254 | Parses, drops and reports as the position-only parser does |
| `LogReaders.Reader.ReadPhysicalRecord` | src/hyperleveldb/db/log_reader.cc:179-256 | On an arbitrary file the buffered reader refines a parser that knows only a file position, results and reported drops alike |
| `LogReaders.Reader.ReadRecord` | src/hyperleveldb/db/log_reader.cc:59-162 | On an arbitrary file, returns the next logical record, the position after it and the drop reports as the position-only reader does |
| `LogRoundTrip.SealIsAccepted` | src/hyperleveldb/db/log_reader.cc:228-242 | The reader's checksum test accepts what the writer seals, with checksums on or off; LogChecks.ChecksIffStamped says that it accepts nothing else |
| `LogChecks.ChecksIffStamped` | src/hyperleveldb/db/log_reader.cc:228-242 | With checksums on four stored bytes are accepted if and only if they are the little-endian masked checksum of the type byte and the payload |
| `LogChecks.SealIsStamp` | src/hyperleveldb/db/log_writer.cc:109-129 | The four bytes the writer puts in front are that masked checksum |
| `LogChecks.ExtendByte` | src/hyperleveldb/util/crc32c.h:14-22 | The checksum takes in one byte after the other |
| `LogChecks.MaskRotates` | src/hyperleveldb/util/crc32c.h:31-40 | Masking rotates right by 15 bits and adds the constant |
| `LogChecks.ParseTrusts` | src/hyperleveldb/db/log_reader.cc:207-254 | A header is trusted if and only if its length fits the block, it is not the zeros of a preallocated file and its checksum is right; otherwise the rest of the block is dropped and, except for those zeros, reported |
| `LogChecks.FragmentIsSealed` | src/hyperleveldb/db/log_reader.cc:179-256 | On any file a fragment is returned only if it is sealed in the file, and reading goes on right behind it |
| `LogChecks.SealedIsReturned` | src/hyperleveldb/db/log_reader.cc:179-256 | On any file a sealed fragment at the place of a header is returned, whatever comes behind it |
| `LogChecks.DroppedIsReported` | src/hyperleveldb/db/log_reader.cc:179-256 | On any file what is not a sealed fragment is the end of the file, or the rest of a block, dropped and reported in full except where zeros stand for a header |
| `LogChecks.ReadsOnlySealed` | src/hyperleveldb/db/log_reader.cc:59-162 | With checksums on, all that is ever put together into records are fragments sealed in the file |
| `LogAssembly.ReadAllIsAssembly` | src/hyperleveldb/db/log_reader.cc:59-162 | On any file the records returned are exactly the matches of the pattern, a full fragment or a first one, middle ones and a last one, in the stream of fragments, in order |
| `LogAssembly.RecordsAreMatches` | src/hyperleveldb/db/log_reader.cc:59-162 | The same from any position, inside a record or not |
| `LogAssembly.EveryByteCounts` | src/hyperleveldb/db/log_reader.cc:59-162 | On any file the lengths of the records returned and of the drops reported add up to the payloads of all fragments and the blocks dropped |
| `LogRoundTrip.ReadsFragment` | src/hyperleveldb/db/log_reader.cc:179-256 | A written fragment, after its block trailer, is read back with type and payload |
| `LogRoundTrip.ReadsRecord` | src/hyperleveldb/db/log_reader.cc:59-162 | A written record of any size is reassembled from its fragments |
| `LogRoundTrip.StopsInRecord` | src/hyperleveldb/db/log_reader.cc:59-162 | A file cut inside a record yields no part of that record |
| `LogRoundTrip.ReadsLog` | src/hyperleveldb/db/log_reader.cc:59-162 | Reading a written log gives exactly the records written, with no drop reported |
| `LogRoundTrip.ReadsTornLog` | src/hyperleveldb/db/log_reader.cc:59-162 | The special case of a file that is a prefix: reading it gives exactly the records wholly before the cut. CrashImages.CrashReads is the case of any unwritten parts |
| `LogRoundTrip.LogSurvives` | src/hyperleveldb/db/log_writer.cc:29-129 | With the real seal: all records come back from the whole log, and exactly the complete ones from any prefix. CrashImages.CrashReads covers files with unwritten extents |
| `LogRoundTrip.ReadLog` | src/hyperleveldb/db/db_impl.cc:421-476 | The reading loop collects every record the reader yields |
| `LogHoles.RecordClearStep` | src/hyperleveldb/db/log_writer.cc:61-107 | A record is clear of holes if and only if its first fragment is and the rest of it is |
| `LogHoles.LaterHolesDoNotHide` | src/hyperleveldb/db/log_reader.cc:220-226 | Holes behind a record change nothing for it |
| `LogCrashes.AssembledRecord` | src/hyperleveldb/db/log_reader.cc:77-157 | The reader's fragment automaton gives a record back whole if and only if none of its fragments is hidden, and otherwise gives nothing of it |
| `LogCrashes.ReadsHoledLog` | src/hyperleveldb/db/log_reader.cc:59-256 | Reading a log with any set of unwritten fragments gives, in order, exactly the records with no unwritten fragment at or before one of theirs in the same block |
| `CrashImages.NotWholeIsLost` | src/hyperleveldb/db/log_reader.cc:207-254 | A fragment that is not whole, whichever of its writes are missing, makes the reader drop the rest of its block |
| `CrashImages.ImageSettled` | src/hyperleveldb/db/log_writer.cc:109-129 | Whatever subset of the writes reached a file of any length, each header is whole, zero or cut by the end of file, and nothing lies behind the last extent |
| `CrashImages.CrashReads` | src/hyperleveldb/db/log_reader.cc:59-256 | Whatever subset of the positioned writes of any records reached a file of any length, the reader returns exactly the records with no fragment that is not whole at or before one of theirs in the same block |
| `CrashImages.ZerosHideRecord` | src/hyperleveldb/db/log_reader.cc:220-226 | Concrete file: a reserved and unwritten extent before a complete record, in one block, hides the record without a report |
| `RecoveredLogs.RunKeepsTiled` | src/hyperleveldb/db/log_writer.cc:35-59 | In every reachable protocol state the slots of each log are the extents of its records |
| `CrashImages.WrittenIsWhole` | src/hyperleveldb/db/log_writer.cc:109-129 | A fragment both of whose writes are among those that reached a long enough file is whole there |
| `RecoveredLogs.ReaderReturns` | src/hyperleveldb/db/log_reader.cc:59-256 | In every reachable protocol state, from a file with the writes of all fragments the protocol counts as written and any part of the other writes, the reader returns exactly the records the protocol calls readable once the fragments in the file are counted, and these include all it called readable before |
| `BlockFormat.DecodeLengths` | src/hyperleveldb/table/block.cc:53-68 | The one-byte fast path gives the same lengths as three varints |
| `BlockFormat.DecodeEntry` | src/hyperleveldb/table/block.cc:53-74 | Decodes an entry head, or fails when it does not fit before the limit |
| `BlockFormat.HeadRoundTrip` | src/hyperleveldb/table/block_builder.cc:93-96 | An entry head followed by any bytes decodes to its three lengths |
| `BlockFormat.RestartSlot` | src/hyperleveldb/table/block_builder.cc:63-71 | Each restart offset is found in its slot of the restart array |
| `BlockBuilders.BlockBuilder.constructor` | src/hyperleveldb/table/block_builder.cc:39-46 | A new block holds no pairs |
| `BlockBuilders.BlockBuilder.CommonPrefix` | src/hyperleveldb/table/block_builder.cc:79-85 | The shared length is the longest common prefix of the last key and the new one |
| `BlockBuilders.BlockBuilder.Add` | src/hyperleveldb/table/block_builder.cc:73-107 | The bytes encode one more pair, with a restart exactly at the interval and the longest common prefix left out between restarts |
| `BlockBuilders.BlockBuilder.Finish` | src/hyperleveldb/table/block_builder.cc:63-71 | The finished contents hold the pairs, the restart array and its count |
| `BlockBuilders.GrowEncodes` | src/hyperleveldb/table/block_builder.cc:73-107 | Appending one entry with any allowed sharing extends the encoded pairs by one |
| `BlockIters.OpensWell` | src/hyperleveldb/table/block.cc:23-38 | Opening a built block finds its data, restart array and restart count |
| `BlockIters.OpenedIff` | src/hyperleveldb/table/block.cc:23-38 | Any contents open exactly when the last word counts words that are there before it |
| `BlockIters.BlockIter.GetRestartPoint` | src/hyperleveldb/table/block.cc:99-102 | Gives the offset of the restart entry |
| `BlockIters.BlockIter.ParseNextKey` | src/hyperleveldb/table/block.cc:226-253 | Rebuilds the full key and value of the next entry from the shared prefix, and the restart region it lies in |
| `BlockIters.BlockIter.Next` | src/hyperleveldb/table/block.cc:139-142 | Moves one entry forward |
| `BlockIters.BlockIter.Prev` | src/hyperleveldb/table/block.cc:144-163 | Moves one entry backward by going back to a restart point and forward again |
| `BlockIters.BlockIter.FindRegion` | src/hyperleveldb/table/block.cc:165-191 | Binary search over restart points finds a region that starts before the target |
| `BlockIters.BlockIter.Seek` | src/hyperleveldb/table/block.cc:165-203 | Lands on the first entry not before the target |
| `BlockIters.BlockIter.SeekToFirst` | src/hyperleveldb/table/block.cc:205-208 | Lands on the first entry |
| `BlockIters.BlockIter.SeekToLast` | src/hyperleveldb/table/block.cc:210-215 | Lands on the last entry |
| `BlockIters.Scan` | src/hyperleveldb/table/block.cc:139-142 | Scanning a built block yields exactly the pairs added, in order |
| `BlockIters.BytesDeterminePairs` | src/hyperleveldb/table/block.cc:53-74 | A block's bytes encode one sequence of pairs only |
| `Comparators.PositionsAreTheOrder` | src/hyperleveldb/util/comparator.cc:31-33 | Every finite set of keys under a total comparator is ordered as integers are, so keys may be modelled by positions |
| `Comparators.LessIsStrictTotal` | src/hyperleveldb/util/comparator.cc:31-33 | Bytewise order is a strict total order |
| `Comparators.FindShortestSeparator` | src/hyperleveldb/util/comparator.cc:35-57 | The start key, or, where the first differing bytes leave room, the start cut behind that byte and the byte raised by one: a key no longer than the start and strictly between the two |
| `Comparators.FindShortSuccessor` | src/hyperleveldb/util/comparator.cc:59-71 | The key cut behind the first byte that is not 0xff, that byte raised by one: a later key, no longer; the key itself when there is no such byte |
| `Comparators.KeyNum` | src/hyperleveldb/util/comparator.cc:73-87 | The first eight bytes, zero padded, as a big-endian number |
| `Comparators.NumberDecides` | src/hyperleveldb/util/comparator.cc:73-87 | A smaller key number means a smaller key |
| `Comparators.NumberingsAreFaithful` | src/hyperleveldb/util/comparator.cc:18-20 | Both the default and the bytewise numbering never contradict the comparator |
| `Comparators.InternalKeyParts` | src/hyperleveldb/db/dbformat.cc:12-21 | User key and tag are recovered from an internal key |
| `Comparators.InternalOrderIsEntryOrder` | src/hyperleveldb/db/dbformat.cc:50-66 | Byte-level internal-key order is the entry order used by the storage layers |
| `Comparators.KeyBeforeIsInternal` | src/hyperleveldb/db/dbformat.cc:50-66 | Order on parsed internal keys is order on their bytes |
| `Comparators.FindInternalSeparator` | src/hyperleveldb/db/dbformat.cc:68-85 | The start key, or, when the user part gets shorter, the user separator with the first tag of all: a user key strictly between |
| `Comparators.FindInternalSuccessor` | src/hyperleveldb/db/dbformat.cc:87-99 | The key, or, when the user part gets shorter, its successor with the first tag of all |
| `Comparators.NumberedIsInternal` | src/hyperleveldb/db/memtable.cc:41-52 | Comparing key numbers first and bytes second gives the internal-key order |
| `MemTables.MemTable.Compare` | src/hyperleveldb/db/memtable.cc:41-52 | Negative if and only if the first row sorts before the second |
| `MemTables.RowOrder` | src/hyperleveldb/db/memtable.cc:41-52 | Encoded rows sort as their operations do: key ascending, sequence descending |
| `MemTables.LookupOrder` | src/hyperleveldb/db/memtable.cc:140-178 | An encoded row is before a lookup row if and only if its key is smaller or it is newer than the snapshot |
| `MemTables.MemTable.Add` | src/hyperleveldb/db/memtable.cc:101-138 | Adds exactly the one operation and keeps the rows sorted |
| `MemTables.MemTable.Get` | src/hyperleveldb/db/memtable.cc:140-178 | Found, deleted or absent exactly as the newest operation visible at the snapshot says |
| `MemTables.FirstAnswers` | src/hyperleveldb/db/memtable.cc:140-178 | The first row at or after the lookup row decides the answer |
| `WriteBatches.WriteBatch.constructor` | src/hyperleveldb/db/write_batch.cc:29-40 | A new batch is empty with sequence zero |
| `WriteBatches.WriteBatch.SetSequence` | src/hyperleveldb/db/write_batch.cc:94-96 | Changes the sequence and no item |
| `WriteBatches.WriteBatch.Count` | src/hyperleveldb/db/write_batch.cc:82-84 | The stored count is the number of items |
| `WriteBatches.WriteBatch.Put` | src/hyperleveldb/db/write_batch.cc:98-103 | Appends one put and keeps the representation the encoding of its items |
| `WriteBatches.WriteBatch.Delete` | src/hyperleveldb/db/write_batch.cc:105-109 | Appends one deletion and keeps the representation the encoding of its items |
| `WriteBatches.BatchRoundTrip` | src/hyperleveldb/db/write_batch.cc:42-80 | Iterating an encoded batch gives its items and success; its header gives its sequence |
| `WriteBatches.Iterate` | src/hyperleveldb/db/write_batch.cc:42-80 | On arbitrary bytes, gives the items before the first fault and the status the source reports; BatchFaults.IteratedIff says which those are |
| `BatchFaults.ParseVarintIff` | src/hyperleveldb/util/coding.cc:112-161 | The integers the decoder accepts, minimal or not: bytes with the high bit set and one without, within the limit, and their value |
| `BatchFaults.ParsePrefixedIff` | src/hyperleveldb/util/coding.cc:172-194 | A length of at most five bytes, modulo 2^32, and that many bytes |
| `BatchFaults.RecordIff` | src/hyperleveldb/db/write_batch.cc:52-73 | A record is read if and only if it is a 1, a key and a value, or a 0 and a key |
| `BatchFaults.IteratedIff` | src/hyperleveldb/db/write_batch.cc:42-80 | On arbitrary bytes, items and status are the result if and only if the string is the records of those items and then its end, with the count right or wrong, or a place where no record starts, with the status that its first byte gives; or the string is shorter than the header |
| `WriteBatches.InsertInto` | src/hyperleveldb/db/write_batch.cc:111-134 | On arbitrary bytes: each item before the first fault enters the memtable under consecutive sequences from the header, nothing else does, and the status is that of the iteration |
| `WriteBatches.InsertBatch` | src/hyperleveldb/db/write_batch.cc:111-134 | For an encoded batch: success, and every item enters the memtable under consecutive sequences |
| `FilterBlocks.FilterBlockBuilder.StartBlock` | src/hyperleveldb/table/filter_block.cc:22-28 | After it there is one filter per 2 KB of file before the offset, the pending keys going to the first new one |
| `FilterBlocks.FilterBlockBuilder.AddKey` | src/hyperleveldb/table/filter_block.cc:30-34 | The key joins the pending keys |
| `FilterBlocks.FilterBlockBuilder.GenerateFilter` | src/hyperleveldb/table/filter_block.cc:52-76 | The pending keys become one more filter |
| `FilterBlocks.FilterBlockBuilder.Finish` | src/hyperleveldb/table/filter_block.cc:36-50 | The contents hold every filter, the offset array, its position and the base |
| `FilterBlocks.AddedKeyMatches` | src/hyperleveldb/table/filter_block.cc:95-109 | For every policy without false negatives, a key added for a block may always match at that block's offset |
| `FilterBlocks.MatchesIff` | src/hyperleveldb/table/filter_block.cc:95-109 | Of a finished filter block the reader asks exactly the filter of the keys filed for the 2048 bytes that the block starts in; past the last filter everything may match |
| `FilterBlocks.MatchAtIff` | src/hyperleveldb/table/filter_block.cc:95-109 | The reader's offset arithmetic finds the filter that was built for an index |
| `Blooms.AddProbes` | src/hyperleveldb/util/bloom.cc:53-59 | The in-place loop sets exactly the probed bits |
| `Blooms.ProbesSetIff` | src/hyperleveldb/util/bloom.cc:53-59 | The positions that double hashing gives are set, and no other bit changes |
| `Blooms.DeltaRotates` | src/hyperleveldb/util/bloom.cc:54-54 | Bit i of the step is bit i + 17 of the hash, round the end of the word |
| `Blooms.CreateFilter` | src/hyperleveldb/util/bloom.cc:35-61 | The filter has every probe of every key set and ends with the probe count; Blooms.KeysSetIff says that no other bit is set |
| `Blooms.KeysSetIff` | src/hyperleveldb/util/bloom.cc:50-60 | A bit is set if and only if it is a position of one of the keys |
| `Blooms.CheckProbes` | src/hyperleveldb/util/bloom.cc:79-86 | True if and only if all probed bits are set |
| `Blooms.MatchIff` | src/hyperleveldb/util/bloom.cc:63-87 | A key matches a filter if and only if the probe count is reserved or each of its positions is a position of some key that was summarised: the false positives, exactly |
| `Blooms.BloomHasNoFalseNegatives` | src/hyperleveldb/util/bloom.cc:35-87 | For every hash, bits per key and probe count, a key in the list always matches its filter |
| `Tables.NotEarlier` | src/hyperleveldb/table/table.cc:216-245 | No block before the one the index finds holds a visible entry of the key |
| `Tables.LaterMeansLastVisible` | src/hyperleveldb/table/table.cc:216-245 | If a later block holds a visible entry of the key, the found block ends with a newer one |
| `Tables.LandingAnswers` | src/hyperleveldb/table/table.cc:216-245 | The found block holds an entry at least as new as any visible one in the table |
| `Tables.InternalGet` | src/hyperleveldb/table/table.cc:216-245 | One index seek, one filter test and one block seek return the newest visible entry of the whole table, and nothing only when nothing is visible |
| `Tables.GoodSeparator` | src/hyperleveldb/table/table_builder.cc:100-107 | A shortened separator is at or above the finished block and below the next key |
| `Tables.TableBuilder.Append` | src/hyperleveldb/table/table_builder.cc:96-115 | The delayed index entry keeps the index sound for the blocks written so far |
| `Tables.TableBuilder.Add` | src/hyperleveldb/table/table_builder.cc:92-121 | Adds one pair and keeps blocks, index and filters consistent: blocks follow one another in the file and each was closed as soon as it was full, never earlier |
| `Tables.TableBuilder.Flush` | src/hyperleveldb/table/table_builder.cc:123-136 | Closing a block changes no added pair, puts the block at the end of the file and files its keys under its offset |
| `Tables.TableBuilder.Finish` | src/hyperleveldb/table/table_builder.cc:198-238 | The finished table holds exactly the added pairs in order, in blocks that follow one another and were closed when full, the last one apart; its index is sound, and its filter never denies a stored key |
| `Tables.InTableIsAdded` | src/hyperleveldb/table/table_builder.cc:92-121 | A pair is in the table if and only if it was added |
| `Tables.AllMatch` | src/hyperleveldb/table/filter_block.cc:95-109 | Every key of every block may match at its block's offset |
| `VersionEdits.PutField` | src/hyperleveldb/db/version_edit.cc:41-86 | Writes the tag and parts of a field |
| `VersionEdits.FieldsParse` | src/hyperleveldb/db/version_edit.cc:109-199 | Any sequence of well-typed fields parses back to itself |
| `EditCodec.EncodeTo` | src/hyperleveldb/db/version_edit.cc:41-86 | Writes the fields of the edit; EditLayout.EditOnDisk gives the bytes |
| `EditLayout.EditOnDisk` | src/hyperleveldb/db/version_edit.cc:41-86 | The bytes of an edit, with the numbers on disk: which fields, in which order, under which tags and with which parts |
| `EditCodec.VersionEdit.DecodeFrom` | src/hyperleveldb/db/version_edit.cc:109-210 | On arbitrary bytes, clears, applies the fields before the first fault and reports success as the decoder function does; EditFaults.DecodedIff says which fields those are |
| `EditFaults.FieldIff` | src/hyperleveldb/db/version_edit.cc:109-199 | A field is read if and only if a known tag and the parts that it asks for are there: levels below 7, integers modulo their width, prefixed strings |
| `EditFaults.DecodedIff` | src/hyperleveldb/db/version_edit.cc:109-210 | On arbitrary bytes, fields and success are the result if and only if the string is those fields and then its end, or a place where no field begins |
| `EditCodec.SetFields` | src/hyperleveldb/db/version_edit.cc:109-210 | Decoding an encoded edit into any object gives that edit, with the object's old compact pointers in front |
| `EditCodec.EditRoundTrip` | src/hyperleveldb/db/version_edit.cc:26-210 | Decode after encode gives back the edit if and only if the target object had no compact pointers, because Clear does not clear them |
| `VersionBuilders.MaybeAddFile` | src/hyperleveldb/db/version_set.cc:792-805 | Appends the file unless it is deleted, in order |
| `VersionBuilders.SaveLevel` | src/hyperleveldb/db/version_set.cc:744-790 | The merge of base and added files is sorted and holds exactly the files that are not deleted |
| `VersionBuilders.Builder.Apply` | src/hyperleveldb/db/version_set.cc:698-741 | An edit adds its new files to each level, adds its deletions and takes its own new numbers off the deleted ones |
| `VersionBuilders.Builder.SaveTo` | src/hyperleveldb/db/version_set.cc:744-790 | The saved version holds exactly the builder's files at each level, by smallest key and under the same one by number |
| `VersionBuilders.Recover` | src/hyperleveldb/db/version_set.cc:953-1063 | One builder over all edits of a manifest gives the file sets that applying the edits one by one gives; Manifests.Recover gives the counters |
| `Manifests.Recover` | src/hyperleveldb/db/version_set.cc:975-1063 | The loop over the edits fails if and only if no edit sets the next file, the log or the last sequence; otherwise each counter is the last one set |
| `Manifests.LatestIff` | src/hyperleveldb/db/version_set.cc:975-1040 | The last one set: some edit sets it so and no later edit sets it |
| `Manifests.VersionSet.LogAndApply` | src/hyperleveldb/db/version_set.cc:853-871 | Appends one edit with the current next file and last sequence; log numbers change only as the edit says |
| `Manifests.VersionSet.Advance` | src/hyperleveldb/db/version_set.h:196-222 | New file numbers and sequences are handed out and change nothing that was recorded |
| `Manifests.VersionSet.Reopen` | src/hyperleveldb/db/version_set.cc:953-1063 | Reopening after any run succeeds once something was recorded, gives back the running log numbers, the last recorded sequence and one past the last recorded file number |
| `VersionBuilders.ApplyMeansEditIff` | src/hyperleveldb/db/version_set.cc:698-741 | A builder's bookkeeping of one edit means the edit (less the deleted, plus the added files) if and only if the edit brings back no deleted number of another file |
| `VersionBuilders.FreshMeansEdit` | src/hyperleveldb/db/version_set.cc:698-741 | Edits with new file numbers always do, and keep numbers new |
| `VersionBuilders.ApplyOne` | src/hyperleveldb/db/version_set.cc:872-878 | One builder over one edit gives each level less the deleted plus the added files |
| `VersionBuilders.ApplyEach` | src/hyperleveldb/db/version_set.cc:853-951 | One version per edit gives those same sets |
| `VersionBuilders.RecoverIsLive` | src/hyperleveldb/db/version_set.cc:953-1063 | The version recovered from the manifest equals the version the running database had |
| `VersionBuilders.SortedUnique` | src/hyperleveldb/db/version_set.cc:638-651 | A set of files has one sorted listing |
| `VersionBuilders.ReturningNumberRevivesFile` | src/hyperleveldb/db/version_set.cc:738-739 | Two builders run on concrete edits no run produces: a file number that returns to a level in one builder revives the deleted file, in two builders it does not |
| `OverlapInputs.GetOverlappingInputs` | src/hyperleveldb/db/version_set.cc:564-605 | Above level 0, exactly the files that touch the range, in order, for open ranges too |
| `OverlapInputs.GetOverlappingInputsLevel0` | src/hyperleveldb/db/version_set.cc:564-605 | At level 0 the restarting loop ends, and returns the least set that holds all files touching the range or one another's hull |
| `OverlapInputs.ContainedIsClosed` | src/hyperleveldb/db/version_set.cc:590-602 | When no file sticks out of the widened range, the files touching it are a closed set |
| `Picking.GetCompactionBoundaries` | src/hyperleveldb/db/version_set.cc:1336-1382 | The two-pointer sweep gives, for every upper file, exactly the lower files it overlaps |
| `Picking.SliceCovers` | src/hyperleveldb/db/version_set.cc:1439-1460 | For a slice of upper files the sweep's bounds give exactly the lower files that overlap its range |
| `Picking.PrefixSums` | src/hyperleveldb/db/version_set.cc:1354-1360 | Prefix sums of file sizes |
| `Picking.SizeLowerPositive` | src/hyperleveldb/db/version_set.cc:1441-1450 | The divisor of the ratio is never zero |
| `Picking.ScanRow` | src/hyperleveldb/db/version_set.cc:1440-1459 | One row of the search keeps the best slice among all those examined, and cutting the row short skips none under the limit |
| `Picking.FindBest` | src/hyperleveldb/db/version_set.cc:1432-1460 | The search finds the slice of greatest upper-to-lower ratio among all slices under the size limit, the least to move and then the first on a tie, or finds a file that overlaps nothing |
| `Picking.FreeFiles` | src/hyperleveldb/db/version_set.cc:1462-1470 | A trivial move takes exactly the files that overlap nothing below, all of them |
| `Picking.LeastOverlap` | src/hyperleveldb/db/version_set.cc:1496-1513 | The fallback picks the first file with the fewest overlaps |
| `Picking.ChooseUpper` | src/hyperleveldb/db/version_set.cc:1471-1513 | The upper inputs are the first slice of best ratio, and least to move on a tie, under the limit, the whole level below level 4 if the levels weigh against each other no worse than the slice, or the first file with fewest overlaps when every slice is over the limit |
| `Picking.PaysIff` | src/hyperleveldb/db/version_set.cc:1473-1474 | The test in real numbers is the one on whole sizes |
| `Picking.SumSplits` | src/hyperleveldb/db/version_set.cc:1441-1442 | Sizes of slices add up |
| `Picking.GetRange` | src/hyperleveldb/db/version_set.cc:1248-1268 | Smallest and largest user key over the inputs |
| `Picking.SetupOtherInputs` | src/hyperleveldb/db/version_set.cc:1528-1540 | The lower inputs are exactly the files that overlap the range of the upper ones |
| `Picking.PickCompaction` | src/hyperleveldb/db/version_set.cc:1412-1526 | Nothing is picked only for an empty level; a move is picked if and only if some file overlaps nothing below, and takes exactly the files that do; otherwise the upper inputs are chosen by ratio and the lower ones are exactly what they overlap |
| `Picking.PickLevel0` | src/hyperleveldb/db/version_set.cc:1515-1524 | At level 0 the oldest files, at most 32 of them, are picked with everything they overlap below |
| `Picking.RescanFindsTheSlice` | src/hyperleveldb/db/version_set.cc:1528-1540 | The rescan of the lower level finds the very slice the sweep had costed |
| `Picking.MatchedIsPicked` | src/hyperleveldb/db/version_set.cc:1412-1540 | What picking returns is what the store's state machine requires of a compaction's inputs |
| `HandleTables.HandleTable.FindPointer` | src/hyperleveldb/util/cache.cc:98-105 | Finds the slot and place of the key, or the end of its chain |
| `HandleTables.HandleTable.Lookup` | src/hyperleveldb/util/cache.cc:58-60 | Looks up as a finite map does |
| `HandleTables.HandleTable.Insert` | src/hyperleveldb/util/cache.cc:62-76 | Updates as a finite map does, returns the entry it replaced, and keeps at most one entry a bucket on average |
| `HandleTables.HandleTable.Remove` | src/hyperleveldb/util/cache.cc:78-86 | Removes as a finite map does and returns the entry removed |
| `HandleTables.HandleTable.Resize` | src/hyperleveldb/util/cache.cc:107-131 | Rehashing keeps the map, every entry in its slot, and makes room, less than twice as much as is needed |
| `LruCaches.LRUCache.Lookup` | src/hyperleveldb/util/cache.cc:209-218 | A hit moves the entry to the newest place, leaves the order of the others and gives the caller one claim; a miss changes nothing. The list stays in order of last use, told from the history of calls, and a key keeps the entry last inserted for it |
| `LruCaches.WithoutAt` | src/hyperleveldb/util/cache.cc:193-196 | Taking an entry out closes the gap and moves nothing |
| `LruCaches.RecalledHit` | src/hyperleveldb/util/cache.cc:209-218 | A hit keeps the list in order of last use |
| `LruCaches.LRUCache.Release` | src/hyperleveldb/util/cache.cc:220-223 | Gives back one claim; the entry is freed exactly when that was its last reference |
| `LruCaches.LRUCache.Evict` | src/hyperleveldb/util/cache.cc:248-253 | Evicts oldest first until usage fits or nothing is left, and no entry more: before the last eviction the cache was over capacity |
| `LruCaches.LRUCache.Insert` | src/hyperleveldb/util/cache.cc:225-256 | Replaces any entry of the key, adds the new one with its charge as newest with one claim, and evicts only from the oldest end, by last use in the history of calls, and only while over capacity |
| `LruCaches.RecalledInsert` | src/hyperleveldb/util/cache.cc:225-256 | So does an insertion, and the key now has the entry last inserted for it |
| `LruCaches.RecalledEvict` | src/hyperleveldb/util/cache.cc:248-253 | So does an eviction, which takes the entry whose last use is oldest |
| `LruCaches.LRUCache.Erase` | src/hyperleveldb/util/cache.cc:258-265 | The key leaves table and list, the rest stays in order of last use; claimed entries stay until released |
| `LruCaches.UnrefGood` | src/hyperleveldb/util/cache.cc:186-194 | Dropping a claimed reference keeps counts, charges and the freed list exact, so no entry is freed twice or while claimed |
| `LruCaches.EvictedGood` | src/hyperleveldb/util/cache.cc:248-253 | Eviction keeps the accounting and takes the key out of list and table together |
| `LruCaches.TouchedGood` | src/hyperleveldb/util/cache.cc:209-218 | A touch keeps the accounting |
| `LruCaches.InsertedGood` | src/hyperleveldb/util/cache.cc:225-246 | Insertion, with or without replacement, keeps the accounting |
| `LedgerSync.DiffOnRow` | src/ledger/LedgerMaster.cpp:181-201 | The statements of one change affect one row as the row function says |
| `LedgerSync.DiffsOnRow` | src/ledger/LedgerMaster.cpp:176-202 | A batch of changes at distinct indexes touches a row only through the change at its index |
| `LedgerSync.MisalignedStep` | src/ledger/LedgerEntry.cpp:32-45 | For every change that is not aligned there is a row left wrong |
| `LedgerSync.RowAfterDelta` | src/ledger/LedgerMaster.cpp:176-202 | With aligned changes every row ends as the new ledger shows it |
| `LedgerSync.IncrementalEqualsFullIff` | src/ledger/LedgerMaster.cpp:174-204 | Applying the difference of two ledgers to tables that show the old one gives tables that show the new one, and whose rows are exactly the accounts, trust lines and offers of the new one, if and only if every change keeps the entry's type, primary key and the columns an UPDATE leaves alone |
| `LedgerSync.ShowsIffRows` | src/ledger/LedgerEntry.cpp:9-23 | Tables show a ledger if and only if they have a row for each of its accounts, trust lines and offers, with its columns, and no other |
| `LedgerSync.CellFitsIff` | src/ledger/LedgerEntry.cpp:32-45 | The exact contents of one row from which one change leaves what the new ledger shows there |
| `LedgerSync.CatchUpFromAnyTablesIff` | src/ledger/LedgerMaster.cpp:174-204 | From any tables at all, applying the difference of two ledgers shows the new one if and only if each row without a change shows the old ledger and each row with one fits that change |
| `LedgerSync.CatchUpPastPartIff` | src/ledger/LedgerMaster.cpp:174-204 | From tables that show part of a second ledger, applying the difference of a first and a third shows the third if and only if at every index that difference sets right what the tables have there |
| `LedgerSync.CatchUpAfterPartIff` | src/ledger/LedgerMaster.cpp:174-204 | From tables that show part of the new ledger, if and only if no tracked entry of the missing part was in the old ledger |
| `LedgerSync.IdentifiedCatchUp` | src/ledger/LedgerMaster.cpp:174-204 | From tables in step, always, when an index determines type, key and fixed columns |
| `LedgerMasters.LedgerMaster.LoadLastKnown` | src/ledger/LedgerMaster.cpp:123-139 | After start-up the ledger in memory is the one the marker names, if it loads, and none otherwise |
| `LedgerMasters.UpdateFrom` | src/ledger/LedgerMaster.cpp:176-201 | The loop over the differing entries applies them one by one in order |
| `LedgerMasters.LedgerMaster.ImportItems` | src/ledger/LedgerMaster.cpp:227-272 | The import completes with its marker if and only if nothing fails; a failure leaves the marker empty and exactly the rows of the whole batches of 100000 items before it |
| `LedgerMasters.LedgerMaster.ImportLedgerState` | src/ledger/LedgerMaster.cpp:213-282 | On success the rows are exactly the accounts, trust lines and offers of the target, and marker and memory name it; a ledger not found changes nothing; a failure leaves memory alone, the marker empty and the rows of some whole batches; the marker is cleared in a commit of its own before the tables; every committed state is consistent |
| `LedgerMasters.LedgerMaster.CatchUp` | src/ledger/LedgerMaster.cpp:141-211 | Catching up by difference or by full import ends at the target, with exactly its accounts, trust lines and offers as rows; by difference, in one commit, from any tables, the committed state is consistent if and only if the tables fit the difference, which in step means that the changes are aligned |
| `LedgerMasters.ImportShows` | src/ledger/LedgerMaster.cpp:227-272 | Importing every entry into empty tables shows the ledger: a row for each account, trust line and offer and no other |
| `LedgerMasters.StoppedImportShows` | src/ledger/LedgerMaster.cpp:227-272 | An import that stopped after any number of items shows exactly the part of the ledger it reached |
| `LedgerMasters.LaterCatchUpIff` | src/ledger/LedgerMaster.cpp:141-282 | After an import that stopped anywhere, a catch-up by difference to any later ledger commits a consistent state if and only if that difference sets right every index: the exact cases for an entry unchanged, changed, added and removed |
| `LedgerMasters.CatchUpAfterFailedImportIff` | src/ledger/LedgerMaster.cpp:141-282 | After an import that stopped anywhere, the next catch-up by difference commits a consistent state if and only if no tracked entry it had not reached was in the ledger still held in memory |
| `LedgerMasters.StaleLedgerBreaksCatchUp` | src/ledger/LedgerMaster.cpp:274-277 | If an import failed after clearing the tables, catching up by difference commits an inconsistent state as soon as one tracked entry is in both ledgers |

## Left out

- I/O errors, memory mapping, thread start-up, condition variables and sleeping.
- Memory reclamation: arenas and reference counts of versions and memtables.
- The tables behind CRC-32C, Snappy compression, and the bytes of block handles and table footers.
- Corrupted blocks and tables: block and table iterators are modelled on well-formed contents, and the compaction loop on keys that parse.
- Log reading that starts at a non-zero offset inside a block, and the offset of the last record.
- Manual compactions, which take no level locks, and the seek-triggered choice of an input file (version_set.cc line 1492).
- Level scores and the choice of the level to compact. The state machine allows any level.
- A recovery that is interrupted: the tables of one recovery appear in one step.
- Replay iterators, live backup, repair, approximate sizes, benchmarks, C bindings and logging.
- The SQL text, the base58 encoding of keys, SQL failures other than an import that stops, fees, and closing a ledger in normal operation.
- Picking.FindBest: ratios are real numbers, so floating-point rounding is not modelled.
- Comparators.FindShortestSeparator: does not say that the separator is the shortest possible; the source does not guarantee it either.
- Blooms.CreateFilter: the probe count is a parameter, because the source computes it from a floating-point constant.
- LruCaches.LRUCache.Evict: the doubly linked list is a sequence of entry numbers, so pointer surgery is not modelled.
- HandleTables.HandleTable.FindPointer: hash chains are sequences, so the pointer to a link is a slot and a place.
- MemTables.MemTable.Add: the skip list is the sequence it spells; `SkipLists` models the list itself.
- LogWriters.Writer.EmitRecord: the file is the history of positioned writes, not an operating-system file.
- CrashImages.CrashReads: a header whose payload did not reach the file is assumed to fail the checksum; collisions of CRC-32C are not modelled.
