# ShardForgeDB: failover, journal and storage engine in Dafny

This project models the parts of ShardForgeDB whose correctness spans many steps, and proves what
they promise over every input, every interleaving and every crash:

- **Controlled failover** (`Node`, `NodeInvariants`, `NodeRuns`, `BatchRuns`, `Failover`, `Completeness`,
  `Witness`, `PrimaryData`).
  One step machine describes a server process and its data directory. Every file save, lock, flag and
  applied entry is a step; a crash can follow any of them; startup rebuilds the role from the files.
  A configured primary and a fresh follower run side by side. The results are: never two writers, a
  promoted node that holds the whole old journal, and the old primary's very data when writes to one key do
  not overtake each other, a fence that survives restarts, and no replicated entry applied during or after
  promotion.
- **Durable journal and replication** (`Journal`, `Replication`). The byte format, replay with torn-tail
  truncation, append with rollback and poisoning, the binary-searched pull against the linear in-memory
  log, and what a follower's data is worth after crashes inside batches, first over a store that loses
  nothing.
- **LSM engine** (`Records`, `Wal`, `Tables`, `MemTable`, `SSTable`, `Bloom`, `Lsm`, `Manifest`, `Engine`,
  `EngineCrash`, `EngineLimits`). The engine object keeps reads equal to one abstract map through flush,
  compaction, bounds and filter skips. A second machine makes every file operation a step, keeps the log
  as bytes and proves recovery after a crash anywhere, behind any byte. `EngineLimits` holds reachable runs
  in which compaction loses an update and a lost write comes alive.
- **A follower on the real engine** (`FollowerEngine`). The two meet: entries are applied as engine writes,
  and convergence holds as long as every restart found a faithful log and no compaction met tables that
  disagree; a run shows what happens otherwise.
- **What the readers accept** (`Integrity`). Journal, write-ahead log, table and filter files are accepted
  exactly when they are made up of well-formed parts with matching checksums, on any bytes.
- **Smaller machines**: the in-process replicated store (`Replica`), consistent hashing and the operator
  tools (`Ring`, `Operations`), the background sync worker (`Worker`).

CRC-32 and FNV-1a are function parameters, so every theorem holds for any checksum and any hash. JSON
and base64 are exact round trips. The crash model is a process crash in which written bytes survive.
`dafny verify dfyconfig.toml` checks everything.

## Where the code does less than its comments or tests suggest

The model follows the code. Each of these is a lemma with a concrete input or run, next to the exact
condition under which the property does hold:

- A journal torn after exactly its four length bytes cannot be opened: `io.ReadFull` answers `io.EOF`
  (`Journal.ReopenAfterTear`, `NodeRuns.PromotedStartAccepted`, `NodeRuns.PrimaryStartAccepted`).
- A failed rollback can leave a whole record that the next start adopts. A quiesce record is stale if
  and only if its sequence was read over one (`Witness.OrphanMakesRecordStale`,
  `NodeRuns.QuiesceStability`, `Completeness.FailoverComplete`).
- Keys and values of 4 GiB and more are cut in the journal (`Journal.LongValueIsLost`,
  `Journal.DurableLog.Append`).
- Two acknowledged writes to one key can reach the engine in one order and the journal in the other: the
  primary then answers with the one, and its followers with the other
  (`PrimaryData.OvertakingWritesDiverge`; `PrimaryData.DataIsTold` says when it cannot happen).
- The gap check `after+1 < first` wraps at MaxUint64 (`Replication.GapMeansBehind`).
- A promoted primary forgets its own quiesce fence on restart (`Witness.PromotedFenceIsForgotten`,
  `NodeRuns.FenceSurvivesRestartIff`).
- The write-ahead log numbers records itself and starts again after a flush. After a restart a buffered
  version can carry a lower number than the table version it overwrites: Get stays right, Scan shows the
  old value, and compaction makes it permanent (`EngineLimits.StaleScan`,
  `EngineLimits.CompactionLosesUpdate`); exactly when is in `Engines.Engine.Scan`,
  `Engines.Engine.Compact`, `Lsm.BufferedSurvivesIff`, `Lsm.NewestSurvivesIff` and `Lsm.StandsIff`.
- Replay leaves a torn tail in place and later writes go behind it. None of them is found as written: they
  are lost or make the log refused, or their bytes complete the torn frame and a write that was lost comes
  alive (`Wal.WriteAfterTear`, `EngineLimits.LostWriteComesAlive`). A follower can so count entries as
  applied that its engine does not have (`FollowerEngine.ReappliedIsLost`). A log that no one wrote to
  behind a tear, and in which no write failed with its whole frame, is always faithful
  (`EngineCrash.TidyIsFaithful`).
- UnmarshalBinary's word count check wraps for bit counts within 63 of 2^64 (`Bloom.UnmarshalBinary`,
  `Bloom.WrappedBlobAccepted`).
- A write the leader refused is replicated once a later one commits, although the comment in
  `internal/replica/store.go` says it never is (`Replica.RefusedWriteReplicates`); and a follower lag of
  zero means one operation per call, not unlimited (`Replica.ZeroLagIsOne`, `Replica.Store.Advance`).
- Two nodes that share a ring hash make ownership depend on the sort (`Ring.OwnerUniqueIff`,
  `Operations.StayingKeysStayIff`, `Operations.CollisionMovesHealthyKey`).
- Doubling the backoff overflows int64 once MaxBackoff reaches 2^62 ns (`Worker.BackoffIdealIff`).

## Model

| member | source | states |
|---|---|---|
| `Failover.SingleWriter` | internal/node/handlers.go:648-979 | In every interleaving of writes, quiesce, sync, promotion, crashes and restarts of a configured primary and a fresh follower, where promotion uses a record this primary showed, no state has both nodes accepting writes |
| `Failover.SysRunInv` | internal/node/server.go:446-522 | Every state of every such run: once a quiesce record was shown the primary stays fenced, the record says the journal's latest sequence, or one less exactly if it was read over a whole unacknowledged record, and any promotion record comes from a shown quiesce record |
| `Failover.AgreedStep` | internal/node/handlers.go:648-830 | No step of a fenced primary changes how a shown record relates to its journal |
| `Failover.PromotionSource` | internal/node/handlers.go:1107-1128 | A promotion record is only ever built from the quiesce record the request carried, and never replaced |
| `Failover.ShownIsAcceptable` | internal/node/handlers.go:685-830 | In every run every quiesce record the primary shows names it and its address, is never at MaxUint64, and is accepted as a promotion request by a follower configured for that address; a promotion record names the primary it came from |
| `Completeness.FailoverComplete` | internal/node/handlers.go:1064-1156 | Over a store that loses nothing, with batches taken from the primary's journal by one applier at a time, for every promoted state: the inherited sequence is the old journal's final one if and only if the quiesce record was not read over a whole unacknowledged record (else it is one short); the new journal continues it contiguously; and until the first client write the data is what was copied, in the first case the fold of the whole old journal |
| `Completeness.FollowerIsPrefix` | internal/node/server.go:642-677 | In the same runs, over a store that loses nothing, an unpromoted follower's cursor <= applied <= high-water mark <= journal length, and at the high-water mark its data is the fold of that prefix |
| `Completeness.CommitFindsAll` | internal/node/handlers.go:1064-1103 | The step that saves the promotion record finds the follower at the inherited sequence, with the fold of the whole old journal as its data, over a store that loses nothing, when the record missed nothing |
| `Completeness.InheritsWholeJournal` | internal/node/handlers.go:1107-1128 | A promotion record names the old primary's final sequence if and only if its quiesce record missed no whole unacknowledged record, and is one short otherwise |
| `Completeness.MissedIff` | internal/node/handlers.go:776-790 | A record missed one if and only if some earlier step of the run read the sequence into it while a whole unacknowledged record lay in the journal file |
| `Completeness.JournalGrows` | internal/node/handlers.go:103-131 | No step of a primary, crash and restart included, loses or renumbers a committed journal entry |
| `Completeness.PulledIsFromJournal` | internal/replnet/durable_log.go:457-489 | Every entry a pull returns is the journal's entry of that sequence number |
| `PrimaryData.DataIsTold` | internal/node/handlers.go:103-156 | In every run of a configured primary in which no write overtakes another on the same key, none bypasses the journal, no append fails and no crash comes in between, the engine holds, key by key, the write still on its way or else what the journal says; with none on its way the data is the fold of the journal |
| `PrimaryData.FailoverKeepsData` | internal/node/handlers.go:1064-1156 | After such a run of the old primary, every promoted node that took no client write yet has exactly the old primary's data |
| `PrimaryData.OvertakingWritesDiverge` | internal/node/handlers.go:103-131 | A run in which two acknowledged writes to one key leave the primary with one value and its journal with the other |
| `BatchRuns.SaveMovesCursor` | internal/replnet/state_store.go:144-203 | The save at the end of a batch writes the last applied sequence to the cursor file when that is behind and saving succeeds, and changes nothing else |
| `BatchRuns.BatchIsApplied` | internal/node/server.go:642-677 | In any run, a thread's batch from its first to its last step, with any steps of other threads and handlers in between but no other engine writes, does to data, lastApplied and cursor file exactly what the batch function says |
| `NodeRuns.ReplicationExcluded` | internal/node/server.go:612-632 | An applied entry or cursor save happens only on an unpromoted follower while promotion does not hold the exclusive lock, so never between the locked re-validation and the role switch |
| `NodeRuns.NoReplicationAfterPromotion` | internal/node/server.go:691-745 | Once a promotion record exists no later step of the run, in that process or any later one, applies a replicated entry, and record and cursor never change |
| `NodeRuns.PromotionStable` | internal/node/handlers.go:914-954 | No step replaces the promotion record or the cursor and baseline under it |
| `NodeRuns.QuiesceStability` | internal/node/handlers.go:685-830 | For a configured primary, once the intent is durable the quiesce ID never changes; a saved record never changes and equals the journal's latest sequence in every later state if and only if no earlier step read it over a whole unacknowledged record; the mismatched-ID start error is unreachable |
| `NodeRuns.SequenceReadIff` | internal/node/handlers.go:776-790 | Whatever step reads the sequence, the record it builds equals the journal's latest sequence in every later state if and only if the journal file held no whole unacknowledged record at that step |
| `NodeRuns.ReadSeqIff` | internal/node/handlers.go:776-790 | The same for the reading step alone |
| `NodeRuns.FencedLatestStill` | internal/node/quiesce.go:20-45 | Behind a closed fence no step changes the journal's latest sequence: a start that adopts an unacknowledged record only moves it into the entries |
| `NodeRuns.OwnRun` | internal/node/handlers.go:712-790 | In every state of every run, restarts included, every intent and every quiesce record, saved, pending or in the making, carries this node's ID and address |
| `NodeRuns.FenceRestored` | internal/node/server.go:463-522 | A start of a configured primary restores exactly the fence its files tell of; with only an intent, the pending record has its ID, this node's ID and address, and the journal's latest sequence |
| `NodeRuns.RecordNotSaved` | internal/node/handlers.go:690-790 | A failed save of the record leaves the node fenced with its files as they were, and a retry can save that very record |
| `NodeRuns.IntentNotSaved` | internal/node/handlers.go:712-765 | A failed save of the intent ends the handler with nothing changed |
| `NodeRuns.MissedIff` | internal/node/handlers.go:776-790 | The history variable of missed records says exactly which steps read over an orphan |
| `NodeRuns.FenceForever` | internal/node/quiesce.go:20-45 | After the gate of a configured primary closes, every later process that runs has it closed and accepts no write |
| `NodeRuns.FenceStable` | internal/node/server.go:446-522 | No single step lifts, renames or rewrites a durable fence or reopens the gate |
| `NodeRuns.FenceSurvivesRestartIff` | internal/node/server.go:374-439 | In any run, a restart of a fenced node as primary refuses writes if and only if there is no promotion record |
| `Witness.PromotedFenceIsForgotten` | internal/node/server.go:374-439 | A run in which a promoted primary is quiesced and restarted, and accepts writes with its quiesce record on disk |
| `Witness.FailoverHappens` | internal/node/handlers.go:848-979 | A run of both nodes in which a write is committed, pulled, applied and its cursor saved, and the follower is promoted with inherited sequence 1 and the fold of the journal, which is the old primary's data |
| `Witness.PostLocks` | internal/node/server.go:612-632 | A posted batch passes barrier, lock, second barrier check and role check of a fresh follower |
| `Witness.PostApplies` | internal/node/server.go:625-633 | It enters the loop from the last applied sequence, and leaves it |
| `Witness.FailedPromotionReverts` | internal/node/handlers.go:914-979 | A promotion that failed before its record was saved is taken back: no lock, no barrier, no mark, files as they were |
| `Witness.StuckPromotionStays` | internal/node/handlers.go:914-979 | One that failed after its record was saved releases the lock and keeps the barrier |
| `Witness.CrashLeavesAnyPart` | internal/replnet/durable_log.go:339-360 | A crash between the engine write and the end of the journal append may leave any part of the record, or all of it |
| `Witness.AppendMayPoison` | internal/replnet/durable_log.go:268-284 | A failed rollback may leave any part too, and the log is then poisoned |
| `NodeRuns.PromotedStartAccepted` | internal/node/server.go:374-439 | Every reachable disk with a promotion record passes all cross-checks and starts as primary numbering on from its inherited sequence, if and only if its journal is not torn at four bytes |
| `NodeRuns.UnpromotedStartsAsFollower` | internal/node/server.go:440-445 | A follower without a promotion record, baseline or not, always restarts as follower at its durable cursor |
| `NodeRuns.PrimaryStartAccepted` | internal/node/server.go:446-522 | A configured primary always restarts with its whole journal, fenced exactly when fence files exist, except after the four-byte tear |
| `NodeInvariants.StepKeeps` | internal/node/server.go:691-745 | Every step of every thread, handler, crash and start keeps the node invariant: lock and barrier exclusion, role and file agreement, journal contiguity, quiesce and promotion files |
| `NodeInvariants.CommitKeeps` | internal/node/handlers.go:1107-1156 | Baseline, promotion record, log open and role switch, each possibly failing, keep the invariant |
| `NodeInvariants.QuiesceKeeps` | internal/node/handlers.go:648-830 | Intent, gate, sequence read, record, retry and intent removal, each possibly failing, keep the invariant |
| `NodeInvariants.PromoteKeeps` | internal/node/handlers.go:848-979 | Barrier, state mark, lock, re-validation, release and revert keep the invariant |
| `NodeInvariants.EffectKeeps` | internal/node/handlers.go:103-168 | Engine writes, ignored journal append errors, applied entries and cursor saves keep the invariant |
| `NodeInvariants.ThreadKeeps` | internal/node/server.go:612-632 | Every lock, flag and barrier check of write, sync and apply threads keeps the invariant |
| `NodeInvariants.StartKeeps` | internal/node/server.go:370-522 | Every start that succeeds re-establishes the invariant |
| `Node.OpenJournalIsReplay` | internal/replnet/durable_log.go:165-253 | The machine's abstract journal file opens exactly as replaying its bytes does, tail by tail |
| `Witness.OrphanMakesRecordStale` | internal/replnet/durable_log.go:268-284 | A run from an empty directory in which an ignored failed rollback leaves a whole record and the saved quiesce record says 0 while the journal holds 1 |
| `Journal.PayloadRoundTrip` | internal/replnet/durable_log.go:384-452 | Decoding an encoded payload gives back the entry |
| `Journal.DecodesIff` | internal/replnet/durable_log.go:420-452 | The decoder accepts exactly the payloads of puts and deletes, with or without bytes behind them |
| `Integrity.JournalOpensIff` | internal/replnet/durable_log.go:165-253 | On any bytes: a journal file opens exactly when it is a row of records with matching lengths and checksums, numbered from the base on, with at most the beginning of one more behind it; index and size are then theirs |
| `Integrity.JournalReadsIff` | internal/replnet/durable_log.go:493-515 | On any bytes: an entry is read from an offset exactly when a record with a matching checksum that decodes to it lies there |
| `Journal.ParseWhole` | internal/replnet/durable_log.go:165-253 | A complete record is found again at any offset of any file and decodes to its entry |
| `Journal.ParseTorn` | internal/replnet/durable_log.go:191-198 | Every strict prefix of a record is a partial tail, except the bare length field, which is an end-of-file error |
| `Journal.Replay` | internal/replnet/durable_log.go:165-253 | The replay loop, on any bytes, computes the specified index and truncation point or refusal |
| `Journal.ReplayThrough` | internal/replnet/durable_log.go:165-253 | Replay walks through any contiguous journal this code wrote, whatever follows it |
| `Journal.ReopenComplete` | internal/replnet/durable_log.go:165-253 | Reopening a complete file rebuilds the same index and size |
| `Journal.ReopenAfterTear` | internal/replnet/durable_log.go:139-253 | With n bytes of one more record on disk, opening succeeds if and only if n != 4, keeping the entry exactly when it is whole and cutting it back otherwise |
| `Journal.OpenDurableLog` | internal/replnet/durable_log.go:72-127 | Any file is refused or opened as replay says; files this code wrote open as a log holding exactly the committed entries |
| `Journal.DurableLog.Append` | internal/replnet/durable_log.go:300-369 | All or nothing: appended with the next sequence exactly when the whole record is written and synced, refused for the first check that fails with nothing changed, rolled back exactly when truncate, seek and sync succeed, or poisoned with exactly the landed bytes left; what is kept is the returned entry if and only if key and value are below 4 GiB each, longer ones are cut to their length modulo 2^32 or panic the encoder |
| `Journal.LongValueIsLost` | internal/replnet/durable_log.go:384-414 | A value of exactly 4 GiB is kept, and read back, as an empty one |
| `Journal.DurableLog.Rollback` | internal/replnet/durable_log.go:268-284 | The log is poisoned exactly when truncate, seek or sync fails; otherwise the file is again exactly the committed entries |
| `Journal.DurableLog.FirstNewer` | internal/replnet/durable_log.go:469-478 | The binary search cuts the index at the first entry newer than the cursor |
| `Journal.DurableLog.EntriesAfter` | internal/replnet/durable_log.go:457-489 | Search plus one file read per entry returns the same batch as the linear filter |
| `Journal.DurableLog.LatestSeq` | internal/replnet/durable_log.go:538-546 | Base plus the number of entries, also for an empty journal |
| `Journal.RecordInPlace` | internal/replnet/durable_log.go:493-515 | The i-th record is read back from its indexed offset |
| `Journal.BatchSlice` | internal/replnet/durable_log.go:457-489 | Where the numbers cross the cursor once, as in a contiguous journal, a batch is the slice that starts at the first newer entry |
| `Journal.BatchIsLimited` | internal/replnet/durable_log.go:457-489 | A batch is the beginning of the newer entries, of the size of a positive limit, or 1000 when none is given |
| `Journal.NewerAre` | internal/replnet/durable_log.go:457-489 | Exactly the entries above the cursor are served |
| `Replication.Log.EntriesAfter` | internal/replnet/log.go:61-83 | The in-memory log's linear loop returns the newer entries in order up to the limit |
| `Replication.ReplicationEntries` | internal/node/server.go:584-602 | A gap is reported exactly on the wrapped comparison, with the first and the latest number, the latest being 0 on a closed log; otherwise the specified batch is returned, or the closed error |
| `Replication.GapMeansBehind` | internal/node/server.go:591-598 | The wrapped comparison means "behind the first entry" if and only if the cursor is not MaxUint64 |
| `Replication.PullThenApply` | internal/node/server.go:642-677 | Without a gap the served batch starts right at cursor+1 and applying it never hits the out-of-order error and advances to its end |
| `Replication.Follower.ApplyReplicationEntriesLocked` | internal/node/server.go:642-677 | The apply loop meets its specification on any batch; the durable cursor never decreases and never passes lastApplied |
| `Replication.AppliesInTurn` | internal/node/server.go:642-662 | On any batch in any order: exactly the entries lastApplied+1, +2, ... are applied, each the first newer one when its turn comes and nothing else; the loop ends early exactly at the first entry newer than all of them, as out of order, unknown or failed exactly when it is a gap, has another operation or is refused by the engine |
| `Replication.OldBatchIsIgnored` | internal/node/server.go:645-647 | A batch with nothing newer than lastApplied changes nothing |
| `Replication.Follower.AdvanceTo` | internal/replnet/state_store.go:144-203 | The cursor moves forward only, and only when saved |
| `Replication.CrashConvergence` | internal/node/server.go:198-200 | Over a store that loses nothing and any run with any number of crashes inside batches: cursor monotone, cursor <= applied <= high-water mark, and back at the mark the data is the fold of that much of the journal |
| `Replication.TracksApply` | internal/node/server.go:642-677 | Re-applying one entry keeps every key that no later applied entry touches at its final value |
| `Replication.TracksCaughtUp` | internal/node/server.go:642-677 | At the high-water mark the data equals the journal fold |
| `Replication.ReapplyIsNotAPrefix` | internal/node/server.go:642-677 | A run whose re-apply state is not the fold of any prefix |
| `FollowerEngine.Converges` | internal/node/server.go:642-677 | A follower whose applied entries are writes of the crashing engine, log bytes included: in every run whose restarts found faithful logs and whose compactions lost nothing, cursor <= applied <= high-water mark <= journal length, and at the mark every Get answers with the fold of that much of the journal |
| `FollowerEngine.CaughtUpAnswers` | internal/node/handlers.go:1064-1103 | In such a run a follower that applied the whole journal, as promotion demands, answers every Get with the fold of the whole journal |
| `FollowerEngine.TidyRestartIsIntact` | internal/wal/wal.go:222-329 | A restart from a log in which nothing went behind a torn frame, and no write failed with its whole frame, keeps the run in that class |
| `FollowerEngine.ReappliedIsLost` | internal/wal/wal.go:323-326 | A run outside it: a crash inside one entry's log frame, the entry applied again, the cursor saved, a restart; the follower then stands at the end of the journal by every count and its engine has nothing of it |
| `FollowerEngine.ReappliedIsRefused` | internal/wal/wal.go:253-264 | With a record limit below the 4883 bytes that the torn header claims, Open refuses that log instead |
| `Records.BodyRoundTrip` | internal/wal/wal.go:357-375 | Decoding an encoded record body gives back the record |
| `Records.DecodesIff` | internal/wal/wal.go:285-310 | The decoder accepts exactly the bodies of records, with or without bytes behind them |
| `Integrity.LogReplaysIff` | internal/wal/wal.go:222-329 | On any bytes: replay returns exactly the records of the row of frames the file begins with, stops cleanly when an unfinished frame follows and reports corruption when anything else does |
| `Wal.FindTorn` | internal/wal/wal.go:240-275 | Every strict prefix of a frame is a clean stop |
| `Wal.ReplayThrough` | internal/wal/wal.go:222-329 | Replay walks through every record Append wrote, whatever follows |
| `Wal.ReplayAfterTear` | internal/wal/wal.go:222-329 | With n bytes of one more frame, for every n, replay returns all earlier records and the last one exactly when it is whole |
| `Wal.CleanWrite` | internal/wal/wal.go:161-205 | Behind a log that ends where its last frame ends, n bytes of one more frame leave a log that replays to the same records, and to that one exactly when the frame is whole |
| `Wal.WriteAfterTear` | internal/wal/wal.go:222-329 | What replay makes of any bytes behind a frame torn after n bytes, parts of frames or whole ones: with no frame to be seen at the tear, it stops there exactly when the header or the claimed body is incomplete and refuses the log otherwise; bytes that complete the torn frame make its record found, and replay goes on behind it; with eight bytes of the header there, anything else that passes matches the checksum of another body |
| `Wal.SecondTearRevives` | internal/wal/wal.go:323-326 | For every checksum: one byte of a second torn frame completes the first, and the record that replay had dropped is found |
| `Wal.WAL.Append` | internal/wal/wal.go:161-205 | The log's own counter numbers the record; success appends exactly its frame, an I/O failure keeps a prefix of it and the number |
| `Wal.WAL.Replay` | internal/wal/wal.go:222-329 | The loop, on any bytes, returns the specified records and raises the counter to their maximum |
| `Tables.Search` | internal/memtable/memtable.go:196-204 | The binary search cuts a sorted run at the first key not below the bound |
| `Tables.RangeIsSlice` | internal/sstable/sstable.go:335-357 | Cutting at start and walking to end is exactly half-open range filtering, empty bounds unbounded |
| `MemTables.MemTable.Upsert` | internal/memtable/memtable.go:250-264 | Map, sorted keys and the uint64 byte count, modulo 2^64, stay in step and the map gains exactly this entry |
| `MemTables.MemTable.Get` | internal/memtable/memtable.go:173-186 | Equals linear lookup of the sorted content |
| `MemTables.MemTable.Scan` | internal/memtable/memtable.go:196-217 | Equals range filtering of the sorted content, strictly ascending |
| `MemTables.MemTable.ShouldFlush` | internal/memtable/memtable.go:240-244 | True exactly when the sum of all entry sizes, modulo 2^64, reaches the threshold |
| `MemTables.SizeIs` | internal/memtable/memtable.go:240-264 | The size of all entries is the length of their keys and values and 64 bytes each |
| `SSTables.ValidateEntries` | internal/sstable/sstable.go:757-785 | Accepts exactly the lists with storable entries in strict key order, though it compares neighbours only |
| `SSTables.WriteTable` | internal/sstable/sstable.go:393-498 | The three passes write header, frames, index and footer with the right offsets, lengths, count and key bounds |
| `SSTables.Load` | internal/sstable/sstable.go:518-680 | The loading loops make exactly the specified checks on any bytes, up to the allocation of the index |
| `Integrity.TableLoadsIff` | internal/sstable/sstable.go:518-680 | On any bytes: a table file is accepted exactly when it is header, records, index block, any gap, and a footer with matching checksum that says where they are, with every index entry inside the records and keys strictly ascending; the index is then the one in the file |
| `SSTables.LoadWritten` | internal/sstable/sstable.go:518-680 | Load accepts every file writeTable produces from validated entries under the same record limit, with the index writeTable meant |
| `SSTables.ReadIndexed` | internal/sstable/sstable.go:688-752 | Every index entry leads back to its record through all of readRecord's checks |
| `Integrity.RecordReadsIff` | internal/sstable/sstable.go:688-752 | On any bytes: a record is read for an index entry exactly when a frame of the indexed length with a matching checksum lies there and carries it under the indexed key |
| `SSTables.Get` | internal/sstable/sstable.go:294-317 | On a written table, equal to linear lookup of the input entries |
| `SSTables.Scan` | internal/sstable/sstable.go:327-357 | On a written table, equal to range filtering of the input entries |
| `Bloom.OrBitTests` | internal/bloom/bloom.go:226-229 | Setting one bit of a word sets that bit and keeps every other |
| `Bloom.BloomFilter.Add` | internal/bloom/bloom.go:216-234 | Afterwards exactly the bits of all keys ever added are set, under wrapping uint64 hash arithmetic |
| `Bloom.BloomFilter.MightContain` | internal/bloom/bloom.go:240-257 | True exactly when all of the key's bits are set, so true for every added key |
| `Bloom.AddedAreMembers` | internal/bloom/bloom.go:240-257 | No false negatives, for any set of added keys |
| `Bloom.OrderIrrelevant` | internal/bloom/bloom.go:216-234 | Filters of one shape given the same keys in any order answer alike |
| `Bloom.MarshalRoundTrip` | internal/bloom/bloom.go:282-442 | Unmarshalling the marshalled form of anything New and Add built gives an equal filter |
| `Bloom.BloomFilter.MarshalBinary` | internal/bloom/bloom.go:282-333 | The writing loop produces the specified blob |
| `Bloom.UnmarshalBinary` | internal/bloom/bloom.go:352-442 | Any blob is accepted or refused as specified; an accepted filter is well formed if and only if its bit count does not wrap the word computation |
| `Integrity.FilterLoadsIff` | internal/bloom/bloom.go:352-442 | On any bytes: a blob is accepted exactly when it is what MarshalBinary writes for a filter with possible parameters and the word count that uint64 arithmetic asks for |
| `Bloom.WrappedBlobAccepted` | internal/bloom/bloom.go:393-398 | The blob of a filter with bit count 2^64-1 and no words is accepted, and is not well formed |
| `Lsm.SkipIsSafe` | internal/engine/engine.go:556-574 | A table skipped by its bounds or its filter does not hold the key |
| `Lsm.BoundsIff` | internal/engine/engine.go:556-574 | The bounds of a sound table skip it exactly when all its keys are greater than the one looked for, or all are smaller |
| `Lsm.MergeRunsAt` | internal/engine/engine.go:893-907 | The merge keeps, for every key, the highest sequence number with ties to the version met first |
| `Lsm.MergeIsFind` | internal/engine/engine.go:616-645 | In an age-ordered state the merged version of every key is the one a read by position finds |
| `Lsm.SurvivorIs` | internal/engine/engine.go:616-645 | The merge's survivor without recursion: the table version that outranks the buffered one and every older one and is outranked by no newer one, or else the buffered one |
| `Lsm.MergeShowsReadIff` | internal/engine/engine.go:616-645 | Merging shows of a key what reading by position shows if and only if no table version that prevails over the buffered one shows something else |
| `Lsm.BufferedSurvivesIff` | internal/engine/engine.go:616-645 | A buffered version survives if and only if no table holds a higher number for the key |
| `Lsm.NewestSurvivesIff` | internal/engine/engine.go:893-907 | The newest table version survives if and only if no older table holds a higher number and the oldest with the same number holds the same record |
| `Lsm.StandsIff` | internal/engine/engine.go:616-645 | A merge keeps the version of a key that a read finds if and only if the sequence numbers alone say so: none above a buffered one, or else none above the newest table's among the older tables and no earlier record of the same number that differs |
| `Lsm.FlushKeepsReads` | internal/engine/engine.go:681-802 | Moving the buffer into a new table changes no read |
| `Lsm.FlushKeepsAge` | internal/engine/engine.go:681-802 | Flush preserves age order and the sequence bound |
| `Lsm.CompactKeepsReadIff` | internal/engine/engine.go:877-927 | A full compaction keeps what a read of a key shows if and only if the key is buffered or the tables agree on it; dropping tombstones is never visible |
| `Lsm.CompactKeepsReads` | internal/engine/engine.go:877-927 | Over aged tables it changes no read |
| `Lsm.CompactKeepsAge` | internal/engine/engine.go:877-927 | Compaction preserves age order and the sequence bound |
| `Lsm.PutKeepsAge` | internal/engine/engine.go:451-484 | A write numbered at the counter preserves age order and the bound |
| `Lsm.ListingUnique` | internal/engine/engine.go:925-927 | A sorted listing is determined by its lookups, so Go's map iteration order cannot show |
| `Manifests.ValidateTableEntries` | internal/engine/manifest.go:104-152 | The loop with its seen-set accepts exactly rows with non-zero IDs and counts, non-empty local paths, decodable and ordered keys, and pairwise distinct IDs |
| `Manifests.LoadManifest` | internal/engine/manifest.go:63-91 | A missing file is a new manifest; otherwise it loads exactly when the version is 1, the counters are non-zero and the rows acceptable, with every row decoded |
| `Manifests.OwnManifestLoads` | internal/engine/manifest.go:104-168 | The engine writes a manifest it would refuse to load only when its uint64 counter has wrapped to zero, and loads back the counters and rows it wrote |
| `Engines.Engine.Put` | internal/engine/engine.go:451-484 | Success is exactly characterised, updates the abstract map at the key and numbers the version from the counter, failure changes nothing; age order is kept until the counter wraps |
| `Engines.Engine.Delete` | internal/engine/engine.go:493-524 | Success removes the key from the abstract map, failure changes nothing |
| `Engines.Engine.Get` | internal/engine/engine.go:533-592 | Returns exactly the abstract map's value despite bounds and filter skips |
| `Engines.SearchTables` | internal/engine/engine.go:556-591 | The newest-to-oldest loop with its skips equals the plain search of all tables |
| `Engines.Engine.Scan` | internal/engine/engine.go:601-662 | Strictly ascending; always the merge's survivors in the range; shows of a key what Get returns if and only if buffer and tables agree on it, and lists the very version Get finds if and only if the sequence numbers stand; in an age-ordered state exactly the pairs Get returns for the keys of the half-open range |
| `Engines.Engine.Flush` | internal/engine/engine.go:681-820 | Reads and age order are kept whatever step fails; it fails exactly when a step up to the manifest save fails, a buffered entry is beyond the table's record limit or no filter can be built, and then changes nothing; otherwise the table stands, and a log that cannot be reopened closes the engine |
| `Engines.Engine.Compact` | internal/engine/engine.go:877-1087 | A success keeps the abstract map if and only if the tables agree on every key that is not buffered, as aged tables do, and keeps the very version a read finds if and only if the sequence numbers stand; it fails exactly when the manifest save fails or there are survivors and their table cannot be built, and then changes nothing; success leaves at most one table holding exactly the live survivors |
| `Engines.SortLive` | internal/engine/engine.go:911-927 | Collecting in any map order and sorting lists exactly the live entries in key order |
| `Engines.BuildBloom` | internal/engine/engine.go:721-733 | The filter has exactly the bits of the new table's keys, tombstones included, in the shape asked for within the clamps, and is refused exactly when that is too large |
| `Engines.Open` | internal/engine/engine.go:401-443 | Opens exactly when the log replays and every record is acceptable; the buffer is the log's last record per key and the counter is above manifest and log |
| `Engines.ResumesAtLeast` | internal/engine/engine.go:401-443 | The counter resumes at the least positive number that the manifest allows and that is above every log record, unless the log has reached MaxUint64 |
| `EngineCrash.OverlapReads` | internal/engine/engine.go:401-443 | A buffer holding any suffix of the history that reaches back past what the tables show gives every key its latest value |
| `EngineCrash.StepKeeps` | internal/engine/engine.go:681-820 | Every file operation of write, flush and compaction, every abort, log write that fails after any number of bytes, crash after any number of bytes, restart from whatever replay finds in the log's bytes and refused restart keeps the invariant: the listed tables are sound and show the history up to a mark, the log's range reaches back to it, and the buffer holds all that the open tables do not show |
| `EngineCrash.CommittedShow` | internal/engine/manifest.go:155-198 | The manifest save is the commit point: the new table list shows everything a flush covered, or what tables that agree showed before a compaction |
| `EngineCrash.AnswersHistory` | internal/engine/engine.go:533-592 | In every state of every run, over any number of crashes, failed writes and restarts, Get answers with the last operation of the history as long as no compaction met tables that disagree; what the history is after a restart says HistoryStep |
| `EngineCrash.OrderlyIsLossless` | internal/engine/engine.go:401-443 | Until a restart replays a non-empty log over existing tables, age order holds and no compaction loses anything |
| `EngineCrash.CrashRecovery` | internal/engine/engine.go:320-443 | A crash at any step of any such run, after any byte of a log frame, then Open: if replay of the log's bytes gives the operations the log was there for, as it does for every tidy log, every key answers as before, except that the write in flight may have taken effect, and has if its frame was whole; if not, every key answers with the last record replay found for it, over the tables |
| `EngineCrash.HistoryStep` | internal/wal/wal.go:188-201 | Only an append or a crash behind a whole frame adds to the history; only a restart from an unfaithful log rewrites it, to what the tables show followed by what replay found; a log stops being tidy exactly when a byte goes behind part of a frame or a write fails with its whole frame there |
| `EngineCrash.TidyIsFaithful` | internal/wal/wal.go:222-329 | In every run a tidy log replays to exactly the operations it is there for, and Open accepts it |
| `EngineCrash.TidyRestarts` | internal/engine/engine.go:401-443 | After every crash that leaves a tidy log a restart is possible and rewrites nothing |
| `EngineCrash.FailedWholeIsFound` | internal/wal/wal.go:188-201 | A write that fails with its whole frame in a clean log is found by the next replay, though it was refused |
| `EngineCrash.AppendOutcomes` | internal/wal/wal.go:161-205 | A log append may succeed, or fail after any number of bytes, none and all included; either way the log counter has moved on, and a failure gives the engine number back |
| `EngineCrash.RefusalLeavesNothing` | internal/engine/engine.go:462-476 | A record that is refused changes no file, and its number is given back |
| `EngineCrash.AbortLeavesNothing` | internal/engine/engine.go:681-802 | An aborted flush or compaction changes neither manifest, log, reads nor any other table file, and leaves at most files that no manifest lists |
| `EngineCrash.BeginsWithWork` | internal/engine/engine.go:838-890 | Only a buffer with entries is flushed and only two tables or more are compacted |
| `EngineCrash.CrashOutcomes` | internal/wal/wal.go:188-201 | A crash can come at any moment, and inside a log append after any number of bytes; the record has taken effect exactly when all of them are there |
| `EngineCrash.TableOutcome` | internal/engine/engine.go:681-802 | A filter that admits all keys completes a new table of any size, with its first and last key as bounds, behind the tables there are for a flush and instead of them for a compaction |
| `EngineCrash.CleanRemoves` | internal/engine/engine.go:1050-1087 | Cleaning up removes both files of a table the manifest does not list, and never one it lists |
| `EngineLimits.StaleScan` | internal/engine/engine.go:804-817 | A reachable state after flush, put and restart in which Get gives the new value and Scan's merge the overwritten one |
| `EngineLimits.CompactionLosesUpdate` | internal/engine/engine.go:893-907 | A reachable state in which Get gives the acknowledged update and a compaction after which it gives the old value |
| `EngineLimits.LostWriteComesAlive` | internal/wal/wal.go:323-326 | A run with two crashes inside log frames: after the first restart Get does not know the first write, after the second it answers with it |
| `EngineLimits.OpenReadsBytes` | internal/engine/engine.go:359-400 | The tables and filters on the machine's disk are what Open reads from the bytes of their files; the log is bytes in the machine itself |
| `Replica.OperationsAfter` | internal/replica/log.go:276-297 | The limited linear filter of a numbered log is a slice starting after the index |
| `Replica.Store.Write` | internal/replica/store.go:191-269 | Log, leader, COMMIT in order, stopping or dying at any of them: what was logged, what reached the leader, and that the commit index and the leader's applied index move only on full success |
| `Replica.Store.Reopen` | internal/replica/store.go:138-183 | After a crash commit and applied indexes come from their files, which may lag behind what was applied, and the convergence invariant still holds |
| `Replica.Store.Advance` | internal/replica/store.go:390-410 | One follower's turn applies, or applies again, exactly its limit of operations in order (one by default) or what is left to the commit index, and fewer only on an engine failure; its APPLIED file names the last operation whose save was not lost |
| `Replica.Store.ReplicateOnce` | internal/replica/store.go:379-412 | The count returned is exactly the drop in total lag of unpaused followers, and zero only when that lag is zero |
| `Replica.Store.ReplicateAll` | internal/replica/store.go:419-434 | Terminates by that lag, succeeds on an open store whose engines do not fail, and leaves every unpaused follower with the fold of the whole committed log, equal to the leader when every write completed, under any pause and lag settings and after any crashes and re-applications |
| `Replica.Store.SetFollowerPaused` | internal/replica/store.go:453-466 | Changes exactly one follower's setting, never the leader's |
| `Replica.ZeroLagIsOne` | internal/replica/store.go:469-484 | With a lag of zero or below, documented as unlimited, a turn over two pending operations applies one |
| `Replica.Converges` | internal/replica/store.go:191-233 | When every leader write completed, a caught-up follower equals the leader |
| `Replica.SameRecordIff` | internal/replica/store.go:205-231 | Leader and caught-up follower show the effect of the same log record on a key if and only if the last record on it that was committed or reached the leader did both |
| `Replica.CompletedAgrees` | internal/replica/store.go:205-231 | On such a key follower and leader hold the same value, whatever failed before |
| `Replica.RefusedWriteReplicates` | internal/replica/store.go:205-231 | A write refused by the leader reaches followers once a later write commits |
| `Ring.ValidateNodes` | internal/gateway/ring.go:33-52 | Accepts exactly non-empty node lists with non-empty, pairwise distinct IDs and URLs |
| `Ring.NewHashRing` | internal/gateway/ring.go:54-79 | The ring is a sorted permutation of all weighted virtual points |
| `Ring.PointIff` | internal/gateway/ring.go:55-65 | The points are exactly those of each node's own numbers from 0 up, whatever other nodes there are |
| `Ring.WeightedPoints` | internal/gateway/ring.go:21-24 | A node has virtual nodes times weight points, where zero and below mean 128 and 1 |
| `Ring.NodeForKey` | internal/gateway/ring.go:83-98 | Binary search with wrap-around finds a point at least clockwise distance |
| `Ring.OwnerUniqueIff` | internal/gateway/ring.go:67-70 | Every key has one owner, whatever the unstable sort does, if and only if no two nodes share a hash |
| `Ring.CollisionIsAmbiguous` | internal/gateway/ring.go:67-70 | Two nodes sharing a hash admit two sorted rings with different owners |
| `Operations.MinimalMovement` | internal/ops/rebalance.go:53-102 | With no collision among the nodes that stay, removing and adding nodes moves a key only off a removed node or onto an added one, and moves every key of a removed node that is not added back |
| `Operations.StayingKeysStayIff` | internal/ops/simulate.go:156-184 | A key of a node that stays keeps it, whatever the sorts do, if and only if no two nodes that stay share a hash |
| `Operations.PlanManualRebalance` | internal/ops/rebalance.go:33-130 | A plan exactly when the arguments and both node lists are valid, each error exactly as specified; one movement per key, from an owner among the current nodes to an owner among the planned ones; moved plus stable is the total; without collisions among the nodes that stay every movement is minimal |
| `Operations.SimulateFailure` | internal/ops/simulate.go:99-208 | A simulation exactly when the arguments are valid; each key is told of once, in order, as affected or unaffected: its original node is an owner among all nodes, its new node one among the healthy ones, affected exactly when unroutable, down or re-routed; without collisions among the healthy nodes MovedKeys is 0 and the affected keys are those of down nodes or unroutable ones |
| `Operations.DownKeyIsAffected` | internal/ops/simulate.go:140-184 | A sample key all of whose owners are down is on the affected list |
| `Operations.EachOnce` | internal/ops/simulate.go:140-184 | Affected and unaffected keys together are the sample keys, with repetitions |
| `Operations.CountIfIs` | internal/ops/simulate.go:186-195 | The summary counts are the numbers of affected keys that move and that cannot be routed |
| `Operations.CountMovedIs` | internal/ops/rebalance.go:77-101 | The moved count of a plan is the number of its movements that are marked |
| `Operations.CollisionMovesHealthyKey` | internal/ops/simulate.go:156-184 | With a collision a key of a healthy node can be re-routed |
| `Worker.SyncWorker.DoSync` | internal/node/background_sync.go:237-364 | Counters, backoff, lag and blocked state after any outcome |
| `Worker.SyncWorker.Run` | internal/node/background_sync.go:172-232 | Over any outcomes: attempts = successes + failures between syncs, no attempt after a gap, backoff the closed form of the failure streak |
| `Worker.AttemptsBalance` | internal/node/background_sync.go:237-364 | Attempts balance after any outcome sequence, and the backoff streak never exceeds ConsecutiveFailures |
| `Worker.CountsAre` | internal/node/background_sync.go:237-364 | Successes, failures, skips, consecutive failures and the backoff streak are the numbers of the outcomes of that kind |
| `Worker.BackoffIdealIff` | internal/node/background_sync.go:318-326 | The backoff is min(Initial * 2^(n-1), Max) after n failures since the last success or busy skip, in every run, if and only if MaxBackoff < 2^62 ns |

## Left out

- SSTables.WriteTable: requires that all offsets of the file stay below 2^63, as the operating system does.
- Completeness.FailoverComplete: assumes one applier at a time, where sync and posted batches share a lock in the code and may overlap, and a store that loses nothing, the condition of the next lines.
- Completeness.FollowerIsPrefix: the store loses nothing in this machine. Over the engine this needs that no process writes over a torn engine log, no engine write fails with its whole frame and no compaction meets tables that disagree (`FollowerEngine.Converges`); `FollowerEngine.ReappliedIsLost` is a run without it.
- Completeness.CommitFindsAll: the same condition on the follower's engine (`FollowerEngine.CaughtUpAnswers`).
- Replication.CrashConvergence: the same condition on the follower's engine (`FollowerEngine.Converges`).
- Replica.Store.ReplicateAll: the same condition on every replica's engine, which is an exact map here.
- Wal.WriteAfterTear: when a body at the tear matches a checksum that is not its own, what replay finds next depends on the checksum function and is not said.
- SSTables.Load: a forged footer whose entry count is too large to allocate makes the code panic before the index is read; the model refuses that file.
- PrimaryData.DataIsTold: says nothing of a run in which an append fails or is bypassed, where the journal misses the write for good.
- The address a node listens on is the same in every process; a quiesce record keeps the one it was made with.
- Engines.Engine.Put: does not promise age order after the uint64 sequence counter wraps.
- Replica.Store.Write: the log file's bytes are not modelled; a crash inside a log append leaves a file that Open refuses.
- Operations.PlanManualRebalance: cluster configuration checks beyond IDs and URLs are not modelled.
- The failover machine admits only writes whose journal record fits a uint32, and takes the engine as an exact durable map, one step per write; flush and compaction are steps of `EngineCrash` only.
- Power loss and fsync ordering: written bytes survive a crash.
- HTTP, JSON, base64, checksums of the record files, random IDs and timestamps: records are exact values and IDs are arbitrary.
- The write handlers' role check and gate fast path are one step; the background worker's start and stop are not steps.
- Close paths, orphan file cleanup errors and statistics.
- Bloom sizing formulas: any bit and hash count they may produce.
- The explain, trace, vector, shard, cluster, configuration, logging, proxy and command line packages: easy members or presentation.
