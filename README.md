# MapDB write-ahead log and transactional store, in Dafny

This project models MapDB's write-ahead log (`WriteAheadLog`) and the
transactional store built on it (`StoreWAL`), then proves what their JUnit
suites `WriteAheadLogTest` and `StoreWALTest` assert. It is an abstract
specification of the observable behaviour those suites pin down, not a
transliteration of the implementation classes, whose code is not part of
this model.

- `wrappers.dfy`: `Option` and `Result`.
- `volume.dfy` (module `Volume`): a byte-addressable volume, modelled as a map
  from offset to byte. It holds big-endian longs and ints, with read-back and
  frame lemmas.
- `wal_format.dfy` (module `WalFormat`): the log's entries and their sizes.
  - Segment files hold a header magic at offset 0, a seal long at offset 8 and
    entries from offset 16.
  - Log pointers are `file * 2^48 + offset`.
  - Replay emits a closed set of consumer callbacks, the `Event` datatype.
  - Each file carries a commit checksum chain. It is stated twice, once as the
    replay's check and once as an independent per-commit predicate, and the
    two are proved equivalent.
  - Replay reads files 0, 1, ... up to the first file whose seal long is not
    `WAL_SEAL`: an unsealed file may hold an interrupted write, so neither it
    nor any later file is replayed.
- `write_ahead_log.dfy` (module `WriteAheadLog`): the class `Wal`.
  - Its fields are the segment files, `fileNum`, `walOffset` and the running
    checksum of the current file.
  - Each put, `commit`, `rollback` and `seal` is a method that changes them in
    place.
  - Rolling over to a new file seals the file it leaves. Every file but the
    current one is therefore sealed, and after `seal` a replay reports the
    whole log.
  - `replayWAL` is a loop returning the event sequence.
  - The invariant `Valid` states that every file replays in full and that the
    offset and checksum agree with the entries.
- `wal_sequence.dfy` (module `WalSequence`): the expected-event consumer
  `WALSequence` that the replay tests check against.
- `wal_scenarios.dfy` (module `WalScenarios`): each `WriteAheadLogTest` test,
  stated as a method whose `ensures` is the test's assertion.
- `store_wal.dfy` (module `StoreWal`): the class `Store`. It holds a main
  volume, a committed record table and the log of the open transaction.
  - A mutation goes to the log.
  - A commit seals the log, replays it into the volume and the table and
    resets the log to file 0.
  - A rollback discards the log.
  - An open first adopts a compaction candidate when the seal file says so,
    then recovers the committed part of a leftover log.
- `store_scenarios.dfy` (module `StoreScenarios`): each `StoreWALTest` test
  as a method or lemma.

Parameters stand in for what the model does not compute:

- The volume hash folded by `longHash` is an uninterpreted `Hash` given to the
  log. Only the chaining arithmetic is modelled: Java `int` addition, which
  wraps modulo 2^32.
- Test data is a parameter: random byte arrays and strings, and the values
  built by `composeIndexVal`.
- The file system is modelled by the segment sequence (a `.wal.N` file exists
  when segment N does) and by the image a close hands back.

The replay test in `WriteAheadLogTest.java` at line 76 compares the array it
reads with itself, so the test never checks the payload. `RecordRoundTrip`
states the payload equality that was evidently meant.

## Model

| member | source | states |
|---|---|---|
| Volume.GetData | src/test/java/org/mapdb/StoreWALTest.java:92 | reading `length` bytes at an offset yields exactly the bytes stored there, zero where nothing was written |
| Volume.PutData | src/test/java/org/mapdb/StoreWALTest.java:76 | a write sets exactly the bytes of its range and every byte outside it keeps its value |
| Volume.LongBytes | src/test/java/org/mapdb/StoreWALTest.java:62 | a long encodes to 8 bytes that decode back to the same long |
| Volume.IntBytes | src/test/java/org/mapdb/StoreWALTest.java:306 | an int encodes to 4 bytes that decode back to the same int |
| Volume.PutGetData | src/test/java/org/mapdb/StoreWALTest.java:88-93 | bytes written at an offset read back unchanged |
| Volume.PutDataFrame | src/test/java/org/mapdb/StoreWALTest.java:84-94 | a write leaves every byte range that does not overlap it unchanged |
| Volume.PutGetLong | src/test/java/org/mapdb/StoreWALTest.java:62 | a long written at an offset reads back as the same long |
| Volume.PutGetInt | src/test/java/org/mapdb/WriteAheadLogTest.java:276 | an int written at an offset reads back as the same int |
| WalFormat.AddInt | src/test/java/org/mapdb/WriteAheadLogTest.java:280 | the checksum sum is a 32-bit value congruent to the mathematical sum modulo 2^32 (Java int overflow) |
| WalFormat.EncodePointer | src/test/java/org/mapdb/WriteAheadLogTest.java:40-43 | a pointer decodes to the file and offset it was built from, and a pointer into a file's entry area is never 0 (0 is reserved for null records) |
| WalFormat.EntryAt | src/test/java/org/mapdb/WriteAheadLogTest.java:273-276 | an entry found at an offset is one of the file's entries and lies between the header and the end offset |
| WalFormat.EntryAtAppend | src/test/java/org/mapdb/WriteAheadLogTest.java:273 | an appended entry is found at the old end offset, which advances by the entry's size, and earlier entries stay where they were |
| WalFormat.EventOf | src/test/java/org/mapdb/WriteAheadLogTest.java:62-78 | every entry other than a commit or rollback replays as a data callback |
| WalFormat.ScanStep | src/test/java/org/mapdb/WriteAheadLogTest.java:266-282 | one replay step keeps the start of the checksum range within the entries seen |
| WalFormat.ScanFile | src/test/java/org/mapdb/WriteAheadLogTest.java:266-282 | the replay of a file keeps the start of its checksum range within the file |
| WalFormat.ScanFileAppend | src/test/java/org/mapdb/WriteAheadLogTest.java:277-281 | replaying a file with one more entry is one more replay step |
| WalFormat.ScanStopped | src/test/java/org/mapdb/WriteAheadLogTest.java:266-282 | once a file's replay has stopped at a bad checksum, nothing written after changes its outcome |
| WalFormat.CorruptCommitTruncates | src/test/java/org/mapdb/WriteAheadLogTest.java:276-281 | a commit whose stored checksum does not match stops the replay; that commit and everything after it are dropped |
| WalFormat.LastCommitBefore | src/test/java/org/mapdb/WriteAheadLogTest.java:279-280 | the index found is the last commit before `k`: it holds a commit and no entry between it and `k` does; None exactly when no entry before `k` is a commit |
| WalFormat.ChainFrom | src/test/java/org/mapdb/WriteAheadLogTest.java:274 | a checksum range starts no later than the commit it ends at |
| WalFormat.ScanOkIffChain | src/test/java/org/mapdb/WriteAheadLogTest.java:266-282 | a file replays in full if and only if every commit holds the previous commit's checksum (0 for the first) plus the hash of the entries between them; the replay's running state is then the chain's |
| WalFormat.ChainExtend | src/test/java/org/mapdb/WriteAheadLogTest.java:277-281 | appending an entry keeps every earlier commit's link and adds the new commit's link, in both directions |
| WalFormat.ChainPrefix | src/test/java/org/mapdb/WriteAheadLogTest.java:277-281 | a commit's link depends only on the entries up to it |
| WalFormat.ChainPrefixAt | src/test/java/org/mapdb/WriteAheadLogTest.java:277-281 | the same, for one commit |
| WalFormat.LastCommitPrefix | src/test/java/org/mapdb/WriteAheadLogTest.java:279-280 | the previous commit is found the same way in a file and in its extensions |
| WalFormat.EventsOf | src/test/java/org/mapdb/WriteAheadLogTest.java:240-245 | the reference event list has one event per entry |
| WalFormat.ScanOkEvents | src/test/java/org/mapdb/WriteAheadLogTest.java:240-245 | a file replayed in full reports every entry as its event, in write order |
| WalFormat.FilesOkScan | src/test/java/org/mapdb/WriteAheadLogTest.java:111 | when every file replays in full, the replay of the file set is not truncated |
| WalFormat.ScanFilesAppend | src/test/java/org/mapdb/WriteAheadLogTest.java:314-330 | files replay in ascending order and a truncated file ends the replay |
| WalFormat.FilesOkPrefix | src/test/java/org/mapdb/WriteAheadLogTest.java:314-330 | the first `n` files of a replayable set are replayable |
| WalFormat.ReplayEvents | src/test/java/org/mapdb/WriteAheadLogTest.java:240-245 | a replay starts with `beforeReplayStart` and ends with `beforeDestroyWAL` |
| WalFormat.SealedCount | src/test/java/org/mapdb/WriteAheadLogTest.java:237-238 | the count is exactly the number of files before the first unsealed one: all of those are sealed and the next one is not |
| WalFormat.ScanFilesPrefix | src/test/java/org/mapdb/WriteAheadLogTest.java:314-330 | replaying the first `n` files of a replayable set reports a prefix of what the whole set reports |
| WalFormat.SealCurrentScan | src/test/java/org/mapdb/WriteAheadLogTest.java:237-238 | sealing the current file changes neither the replay nor whether every file replays in full |
| WalFormat.SealedReplay | src/test/java/org/mapdb/WriteAheadLogTest.java:237-245 | when every file is sealed, the replay reports every file's events between the start and destroy callbacks |
| WalFormat.UnsealedIgnored | src/test/java/org/mapdb/WriteAheadLogTest.java:237-245 | an unsealed file ends the replay: the replay of a file set is the same with or without it and every file after it |
| WriteAheadLog.WithEntry | src/test/java/org/mapdb/WriteAheadLogTest.java:271-272 | writing an entry extends only the current file's entries, by that entry |
| WriteAheadLog.FreshWithEntry | src/test/java/org/mapdb/WriteAheadLogTest.java:308-309 | an entry written into a freshly started file makes that file hold just that entry |
| WriteAheadLog.ScanFilesLast | src/test/java/org/mapdb/WriteAheadLogTest.java:314-330 | a replayable set replays as all files but the last, then the last |
| WriteAheadLog.WithEntryOk | src/test/java/org/mapdb/WriteAheadLogTest.java:271-278 | an entry that keeps its file replayable keeps the whole set replayable |
| WriteAheadLog.AppendEntryScan | src/test/java/org/mapdb/WriteAheadLogTest.java:271-281 | after a full replay, a commit with the expected checksum closes the range at itself; any other entry adds its event |
| WriteAheadLog.WithEntryScan | src/test/java/org/mapdb/WriteAheadLogTest.java:271-281 | writing an entry keeps the set replayable and adds exactly the entry's event to the end of the replay |
| WriteAheadLog.CommitLinks | src/test/java/org/mapdb/WriteAheadLogTest.java:274-276 | a commit that keeps its file replayable satisfies the chain link |
| WriteAheadLog.ReadsKeptTrans | src/test/java/org/mapdb/WriteAheadLogTest.java:42-49 | pointers that keep resolving across two writes keep resolving across both |
| WriteAheadLog.WithEntryReads | src/test/java/org/mapdb/WriteAheadLogTest.java:42-49 | writing an entry leaves every resolving pointer resolving to the same payload |
| WriteAheadLog.NewFileReads | src/test/java/org/mapdb/WriteAheadLogTest.java:42-49 | starting a file leaves every resolving pointer resolving to the same payload |
| WriteAheadLog.WithEntryState | src/test/java/org/mapdb/WriteAheadLogTest.java:271-281 | writing an entry keeps the log invariant, advances the offset by its size, moves the running checksum to a commit, and adds the entry's event to the replay |
| WriteAheadLog.Wal.constructor | src/test/java/org/mapdb/WriteAheadLogTest.java:304-307 | an opened log has no file yet and replays nothing |
| WriteAheadLog.Wal.StartNextFile | src/test/java/org/mapdb/WriteAheadLogTest.java:36 | starting a file seals the current one and appends an empty segment with its header magic, putting the offset just past the header; the logged events and every pointer read are unchanged |
| WriteAheadLog.Wal.Reserve | src/test/java/org/mapdb/WriteAheadLogTest.java:323-327 | a new file is started, after sealing the current one, exactly when there is none, the current one is sealed, or the entry would take a non-empty file past MAX_FILE_SIZE; otherwise nothing changes |
| WriteAheadLog.Wal.AppendToCurrent | src/test/java/org/mapdb/WriteAheadLogTest.java:271-273 | the entry is written at the old offset of the current file, the offset advances by its size and the replay gains its event |
| WriteAheadLog.Wal.Put | src/test/java/org/mapdb/WriteAheadLogTest.java:323-327 | a put rolls over when needed, then writes the entry at the returned offset; the replay gains its event and earlier pointers still resolve |
| WriteAheadLog.Wal.WalPutLong | src/test/java/org/mapdb/WriteAheadLogTest.java:236 | a long put replays as `writeLong(offset, value)` after everything logged before |
| WriteAheadLog.Wal.WalPutRecord | src/test/java/org/mapdb/WriteAheadLogTest.java:40-48 | the returned pointer reads the record back (null for a null record, which gets pointer 0) and the replay gains the record's callback |
| WriteAheadLog.Wal.WalPutByteArray | src/test/java/org/mapdb/WriteAheadLogTest.java:325 | a byte-array put replays as `writeByteArray` with the target offset, a non-zero pointer into the current file and the bytes |
| WriteAheadLog.Wal.WalPutTombstone | src/test/java/org/mapdb/WriteAheadLogTest.java:122 | a tombstone put replays as `writeTombstone(recid)` |
| WriteAheadLog.Wal.WalPutPreallocate | src/test/java/org/mapdb/WriteAheadLogTest.java:180 | a preallocate put replays as `writePreallocate(recid)` |
| WriteAheadLog.Wal.Commit | src/test/java/org/mapdb/WriteAheadLogTest.java:272-281 | the commit is the current file's last entry, holds the previous commit's checksum plus the hash of what came after it, and replays as `commit` |
| WriteAheadLog.Wal.WriteCommit | src/test/java/org/mapdb/WriteAheadLogTest.java:274-276 | the commit entry written into the current file satisfies the chain link and advances the offset by 5 |
| WriteAheadLog.Wal.Rollback | src/test/java/org/mapdb/WriteAheadLogTest.java:254 | a rollback keeps the earlier entries and replays as `rollback` after them |
| WriteAheadLog.Wal.Seal | src/test/java/org/mapdb/WriteAheadLogTest.java:49 | sealing sets only the current file's seal long, after which every file is sealed, so a replay reports the whole log (`SealedReplay`); the logged events and every pointer read are unchanged |
| WriteAheadLog.Wal.Reset | src/test/java/org/mapdb/StoreWALTest.java:46-50 | after replay the log shrinks back to one empty file 0, so the next small transaction reuses `.wal.0` |
| WriteAheadLog.Wal.ReplayFile | src/test/java/org/mapdb/WriteAheadLogTest.java:266-282 | the loop over a file's entries computes that file's replay, checking each commit's checksum |
| WriteAheadLog.Wal.ReplayWAL | src/test/java/org/mapdb/WriteAheadLogTest.java:111 | the loop reports what `ReplayEvents` defines, stopping at the first unsealed file; on a sealed log that is `beforeReplayStart`, every logged event in write order, then `beforeDestroyWAL` |
| WalSequence.ExpectedEvents.constructor | src/test/java/org/mapdb/WriteAheadLogTest.java:240-245 | the consumer starts with the given expected callbacks and no mismatch |
| WalSequence.ExpectedEvents.Receive | src/test/java/org/mapdb/WriteAheadLogTest.java:292-293 | a callback matching the next expected one pops it; any other callback, or one with nothing pending, fails |
| WalSequence.ExpectedEvents.ReceiveAll | src/test/java/org/mapdb/WriteAheadLogTest.java:240-245 | a replay fed to the consumer leaves it sound exactly when the replay is a prefix of the expectation, with the rest still pending; it ends with no mismatch and nothing pending exactly when the replay equals the expectation |
| WalScenarios.SealAndReplay | src/test/java/org/mapdb/WriteAheadLogTest.java:49-111 | sealing then replaying reports the logged events between the start and destroy callbacks |
| WalScenarios.PutFirstRecord | src/test/java/org/mapdb/WriteAheadLogTest.java:34-40 | a record put into a started log reads back through its pointer, which is 0 exactly for null, and is the log's only event |
| WalScenarios.RecordRoundTrip | src/test/java/org/mapdb/WriteAheadLogTest.java:15-114 | the record reads back as written; the replay calls `writeRecord` exactly once with that recid; a null record has no volume and id, offset and length 0; any other record has the pointer as id and its bytes as payload |
| WalScenarios.TombstoneReplay | src/test/java/org/mapdb/WriteAheadLogTest.java:117-173 | the replay is exactly start, `writeTombstone(recid)`, destroy |
| WalScenarios.PreallocateReplay | src/test/java/org/mapdb/WriteAheadLogTest.java:175-231 | the replay is exactly start, `writePreallocate(recid)`, destroy |
| WalScenarios.CommitReplay | src/test/java/org/mapdb/WriteAheadLogTest.java:233-246 | a long put with no file started, then commit and seal, replays as exactly start, `writeLong(111, 1111)`, `commit`, destroy |
| WalScenarios.RollbackReplay | src/test/java/org/mapdb/WriteAheadLogTest.java:248-263 | a long then a rollback replays as exactly start, `writeLong(111, 1000)`, `rollback`, destroy |
| WalScenarios.CommitReplayAccepted | src/test/java/org/mapdb/WriteAheadLogTest.java:240-245 | the expected-event consumer accepts the commit replay |
| WalScenarios.RollbackReplayAccepted | src/test/java/org/mapdb/WriteAheadLogTest.java:257-262 | the expected-event consumer accepts the rollback replay |
| WalScenarios.SequencePops | src/test/java/org/mapdb/WriteAheadLogTest.java:285-295 | a consumer expecting commit then rollback, given both, is left with nothing pending |
| WalScenarios.LongInOpenFile | src/test/java/org/mapdb/WriteAheadLogTest.java:271 | a long put into the open file appends it there and advances the offset by 15 |
| WalScenarios.CommitInOpenFile | src/test/java/org/mapdb/WriteAheadLogTest.java:272-273 | a commit in the open file is appended there, satisfies the chain link and takes 5 bytes |
| WalScenarios.LongAndCommit | src/test/java/org/mapdb/WriteAheadLogTest.java:271-276 | after a long and a commit, the commit is found 5 bytes before the new offset and satisfies the chain link |
| WalScenarios.TwoCommitChain | src/test/java/org/mapdb/WriteAheadLogTest.java:274-281 | in a file holding a long, a commit, a long and a commit, the first commit holds the hash of the first long, and the second holds the first checksum plus the hash of the second long |
| WalScenarios.CommitChecksums | src/test/java/org/mapdb/WriteAheadLogTest.java:266-282 | the two commits, found 5 bytes before the end of the file, hold `hash(range)` and `checksum1 + hash(range between)` as Java ints |
| WalScenarios.LazyFileCreate | src/test/java/org/mapdb/WriteAheadLogTest.java:300-312 | no file exists after open and file 0 exists after the first put |
| WalScenarios.PutHundred | src/test/java/org/mapdb/WriteAheadLogTest.java:323-327 | a 100-byte put starts file 1 only when file 0 holds more than MAX_FILE_SIZE - 111 bytes, and otherwise advances the offset |
| WalScenarios.Overflow | src/test/java/org/mapdb/WriteAheadLogTest.java:314-348 | the offset of the last put before file 1 appears lies strictly between MAX_FILE_SIZE - 1000 and MAX_FILE_SIZE + 120, for byte arrays and for records |
| StoreWal.Round16Up | src/test/java/org/mapdb/StoreWALTest.java:76 | the result is a multiple of 16 and the least one not below the input |
| StoreWal.ApplyAllAppendOne | src/test/java/org/mapdb/StoreWALTest.java:61 | applying one more event applies it to the result |
| StoreWal.ApplyAllAppend | src/test/java/org/mapdb/StoreWALTest.java:61 | applying two event lists in turn is applying their concatenation |
| StoreWal.LastRecordOpAppend | src/test/java/org/mapdb/StoreWALTest.java:223-231 | a new mutation of a recid becomes its last one, and other events leave the last one as it was |
| StoreWal.ApplyAllLookup | src/test/java/org/mapdb/StoreWALTest.java:244-246 | after applying events, a recid holds the value of its last write, is missing after a final tombstone, and is unchanged otherwise |
| StoreWal.ApplyAllUntouched | src/test/java/org/mapdb/StoreWALTest.java:84-94 | events whose volume writes miss a byte range leave it unchanged |
| StoreWal.WriteReadsBack | src/test/java/org/mapdb/StoreWALTest.java:57-62 | a volume write applied last reads back as written |
| StoreWal.ReplayWriteIntact | src/test/java/org/mapdb/StoreWALTest.java:67-97 | a long or byte array that no later write overlaps is found at exactly its offset after replay |
| StoreWal.ReplayLongIntact | src/test/java/org/mapdb/StoreWALTest.java:53-65 | a long that no later write overlaps reads back as the long written |
| StoreWal.ReplayFoldAppendOne | src/test/java/org/mapdb/StoreWALTest.java:61 | the replay consumer takes events one at a time |
| StoreWal.ReplayFoldAppend | src/test/java/org/mapdb/StoreWALTest.java:61 | consuming two event lists in turn is consuming their concatenation |
| StoreWal.ReplayFoldData | src/test/java/org/mapdb/StoreWALTest.java:71-77 | mutations are only buffered until their transaction ends |
| StoreWal.RecoverFrame | src/test/java/org/mapdb/StoreWALTest.java:61 | the start and destroy callbacks change nothing that the logged events do not |
| StoreWal.RecoverCommitted | src/test/java/org/mapdb/StoreWALTest.java:57-62 | a replayed committed transaction is applied to the store in log order |
| StoreWal.RecoverRolledBack | src/test/java/org/mapdb/StoreWALTest.java:226-227 | a replayed rolled-back transaction leaves the store unchanged |
| StoreWal.RecoverUnterminated | src/test/java/org/mapdb/StoreWALTest.java:61 | a transaction with no commit, such as one cut off by a crash, is dropped by replay |
| StoreWal.SealAdoptsCandidate | src/test/java/org/mapdb/StoreWALTest.java:163-173 | a seal file holding WAL_SEAL at offset 8 makes the open adopt the compaction candidate |
| StoreWal.SealPlusOneIgnoresCandidate | src/test/java/org/mapdb/StoreWALTest.java:163-173 | a seal file holding WAL_SEAL + 1 makes the open ignore the candidate and keep the main file |
| StoreWal.TxTableEmpty | src/test/java/org/mapdb/StoreWALTest.java:41 | an empty log goes with an empty transaction table |
| StoreWal.TxTableKeep | src/test/java/org/mapdb/StoreWALTest.java:73-76 | logging a volume write keeps the transaction table in step with the log |
| StoreWal.TxTableSet | src/test/java/org/mapdb/StoreWALTest.java:150 | logging a write or delete of one recid moves only that recid's slot, and the table stays in step with the log |
| StoreWal.RecordEvent | src/test/java/org/mapdb/WriteAheadLogTest.java:62-78 | a logged record mutates only its recid, to exactly the data written |
| StoreWal.CommitLog | src/test/java/org/mapdb/StoreWALTest.java:58 | a store commit logs a commit marker, seals the log, replays it with the commit and resets the log to an empty file 0 |
| StoreWal.RecoverDataLog | src/test/java/org/mapdb/StoreWALTest.java:61 | a replayable log holding no commit or rollback leaves the store unchanged, however much of it is sealed |
| StoreWal.UnsealedLogIgnored | src/test/java/org/mapdb/StoreWALTest.java:173-176 | a leftover log whose first file is unsealed leaves the store unchanged at the next open, whatever it holds |
| StoreWal.Store.Create | src/test/java/org/mapdb/StoreWALTest.java:35-38 | a new store has its header written, no records and no log file |
| StoreWal.Store.Open | src/test/java/org/mapdb/StoreWALTest.java:173-176 | opening starts from the candidate when the seal adopts it (the main file otherwise) and recovers the committed part of the leftover log |
| StoreWal.Store.Get | src/test/java/org/mapdb/StoreWALTest.java:176 | a read returns the record as the committed records with the pending transaction applied |
| StoreWal.Store.Update | src/test/java/org/mapdb/StoreWALTest.java:150 | an update is visible to reads in the transaction at once, without touching the store file; the log gains exactly one `writeRecord` for that recid carrying the data, whose application sets just that record |
| StoreWal.Store.Put | src/test/java/org/mapdb/StoreWALTest.java:104 | a put under a fresh recid makes it readable as the data put; the log gains exactly one `writeRecord` for that recid carrying the data |
| StoreWal.Store.Delete | src/test/java/org/mapdb/StoreWALTest.java:124-126 | a delete makes the record unreadable in the transaction, without touching the store file; the log gains exactly `writeTombstone(recid)` |
| StoreWal.Store.WalPutLong | src/test/java/org/mapdb/StoreWALTest.java:57 | a long for the main volume is only logged; no read changes |
| StoreWal.Store.PutDataSingleWithoutLink | src/test/java/org/mapdb/StoreWALTest.java:76 | a byte array for the main volume is only logged, at its target offset; no read changes |
| StoreWal.Store.ApplyOne | src/test/java/org/mapdb/StoreWALTest.java:61 | one replayed mutation is applied to the volume or the records |
| StoreWal.Store.ApplyBuffer | src/test/java/org/mapdb/StoreWALTest.java:58 | the loop applies a committed transaction's mutations in log order |
| StoreWal.Store.ApplyReplay | src/test/java/org/mapdb/StoreWALTest.java:61 | the replay consumer loop computes the recovered store |
| StoreWal.Store.Commit | src/test/java/org/mapdb/StoreWALTest.java:58 | a commit applies the logged transaction to the store file in log order, so the records become what reads saw, and discards the log |
| StoreWal.Store.Rollback | src/test/java/org/mapdb/StoreWALTest.java:226-227 | a rollback discards the log and leaves the store file unchanged |
| StoreWal.Store.ReplayWAL | src/test/java/org/mapdb/StoreWALTest.java:61 | replaying the leftover log drops the uncommitted transaction and leaves the store file as committed |
| StoreWal.Store.Close | src/test/java/org/mapdb/StoreWALTest.java:136 | closing hands back the store file and the log files |
| StoreWal.AppendKeepsData | src/test/java/org/mapdb/StoreWALTest.java:71-77 | a log of data events with one more data event holds only data events |
| StoreScenarios.WalCreated | src/test/java/org/mapdb/StoreWALTest.java:29-51 | no log file exists before the first commit; after the first and the second commit there is exactly one |
| StoreScenarios.ReplayLong | src/test/java/org/mapdb/StoreWALTest.java:53-65 | a long logged, committed and replayed is read back at its offset |
| StoreScenarios.Fill | src/test/java/org/mapdb/StoreWALTest.java:74-75 | nine bytes, each equal to the round number |
| StoreScenarios.MixedReadBack | src/test/java/org/mapdb/StoreWALTest.java:84-94 | after the three rounds are applied, each round's long and nine bytes read back at their own offsets |
| StoreScenarios.LogRound | src/test/java/org/mapdb/StoreWALTest.java:72-76 | one round logs its long at `0xF0000 + 8i`, then its nine bytes at `round16Up(100000) + 64 + 16i` |
| StoreScenarios.LoggedExtend | src/test/java/org/mapdb/StoreWALTest.java:71-77 | earlier rounds stay logged when a round is added |
| StoreScenarios.ReplayMixed | src/test/java/org/mapdb/StoreWALTest.java:67-97 | after three rounds, a commit and a replay, every long and every array is found intact at its own target |
| StoreScenarios.ReadRounds | src/test/java/org/mapdb/StoreWALTest.java:84-94 | the read loop returns each round's long and bytes as written |
| StoreScenarios.EmptyLogRecovers | src/test/java/org/mapdb/StoreWALTest.java:135-136 | a log emptied by a commit replays nothing at the next open |
| StoreScenarios.UpdateCommit | src/test/java/org/mapdb/StoreWALTest.java:150-153 | an update then a commit, on a store whose log is empty, sets exactly that record and leaves the store file's bytes as they were |
| StoreScenarios.CompactSwap | src/test/java/org/mapdb/StoreWALTest.java:128-178 | after the candidate is copied, the record updated and committed, and the seal written: a WAL_SEAL + 1 seal keeps the update and a WAL_SEAL seal reverts it. The seal picks the whole store image (`SealAdoptsCandidate`, `SealPlusOneIgnoresCandidate`), so the one recid read stands for every filled recid the test checks |
| StoreScenarios.CommittedUpdateStep | src/test/java/org/mapdb/StoreWALTest.java:223-232 | a recid was committed in the first i + 1 rounds iff it was in the first i or in round i |
| StoreScenarios.Filled | src/test/java/org/mapdb/StoreWALTest.java:99-109 | the filled records are exactly the recids put |
| StoreScenarios.FillStore | src/test/java/org/mapdb/StoreWALTest.java:99-109 | after the fill, reads see exactly the records put |
| StoreScenarios.UpdateRound | src/test/java/org/mapdb/StoreWALTest.java:224-231 | an update then rollback leaves the records unchanged; an update then commit makes it committed |
| StoreScenarios.UpdateRounds | src/test/java/org/mapdb/StoreWALTest.java:223-232 | after every round, a recid holds the update if some round committed it, and its earlier value otherwise |
| StoreScenarios.CommitsAndRollbacks | src/test/java/org/mapdb/StoreWALTest.java:200-249 | after the fill and the sequential update rounds, every read returns the last committed value |
| StoreScenarios.Headers | src/test/java/org/mapdb/StoreWALTest.java:303-308 | the main volume's int at 0 is the store header and the first log file carries the log header |

## Left out

- Concrete constants. The values of `WAL_HEADER`, `WAL_SEAL`, `StoreWAL.HEADER` and `MAX_FILE_SIZE` are defined in WriteAheadLog.java and StoreWAL.java, whose text this model does not follow. They are named constants with placeholder values; the proofs use only their names and the relations the tests state.
- Byte encoding of entries. A segment holds whole entries, each with a fixed size (long 15, tombstone and preallocate 7, commit 5, record and byte array 11 plus payload, rollback 1). The tag bytes and field widths of the real format are defined in WriteAheadLog.java, whose text this model does not follow.
- Entries straddling files. The model never splits an entry across two files: it rolls over before an entry that would take a non-empty file past MAX_FILE_SIZE. Reassembly of a split record is therefore not modelled.
- Malformed trailing fragments. A bad tag or a short final entry is not modelled, because entries are whole values. The one corruption the model covers is a commit whose checksum does not match (`CorruptCommitTruncates`).
- The hash. `Volume.hash` and `DataIO.longHash` are the uninterpreted `Hash`, applied to the entries of the range and seeded with `fileNum + 1`.
- `composeIndexVal` and the index table. The packed index value is a parameter, the long the tests write. The index table and data area are abstracted to a map from recid to record; recid allocation is a parameter of `Put`.
- Value serialisation (`Serializer.STRING`) and random test data. Records are byte sequences and the data are parameters.
- Threads, locks and timing (`structuralLock`, `commitLock`, the compaction thread, `sleep`, `join`, the `$_TEST_HACK_COMPACT_*` flags). Only the sequential commit/rollback outcome of `compact_tx_works` is modelled, in `CommitsAndRollbacks`.
- Compaction itself (`compact()` copying the live records). The candidate is the copied store image, as `walCompactSwap` makes it by copying the file.
- The `@Ignore`d tests at StoreWALTest.java:116-126 and :251-301, including the record-log file `r0` with its tag `5 << 4` encoding. Their assertions are not active. The `@Ignore`d `compact_file_swap_if_seal` (StoreWALTest.java:111-114) is modelled anyway, as the `seal == true` case of `CompactSwap`.
- Durability: `sync`, `close`, file names and `renameTo`. A file's existence is the presence of its segment, and a close hands back the store image and the log.
- `Issue607Test.java`: listener re-entrancy on the map front-ends, outside the log and the store.
- Sealing with no file: sealing before any file exists changes nothing. What the implementation does there is defined in WriteAheadLog.java, whose text this model does not follow.
- Which file seals on a rollover. The model seals the file it leaves, so that a sealed log replays every file; where the implementation writes that seal is defined in WriteAheadLog.java, whose text this model does not follow.
- `StoreWal.Store.Delete`: models the store's delete as its design describes it: a tombstone is logged and reads of the recid then fail with RecordNotFound. No active test exercises it. The only test named for it, `get_non_existent_after_delete_and_compact` (StoreWALTest.java:124-126), is `@Ignore`d and empty.
- Null record pointers. `WriteAheadLog.Wal.WalPutRecord` hands out pointer 0 for a null record, a value the model chooses; the tests fix only what the replay reports for a null record (no volume, log id 0, offset 0, length 0). `ReadRecord` answers `Ok(None)` for pointer 0 without checking the recid.
- Log pointers are unbounded naturals. The 48-bit offset field decodes back only while an offset is below 2^48, which `EncodePointer` states as a precondition of its round trip. `Wal.Reserve` keeps every entry's start offset at or below MAX_FILE_SIZE, far below 2^48, so every pointer the log hands out decodes to its file and offset.
