/** The log's documented behaviours, each played on a fresh log. */
module WalScenarios {
  import opened Wrappers
  import opened Volume
  import opened WalFormat
  import opened WriteAheadLog
  import opened WalSequence

  /** Seals the current file, then replays the whole log. */
  method SealAndReplay(wal: Wal) returns (events: seq<Event>)
    requires wal.Valid()
    modifies wal
    ensures events == [BeforeReplayStart] + old(wal.LogEvents()) + [BeforeDestroyWAL]
  {
    wal.Seal();
    events := wal.ReplayWAL();
  }

  /** Opens a log, starts its first file and puts one record into it. */
  method PutFirstRecord(hash: Hash, recid: nat, data: Option<seq<Byte>>) returns (wal: Wal, pointer: nat)
    ensures fresh(wal) && wal.Valid() && wal.hash == hash
    ensures wal.GetRecord(pointer, recid) == Ok(data)
    ensures data.None? <==> pointer == 0
    ensures wal.LogEvents() == [EventOf(RecordEntry(recid, data), 0, PointerOffset(pointer))]
    ensures data.Some? ==> PointerFile(pointer) == 0
  {
    wal := new Wal(hash);
    wal.StartNextFile();
    assert |wal.files| == 1 && wal.fileNum == 0;
    pointer := wal.WalPutRecord(recid, data);
  }

  /** A record put into a started file reads back through its pointer and
      replays as exactly one record callback between the start and destroy
      callbacks. A null record has pointer 0 and replays with no volume,
      log id 0, offset 0 and length 0; any other record replays with its
      pointer as log id and its bytes as payload. */
  method RecordRoundTrip(hash: Hash, recid: nat, data: Option<seq<Byte>>)
    returns (pointer: nat, read: Result<Option<seq<Byte>>, LogError>, events: seq<Event>)
    ensures read == Ok(data)
    ensures data.None? <==> pointer == 0
    ensures |events| == 3 && events[0] == BeforeReplayStart && events[2] == BeforeDestroyWAL
    ensures events[1].WriteRecord? && events[1].recid == recid
    ensures data.None? ==> events[1] == WriteRecord(recid, 0, None, 0, 0, [])
    ensures data.Some? ==>
      && events[1].walId == pointer && events[1].vol == Some(0)
      && events[1].length == |data.value| && events[1].payload == data.value
  {
    var wal;
    wal, pointer := PutFirstRecord(hash, recid, data);
    read := wal.GetRecord(pointer, recid);
    events := SealAndReplay(wal);
    if data.Some? {
      assert pointer == EncodePointer(0, PointerOffset(pointer));
    }
  }

  /** A tombstone replays as one tombstone callback for its recid. */
  method TombstoneReplay(hash: Hash, recid: nat) returns (events: seq<Event>)
    ensures events == [BeforeReplayStart, WriteTombstone(recid), BeforeDestroyWAL]
  {
    var wal := new Wal(hash);
    wal.StartNextFile();
    wal.WalPutTombstone(recid);
    events := SealAndReplay(wal);
  }

  /** A preallocation replays as one preallocate callback for its recid. */
  method PreallocateReplay(hash: Hash, recid: nat) returns (events: seq<Event>)
    ensures events == [BeforeReplayStart, WritePreallocate(recid), BeforeDestroyWAL]
  {
    var wal := new Wal(hash);
    wal.StartNextFile();
    wal.WalPutPreallocate(recid);
    events := SealAndReplay(wal);
  }

  /** A committed long, written with no file started beforehand, replays
      as the long followed by the commit. */
  method CommitReplay(hash: Hash) returns (events: seq<Event>)
    ensures events == [BeforeReplayStart, WriteLong(111, 1111), Event.Commit, BeforeDestroyWAL]
  {
    var wal := new Wal(hash);
    wal.WalPutLong(111, 1111);
    assert wal.LogEvents() == [WriteLong(111, 1111)];
    ghost var c := wal.Commit();
    assert wal.LogEvents() == [WriteLong(111, 1111), Event.Commit];
    events := SealAndReplay(wal);
  }

  /** A rolled-back long replays as the long followed by the rollback. */
  method RollbackReplay(hash: Hash) returns (events: seq<Event>)
    ensures events == [BeforeReplayStart, WriteLong(111, 1000), Event.Rollback, BeforeDestroyWAL]
  {
    var wal := new Wal(hash);
    wal.StartNextFile();
    wal.WalPutLong(111, 1000);
    wal.Rollback();
    events := SealAndReplay(wal);
  }

  /** The commit test's replay, fed to the expected-event consumer, is
      accepted: no callback mismatched and none is left pending. */
  method CommitReplayAccepted(hash: Hash) returns (accepted: bool)
    ensures accepted
  {
    var events := CommitReplay(hash);
    var consumer := new ExpectedEvents([BeforeReplayStart, WriteLong(111, 1111), Event.Commit, BeforeDestroyWAL]);
    consumer.ReceiveAll(events);
    accepted := !consumer.failed && consumer.pending == [];
  }

  /** The same for the rollback test's replay. */
  method RollbackReplayAccepted(hash: Hash) returns (accepted: bool)
    ensures accepted
  {
    var events := RollbackReplay(hash);
    var consumer := new ExpectedEvents([BeforeReplayStart, WriteLong(111, 1000), Event.Rollback, BeforeDestroyWAL]);
    consumer.ReceiveAll(events);
    accepted := !consumer.failed && consumer.pending == [];
  }

  /** A consumer expecting a commit and then a rollback, given exactly
      those, has nothing left pending. */
  method SequencePops() returns (pending: seq<Event>, failed: bool)
    ensures pending == [] && !failed
  {
    var consumer := new ExpectedEvents([Event.Commit, Event.Rollback]);
    consumer.Receive(Event.Commit);
    consumer.Receive(Event.Rollback);
    pending, failed := consumer.pending, consumer.failed;
  }

  /** The log has its one file open for writing, with room to spare. */
  ghost predicate OneOpenFile(wal: Wal)
    reads wal
  {
    wal.Valid() && |wal.files| == 1 && !Sealed(wal.files[0]) && wal.walOffset <= 1000
  }

  /** Writes a long into the one open file. */
  method LongInOpenFile(wal: Wal, value: bv64)
    requires OneOpenFile(wal)
    modifies wal
    ensures wal.Valid() && |wal.files| == 1 && !Sealed(wal.files[0])
    ensures wal.walOffset == old(wal.walOffset) + 15
    ensures wal.files[0].entries == old(wal.files[0].entries) + [LongEntry(111, value)]
  {
    assert !NeedsNewFile(wal.files, wal.walOffset, EntrySize(LongEntry(111, value)));
    wal.WalPutLong(111, value);
    AppendedInPlace(old(wal.files), old(wal.walOffset), LongEntry(111, value), wal.files, wal.walOffset);
  }

  /** Commits into the one open file; `c` is the commit entry written. */
  method CommitInOpenFile(wal: Wal) returns (ghost c: Entry)
    requires OneOpenFile(wal)
    modifies wal
    ensures wal.Valid() && |wal.files| == 1 && !Sealed(wal.files[0])
    ensures wal.walOffset == old(wal.walOffset) + COMMIT_SIZE
    ensures c.CommitEntry? && wal.files[0].entries == old(wal.files[0].entries) + [c]
    ensures ChainHoldsAt(wal.hash, wal.files[0].entries, 0, |old(wal.files[0].entries)|)
  {
    assert !NeedsNewFile(wal.files, wal.walOffset, COMMIT_SIZE);
    c := wal.Commit();
    AppendedInPlace(old(wal.files), old(wal.walOffset), c, wal.files, wal.walOffset);
    assert wal.fileNum == 0;
  }

  /** Writes a long and commits it into the one open file; `commitAt` is
      the offset of the commit, 5 bytes before the new end of the file. */
  method LongAndCommit(wal: Wal, value: bv64) returns (commitAt: nat)
    requires OneOpenFile(wal) && wal.walOffset <= 900
    modifies wal
    ensures wal.Valid() && |wal.files| == 1 && !Sealed(wal.files[0])
    ensures wal.walOffset == old(wal.walOffset) + 20 && commitAt == wal.walOffset - COMMIT_SIZE
    ensures var es0 := old(wal.files[0].entries); var es := wal.files[0].entries;
      && |es| == |es0| + 2 && es[..|es0|] == es0
      && es[|es0|] == LongEntry(111, value) && es[|es0| + 1].CommitEntry?
      && ChainHoldsAt(wal.hash, es, 0, |es0| + 1)
      && EntryAt(es, commitAt) == Some(es[|es0| + 1])
  {
    ghost var es0 := wal.files[0].entries;
    LongInOpenFile(wal, value);
    ghost var es1 := wal.files[0].entries;
    commitAt := wal.walOffset;
    assert commitAt == EndOffset(es1);
    ghost var c := CommitInOpenFile(wal);
    assert wal.files[0].entries[..|es0|] == es0;
    EntryAtAppend(es1, c, commitAt);
  }

  /** The checksums of a file holding a long, a commit, a long and a
      commit, given that the chain holds at both commits. */
  lemma {:induction false} TwoCommitChain(hash: Hash, es1: seq<Entry>, es: seq<Entry>, offset1: nat, offset2: nat)
    requires |es1| == 2 && es1[0] == LongEntry(111, 1000) && es1[1].CommitEntry?
    requires ChainHoldsAt(hash, es1, 0, 1) && EntryAt(es1, offset1) == Some(es1[1])
    requires |es| == 4 && es[..2] == es1 && es[2] == LongEntry(111, 1000) && es[3].CommitEntry?
    requires ChainHoldsAt(hash, es, 0, 3) && EntryAt(es, offset2) == Some(es[3])
    ensures es[1] == CommitEntry(AddInt(0, hash(es[..1], 1)))
    ensures es[3] == CommitEntry(AddInt(es[1].checksum, hash(es[2..3], 1)))
    ensures EntryAt(es, offset1) == Some(es[1])
  {
    assert es[..1] == es1[..1];
    assert LastCommitBefore(es, 3) == Some(1);
    assert es[..3] == es1 + [es[2]];
    EntryAtAppend(es1, es[2], offset1);
    EntryAtAppend(es[..3], es[3], offset1);
    assert es[..3] + [es[3]] == es;
  }

  /** Two commits in one file: the first commit, found 5 bytes before the
      end of the file, holds the hash of everything after the header; the
      second holds the first checksum plus the hash of what lies between
      the two commits, added as Java ints. */
  method CommitChecksums(hash: Hash) returns (es: seq<Entry>, offset1: nat, offset2: nat)
    ensures |es| == 4 && es[0] == LongEntry(111, 1000) && es[2] == LongEntry(111, 1000)
    ensures es[1] == CommitEntry(AddInt(0, hash(es[..1], 1)))
    ensures es[3] == CommitEntry(AddInt(es[1].checksum, hash(es[2..3], 1)))
    ensures EntryAt(es, offset1) == Some(es[1]) && EntryAt(es, offset2) == Some(es[3])
  {
    var wal := new Wal(hash);
    wal.StartNextFile();
    offset1 := LongAndCommit(wal, 1000);
    ghost var es1 := wal.files[0].entries;
    offset2 := LongAndCommit(wal, 1000);
    es := wal.files[0].entries;
    TwoCommitChain(hash, es1, es, offset1, offset2);
  }

  /** The first file is created by the first write, not by opening. */
  method LazyFileCreate(hash: Hash) returns (before: nat, after: nat)
    ensures before == 0 && after == 1
  {
    var wal := new Wal(hash);
    before := |wal.files|;
    wal.WalPutLong(111, 111);
    after := |wal.files|;
  }

  /** The log has at most one file, and that one is open for writing. */
  ghost predicate FirstFileOpen(wal: Wal)
    reads wal
  {
    && wal.Valid() && |wal.files| <= 1 && wal.walOffset <= MAX_FILE_SIZE
    && (|wal.files| == 1 ==> !Sealed(wal.files[0]))
  }

  /** Writes one 100-byte array (or record); a second file is started only
      when the first holds more than MAX_FILE_SIZE - 111 bytes. */
  method PutHundred(wal: Wal, asRecords: bool)
    requires FirstFileOpen(wal)
    modifies wal
    ensures wal.Valid() && 1 <= |wal.files| <= 2
    ensures |wal.files| == 1 ==> FirstFileOpen(wal) && (old(|wal.files|) == 1 ==> wal.walOffset > old(wal.walOffset))
    ensures |wal.files| == 2 ==> old(|wal.files|) == 1 && MAX_FILE_SIZE - 111 < old(wal.walOffset)
  {
    var payload := seq(100, _ => 0 as Byte);
    if asRecords {
      var _ := wal.WalPutRecord(111, Some(payload));
    } else {
      var _ := wal.WalPutByteArray(111, payload);
    }
  }

  /** Writing 100-byte arrays (or records) until the second file appears:
      the offset of the last write into the first file lies within the
      final stretch of the maximum file size. */
  method Overflow(hash: Hash, asRecords: bool) returns (lastPos: nat)
    ensures MAX_FILE_SIZE - 1000 < lastPos < MAX_FILE_SIZE + 120
  {
    var wal := new Wal(hash);
    lastPos := 0;
    while |wal.files| < 2
      invariant wal.Valid() && |wal.files| <= 2
      invariant |wal.files| < 2 ==> FirstFileOpen(wal)
      invariant |wal.files| == 2 ==> MAX_FILE_SIZE - 1000 < lastPos <= MAX_FILE_SIZE
      decreases 2 - |wal.files|, MAX_FILE_SIZE - wal.walOffset
    {
      lastPos := wal.walOffset;
      PutHundred(wal, asRecords);
    }
  }
}
