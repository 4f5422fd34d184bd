/** The write-ahead log: an append-only journal spread over segment files
    0, 1, 2, ..., with a per-file commit checksum chain, read-back of
    uncommitted records through log pointers, and replay in write order. */
module WriteAheadLog {
  import opened Wrappers
  import opened Volume
  import opened WalFormat

  datatype LogError = BadPointer | NotARecord | RecidMismatch

  /** Appending `size` bytes starts a new segment file first when there is
      no file yet (files are created lazily), when the current file is
      sealed, or when the entry would take a non-empty file past
      MAX_FILE_SIZE. */
  predicate NeedsNewFile(files: seq<Segment>, walOffset: nat, size: nat)
  {
    files == [] || Sealed(files[|files| - 1])
    || (walOffset > HEADER_SIZE && walOffset + size > MAX_FILE_SIZE)
  }

  /** The file set and write offset after appending `e` to (files0, offset0). */
  ghost predicate Appended(files0: seq<Segment>, offset0: nat, e: Entry, files: seq<Segment>, offset: nat)
  {
    if NeedsNewFile(files0, offset0, EntrySize(e)) then
      files == SealCurrent(files0) + [FreshSegment.(entries := [e])] && offset == HEADER_SIZE + EntrySize(e)
    else
      files0 != [] && files == WithEntry(files0, e) && offset == offset0 + EntrySize(e)
  }

  /** The file set and write offset after making room for `size` bytes:
      on a rollover the current file is sealed and an empty file follows. */
  ghost predicate Reserved(files0: seq<Segment>, offset0: nat, size: nat, files: seq<Segment>, offset: nat)
  {
    if NeedsNewFile(files0, offset0, size) then
      files == SealCurrent(files0) + [FreshSegment] && offset == HEADER_SIZE
    else
      files == files0 && offset == offset0
  }

  /** The pointer to a byte array entry starting at `start` of file `file`
      is non-zero, names that file, and is the id its replay reports. */
  lemma {:induction false} ByteArrayPointer(o: nat, d: seq<Byte>, file: nat, start: nat)
    requires HEADER_SIZE <= start <= MAX_FILE_SIZE
    ensures var p := EncodePointer(file, start);
      && p != 0 && PointerFile(p) == file
      && EventOf(ByteArrayEntry(o, d), file, start)
         == WriteByteArray(o, p, file, PointerOffset(p) + RECORD_HEADER_SIZE, |d|, d)
  {
  }

  /** Making room for `e` and then writing it at the end of the current
      file appends it. */
  lemma {:induction false} ReservedAppend(files0: seq<Segment>, offset0: nat, files1: seq<Segment>, offset1: nat,
                                          e: Entry, files: seq<Segment>, offset: nat)
    requires Reserved(files0, offset0, EntrySize(e), files1, offset1)
    requires files1 != [] && files == WithEntry(files1, e) && offset == offset1 + EntrySize(e)
    ensures Appended(files0, offset0, e, files, offset)
  {
    if NeedsNewFile(files0, offset0, EntrySize(e)) {
      FreshWithEntry(SealCurrent(files0), e);
    }
  }

  /** Without a rollover, appending writes at the end of the current file. */
  lemma {:induction false} AppendedInPlace(files0: seq<Segment>, offset0: nat, e: Entry, files: seq<Segment>, offset: nat)
    requires Appended(files0, offset0, e, files, offset) && !NeedsNewFile(files0, offset0, EntrySize(e))
    ensures files0 != [] && files == WithEntry(files0, e) && offset == offset0 + EntrySize(e)
  {
  }

  /** Resolves a log pointer to the payload of the record entry it points
      at; pointer 0 stands for a null record. */
  function ReadRecord(files: seq<Segment>, pointer: nat, recid: nat): Result<Option<seq<Byte>>, LogError>
  {
    if pointer == 0 then Ok(None)
    else if PointerFile(pointer) >= |files| then Err(BadPointer)
    else match EntryAt(files[PointerFile(pointer)].entries, PointerOffset(pointer))
      case Some(RecordEntry(r, d)) => if r == recid then Ok(d) else Err(RecidMismatch)
      case _ => Err(NotARecord)
  }

  /** The current file with `e` written at its end. */
  function WithEntry(files: seq<Segment>, e: Entry): (r: seq<Segment>)
    requires files != []
    ensures |r| == |files|
    ensures forall i :: 0 <= i < |files| - 1 ==> r[i] == files[i]
    ensures r[|files| - 1] == files[|files| - 1].(entries := files[|files| - 1].entries + [e])
  {
    files[..|files| - 1] + [files[|files| - 1].(entries := files[|files| - 1].entries + [e])]
  }

  /** Writing into a freshly started file gives a file holding just that entry. */
  lemma {:induction false} FreshWithEntry(files: seq<Segment>, e: Entry)
    ensures WithEntry(files + [FreshSegment], e) == files + [FreshSegment.(entries := [e])]
  {
    var fs := files + [FreshSegment];
    assert fs[..|files|] == files && fs[|files|] == FreshSegment;
    assert FreshSegment.entries + [e] == [e];
  }

  /** A file set replays as all but its last file, then the last file
      (file `n`). */
  lemma {:induction false} ScanFilesLast(hash: Hash, files: seq<Segment>, n: nat)
    requires n + 1 == |files| && FilesOk(hash, files)
    ensures ScanFiles(hash, files).events == ScanFiles(hash, files[..n]).events + ScanFile(hash, files[n].entries, n).events
  {
    assert files == files[..n] + [files[n]];
    FilesOkPrefix(hash, files, n);
    ScanFilesAppend(hash, files[..n], files[n]);
  }

  /** An entry whose file (file `n`, the last) still replays in full keeps
      the file set replayable. */
  lemma {:induction false} WithEntryOk(hash: Hash, files: seq<Segment>, e: Entry, n: nat)
    requires n + 1 == |files| && FilesOk(hash, files)
    requires ScanFile(hash, files[n].entries + [e], n).ok
    ensures FilesOk(hash, WithEntry(files, e))
    ensures WithEntry(files, e)[..n] == files[..n]
  {
    var files' := WithEntry(files, e);
    assert files'[..n] == files[..n];
    forall i | 0 <= i < |files'| ensures ScanFile(hash, files'[i].entries, i).ok {
      if i < n {
        assert files'[i] == files[i];
      } else {
        assert files'[i].entries == files[n].entries + [e];
      }
    }
  }

  /** An entry written after a fully replayable prefix: a commit with the
      expected checksum closes the range; any other entry adds its event. */
  lemma {:induction false} AppendEntryScan(hash: Hash, es: seq<Entry>, e: Entry, n: nat)
    requires ScanFile(hash, es, n).ok
    requires e.CommitEntry? ==> e.checksum == CommitChecksum(hash, ScanFile(hash, es, n), es, n)
    ensures ScanFile(hash, es + [e], n)
      == if e.CommitEntry? then FileScan(ScanFile(hash, es, n).events + [Commit], true, |es| + 1, e.checksum)
         else ScanFile(hash, es, n).(events := ScanFile(hash, es, n).events + [EventOf(e, n, EndOffset(es))])
  {
    ScanFileAppend(hash, es, e, n);
  }

  /** Writing an entry keeps every file replayable and adds the entry's
      event at the end of the replay. */
  lemma {:induction false} WithEntryScan(hash: Hash, files: seq<Segment>, e: Entry, n: nat)
    requires n + 1 == |files| && FilesOk(hash, files)
    requires var es := files[n].entries;
      e.CommitEntry? ==> e.checksum == CommitChecksum(hash, ScanFile(hash, es, n), es, n)
    ensures var es := files[n].entries;
      && FilesOk(hash, WithEntry(files, e))
      && ScanFiles(hash, WithEntry(files, e)).events
         == ScanFiles(hash, files).events + [EventOf(e, n, EndOffset(es))]
      && ScanFile(hash, es + [e], n)
         == if e.CommitEntry? then FileScan(ScanFile(hash, es, n).events + [Commit], true, |es| + 1, e.checksum)
            else ScanFile(hash, es, n).(events := ScanFile(hash, es, n).events + [EventOf(e, n, EndOffset(es))])
  {
    var es := files[n].entries;
    var files' := WithEntry(files, e);
    AppendEntryScan(hash, es, e, n);
    WithEntryOk(hash, files, e, n);
    ScanFilesLast(hash, files, n);
    ScanFilesLast(hash, files', n);
    assert files'[n].entries == es + [e];
    assert ScanFile(hash, es + [e], n).events == ScanFile(hash, es, n).events + [EventOf(e, n, EndOffset(es))];
  }

  /** A commit that keeps its file replayable links the checksum chain. */
  lemma {:induction false} CommitLinks(hash: Hash, es: seq<Entry>, c: Entry, file: nat)
    requires c.CommitEntry? && ScanFile(hash, es + [c], file).ok
    ensures ChainHoldsAt(hash, es + [c], file, |es|)
  {
    ScanOkIffChain(hash, es + [c], file);
  }

  /** Every pointer that resolved in `files0` resolves to the same payload
      in `files`. */
  ghost predicate ReadsKept(files0: seq<Segment>, files: seq<Segment>)
  {
    forall q, r :: ReadRecord(files0, q, r).Ok? ==> ReadRecord(files, q, r) == ReadRecord(files0, q, r)
  }

  lemma {:induction false} ReadsKeptTrans(files0: seq<Segment>, files1: seq<Segment>, files2: seq<Segment>)
    requires ReadsKept(files0, files1) && ReadsKept(files1, files2)
    ensures ReadsKept(files0, files2)
  {
  }

  /** Writing an entry leaves every pointer that resolved still resolving to
      the same payload. */
  lemma {:induction false} WithEntryReads(files: seq<Segment>, e: Entry)
    requires files != []
    ensures ReadsKept(files, WithEntry(files, e))
  {
    var n := |files| - 1;
    forall q, r | ReadRecord(files, q, r).Ok?
      ensures ReadRecord(WithEntry(files, e), q, r) == ReadRecord(files, q, r)
    {
      if q != 0 && PointerFile(q) == n {
        EntryAtAppend(files[n].entries, e, PointerOffset(q));
      } else if q != 0 {
        assert WithEntry(files, e)[PointerFile(q)] == files[PointerFile(q)];
      }
    }
  }

  /** Sealing changes no entry, so every pointer resolves as before. */
  lemma {:induction false} SealCurrentReads(files: seq<Segment>)
    ensures forall q, r :: ReadRecord(SealCurrent(files), q, r) == ReadRecord(files, q, r)
  {
    forall q, r ensures ReadRecord(SealCurrent(files), q, r) == ReadRecord(files, q, r) {
      if q != 0 && PointerFile(q) < |files| {
        assert SealCurrent(files)[PointerFile(q)].entries == files[PointerFile(q)].entries;
      }
    }
  }

  /** Starting a file leaves every pointer that resolved still resolving. */
  lemma {:induction false} NewFileReads(files: seq<Segment>, s: Segment)
    ensures ReadsKept(files, files + [s])
  {
    forall q, r | ReadRecord(files, q, r).Ok?
      ensures ReadRecord(files + [s], q, r) == ReadRecord(files, q, r)
    {
      if q != 0 {
        assert (files + [s])[PointerFile(q)] == files[PointerFile(q)];
      }
    }
  }

  /** The log's invariant: `fileNum` is the last file, every file has its
      header and replays in full, every file before the current one is
      sealed, and the write offset and the running checksum of the current
      file agree with its entries. */
  ghost predicate LogState(hash: Hash, files: seq<Segment>, fileNum: int, walOffset: nat, chkFrom: nat, chkSum: int)
  {
    && fileNum == |files| - 1
    && FilesOk(hash, files)
    && (forall i :: 0 <= i < |files| ==> files[i].header == WAL_HEADER)
    && (forall i :: 0 <= i < |files| - 1 ==> Sealed(files[i]))
    && (files == [] ==> walOffset == 0 && chkFrom == 0 && chkSum == 0)
    && (files != [] ==>
        && walOffset == EndOffset(files[fileNum].entries)
        && chkFrom == ScanFile(hash, files[fileNum].entries, fileNum).from
        && chkSum == ScanFile(hash, files[fileNum].entries, fileNum).sum)
  }

  /** Writing an entry at the end of the current file keeps the invariant,
      moving the write offset past the entry and, for a commit, the running
      checksum to the commit; the replay gains the entry's event. */
  lemma {:induction false} WithEntryState(hash: Hash, files: seq<Segment>, n: nat, walOffset: nat, chkFrom: nat, chkSum: int, e: Entry)
    requires LogState(hash, files, n, walOffset, chkFrom, chkSum) && n + 1 == |files|
    requires var es := files[n].entries;
      e.CommitEntry? ==> e.checksum == CommitChecksum(hash, ScanFile(hash, es, n), es, n)
    ensures var es := files[n].entries;
      LogState(hash, WithEntry(files, e), n, walOffset + EntrySize(e),
               if e.CommitEntry? then |es| + 1 else chkFrom, if e.CommitEntry? then e.checksum else chkSum)
    ensures ScanFiles(hash, WithEntry(files, e)).events == ScanFiles(hash, files).events + [EventOf(e, n, walOffset)]
    ensures EntryAt(WithEntry(files, e)[n].entries, walOffset) == Some(e)
  {
    var es := files[n].entries;
    WithEntryScan(hash, files, e, n);
    EntryAtAppend(es, e, 0);
    assert WithEntry(files, e)[n].entries == es + [e];
  }

  class Wal {
    const hash: Hash
    var files: seq<Segment>
    /** Index of the current file, -1 before the first file exists. */
    var fileNum: int
    /** Write offset inside the current file. */
    var walOffset: nat
    /** First entry of the current file after its last commit. */
    var chkFrom: nat
    /** Running checksum of the current file at its last commit. */
    var chkSum: int

    ghost predicate Valid()
      reads this
    {
      LogState(hash, files, fileNum, walOffset, chkFrom, chkSum)
    }

    /** The events a replay reports between its start and end callbacks. */
    ghost function LogEvents(): seq<Event>
      reads this
    {
      ScanFiles(hash, files).events
    }

    /** Opens a log without replaying anything; no file exists yet. */
    constructor (hash: Hash)
      ensures Valid() && this.hash == hash
      ensures files == [] && fileNum == -1 && walOffset == 0 && LogEvents() == []
    {
      this.hash := hash;
      files := [];
      fileNum := -1;
      walOffset := 0;
      chkFrom := 0;
      chkSum := 0;
    }

    /** Resolves a pointer returned by a record put back to its payload;
        pointer 0 stands for a null record. */
    function GetRecord(pointer: nat, recid: nat): Result<Option<seq<Byte>>, LogError>
      reads this
    {
      ReadRecord(files, pointer, recid)
    }

    /** Seals the current file, as complete, and begins the next segment
        file, writing its header magic. */
    method StartNextFile()
      requires Valid()
      modifies this
      ensures Valid()
      ensures files == SealCurrent(old(files)) + [FreshSegment] && walOffset == HEADER_SIZE
      ensures LogEvents() == old(LogEvents())
      ensures ReadsKept(old(files), files)
    {
      var closed := SealCurrent(files);
      SealCurrentScan(hash, files);
      SealCurrentReads(files);
      FilesOkScan(hash, closed);
      ScanFilesAppend(hash, closed, FreshSegment);
      NewFileReads(closed, FreshSegment);
      var files' := closed + [FreshSegment];
      assert FilesOk(hash, files') by {
        forall i | 0 <= i < |files'| ensures ScanFile(hash, files'[i].entries, i).ok {
          if i < |closed| {
            assert files'[i] == closed[i];
          }
        }
      }
      assert forall i :: 0 <= i < |files'| - 1 ==> Sealed(files'[i]) by {
        forall i | 0 <= i < |files'| - 1 ensures Sealed(files'[i]) {
          assert files'[i] == closed[i];
        }
      }
      assert forall i :: 0 <= i < |files'| ==> files'[i].header == WAL_HEADER by {
        forall i | 0 <= i < |files'| ensures files'[i].header == WAL_HEADER {
          if i < |closed| {
            assert files'[i] == closed[i];
          }
        }
      }
      files := files';
      fileNum := fileNum + 1;
      walOffset := HEADER_SIZE;
      chkFrom := 0;
      chkSum := 0;
    }

    /** Makes room for an entry of `size` bytes, rolling over when needed. */
    method Reserve(size: nat)
      requires Valid()
      modifies this
      ensures Valid() && files != [] && !Sealed(files[fileNum])
      ensures HEADER_SIZE <= walOffset <= MAX_FILE_SIZE
      ensures LogEvents() == old(LogEvents())
      ensures Reserved(old(files), old(walOffset), size, files, walOffset)
      ensures ReadsKept(old(files), files)
    {
      if files == [] || Sealed(files[fileNum]) || (walOffset > HEADER_SIZE && walOffset + size > MAX_FILE_SIZE) {
        StartNextFile();
      }
    }

    /** Writes `e` at the write offset of the current file. */
    method AppendToCurrent(e: Entry)
      requires Valid() && files != []
      requires e.CommitEntry? ==>
        e.checksum == CommitChecksum(hash, ScanFile(hash, files[fileNum].entries, fileNum),
                                     files[fileNum].entries, fileNum)
      modifies this
      ensures Valid()
      ensures |files| == old(|files|) && fileNum == old(fileNum)
      ensures files[..fileNum] == old(files[..fileNum])
      ensures files[fileNum] == old(files[fileNum]).(entries := old(files[fileNum].entries) + [e])
      ensures files == WithEntry(old(files), e)
      ensures walOffset == old(walOffset) + EntrySize(e)
      ensures EntryAt(files[fileNum].entries, old(walOffset)) == Some(e)
      ensures LogEvents() == old(LogEvents()) + [EventOf(e, fileNum, old(walOffset))]
      ensures ReadsKept(old(files), files)
    {
      var es := files[fileNum].entries;
      WithEntryState(hash, files, fileNum, walOffset, chkFrom, chkSum, e);
      WithEntryReads(files, e);
      files := WithEntry(files, e);
      walOffset := walOffset + EntrySize(e);
      if e.CommitEntry? {
        chkFrom := |es| + 1;
        chkSum := e.checksum;
      }
    }

    /** Rolls over if needed, then writes a non-commit entry; returns the
        offset at which the entry starts. */
    method Put(e: Entry) returns (start: nat)
      requires Valid() && !e.CommitEntry?
      modifies this
      ensures Valid()
      ensures Appended(old(files), old(walOffset), e, files, walOffset)
      ensures HEADER_SIZE <= start <= MAX_FILE_SIZE && start + EntrySize(e) == walOffset
      ensures EntryAt(files[fileNum].entries, start) == Some(e)
      ensures LogEvents() == old(LogEvents()) + [EventOf(e, fileNum, start)]
      ensures ReadsKept(old(files), files)
    {
      ghost var files0, offset0 := files, walOffset;
      Reserve(EntrySize(e));
      start := walOffset;
      ghost var files1 := files;
      AppendToCurrent(e);
      ReadsKeptTrans(files0, files1, files);
      ReservedAppend(files0, offset0, files1, start, e, files, walOffset);
    }

    /** Appends a LONG entry: `value` is to be written at `offset` of the
        main volume. */
    method WalPutLong(offset: nat, value: bv64)
      requires Valid()
      modifies this
      ensures Valid()
      ensures Appended(old(files), old(walOffset), LongEntry(offset, value), files, walOffset)
      ensures LogEvents() == old(LogEvents()) + [WriteLong(offset, value)]
      ensures ReadsKept(old(files), files)
    {
      var _ := Put(LongEntry(offset, value));
    }

    /** Appends a RECORD entry and returns the pointer that reads it back
        before any commit; a null record gets pointer 0. */
    method WalPutRecord(recid: nat, data: Option<seq<Byte>>) returns (pointer: nat)
      requires Valid()
      modifies this
      ensures Valid()
      ensures Appended(old(files), old(walOffset), RecordEntry(recid, data), files, walOffset)
      ensures data.None? <==> pointer == 0
      ensures GetRecord(pointer, recid) == Ok(data)
      ensures LogEvents() == old(LogEvents()) + [EventOf(RecordEntry(recid, data), fileNum, PointerOffset(pointer))]
      ensures data.Some? ==> PointerFile(pointer) == fileNum
      ensures ReadsKept(old(files), files)
    {
      var start := Put(RecordEntry(recid, data));
      pointer := if data.None? then 0 else EncodePointer(fileNum, start);
      if data.Some? {
        assert PointerOffset(pointer) == start;
      }
    }

    /** Appends a BYTE_ARRAY entry: `data` is to be written at `offset` of
        the main volume; returns a pointer to the entry. */
    method WalPutByteArray(offset: nat, data: seq<Byte>) returns (pointer: nat)
      requires Valid()
      modifies this
      ensures Valid()
      ensures Appended(old(files), old(walOffset), ByteArrayEntry(offset, data), files, walOffset)
      ensures pointer != 0 && PointerFile(pointer) == fileNum
      ensures LogEvents() == old(LogEvents()) +
        [WriteByteArray(offset, pointer, fileNum, PointerOffset(pointer) + RECORD_HEADER_SIZE, |data|, data)]
      ensures ReadsKept(old(files), files)
    {
      var start := Put(ByteArrayEntry(offset, data));
      ByteArrayPointer(offset, data, fileNum, start);
      pointer := EncodePointer(fileNum, start);
    }

    /** Appends a TOMBSTONE entry for `recid`. */
    method WalPutTombstone(recid: nat)
      requires Valid()
      modifies this
      ensures Valid()
      ensures Appended(old(files), old(walOffset), TombstoneEntry(recid), files, walOffset)
      ensures LogEvents() == old(LogEvents()) + [WriteTombstone(recid)]
      ensures ReadsKept(old(files), files)
    {
      var _ := Put(TombstoneEntry(recid));
    }

    /** Appends a PREALLOCATE entry for `recid`. */
    method WalPutPreallocate(recid: nat)
      requires Valid()
      modifies this
      ensures Valid()
      ensures Appended(old(files), old(walOffset), PreallocateEntry(recid), files, walOffset)
      ensures LogEvents() == old(LogEvents()) + [WritePreallocate(recid)]
      ensures ReadsKept(old(files), files)
    {
      var _ := Put(PreallocateEntry(recid));
    }

    /** Appends a COMMIT entry `c` holding the file's running checksum: the
        previous commit's checksum plus the hash of what was written since. */
    method Commit() returns (ghost c: Entry)
      requires Valid()
      modifies this
      ensures Valid() && files != []
      ensures c.CommitEntry? && Appended(old(files), old(walOffset), c, files, walOffset)
      ensures var es := files[fileNum].entries; es != [] && ChainHoldsAt(hash, es, fileNum, |es| - 1)
      ensures LogEvents() == old(LogEvents()) + [Event.Commit]
      ensures ReadsKept(old(files), files)
    {
      ghost var files0, offset0 := files, walOffset;
      Reserve(COMMIT_SIZE);
      ghost var files1, offset1 := files, walOffset;
      c := WriteCommit();
      ReadsKeptTrans(files0, files1, files);
      ReservedAppend(files0, offset0, files1, offset1, c, files, walOffset);
    }

    /** Writes the commit entry `c` to the current file. */
    method WriteCommit() returns (ghost c: Entry)
      requires Valid() && files != []
      modifies this
      ensures Valid()
      ensures |files| == old(|files|) && fileNum == old(fileNum)
      ensures c.CommitEntry? && files == WithEntry(old(files), c)
      ensures walOffset == old(walOffset) + COMMIT_SIZE
      ensures var es := files[fileNum].entries; es != [] && ChainHoldsAt(hash, es, fileNum, |es| - 1)
      ensures LogEvents() == old(LogEvents()) + [Event.Commit]
      ensures ReadsKept(old(files), files)
    {
      var es := files[fileNum].entries;
      ghost var n: nat := fileNum;
      var sum := AddInt(chkSum, hash(es[chkFrom..], fileNum + 1));
      AppendToCurrent(CommitEntry(sum));
      c := CommitEntry(sum);
      assert files[n].entries == es + [c];
      assert ScanFile(hash, es + [c], n).ok;
      CommitLinks(hash, es, c, n);
    }

    /** Appends a ROLLBACK entry; earlier entries stay in the log. */
    method Rollback()
      requires Valid()
      modifies this
      ensures Valid()
      ensures Appended(old(files), old(walOffset), RollbackEntry, files, walOffset)
      ensures LogEvents() == old(LogEvents()) + [Event.Rollback]
      ensures ReadsKept(old(files), files)
    {
      var _ := Put(RollbackEntry);
    }

    /** Writes the seal long at offset 8 of the current file; every file
        is then sealed, so a replay reports the whole log. */
    method Seal()
      requires Valid()
      modifies this
      ensures Valid()
      ensures files == SealCurrent(old(files)) && walOffset == old(walOffset)
      ensures forall i :: 0 <= i < |files| ==> Sealed(files[i])
      ensures LogEvents() == old(LogEvents())
      ensures forall q, r :: GetRecord(q, r) == old(GetRecord(q, r))
    {
      SealCurrentScan(hash, files);
      SealCurrentReads(files);
      files := SealCurrent(files);
    }

    /** Discards the replayed log: the file set shrinks back to an empty
        file 0, so no further file is created by small transactions. */
    method Reset()
      requires Valid()
      modifies this
      ensures Valid()
      ensures files == [FreshSegment] && walOffset == HEADER_SIZE
      ensures LogEvents() == []
    {
      files := [FreshSegment];
      fileNum := 0;
      walOffset := HEADER_SIZE;
      chkFrom := 0;
      chkSum := 0;
      ScanFilesAppend(hash, [], FreshSegment);
      assert [] + [FreshSegment] == files;
    }

    /** Replays one file, checking each commit's checksum. */
    method ReplayFile(es: seq<Entry>, file: nat) returns (scan: FileScan)
      ensures scan == ScanFile(hash, es, file)
    {
      var events: seq<Event> := [];
      var ok := true;
      var from := 0;
      var sum := 0;
      var offset := HEADER_SIZE;
      var k := 0;
      while k < |es|
        invariant 0 <= k <= |es|
        invariant FileScan(events, ok, from, sum) == ScanFile(hash, es[..k], file)
        invariant offset == EndOffset(es[..k])
      {
        var e := es[k];
        assert es[..k + 1] == es[..k] + [e];
        ScanFileAppend(hash, es[..k], e, file);
        EntryAtAppend(es[..k], e, 0);
        if ok {
          match e
          case CommitEntry(c) =>
            assert es[..k][from..] == es[from..k];
            var expected := AddInt(sum, hash(es[from..k], file + 1));
            if c == expected {
              events := events + [Event.Commit];
              from := k + 1;
              sum := c;
            } else {
              ok := false;
            }
          case _ =>
            events := events + [EventOf(e, file, offset)];
        }
        offset := offset + EntrySize(e);
        k := k + 1;
      }
      assert es[..k] == es;
      scan := FileScan(events, ok, from, sum);
    }

    /** Replays the files in ascending order, bracketed by the start and
        destroy callbacks; an unsealed file or a truncated file ends the
        replay. */
    method ReplayWAL() returns (events: seq<Event>)
      ensures events == ReplayEvents(hash, files)
      ensures (forall i :: 0 <= i < |files| ==> Sealed(files[i])) ==>
        events == [BeforeReplayStart] + LogEvents() + [BeforeDestroyWAL]
    {
      var evs: seq<Event> := [];
      var ok := true;
      var i := 0;
      while i < |files| && Sealed(files[i])
        invariant 0 <= i <= SealedCount(files)
        invariant LogScan(evs, ok) == ScanFiles(hash, files[..i])
      {
        assert files[..i + 1] == files[..i] + [files[i]];
        ScanFilesAppend(hash, files[..i], files[i]);
        if ok {
          var scan := ReplayFile(files[i].entries, i);
          evs := evs + scan.events;
          ok := scan.ok;
        }
        i := i + 1;
      }
      events := [BeforeReplayStart] + evs + [BeforeDestroyWAL];
      if forall j :: 0 <= j < |files| ==> Sealed(files[j]) {
        SealedReplay(hash, files);
      }
    }
  }
}
