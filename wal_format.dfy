/** The write-ahead log's entries, their sizes and positions inside a
    segment file, log pointers, the per-file commit checksum chain and the
    replay of segment files into the closed set of consumer events. */
module WalFormat {
  import opened Wrappers
  import opened Volume

  /** A segment file holds a 4-byte header magic at offset 0 and the 8-byte
      seal long at offset 8; its first entry starts at offset 16. */
  const HEADER_SIZE: nat := 16
  const SEAL_OFFSET: nat := 8
  const WAL_HEADER: bv32 := 0x8A77_0001
  const WAL_SEAL: bv64 := 8234892392398238983
  /** Size near which the log rolls over to its next segment file. */
  const MAX_FILE_SIZE: nat := 0x100_0000  // 16 MiB
  /** A log pointer is `file * POINTER_FILE_UNIT + byte offset`. */
  const POINTER_FILE_UNIT: nat := 0x1_0000_0000_0000

  /** Tag byte, six-byte recid or target offset, four-byte length. */
  const RECORD_HEADER_SIZE: nat := 11
  /** Tag byte and the four-byte running checksum. */
  const COMMIT_SIZE: nat := 5

  datatype Entry =
    | LongEntry(offset: nat, value: bv64)
    | RecordEntry(recid: nat, data: Option<seq<Byte>>)
    | ByteArrayEntry(offset: nat, bytes: seq<Byte>)
    | TombstoneEntry(recid: nat)
    | PreallocateEntry(recid: nat)
    | CommitEntry(checksum: int)
    | RollbackEntry

  function EntrySize(e: Entry): nat
  {
    match e
    case LongEntry(_, _) => 15
    case RecordEntry(_, d) => RECORD_HEADER_SIZE + (if d.Some? then |d.value| else 0)
    case ByteArrayEntry(_, d) => RECORD_HEADER_SIZE + |d|
    case TombstoneEntry(_) => 7
    case PreallocateEntry(_) => 7
    case CommitEntry(_) => COMMIT_SIZE
    case RollbackEntry => 1
  }

  function SizeSum(es: seq<Entry>): nat
    decreases |es|
  {
    if es == [] then 0 else SizeSum(es[..|es| - 1]) + EntrySize(es[|es| - 1])
  }

  /** The offset just past the last entry: the file's write offset. */
  function EndOffset(es: seq<Entry>): nat
  {
    HEADER_SIZE + SizeSum(es)
  }

  datatype Segment = Segment(header: bv32, seal: bv64, entries: seq<Entry>)

  /** A freshly started segment file: header magic written, not sealed. */
  const FreshSegment := Segment(WAL_HEADER, 0, [])

  predicate Sealed(s: Segment)
  {
    s.seal == WAL_SEAL
  }

  /** The file set with its last file sealed; no entry changes. */
  function SealCurrent(files: seq<Segment>): (r: seq<Segment>)
    ensures |r| == |files|
    ensures forall i :: 0 <= i < |files| - 1 ==> r[i] == files[i]
    ensures files != [] ==> r[|files| - 1] == files[|files| - 1].(seal := WAL_SEAL)
  {
    if files == [] then [] else files[..|files| - 1] + [files[|files| - 1].(seal := WAL_SEAL)]
  }

  /** How many files, from file 0 on, carry the seal: exactly those before
      the first unsealed file. */
  function SealedCount(files: seq<Segment>): (n: nat)
    ensures n <= |files|
    ensures forall i :: 0 <= i < n ==> Sealed(files[i])
    ensures n < |files| ==> !Sealed(files[n])
    decreases |files|
  {
    if files == [] || !Sealed(files[0]) then 0
    else
      var m := SealedCount(files[1..]);
      assert forall i :: 1 <= i < m + 1 ==> files[i] == files[1..][i - 1];
      1 + m
  }

  /** The hash of a byte range of a segment, seeded with the file number
      plus one, folded to an int (`longHash(vol.hash(offset, length, seed))`).
      It is left uninterpreted: the log is given one. */
  type Hash = (seq<Entry>, int) -> int

  /** Java `int` addition: the sum wraps around modulo 2^32. An int is held
      here by its unsigned 32-bit pattern. */
  function AddInt(a: int, b: int): (r: int)
    ensures 0 <= r < 0x1_0000_0000 && (r - a - b) % 0x1_0000_0000 == 0
  {
    (a + b) % 0x1_0000_0000
  }

  // ---------------------------------------------------------------------
  // Log pointers

  function EncodePointer(file: nat, offset: nat): (p: nat)
    ensures offset < POINTER_FILE_UNIT ==> PointerFile(p) == file && PointerOffset(p) == offset
    ensures HEADER_SIZE <= offset ==> p != 0
  {
    file * 0x1_0000_0000_0000 + offset
  }

  function PointerFile(p: nat): nat
  {
    p / 0x1_0000_0000_0000
  }

  function PointerOffset(p: nat): nat
  {
    p % 0x1_0000_0000_0000
  }

  /** The entry that starts at byte `offset` of a file, if any. */
  function EntryAt(es: seq<Entry>, offset: nat): (r: Option<Entry>)
    ensures r.Some? ==> HEADER_SIZE <= offset < EndOffset(es) && r.value in es
    decreases |es|
  {
    if es == [] then None
    else if EndOffset(es[..|es| - 1]) == offset then Some(es[|es| - 1])
    else EntryAt(es[..|es| - 1], offset)
  }

  /** Appending an entry makes it readable at the old end offset and leaves
      every earlier entry readable where it was. */
  lemma {:induction false} EntryAtAppend(es: seq<Entry>, e: Entry, offset: nat)
    ensures EntryAt(es + [e], EndOffset(es)) == Some(e)
    ensures offset != EndOffset(es) ==> EntryAt(es + [e], offset) == EntryAt(es, offset)
    ensures EndOffset(es + [e]) == EndOffset(es) + EntrySize(e)
  {
    assert (es + [e])[..|es|] == es;
  }

  // ---------------------------------------------------------------------
  // Replay events

  /** The consumer callbacks of a replay, in the order the log holds them.
      For a record or byte array, `vol` is the log file holding the payload
      and `payload` the `length` bytes it holds at `volOffset`; a null record
      has no volume, log id 0, offset 0 and length 0. */
  datatype Event =
    | BeforeReplayStart
    | WriteLong(offset: nat, value: bv64)
    | WriteRecord(recid: nat, walId: nat, vol: Option<nat>, volOffset: nat, length: nat, payload: seq<Byte>)
    | WriteByteArray(offset: nat, walId: nat, file: nat, volOffset: nat, length: nat, payload: seq<Byte>)
    | WriteTombstone(recid: nat)
    | WritePreallocate(recid: nat)
    | Commit
    | Rollback
    | BeforeDestroyWAL

  /** An event that carries a pending mutation rather than a boundary. */
  predicate IsData(ev: Event)
  {
    ev.WriteLong? || ev.WriteRecord? || ev.WriteByteArray? || ev.WriteTombstone? || ev.WritePreallocate?
  }

  predicate AllData(evs: seq<Event>)
  {
    forall i :: 0 <= i < |evs| ==> IsData(evs[i])
  }

  /** The event an entry starting at `offset` of file `file` replays as. */
  function EventOf(e: Entry, file: nat, offset: nat): (ev: Event)
    ensures !e.CommitEntry? && !e.RollbackEntry? ==> IsData(ev)
  {
    match e
    case LongEntry(o, v) => WriteLong(o, v)
    case RecordEntry(r, None) => WriteRecord(r, 0, None, 0, 0, [])
    case RecordEntry(r, Some(d)) =>
      WriteRecord(r, EncodePointer(file, offset), Some(file), offset + RECORD_HEADER_SIZE, |d|, d)
    case ByteArrayEntry(o, d) =>
      WriteByteArray(o, EncodePointer(file, offset), file, offset + RECORD_HEADER_SIZE, |d|, d)
    case TombstoneEntry(r) => WriteTombstone(r)
    case PreallocateEntry(r) => WritePreallocate(r)
    case CommitEntry(_) => Commit
    case RollbackEntry => Rollback
  }

  // ---------------------------------------------------------------------
  // Replay of one segment file, checking the commit checksum chain

  /** Replay state after a prefix of a file: the events so far, whether every
      commit so far carried the expected checksum, the index of the first
      entry after the last commit and the running checksum at that commit. */
  datatype FileScan = FileScan(events: seq<Event>, ok: bool, from: nat, sum: int)

  /** The checksum a commit appended after `es` must carry: the running sum
      plus the hash of the entries written since the previous commit. */
  function CommitChecksum(hash: Hash, st: FileScan, es: seq<Entry>, file: nat): int
    requires st.from <= |es|
  {
    AddInt(st.sum, hash(es[st.from..], file + 1))
  }

  function ScanStep(hash: Hash, st: FileScan, es: seq<Entry>, e: Entry, file: nat): (r: FileScan)
    requires st.from <= |es|
    ensures r.from <= |es| + 1
  {
    if !st.ok then st
    else match e
      case CommitEntry(c) =>
        if c == CommitChecksum(hash, st, es, file) then FileScan(st.events + [Commit], true, |es| + 1, c)
        else st.(ok := false)
      case _ => st.(events := st.events + [EventOf(e, file, EndOffset(es))])
  }

  /** Replays file number `file`; it stops at the first commit whose stored
      checksum does not match, dropping that commit and all that follows. */
  function ScanFile(hash: Hash, es: seq<Entry>, file: nat): (r: FileScan)
    ensures r.from <= |es|
    decreases |es|
  {
    if es == [] then FileScan([], true, 0, 0)
    else ScanStep(hash, ScanFile(hash, es[..|es| - 1], file), es[..|es| - 1], es[|es| - 1], file)
  }

  lemma {:induction false} ScanFileAppend(hash: Hash, es: seq<Entry>, e: Entry, file: nat)
    ensures ScanFile(hash, es + [e], file) == ScanStep(hash, ScanFile(hash, es, file), es, e, file)
  {
    assert (es + [e])[..|es|] == es;
  }

  /** Once a replay has stopped, nothing written after changes its outcome. */
  lemma {:induction false} ScanStopped(hash: Hash, es: seq<Entry>, rest: seq<Entry>, file: nat)
    requires !ScanFile(hash, es, file).ok
    ensures ScanFile(hash, es + rest, file) == ScanFile(hash, es, file)
    decreases |rest|
  {
    if rest != [] {
      var init := rest[..|rest| - 1];
      ScanStopped(hash, es, init, file);
      assert rest == init + [rest[|rest| - 1]];
      assert es + rest == (es + init) + [rest[|rest| - 1]];
      ScanFileAppend(hash, es + init, rest[|rest| - 1], file);
    } else {
      assert es + rest == es;
    }
  }

  /** A commit whose stored checksum does not match the bytes before it ends
      the replay of that file: neither it nor anything after it is replayed. */
  lemma {:induction false} CorruptCommitTruncates(hash: Hash, es: seq<Entry>, c: int, rest: seq<Entry>, file: nat)
    requires ScanFile(hash, es, file).ok
    requires c != CommitChecksum(hash, ScanFile(hash, es, file), es, file)
    ensures !ScanFile(hash, es + [CommitEntry(c)] + rest, file).ok
    ensures ScanFile(hash, es + [CommitEntry(c)] + rest, file).events == ScanFile(hash, es, file).events
  {
    ScanFileAppend(hash, es, CommitEntry(c), file);
    ScanStopped(hash, es + [CommitEntry(c)], rest, file);
  }

  // ---------------------------------------------------------------------
  // The checksum chain, stated independently of the replay

  /** Index of the last commit among the first `k` entries, None when
      there is none. */
  function LastCommitBefore(es: seq<Entry>, k: nat): (r: Option<nat>)
    requires k <= |es|
    ensures r.Some? ==> r.value < k && es[r.value].CommitEntry?
    ensures r.Some? ==> forall j :: r.value < j < k ==> !es[j].CommitEntry?
    ensures r.None? ==> forall j :: 0 <= j < k ==> !es[j].CommitEntry?
  {
    if k == 0 then None
    else if es[k - 1].CommitEntry? then Some(k - 1)
    else LastCommitBefore(es, k - 1)
  }

  /** Where the checksum range before entry `k` starts: just after the
      previous commit, or at the first entry of the file. */
  function ChainFrom(es: seq<Entry>, k: nat): (r: nat)
    requires k <= |es|
    ensures r <= k
  {
    match LastCommitBefore(es, k)
    case None => 0
    case Some(j) => j + 1
  }

  /** The previous commit's running checksum, 0 before the first commit. */
  function ChainSum(es: seq<Entry>, k: nat): int
    requires k <= |es|
  {
    match LastCommitBefore(es, k)
    case None => 0
    case Some(j) => es[j].checksum
  }

  /** The commit at index `k` holds the previous commit's checksum (0 for the
      first commit of the file) plus the hash of the entries between them. */
  predicate ChainHoldsAt(hash: Hash, es: seq<Entry>, file: nat, k: nat)
    requires k < |es| && es[k].CommitEntry?
  {
    es[k].checksum == AddInt(ChainSum(es, k), hash(es[ChainFrom(es, k)..k], file + 1))
  }

  predicate ChainHolds(hash: Hash, es: seq<Entry>, file: nat)
  {
    forall k :: 0 <= k < |es| && es[k].CommitEntry? ==> ChainHoldsAt(hash, es, file, k)
  }

  /** A file replays without truncation exactly when every commit in it
      extends the per-file running checksum; the replay then ends with the
      range base and running sum the chain defines. */
  lemma {:induction false} ScanOkIffChain(hash: Hash, es: seq<Entry>, file: nat)
    ensures ScanFile(hash, es, file).ok <==> ChainHolds(hash, es, file)
    ensures ScanFile(hash, es, file).ok ==>
      ScanFile(hash, es, file).from == ChainFrom(es, |es|) &&
      ScanFile(hash, es, file).sum == ChainSum(es, |es|)
    decreases |es|
  {
    if es != [] {
      var n := |es| - 1;
      var init := es[..n];
      var e := es[n];
      assert es == init + [e];
      ScanOkIffChain(hash, init, file);
      ScanFileAppend(hash, init, e, file);
      ChainExtend(hash, init, e, file);
    }
  }

  /** The chain of a file with one more entry: the old chain, and the new
      entry's link when it is a commit. */
  lemma {:induction false} ChainExtend(hash: Hash, init: seq<Entry>, e: Entry, file: nat)
    ensures ChainFrom(init + [e], |init|) == ChainFrom(init, |init|)
    ensures ChainSum(init + [e], |init|) == ChainSum(init, |init|)
    ensures e.CommitEntry? ==> ChainFrom(init + [e], |init| + 1) == |init| + 1
    ensures e.CommitEntry? ==> ChainSum(init + [e], |init| + 1) == e.checksum
    ensures !e.CommitEntry? ==> ChainFrom(init + [e], |init| + 1) == ChainFrom(init, |init|)
    ensures !e.CommitEntry? ==> ChainSum(init + [e], |init| + 1) == ChainSum(init, |init|)
    ensures ChainHolds(hash, init + [e], file) <==>
      ChainHolds(hash, init, file) &&
      (e.CommitEntry? ==> ChainHoldsAt(hash, init + [e], file, |init|))
  {
    var es := init + [e];
    ChainPrefix(hash, es, init, file);
    LastCommitPrefix(es, init, |init|);
    if ChainHolds(hash, init, file) && (e.CommitEntry? ==> ChainHoldsAt(hash, es, file, |init|)) {
      forall k | 0 <= k < |es| && es[k].CommitEntry? ensures ChainHoldsAt(hash, es, file, k) {
        if k < |init| {
          assert init[k] == es[k];
        }
      }
    }
  }

  lemma {:induction false} ChainPrefix(hash: Hash, es: seq<Entry>, init: seq<Entry>, file: nat)
    requires init <= es
    ensures forall k :: 0 <= k < |init| && init[k].CommitEntry? ==>
      (ChainHoldsAt(hash, es, file, k) <==> ChainHoldsAt(hash, init, file, k))
  {
    forall k | 0 <= k < |init| && init[k].CommitEntry?
      ensures ChainHoldsAt(hash, es, file, k) <==> ChainHoldsAt(hash, init, file, k)
    {
      ChainPrefixAt(hash, es, init, file, k);
    }
  }

  lemma {:induction false} ChainPrefixAt(hash: Hash, es: seq<Entry>, init: seq<Entry>, file: nat, k: nat)
    requires init <= es && k < |init| && init[k].CommitEntry?
    ensures ChainHoldsAt(hash, es, file, k) <==> ChainHoldsAt(hash, init, file, k)
  {
    LastCommitPrefix(es, init, k);
    var from := ChainFrom(es, k);
    assert from == ChainFrom(init, k);
    assert ChainSum(es, k) == ChainSum(init, k);
    assert es[k] == init[k];
    assert es[from..k] == init[from..k];
  }

  lemma {:induction false} LastCommitPrefix(es: seq<Entry>, init: seq<Entry>, k: nat)
    requires init <= es && k <= |init|
    ensures LastCommitBefore(es, k) == LastCommitBefore(init, k)
    decreases k
  {
    if k > 0 {
      assert es[k - 1] == init[k - 1];
      LastCommitPrefix(es, init, k - 1);
    }
  }

  // ---------------------------------------------------------------------
  // Replay of the whole file set

  /** The events of every entry of a file, in write order, with every commit
      reported: the reference for what an untruncated replay emits. */
  function EventsOf(es: seq<Entry>, file: nat): (r: seq<Event>)
    ensures |r| == |es|
    decreases |es|
  {
    if es == [] then []
    else EventsOf(es[..|es| - 1], file) + [EventOf(es[|es| - 1], file, EndOffset(es[..|es| - 1]))]
  }

  /** An untruncated replay of a file reports every entry, in write order. */
  lemma {:induction false} ScanOkEvents(hash: Hash, es: seq<Entry>, file: nat)
    requires ScanFile(hash, es, file).ok
    ensures ScanFile(hash, es, file).events == EventsOf(es, file)
    decreases |es|
  {
    if es != [] {
      var init := es[..|es| - 1];
      ScanOkEvents(hash, init, file);
    }
  }

  datatype LogScan = LogScan(events: seq<Event>, ok: bool)

  /** Replays files 0, 1, ... in turn; a truncated file ends the replay. */
  function ScanFiles(hash: Hash, files: seq<Segment>): LogScan
    decreases |files|
  {
    if files == [] then LogScan([], true)
    else
      var prev := ScanFiles(hash, files[..|files| - 1]);
      if !prev.ok then prev
      else
        var s := ScanFile(hash, files[|files| - 1].entries, |files| - 1);
        LogScan(prev.events + s.events, s.ok)
  }

  /** Every file of the set replays without truncation. */
  predicate FilesOk(hash: Hash, files: seq<Segment>)
  {
    forall i :: 0 <= i < |files| ==> ScanFile(hash, files[i].entries, i).ok
  }

  lemma {:induction false} FilesOkScan(hash: Hash, files: seq<Segment>)
    requires FilesOk(hash, files)
    ensures ScanFiles(hash, files).ok
    decreases |files|
  {
    if files != [] {
      var init := files[..|files| - 1];
      assert FilesOk(hash, init) by {
        forall i | 0 <= i < |init| ensures ScanFile(hash, init[i].entries, i).ok {
          assert init[i] == files[i];
        }
      }
      FilesOkScan(hash, init);
    }
  }

  /** Replaying a file set with one more file: the old replay, then that
      file's replay when the old one was not truncated. */
  lemma {:induction false} ScanFilesAppend(hash: Hash, files: seq<Segment>, s: Segment)
    ensures ScanFiles(hash, files + [s]) ==
      if !ScanFiles(hash, files).ok then ScanFiles(hash, files)
      else LogScan(ScanFiles(hash, files).events + ScanFile(hash, s.entries, |files|).events,
                   ScanFile(hash, s.entries, |files|).ok)
  {
    assert (files + [s])[..|files|] == files;
  }

  lemma {:induction false} FilesOkPrefix(hash: Hash, files: seq<Segment>, n: nat)
    requires FilesOk(hash, files) && n <= |files|
    ensures FilesOk(hash, files[..n]) && ScanFiles(hash, files[..n]).ok
  {
    forall i | 0 <= i < n ensures ScanFile(hash, files[..n][i].entries, i).ok {
      assert files[..n][i] == files[i];
    }
    FilesOkScan(hash, files[..n]);
  }

  /** Replaying a prefix of a fully replayable file set reports a prefix
      of the whole set's events. */
  lemma {:induction false} ScanFilesPrefix(hash: Hash, files: seq<Segment>, n: nat)
    requires FilesOk(hash, files) && n <= |files|
    ensures ScanFiles(hash, files[..n]).events <= ScanFiles(hash, files).events
    decreases |files|
  {
    if n < |files| {
      var m := |files| - 1;
      var init := files[..m];
      FilesOkPrefix(hash, files, m);
      assert files == init + [files[m]];
      ScanFilesAppend(hash, init, files[m]);
      assert FilesOk(hash, init);
      assert init[..n] == files[..n];
      ScanFilesPrefix(hash, init, n);
    } else {
      assert files[..n] == files;
    }
  }

  /** What the consumer of a replay receives, start to end: the files up to
      the first unsealed one, since an unsealed file may hold an
      interrupted write. */
  function ReplayEvents(hash: Hash, files: seq<Segment>): (r: seq<Event>)
    ensures |r| >= 2 && r[0] == BeforeReplayStart && r[|r| - 1] == BeforeDestroyWAL
  {
    [BeforeReplayStart] + ScanFiles(hash, files[..SealedCount(files)]).events + [BeforeDestroyWAL]
  }

  /** Sealing changes no entry, so the file set replays as before. */
  lemma {:induction false} SealCurrentScan(hash: Hash, files: seq<Segment>)
    ensures ScanFiles(hash, SealCurrent(files)) == ScanFiles(hash, files)
    ensures FilesOk(hash, SealCurrent(files)) <==> FilesOk(hash, files)
  {
    if files != [] {
      var n := |files| - 1;
      var sealed := SealCurrent(files);
      assert files == files[..n] + [files[n]];
      assert sealed == files[..n] + [files[n].(seal := WAL_SEAL)];
      ScanFilesAppend(hash, files[..n], files[n]);
      ScanFilesAppend(hash, files[..n], files[n].(seal := WAL_SEAL));
      assert forall i :: 0 <= i < |files| ==> sealed[i].entries == files[i].entries;
    }
  }

  /** A file set whose every file is sealed replays in full. */
  lemma {:induction false} SealedReplay(hash: Hash, files: seq<Segment>)
    requires forall i :: 0 <= i < |files| ==> Sealed(files[i])
    ensures ReplayEvents(hash, files) == [BeforeReplayStart] + ScanFiles(hash, files).events + [BeforeDestroyWAL]
  {
    assert SealedCount(files) == |files|;
    assert files[..|files|] == files;
  }

  /** An unsealed file ends the replay: neither it nor any later file
      contributes an event. */
  lemma {:induction false} UnsealedIgnored(hash: Hash, files: seq<Segment>, s: Segment, rest: seq<Segment>)
    requires !Sealed(s)
    ensures ReplayEvents(hash, files + [s] + rest) == ReplayEvents(hash, files)
  {
    var all := files + [s] + rest;
    var n := SealedCount(files);
    var m := SealedCount(all);
    assert forall i :: 0 <= i < |files| ==> all[i] == files[i];
    assert all[|files|] == s;
    assert m == n;
    assert all[..n] == files[..n];
  }
}
