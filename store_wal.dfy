/** The transactional store over the write-ahead log: every mutation goes to
    the log first; a commit replays the log into the main volume and the
    record table; a rollback discards it; opening the store recovers the
    committed part of a log left behind, after choosing between the main
    file and a sealed compaction candidate. */
module StoreWal {
  import opened Wrappers
  import opened Volume
  import opened WalFormat
  import opened WriteAheadLog

  /** Header magic at offset 0 of the main volume. */
  const STORE_HEADER: bv32 := 0x4D_44_42_57

  /** Rounds a size up to the 16-byte granularity of the store's layout. */
  function Round16Up(n: nat): (r: nat)
    ensures r % 16 == 0 && n <= r < n + 16
  {
    (n + 15) / 16 * 16
  }

  /** What a store file holds durably: the main volume and, standing for the
      index table and data area, the committed record of each recid. A
      record present with `None` is a null (or preallocated) record. */
  datatype StoreImage = StoreImage(vol: Vol, records: map<nat, Option<seq<Byte>>>)

  datatype StoreError = RecordNotFound

  function Lookup(records: map<nat, Option<seq<Byte>>>, recid: nat): Result<Option<seq<Byte>>, StoreError>
  {
    if recid in records then Ok(records[recid]) else Err(RecordNotFound)
  }

  // ---------------------------------------------------------------------
  // Applying replayed events

  /** The effect of one replayed mutation on the store file. */
  function ApplyEvent(img: StoreImage, ev: Event): StoreImage
  {
    match ev
    case WriteLong(o, v) => img.(vol := PutLong(img.vol, o, v))
    case WriteByteArray(o, _, _, _, _, d) => img.(vol := PutData(img.vol, o, d))
    case WriteRecord(r, _, file, _, _, d) => img.(records := img.records[r := if file.None? then None else Some(d)])
    case WriteTombstone(r) => img.(records := img.records - {r})
    case WritePreallocate(r) => img.(records := img.records[r := None])
    case _ => img
  }

  /** Applies mutations in the order given. */
  function ApplyAll(img: StoreImage, evs: seq<Event>): StoreImage
    decreases |evs|
  {
    if evs == [] then img else ApplyEvent(ApplyAll(img, evs[..|evs| - 1]), evs[|evs| - 1])
  }

  lemma {:induction false} ApplyAllAppendOne(img: StoreImage, evs: seq<Event>, ev: Event)
    ensures ApplyAll(img, evs + [ev]) == ApplyEvent(ApplyAll(img, evs), ev)
  {
    assert (evs + [ev])[..|evs|] == evs;
  }

  lemma {:induction false} ApplyAllAppend(img: StoreImage, a: seq<Event>, b: seq<Event>)
    ensures ApplyAll(img, a + b) == ApplyAll(ApplyAll(img, a), b)
    decreases |b|
  {
    if b == [] {
      assert a + b == a;
    } else {
      var init := b[..|b| - 1];
      assert b == init + [b[|b| - 1]];
      assert a + b == (a + init) + [b[|b| - 1]];
      ApplyAllAppend(img, a, init);
      ApplyAllAppendOne(img, a + init, b[|b| - 1]);
      ApplyAllAppendOne(ApplyAll(img, a), init, b[|b| - 1]);
    }
  }

  // ---------------------------------------------------------------------
  // Records: the last write to a recid decides what it holds

  datatype RecordOp = PutOp(value: Option<seq<Byte>>) | DeleteOp

  function RecordOpOf(ev: Event, recid: nat): Option<RecordOp>
  {
    match ev
    case WriteRecord(r, _, file, _, _, d) =>
      if r == recid then Some(PutOp(if file.None? then None else Some(d))) else None
    case WriteTombstone(r) => if r == recid then Some(DeleteOp) else None
    case WritePreallocate(r) => if r == recid then Some(PutOp(None)) else None
    case _ => None
  }

  /** The last mutation of `recid` among `evs`, if any. */
  function LastRecordOp(evs: seq<Event>, recid: nat): Option<RecordOp>
    decreases |evs|
  {
    if evs == [] then None
    else if RecordOpOf(evs[|evs| - 1], recid).Some? then RecordOpOf(evs[|evs| - 1], recid)
    else LastRecordOp(evs[..|evs| - 1], recid)
  }

  lemma {:induction false} LastRecordOpAppend(evs: seq<Event>, ev: Event, recid: nat)
    ensures LastRecordOp(evs + [ev], recid) ==
      if RecordOpOf(ev, recid).Some? then RecordOpOf(ev, recid) else LastRecordOp(evs, recid)
  {
    assert (evs + [ev])[..|evs|] == evs;
  }

  /** What a read sees once `op` (the last mutation, if any) is applied. */
  function LookupAfter(op: Option<RecordOp>, before: Result<Option<seq<Byte>>, StoreError>): Result<Option<seq<Byte>>, StoreError>
  {
    match op
    case None => before
    case Some(PutOp(v)) => Ok(v)
    case Some(DeleteOp) => Err(RecordNotFound)
  }

  /** After applying mutations, a recid holds the value of its last write,
      is missing after a final tombstone, and is untouched otherwise. */
  lemma {:induction false} ApplyAllLookup(img: StoreImage, evs: seq<Event>, recid: nat)
    ensures Lookup(ApplyAll(img, evs).records, recid) == LookupAfter(LastRecordOp(evs, recid), Lookup(img.records, recid))
    decreases |evs|
  {
    if evs != [] {
      ApplyAllLookup(img, evs[..|evs| - 1], recid);
    }
  }

  // ---------------------------------------------------------------------
  // The main volume: the last write to a byte range decides what it holds

  /** The bytes a volume mutation writes, and where. */
  predicate WritesVolume(ev: Event)
  {
    ev.WriteLong? || ev.WriteByteArray?
  }

  function WrittenBytes(ev: Event): seq<Byte>
    requires WritesVolume(ev)
  {
    if ev.WriteLong? then LongBytes(ev.value) else ev.payload
  }

  /** The event leaves the byte range [at, at + length) alone. */
  predicate Misses(ev: Event, at: nat, length: nat)
  {
    WritesVolume(ev) ==> at + length <= ev.offset || ev.offset + |WrittenBytes(ev)| <= at
  }

  lemma {:induction false} ApplyAllUntouched(img: StoreImage, evs: seq<Event>, at: nat, length: nat)
    requires forall j :: 0 <= j < |evs| ==> Misses(evs[j], at, length)
    ensures GetData(ApplyAll(img, evs).vol, at, length) == GetData(img.vol, at, length)
    decreases |evs|
  {
    if evs != [] {
      var init := evs[..|evs| - 1];
      ApplyAllUntouched(img, init, at, length);
      var ev := evs[|evs| - 1];
      assert Misses(ev, at, length);
      if WritesVolume(ev) {
        PutDataFrame(ApplyAll(img, init).vol, ev.offset, WrittenBytes(ev), at, length);
      }
    }
  }

  /** A volume write, applied last, reads back as written. */
  lemma {:induction false} WriteReadsBack(img: StoreImage, init: seq<Event>, ev: Event)
    requires WritesVolume(ev)
    ensures GetData(ApplyAll(img, init + [ev]).vol, ev.offset, |WrittenBytes(ev)|) == WrittenBytes(ev)
  {
    ApplyAllAppendOne(img, init, ev);
    var before := ApplyAll(img, init).vol;
    assert ApplyAll(img, init + [ev]).vol == PutData(before, ev.offset, WrittenBytes(ev));
    PutGetData(before, ev.offset, WrittenBytes(ev));
  }

  /** Replay writes each LONG and byte-array value at exactly its offset:
      a write that no later write overlaps is found intact afterwards. */
  lemma {:induction false} ReplayWriteIntact(img: StoreImage, evs: seq<Event>, i: nat)
    requires i < |evs| && WritesVolume(evs[i])
    requires forall j :: i < j < |evs| ==> Misses(evs[j], evs[i].offset, |WrittenBytes(evs[i])|)
    ensures GetData(ApplyAll(img, evs).vol, evs[i].offset, |WrittenBytes(evs[i])|) == WrittenBytes(evs[i])
  {
    var ev := evs[i];
    var at, length := ev.offset, |WrittenBytes(ev)|;
    var head := evs[..i] + [ev];
    var tail := evs[i + 1..];
    assert evs == head + tail;
    ApplyAllAppend(img, head, tail);
    WriteReadsBack(img, evs[..i], ev);
    forall j | 0 <= j < |tail| ensures Misses(tail[j], at, length) {
      assert tail[j] == evs[i + 1 + j];
    }
    ApplyAllUntouched(ApplyAll(img, head), tail, at, length);
  }

  /** The LONG form of the above: the long read back is the long written. */
  lemma {:induction false} ReplayLongIntact(img: StoreImage, evs: seq<Event>, i: nat)
    requires i < |evs| && evs[i].WriteLong?
    requires forall j :: i < j < |evs| ==> Misses(evs[j], evs[i].offset, 8)
    ensures GetLong(ApplyAll(img, evs).vol, evs[i].offset) == evs[i].value
  {
    ReplayWriteIntact(img, evs, i);
  }

  // ---------------------------------------------------------------------
  // The replay consumer: buffer a transaction, apply it on its commit

  /** The consumer's state: the store file and the mutations of the
      transaction not yet terminated. */
  datatype ReplayState = ReplayState(image: StoreImage, buffer: seq<Event>)

  function ReplayStep(st: ReplayState, ev: Event): ReplayState
  {
    match ev
    case Commit => ReplayState(ApplyAll(st.image, st.buffer), [])
    case Rollback => ReplayState(st.image, [])
    case BeforeReplayStart => ReplayState(st.image, [])
    case BeforeDestroyWAL => ReplayState(st.image, [])
    case _ => st.(buffer := st.buffer + [ev])
  }

  function ReplayFold(st: ReplayState, evs: seq<Event>): ReplayState
    decreases |evs|
  {
    if evs == [] then st else ReplayStep(ReplayFold(st, evs[..|evs| - 1]), evs[|evs| - 1])
  }

  /** The store file after a replay of `evs` onto `img`. */
  function Recover(img: StoreImage, evs: seq<Event>): StoreImage
  {
    ReplayFold(ReplayState(img, []), evs).image
  }

  lemma {:induction false} ReplayFoldAppendOne(st: ReplayState, evs: seq<Event>, ev: Event)
    ensures ReplayFold(st, evs + [ev]) == ReplayStep(ReplayFold(st, evs), ev)
  {
    assert (evs + [ev])[..|evs|] == evs;
  }

  lemma {:induction false} ReplayFoldAppend(st: ReplayState, a: seq<Event>, b: seq<Event>)
    ensures ReplayFold(st, a + b) == ReplayFold(ReplayFold(st, a), b)
    decreases |b|
  {
    if b == [] {
      assert a + b == a;
    } else {
      var init := b[..|b| - 1];
      assert b == init + [b[|b| - 1]];
      assert a + b == (a + init) + [b[|b| - 1]];
      ReplayFoldAppend(st, a, init);
      ReplayFoldAppendOne(st, a + init, b[|b| - 1]);
      ReplayFoldAppendOne(ReplayFold(st, a), init, b[|b| - 1]);
    }
  }

  /** Mutations are only buffered until their transaction ends. */
  lemma {:induction false} ReplayFoldData(st: ReplayState, data: seq<Event>)
    requires AllData(data)
    ensures ReplayFold(st, data) == st.(buffer := st.buffer + data)
    decreases |data|
  {
    if data == [] {
      assert st.buffer + data == st.buffer;
    } else {
      var init := data[..|data| - 1];
      assert AllData(init) by {
        forall i | 0 <= i < |init| ensures IsData(init[i]) {
          assert init[i] == data[i];
        }
      }
      ReplayFoldData(st, init);
      assert IsData(data[|data| - 1]);
      assert st.buffer + data == (st.buffer + init) + [data[|data| - 1]];
    }
  }

  /** Replaying a whole log: the start callback, the logged events, then
      the destroy callback. */
  lemma {:induction false} RecoverFrame(img: StoreImage, logged: seq<Event>)
    ensures Recover(img, [BeforeReplayStart] + logged + [BeforeDestroyWAL])
         == ReplayFold(ReplayState(img, []), logged).image
  {
    var st0 := ReplayState(img, []);
    ReplayFoldAppend(st0, [BeforeReplayStart] + logged, [BeforeDestroyWAL]);
    ReplayFoldAppend(st0, [BeforeReplayStart], logged);
    assert ReplayFold(st0, [BeforeReplayStart]) == st0 by {
      assert [BeforeReplayStart][..0] == [];
    }
    assert ReplayFold(ReplayFold(st0, [BeforeReplayStart] + logged), [BeforeDestroyWAL]).image
        == ReplayFold(st0, [BeforeReplayStart] + logged).image by {
      assert [BeforeDestroyWAL][..0] == [];
    }
  }

  /** A replayed committed transaction is applied, in the order written. */
  lemma {:induction false} RecoverCommitted(img: StoreImage, data: seq<Event>)
    requires AllData(data)
    ensures Recover(img, [BeforeReplayStart] + (data + [Event.Commit]) + [BeforeDestroyWAL]) == ApplyAll(img, data)
  {
    var st0 := ReplayState(img, []);
    RecoverFrame(img, data + [Event.Commit]);
    ReplayFoldAppendOne(st0, data, Event.Commit);
    ReplayFoldData(st0, data);
    assert [] + data == data;
  }

  /** A replayed rolled-back transaction leaves the store file unchanged. */
  lemma {:induction false} RecoverRolledBack(img: StoreImage, data: seq<Event>)
    requires AllData(data)
    ensures Recover(img, [BeforeReplayStart] + (data + [Event.Rollback]) + [BeforeDestroyWAL]) == img
  {
    var st0 := ReplayState(img, []);
    RecoverFrame(img, data + [Event.Rollback]);
    ReplayFoldAppendOne(st0, data, Event.Rollback);
    ReplayFoldData(st0, data);
  }

  /** A transaction with no terminal marker (a crash before its commit) is
      dropped by the replay. */
  lemma {:induction false} RecoverUnterminated(img: StoreImage, data: seq<Event>)
    requires AllData(data)
    ensures Recover(img, [BeforeReplayStart] + data + [BeforeDestroyWAL]) == img
  {
    RecoverFrame(img, data);
    ReplayFoldData(ReplayState(img, []), data);
  }

  /** A replayable log holding no commit or rollback leaves the store as it
      was, however much of it is sealed. */
  lemma {:induction false} RecoverDataLog(img: StoreImage, hash: Hash, files: seq<Segment>)
    requires FilesOk(hash, files) && AllData(ScanFiles(hash, files).events)
    ensures Recover(img, ReplayEvents(hash, files)) == img
  {
    var n := SealedCount(files);
    var evs := ScanFiles(hash, files).events;
    var replayed := ScanFiles(hash, files[..n]).events;
    ScanFilesPrefix(hash, files, n);
    assert AllData(replayed) by {
      forall i | 0 <= i < |replayed| ensures IsData(replayed[i]) {
        assert replayed[i] == evs[i];
      }
    }
    RecoverUnterminated(img, replayed);
  }

  /** A leftover log whose first file was never sealed is not replayed:
      the open keeps the store as it was, whatever the log holds. */
  lemma {:induction false} UnsealedLogIgnored(img: StoreImage, hash: Hash, s: Segment, rest: seq<Segment>)
    requires !Sealed(s)
    ensures Recover(img, ReplayEvents(hash, [s] + rest)) == img
  {
    UnsealedIgnored(hash, [], s, rest);
    assert [] + [s] + rest == [s] + rest;
    assert ReplayEvents(hash, []) == [BeforeReplayStart] + [] + [BeforeDestroyWAL];
    RecoverUnterminated(img, []);
  }

  // ---------------------------------------------------------------------
  // Compaction seal

  datatype SealVerdict = Adopt | Ignore

  /** The seal file's long at offset 8: WAL_SEAL adopts the compaction
      candidate; any other value, or no seal file, ignores it. */
  function CompactionSeal(seal: Option<Vol>): SealVerdict
  {
    if seal.Some? && GetLong(seal.value, SEAL_OFFSET) == WAL_SEAL then Adopt else Ignore
  }

  /** The store file an open starts from. */
  function OpenImage(main: StoreImage, candidate: Option<StoreImage>, seal: Option<Vol>): StoreImage
  {
    if candidate.Some? && CompactionSeal(seal) == Adopt then candidate.value else main
  }

  /** A seal file holding WAL_SEAL at offset 8 makes the open adopt the
      candidate. */
  lemma {:induction false} SealAdoptsCandidate(main: StoreImage, candidate: StoreImage, sealVol: Vol)
    ensures OpenImage(main, Some(candidate), Some(PutLong(sealVol, SEAL_OFFSET, WAL_SEAL))) == candidate
  {
    PutGetLong(sealVol, SEAL_OFFSET, WAL_SEAL);
  }

  /** A seal file holding WAL_SEAL + 1 makes the open ignore the candidate
      and keep the main file. */
  lemma {:induction false} SealPlusOneIgnoresCandidate(main: StoreImage, candidate: StoreImage, sealVol: Vol)
    ensures OpenImage(main, Some(candidate), Some(PutLong(sealVol, SEAL_OFFSET, WAL_SEAL + 1))) == main
  {
    PutGetLong(sealVol, SEAL_OFFSET, WAL_SEAL + 1);
  }

  // ---------------------------------------------------------------------
  // The store

  /** Where the current transaction left a recid: a record written to the
      log at a pointer, or deleted. */
  datatype TxSlot = Written(pointer: nat) | Deleted

  /** A slot agrees with the log: a written record reads back through its
      pointer as the recid's last mutation; a deleted one has a tombstone
      as its last mutation. */
  ghost predicate SlotMatches(files: seq<Segment>, evs: seq<Event>, recid: nat, slot: TxSlot)
  {
    match slot
    case Written(p) =>
      ReadRecord(files, p, recid).Ok? && LastRecordOp(evs, recid) == Some(PutOp(ReadRecord(files, p, recid).value))
    case Deleted => LastRecordOp(evs, recid) == Some(DeleteOp)
  }

  /** The transaction table lists exactly the recids the logged transaction
      mutates, each with a slot that agrees with the log. */
  ghost predicate TxTable(files: seq<Segment>, evs: seq<Event>, table: map<nat, TxSlot>)
  {
    && AllData(evs)
    && (forall r :: r in table <==> LastRecordOp(evs, r).Some?)
    && (forall r :: r in table ==> SlotMatches(files, evs, r, table[r]))
  }

  /** An empty log goes with an empty table. */
  lemma {:induction false} TxTableEmpty(files: seq<Segment>)
    ensures TxTable(files, [], map[])
  {
    forall r ensures LastRecordOp([], r).None? {
      assert LastRecordOp([], r) == None;
    }
  }

  /** Logging a mutation that touches no record keeps the table. */
  lemma {:induction false} TxTableKeep(files: seq<Segment>, evs: seq<Event>, table: map<nat, TxSlot>, files': seq<Segment>, ev: Event)
    requires TxTable(files, evs, table) && ReadsKept(files, files') && IsData(ev)
    requires forall r :: RecordOpOf(ev, r).None?
    ensures TxTable(files', evs + [ev], table)
  {
    AppendKeepsData(evs, ev);
    forall r ensures LastRecordOp(evs + [ev], r) == LastRecordOp(evs, r) {
      LastRecordOpAppend(evs, ev, r);
    }
    forall r | r in table ensures SlotMatches(files', evs + [ev], r, table[r]) {
      assert SlotMatches(files, evs, r, table[r]);
    }
  }

  /** Logging a mutation of `recid` alone moves its slot to `slot`. */
  lemma {:induction false} TxTableSet(files: seq<Segment>, evs: seq<Event>, table: map<nat, TxSlot>,
                                      files': seq<Segment>, ev: Event, recid: nat, slot: TxSlot)
    requires TxTable(files, evs, table) && ReadsKept(files, files') && IsData(ev)
    requires forall r :: r != recid ==> RecordOpOf(ev, r).None?
    requires slot.Written? ==>
      ReadRecord(files', slot.pointer, recid).Ok? &&
      RecordOpOf(ev, recid) == Some(PutOp(ReadRecord(files', slot.pointer, recid).value))
    requires slot.Deleted? ==> RecordOpOf(ev, recid) == Some(DeleteOp)
    ensures TxTable(files', evs + [ev], table[recid := slot])
  {
    AppendKeepsData(evs, ev);
    forall r ensures LastRecordOp(evs + [ev], r) == if r == recid then RecordOpOf(ev, recid) else LastRecordOp(evs, r) {
      LastRecordOpAppend(evs, ev, r);
    }
    forall r | r in table && r != recid ensures SlotMatches(files', evs + [ev], r, table[r]) {
      assert SlotMatches(files, evs, r, table[r]);
    }
  }

  /** The replay event of a record put: it mutates `recid` alone, to `data`. */
  lemma {:induction false} RecordEvent(img: StoreImage, recid: nat, data: Option<seq<Byte>>, file: nat, offset: nat)
    ensures var ev := EventOf(RecordEntry(recid, data), file, offset);
      && IsData(ev)
      && RecordOpOf(ev, recid) == Some(PutOp(data))
      && (forall r :: r != recid ==> RecordOpOf(ev, r).None?)
      && ApplyEvent(img, ev) == img.(records := img.records[recid := data])
  {
  }

  /** The log side of a store commit: a commit marker is written, the log
      replayed, and then reset to one empty file. */
  method CommitLog(wal: Wal) returns (events: seq<Event>)
    requires wal.Valid()
    modifies wal
    ensures wal.Valid()
    ensures events == [BeforeReplayStart] + (old(wal.LogEvents()) + [Event.Commit]) + [BeforeDestroyWAL]
    ensures wal.LogEvents() == [] && wal.files == [FreshSegment]
  {
    ghost var c := wal.Commit();
    wal.Seal();
    events := wal.ReplayWAL();
    wal.Reset();
  }

  class Store {
    /** The main volume and the committed records. */
    var vol: Vol
    var records: map<nat, Option<seq<Byte>>>
    /** The log holding the current transaction. */
    const wal: Wal
    /** The recids the current transaction has touched. */
    var uncommitted: map<nat, TxSlot>

    function Image(): StoreImage
      reads this
    {
      StoreImage(vol, records)
    }

    ghost predicate Valid()
      reads this, wal
    {
      wal.Valid() && TxTable(wal.files, wal.LogEvents(), uncommitted)
    }

    /** The records as a read sees them: the committed ones with the
        pending transaction applied. */
    ghost function View(): map<nat, Option<seq<Byte>>>
      reads this, wal
    {
      ApplyAll(Image(), wal.LogEvents()).records
    }

    /** A new store: the header is written, no record exists and the log
        has not created any file yet. */
    constructor Create(hash: Hash)
      ensures Valid() && fresh(wal) && wal.hash == hash
      ensures GetInt(vol, 0) == STORE_HEADER
      ensures records == map[] && uncommitted == map[]
      ensures wal.files == [] && wal.fileNum == -1
    {
      vol := PutInt(map[], 0, STORE_HEADER);
      records := map[];
      wal := new Wal(hash);
      uncommitted := map[];
      new;
      PutGetInt(map[], 0, STORE_HEADER);
    }

    /** Opens a store file, adopting a sealed compaction candidate, then
        replays the committed part of the log left behind. */
    constructor Open(hash: Hash, main: StoreImage, leftover: seq<Segment>, candidate: Option<StoreImage>, seal: Option<Vol>)
      ensures Valid() && fresh(wal) && wal.hash == hash
      ensures Image() == Recover(OpenImage(main, candidate, seal), ReplayEvents(hash, leftover))
      ensures uncommitted == map[] && wal.files == []
    {
      var img := Recover(OpenImage(main, candidate, seal), ReplayEvents(hash, leftover));
      vol := img.vol;
      records := img.records;
      wal := new Wal(hash);
      uncommitted := map[];
    }

    /** Reads a record: the transaction's own write or delete wins over the
        committed record. */
    function Get(recid: nat): (r: Result<Option<seq<Byte>>, StoreError>)
      reads this, wal
      requires Valid()
      ensures r == Lookup(View(), recid)
    {
      ApplyAllLookup(Image(), wal.LogEvents(), recid);
      if recid in uncommitted then
        match uncommitted[recid]
        case Written(p) => Ok(wal.GetRecord(p, recid).value)
        case Deleted => Err(RecordNotFound)
      else
        Lookup(records, recid)
    }

    /** Writes (or, with `None`, nulls) a record within the transaction. */
    method Update(recid: nat, data: Option<seq<Byte>>)
      requires Valid()
      modifies this, wal
      ensures Valid() && Image() == old(Image())
      ensures View() == old(View())[recid := data]
      ensures Get(recid) == Ok(data)
      ensures |wal.LogEvents()| == old(|wal.LogEvents()|) + 1
      ensures wal.LogEvents()[..old(|wal.LogEvents()|)] == old(wal.LogEvents())
      ensures var ev := wal.LogEvents()[old(|wal.LogEvents()|)];
        && ev.WriteRecord? && ev.recid == recid
        && (data.None? <==> ev.vol.None?) && (data.Some? ==> ev.payload == data.value)
        && ApplyEvent(Image(), ev) == Image().(records := records[recid := data])
    {
      ghost var evs := wal.LogEvents();
      ghost var files0 := wal.files;
      var p := wal.WalPutRecord(recid, data);
      ghost var ev := EventOf(RecordEntry(recid, data), wal.fileNum, PointerOffset(p));
      RecordEvent(Image(), recid, data, wal.fileNum, PointerOffset(p));
      TxTableSet(files0, evs, uncommitted, wal.files, ev, recid, Written(p));
      uncommitted := uncommitted[recid := Written(p)];
      ApplyAllAppendOne(Image(), evs, ev);
      assert wal.LogEvents() == evs + [ev];
    }

    /** Puts a record under a recid the allocator has just handed out. */
    method Put(recid: nat, data: Option<seq<Byte>>)
      requires Valid() && Get(recid).Err?
      modifies this, wal
      ensures Valid() && Image() == old(Image())
      ensures View() == old(View())[recid := data]
      ensures old(Lookup(View(), recid)).Err? && Get(recid) == Ok(data)
      ensures |wal.LogEvents()| == old(|wal.LogEvents()|) + 1
      ensures wal.LogEvents()[..old(|wal.LogEvents()|)] == old(wal.LogEvents())
      ensures var ev := wal.LogEvents()[old(|wal.LogEvents()|)];
        && ev.WriteRecord? && ev.recid == recid
        && (data.None? <==> ev.vol.None?) && (data.Some? ==> ev.payload == data.value)
        && ApplyEvent(Image(), ev) == Image().(records := records[recid := data])
    {
      Update(recid, data);
    }

    /** Deletes a record within the transaction. */
    method Delete(recid: nat)
      requires Valid()
      modifies this, wal
      ensures Valid() && Image() == old(Image())
      ensures View() == old(View()) - {recid}
      ensures Get(recid) == Err(RecordNotFound)
      ensures wal.LogEvents() == old(wal.LogEvents()) + [WriteTombstone(recid)]
    {
      ghost var evs := wal.LogEvents();
      ghost var files0 := wal.files;
      wal.WalPutTombstone(recid);
      ghost var ev := WriteTombstone(recid);
      TxTableSet(files0, evs, uncommitted, wal.files, ev, recid, Deleted);
      uncommitted := uncommitted[recid := Deleted];
      ApplyAllAppendOne(Image(), evs, ev);
    }

    /** Logs a long for the main volume; it reaches the volume on commit. */
    method WalPutLong(offset: nat, value: bv64)
      requires Valid()
      modifies this, wal
      ensures Valid() && Image() == old(Image()) && View() == old(View())
      ensures wal.LogEvents() == old(wal.LogEvents()) + [WriteLong(offset, value)]
    {
      ghost var evs := wal.LogEvents();
      ghost var files0 := wal.files;
      wal.WalPutLong(offset, value);
      ghost var ev := WriteLong(offset, value);
      ApplyAllAppendOne(Image(), evs, ev);
      TxTableKeep(files0, evs, uncommitted, wal.files, ev);
    }

    /** Logs a byte array for the main volume; it reaches the volume on
        commit. */
    method PutDataSingleWithoutLink(offset: nat, data: seq<Byte>)
      requires Valid()
      modifies this, wal
      ensures Valid() && Image() == old(Image()) && View() == old(View())
      ensures |wal.LogEvents()| == old(|wal.LogEvents()|) + 1
      ensures var ev := wal.LogEvents()[|wal.LogEvents()| - 1];
        && wal.LogEvents()[..|wal.LogEvents()| - 1] == old(wal.LogEvents())
        && ev.WriteByteArray? && ev.offset == offset && ev.payload == data
    {
      ghost var evs := wal.LogEvents();
      ghost var files0 := wal.files;
      var p := wal.WalPutByteArray(offset, data);
      ghost var ev := wal.LogEvents()[|evs|];
      assert wal.LogEvents() == evs + [ev];
      ApplyAllAppendOne(Image(), evs, ev);
      TxTableKeep(files0, evs, uncommitted, wal.files, ev);
    }

    /** Applies one replayed mutation to the main volume or the records. */
    method ApplyOne(ev: Event)
      modifies this
      ensures Image() == ApplyEvent(old(Image()), ev) && uncommitted == old(uncommitted)
    {
      match ev {
        case WriteLong(o, v) => vol := PutLong(vol, o, v);
        case WriteByteArray(o, _, _, _, _, d) => vol := PutData(vol, o, d);
        case WriteRecord(r, _, file, _, _, d) => records := records[r := if file.None? then None else Some(d)];
        case WriteTombstone(r) => records := records - {r};
        case WritePreallocate(r) => records := records[r := None];
        case _ =>
      }
    }

    /** Applies a committed transaction's mutations in log order. */
    method ApplyBuffer(buffer: seq<Event>)
      modifies this
      ensures Image() == ApplyAll(old(Image()), buffer) && uncommitted == old(uncommitted)
    {
      var i := 0;
      while i < |buffer|
        invariant 0 <= i <= |buffer|
        invariant Image() == ApplyAll(old(Image()), buffer[..i]) && uncommitted == old(uncommitted)
      {
        assert buffer[..i + 1] == buffer[..i] + [buffer[i]];
        ApplyAllAppendOne(old(Image()), buffer[..i], buffer[i]);
        ApplyOne(buffer[i]);
        i := i + 1;
      }
      assert buffer[..i] == buffer;
    }

    /** The replay callback: buffers each transaction's mutations and
        applies them when its commit arrives; a rollback, or the end of the
        replay, drops the buffer. */
    method ApplyReplay(events: seq<Event>)
      modifies this
      ensures Image() == Recover(old(Image()), events) && uncommitted == old(uncommitted)
    {
      var buffer: seq<Event> := [];
      var k := 0;
      while k < |events|
        invariant 0 <= k <= |events|
        invariant ReplayState(Image(), buffer) == ReplayFold(ReplayState(old(Image()), []), events[..k])
        invariant uncommitted == old(uncommitted)
      {
        var ev := events[k];
        assert events[..k + 1] == events[..k] + [ev];
        ReplayFoldAppendOne(ReplayState(old(Image()), []), events[..k], ev);
        match ev {
          case Commit =>
            ApplyBuffer(buffer);
            buffer := [];
          case Rollback => buffer := [];
          case BeforeReplayStart => buffer := [];
          case BeforeDestroyWAL => buffer := [];
          case _ => buffer := buffer + [ev];
        }
        k := k + 1;
      }
      assert events[..k] == events;
    }

    /** Commits the transaction: the log gets a commit marker, is replayed
        into the main volume and the records, and is then discarded. */
    method Commit()
      requires Valid()
      modifies this, wal
      ensures Valid()
      ensures Image() == ApplyAll(old(Image()), old(wal.LogEvents()))
      ensures records == old(View())
      ensures uncommitted == map[] && wal.LogEvents() == [] && wal.files == [FreshSegment]
    {
      ghost var evs := wal.LogEvents();
      var events := CommitLog(wal);
      RecoverCommitted(Image(), evs);
      ApplyReplay(events);
      TxTableEmpty(wal.files);
      uncommitted := map[];
    }

    /** Abandons the transaction: the log gets a rollback marker and is
        discarded; the main volume and the records are untouched. */
    method Rollback()
      requires Valid()
      modifies this, wal
      ensures Valid()
      ensures Image() == old(Image()) && View() == records
      ensures uncommitted == map[] && wal.LogEvents() == [] && wal.files == [FreshSegment]
    {
      wal.Rollback();
      wal.Reset();
      uncommitted := map[];
    }

    /** Replays whatever the log holds into the store and discards it; the
        pending, not yet committed, transaction is dropped. */
    method ReplayWAL()
      requires Valid()
      modifies this, wal
      ensures Valid()
      ensures Image() == Recover(old(Image()), ReplayEvents(wal.hash, old(wal.files)))
      ensures Image() == old(Image())
      ensures uncommitted == map[] && wal.LogEvents() == []
    {
      var events := wal.ReplayWAL();
      ApplyReplay(events);
      RecoverDataLog(old(Image()), wal.hash, wal.files);
      wal.Reset();
      uncommitted := map[];
      TxTableEmpty(wal.files);
    }

    /** Hands back what a close leaves on disk: the store file and the log
        files. */
    method Close() returns (image: StoreImage, log: seq<Segment>)
      ensures image == Image() && log == wal.files
    {
      image := Image();
      log := wal.files;
    }
  }

  lemma {:induction false} AppendKeepsData(evs: seq<Event>, ev: Event)
    requires AllData(evs) && IsData(ev)
    ensures AllData(evs + [ev])
  {
    assert forall i :: 0 <= i < |evs| ==> (evs + [ev])[i] == evs[i];
  }
}
