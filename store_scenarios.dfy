/** The store's documented behaviours, each played on a fresh store. */
module StoreScenarios {
  import opened Wrappers
  import opened Volume
  import opened WalFormat
  import opened WriteAheadLog
  import opened StoreWal

  /** Opening creates no log file; the first commit creates file 0 and the
      second commit reuses it. */
  method WalCreated(hash: Hash, first: nat, second: nat, value: seq<Byte>)
    returns (before: nat, afterFirst: nat, afterSecond: nat)
    requires first != second
    ensures before == 0 && afterFirst == 1 && afterSecond == 1
  {
    var s := new Store.Create(hash);
    before := |s.wal.files|;
    s.Put(first, Some(value));
    s.Commit();
    afterFirst := |s.wal.files|;
    s.Put(second, Some(value));
    s.Commit();
    afterSecond := |s.wal.files|;
  }

  /** A long logged for the main volume is found there after the commit,
      and a further replay of the (now empty) log leaves it there. */
  method ReplayLong(hash: Hash, v: bv64) returns (read: bv64)
    ensures read == v
  {
    var s := new Store.Create(hash);
    var offset := 0xF0000;
    ghost var vol0 := s.vol;
    s.WalPutLong(offset, v);
    s.Commit();
    assert s.vol == PutLong(vol0, offset, v);
    PutGetLong(vol0, offset, v);
    s.ReplayWAL();
    read := GetLong(s.vol, offset);
  }

  // ---------------------------------------------------------------------
  // Longs and byte arrays interleaved in one transaction

  const LONGS_AT: nat := 0xF0000
  const ARRAYS_AT: nat := Round16Up(100000) + 64

  /** Nine bytes, each equal to `i`. */
  function Fill(i: nat): (r: seq<Byte>)
    requires i < 256
    ensures |r| == 9 && forall k :: 0 <= k < 9 ==> r[k] == i as Byte
  {
    seq(9, _ => i as Byte)
  }

  /** Round `j` of the write loop logged its long and then its array. */
  ghost predicate Logged(evs: seq<Event>, v: seq<bv64>, j: nat)
  {
    && 2 * j + 1 < |evs| && j < |v| && j < 256
    && evs[2 * j] == WriteLong(LONGS_AT + 8 * j, v[j])
    && evs[2 * j + 1].WriteByteArray?
    && evs[2 * j + 1].offset == ARRAYS_AT + 16 * j
    && evs[2 * j + 1].payload == Fill(j)
  }

  /** After the three rounds are applied, each round's long and array read
      back as written. */
  lemma {:induction false} MixedReadBack(img: StoreImage, evs: seq<Event>, v: seq<bv64>, i: nat)
    requires |evs| == 6 && |v| == 3 && i < 3
    requires forall j :: 0 <= j < 3 ==> Logged(evs, v, j)
    ensures GetLong(ApplyAll(img, evs).vol, LONGS_AT + 8 * i) == v[i]
    ensures GetData(ApplyAll(img, evs).vol, ARRAYS_AT + 16 * i, 9) == Fill(i)
  {
    assert ARRAYS_AT == 100064;
    assert Logged(evs, v, 0) && Logged(evs, v, 1) && Logged(evs, v, 2);
    assert Logged(evs, v, i);
    var long := evs[2 * i];
    var bytes := evs[2 * i + 1];
    assert long == WriteLong(LONGS_AT + 8 * i, v[i]);
    assert bytes.WriteByteArray? && bytes.offset == ARRAYS_AT + 16 * i;
    assert WrittenBytes(bytes) == Fill(i) && |WrittenBytes(bytes)| == 9;
    forall j | 2 * i < j < 6 ensures Misses(evs[j], long.offset, 8) {
      assert j == 1 || j == 2 || j == 3 || j == 4 || j == 5;
    }
    ReplayLongIntact(img, evs, 2 * i);
    forall j | 2 * i + 1 < j < 6 ensures Misses(evs[j], bytes.offset, 9) {
      assert j == 2 || j == 3 || j == 4 || j == 5;
    }
    ReplayWriteIntact(img, evs, 2 * i + 1);
  }

  /** One round of the write loop: a long, then a nine-byte array. */
  method LogRound(s: Store, i: nat, value: bv64)
    requires s.Valid() && i < 256
    modifies s, s.wal
    ensures s.Valid() && s.Image() == old(s.Image())
    ensures var evs := old(s.wal.LogEvents()); var evs' := s.wal.LogEvents();
      && |evs'| == |evs| + 2 && evs'[..|evs|] == evs
      && evs'[|evs|] == WriteLong(LONGS_AT + 8 * i, value)
      && evs'[|evs| + 1].WriteByteArray?
      && evs'[|evs| + 1].offset == ARRAYS_AT + 16 * i && evs'[|evs| + 1].payload == Fill(i)
  {
    s.WalPutLong(LONGS_AT + 8 * i, value);
    s.PutDataSingleWithoutLink(ARRAYS_AT + 16 * i, Fill(i));
  }

  /** A logged round stays logged when the next round is appended. */
  lemma {:induction false} LoggedExtend(evs: seq<Event>, evs': seq<Event>, v: seq<bv64>, i: nat)
    requires |evs| == 2 * i && i < |v| && i < 256
    requires forall j :: 0 <= j < i ==> Logged(evs, v, j)
    requires |evs'| == |evs| + 2 && evs'[..|evs|] == evs
    requires evs'[|evs|] == WriteLong(LONGS_AT + 8 * i, v[i])
    requires evs'[|evs| + 1].WriteByteArray?
    requires evs'[|evs| + 1].offset == ARRAYS_AT + 16 * i && evs'[|evs| + 1].payload == Fill(i)
    ensures forall j :: 0 <= j <= i ==> Logged(evs', v, j)
  {
    forall j | 0 <= j < i ensures Logged(evs', v, j) {
      assert Logged(evs, v, j);
      assert evs'[2 * j] == evs'[..|evs|][2 * j] && evs'[2 * j + 1] == evs'[..|evs|][2 * j + 1];
    }
  }

  /** Three rounds, each logging a long and a nine-byte array, then one
      commit: every long and every array is found in the main volume. */
  method ReplayMixed(hash: Hash, v: seq<bv64>) returns (longs: seq<bv64>, arrays: seq<seq<Byte>>)
    requires |v| == 3
    ensures |longs| == 3 && |arrays| == 3
    ensures forall i :: 0 <= i < 3 ==> longs[i] == v[i] && arrays[i] == Fill(i)
  {
    var s := new Store.Create(hash);
    ghost var img0 := s.Image();
    ghost var evs: seq<Event> := [];
    var i := 0;
    while i < 3
      invariant 0 <= i <= 3 && s.Valid() && fresh(s.wal) && s.Image() == img0
      invariant s.wal.LogEvents() == evs && |evs| == 2 * i
      invariant forall j :: 0 <= j < i ==> Logged(evs, v, j)
    {
      LogRound(s, i, v[i]);
      ghost var evs' := s.wal.LogEvents();
      LoggedExtend(evs, evs', v, i);
      evs := evs';
      i := i + 1;
    }
    s.Commit();
    s.ReplayWAL();
    longs, arrays := ReadRounds(s.vol, img0, evs, v);
  }

  /** The read loop: each round's long and bytes, from the main volume. */
  method ReadRounds(vol: Vol, ghost img: StoreImage, ghost evs: seq<Event>, v: seq<bv64>)
    returns (longs: seq<bv64>, arrays: seq<seq<Byte>>)
    requires vol == ApplyAll(img, evs).vol
    requires |evs| == 6 && |v| == 3 && forall j :: 0 <= j < 3 ==> Logged(evs, v, j)
    ensures |longs| == 3 && |arrays| == 3
    ensures forall i :: 0 <= i < 3 ==> longs[i] == v[i] && arrays[i] == Fill(i)
  {
    longs := [];
    arrays := [];
    var i := 0;
    while i < 3
      invariant 0 <= i <= 3
      invariant |longs| == i && |arrays| == i
      invariant forall j :: 0 <= j < i ==> longs[j] == v[j] && arrays[j] == Fill(j)
    {
      MixedReadBack(img, evs, v, i);
      longs := longs + [GetLong(vol, LONGS_AT + 8 * i)];
      arrays := arrays + [GetData(vol, ARRAYS_AT + 16 * i, 9)];
      i := i + 1;
    }
  }

  // ---------------------------------------------------------------------
  // Compaction seal

  /** A log discarded by a commit replays nothing on the next open. */
  lemma {:induction false} EmptyLogRecovers(s: Store, img: StoreImage)
    requires s.wal.Valid() && s.wal.LogEvents() == []
    ensures Recover(img, ReplayEvents(s.wal.hash, s.wal.files)) == img
  {
    RecoverDataLog(img, s.wal.hash, s.wal.files);
  }

  /** An update committed on a store with an empty log changes only the
      record table: the store file's bytes stay as they were. */
  method UpdateCommit(s: Store, recid: nat, data: Option<seq<Byte>>)
    requires s.Valid() && s.wal.LogEvents() == []
    modifies s, s.wal
    ensures s.Valid() && s.wal.LogEvents() == []
    ensures s.vol == old(s.vol)
    ensures s.records == old(s.records)[recid := data]
  {
    ghost var img := s.Image();
    s.Update(recid, data);
    ghost var ev := s.wal.LogEvents()[0];
    assert s.wal.LogEvents() == [ev];
    assert ApplyAll(img, [ev]) == ApplyEvent(ApplyAll(img, []), ev);
    s.Commit();
  }

  /** A record is committed and the store file copied aside as a compaction
      candidate; the record is then updated and committed. On reopening,
      a seal holding WAL_SEAL makes the candidate the store and the update
      is gone; a seal holding WAL_SEAL + 1 keeps the main file and the
      update. */
  method CompactSwap(hash: Hash, recid: nat, original: seq<Byte>, updated: seq<Byte>, seal: bool, sealVol: Vol)
    returns (read: Result<Option<seq<Byte>>, StoreError>)
    ensures read == Ok(Some(if seal then original else updated))
  {
    var s := new Store.Create(hash);
    s.Put(recid, Some(original));
    s.Commit();
    var main, log := s.Close();
    EmptyLogRecovers(s, OpenImage(main, None, None));
    var candidate := main;

    s := new Store.Open(hash, main, log, None, None);
    s.Update(recid, Some(updated));
    s.Commit();
    main, log := s.Close();
    var sealed := PutLong(sealVol, SEAL_OFFSET, if seal then WAL_SEAL else WAL_SEAL + 1);
    if seal {
      SealAdoptsCandidate(main, candidate, sealVol);
    } else {
      SealPlusOneIgnoresCandidate(main, candidate, sealVol);
    }
    EmptyLogRecovers(s, OpenImage(main, Some(candidate), Some(sealed)));

    s := new Store.Open(hash, main, log, Some(candidate), Some(sealed));
    read := s.Get(recid);
  }

  // ---------------------------------------------------------------------
  // Commits and rollbacks

  /** Some round updating `recid` was committed rather than rolled back. */
  predicate CommittedUpdate(order: seq<nat>, reverts: seq<bool>, recid: nat)
    requires |reverts| == |order|
  {
    exists i :: 0 <= i < |order| && order[i] == recid && !reverts[i]
  }

  lemma {:induction false} CommittedUpdateStep(order: seq<nat>, reverts: seq<bool>, i: nat, recid: nat)
    requires |reverts| == |order| && i < |order|
    ensures CommittedUpdate(order[..i + 1], reverts[..i + 1], recid) <==>
      CommittedUpdate(order[..i], reverts[..i], recid) || (order[i] == recid && !reverts[i])
  {
    if CommittedUpdate(order[..i + 1], reverts[..i + 1], recid) {
      var k :| 0 <= k < i + 1 && order[..i + 1][k] == recid && !reverts[..i + 1][k];
      if k < i {
        assert order[..i][k] == recid && !reverts[..i][k];
      }
    }
    if CommittedUpdate(order[..i], reverts[..i], recid) {
      var k :| 0 <= k < i && order[..i][k] == recid && !reverts[..i][k];
      assert order[..i + 1][k] == recid && !reverts[..i + 1][k];
    }
    if order[i] == recid && !reverts[i] {
      assert order[..i + 1][i] == recid && !reverts[..i + 1][i];
    }
  }

  /** The records a fill of `initial` puts. */
  function Filled(initial: map<nat, seq<Byte>>): (r: map<nat, Option<seq<Byte>>>)
    ensures forall k :: k in r <==> k in initial
  {
    map k | k in initial :: Some(initial[k])
  }

  /** Puts every record of `initial` into an empty store. */
  method FillStore(s: Store, initial: map<nat, seq<Byte>>)
    requires s.Valid() && s.records == map[] && s.wal.LogEvents() == []
    modifies s, s.wal
    ensures s.Valid() && s.View() == Filled(initial)
  {
    var keys := initial.Keys;
    while keys != {}
      invariant s.Valid() && keys <= initial.Keys
      invariant s.View() == map r | r in initial && r !in keys :: Some(initial[r])
      decreases keys
    {
      var k :| k in keys;
      ghost var view := s.View();
      s.Put(k, Some(initial[k]));
      keys := keys - {k};
      assert s.View() == view[k := Some(initial[k])];
    }
  }

  /** Updates one record, then rolls the update back or commits it. */
  method UpdateRound(s: Store, recid: nat, revert: bool, updated: seq<Byte>)
    requires s.Valid() && s.wal.LogEvents() == [] && s.View() == s.records
    modifies s, s.wal
    ensures s.Valid() && s.wal.LogEvents() == [] && s.View() == s.records
    ensures s.records == if revert then old(s.records) else old(s.records)[recid := Some(updated)]
  {
    s.Update(recid, Some(updated));
    if revert {
      s.Rollback();
    } else {
      s.Commit();
    }
  }

  /** Updates each recid of `order` and commits, or rolls back where
      `reverts` says so. */
  method UpdateRounds(s: Store, order: seq<nat>, reverts: seq<bool>, updated: seq<Byte>)
    requires |reverts| == |order|
    requires s.Valid() && s.wal.LogEvents() == [] && s.View() == s.records
    modifies s, s.wal
    ensures s.Valid() && s.wal.LogEvents() == [] && s.View() == s.records
    ensures forall r ::
      Lookup(s.records, r) == (if CommittedUpdate(order, reverts, r) then Ok(Some(updated)) else old(Lookup(s.records, r)))
  {
    var i := 0;
    while i < |order|
      invariant 0 <= i <= |order| && s.Valid()
      invariant s.wal.LogEvents() == [] && s.View() == s.records
      invariant forall r ::
        Lookup(s.records, r) == (if CommittedUpdate(order[..i], reverts[..i], r) then Ok(Some(updated)) else old(Lookup(s.records, r)))
    {
      ghost var before := s.records;
      UpdateRound(s, order[i], reverts[i], updated);
      forall r ensures Lookup(s.records, r) ==
        (if CommittedUpdate(order[..i + 1], reverts[..i + 1], r) then Ok(Some(updated)) else old(Lookup(s.records, r)))
      {
        CommittedUpdateStep(order, reverts, i, r);
        if r == order[i] && !reverts[i] {
          assert Lookup(s.records, r) == Ok(Some(updated));
        } else {
          assert Lookup(s.records, r) == Lookup(before, r);
        }
      }
      i := i + 1;
    }
    assert order[..i] == order && reverts[..i] == reverts;
  }

  /** The store is filled and committed; then each recid of `order` is
      updated and the update committed, or rolled back where `reverts`
      says so. Every recid then reads as its last committed value. */
  method CommitsAndRollbacks(hash: Hash, initial: map<nat, seq<Byte>>, order: seq<nat>, reverts: seq<bool>, updated: seq<Byte>)
    returns (s: Store)
    requires |reverts| == |order|
    ensures s.Valid()
    ensures forall r ::
      s.Get(r) == (if CommittedUpdate(order, reverts, r) then Ok(Some(updated)) else Lookup(Filled(initial), r))
  {
    s := new Store.Create(hash);
    FillStore(s, initial);
    s.Commit();
    UpdateRounds(s, order, reverts, updated);
  }

  /** The main volume starts with the store header and the log file with
      the log header. */
  method Headers(hash: Hash) returns (storeHeader: bv32, walHeader: bv32)
    ensures storeHeader == STORE_HEADER && walHeader == WAL_HEADER
  {
    var s := new Store.Create(hash);
    s.WalPutLong(111, 1111);
    storeHeader := GetInt(s.vol, 0);
    walHeader := s.wal.files[0].header;
  }
}
