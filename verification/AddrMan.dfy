/**
  The operations of the address manager (src/addrman.cpp): Add_, Good_,
  Attempt_, GetAddr_, Connected_ and SetServices_, as functions on the tables.
  AddrManager has the object that updates them in place.
*/
module AddrMan {

  import opened Arithmetic
  import opened AddrTables

  const HORIZON_DAYS := 30
  const RETRIES := 3
  const MAX_FAILURES := 10
  const MIN_FAIL_DAYS := 7
  const GETADDR_MAX_PCT := 23
  const GETADDR_MAX := 2500
  const DAY := 24 * 60 * 60

  function IsTerrible(info: Info, nNow: int): bool {
    if info.nLastTry != 0 && info.nLastTry >= nNow - 60 then false
    else if info.nTime > nNow + 10 * 60 then true
    else if info.nTime == 0 || nNow - info.nTime > HORIZON_DAYS * DAY then true
    else if info.nLastSuccess == 0 && info.nAttempts >= RETRIES then true
    else nNow - info.nLastSuccess > MIN_FAIL_DAYS * DAY && info.nAttempts >= MAX_FAILURES
  }

  // ----- Good_ -----

  /** Where an entry goes in the new table by its own source. */
  function HomeCell(h: Hasher, info: Info): (cell: nat)
    ensures cell < NEW_BUCKET_COUNT * BUCKET_SIZE
    ensures cell == NewSlot(h, info.service, cell / BUCKET_SIZE)
  {
    NewSlot(h, info.service, h.newBucket(info.service, info.source))
  }

  /** The tried entry in a cell goes back to the new table, displacing whatever
      is in its home cell. */
  ghost function Evict(h: Hasher, s: State, cell: nat, zero: set<int>, uncounted: int): State
    requires InvExcept(h, s, zero, uncounted) && cell < |s.vvTried| && s.vvTried[cell] != EMPTY
  {
    var id := s.vvTried[cell];
    DropTriedInv(h, s, cell, zero, uncounted);
    EvictRef(h, s, id, zero, uncounted);
    var dropped := DropTried(s, cell);
    var home := HomeCell(h, s.mapInfo[id]);
    EvictStep(h, dropped, home, id, zero + {id}, uncounted + 1);
    var cleared := ClearNew(dropped, home);
    PutNew(cleared, home, id).(nNew := cleared.nNew + 1)
  }

  /** An entry in no cell survives the clearing of any cell. */
  lemma EvictStep(h: Hasher, s: State, cell: nat, id: int, zero: set<int>, uncounted: int)
    requires InvExcept(h, s, zero, uncounted) && cell < |s.vvNew| && id in s.mapInfo && s.mapInfo[id].nRefCount == 0
    ensures ClearNew.requires(s, cell)
    ensures var t := ClearNew(s, cell);
      && InvExcept(h, t, zero, uncounted) && |t.vvNew| == |s.vvNew| && t.vvNew[cell] == EMPTY && t.vvTried == s.vvTried
      && id in t.mapInfo && t.mapInfo[id] == s.mapInfo[id].(nRandomPos := t.mapInfo[id].nRandomPos)
  {
    ClearNewInv(h, s, cell, zero, uncounted);
    ClearNewEffect(h, s, cell, zero, uncounted);
    NotThere(h, s.mapInfo, s.vvNew, zero, id, cell);
  }

  lemma NotThere(h: Hasher, m: InfoMap, vvNew: seq<int>, zero: set<int>, id: int, cell: nat)
    requires NewOk(h, m, vvNew, zero) && id in m && m[id].nRefCount == 0 && cell < |vvNew|
    ensures vvNew[cell] != id
  {
    assert RefOk(m, vvNew, zero, id);
    assert cell as int !in Cells(vvNew, id);
  }

  lemma EvictInv(h: Hasher, s: State, cell: nat, zero: set<int>, uncounted: int)
    requires InvExcept(h, s, zero, uncounted) && cell < |s.vvTried| && s.vvTried[cell] != EMPTY
    ensures InvExcept(h, Evict(h, s, cell, zero, uncounted), zero, uncounted)
  {
    var id := s.vvTried[cell];
    DropTriedInv(h, s, cell, zero, uncounted);
    var dropped := DropTried(s, cell);
    var home := HomeCell(h, s.mapInfo[id]);
    EvictRef(h, s, id, zero, uncounted);
    EvictStep(h, dropped, home, id, zero + {id}, uncounted + 1);
    var cleared := ClearNew(dropped, home);
    PutNewInv(h, cleared, home, id, zero + {id}, uncounted + 1);
    var put := PutNew(cleared, home, id);
    Recount(h, put, put.(nNew := put.nNew + 1), zero + {id} - {id}, zero, uncounted + 1, uncounted);
  }

  lemma EvictRef(h: Hasher, s: State, id: int, zero: set<int>, uncounted: int)
    requires InvExcept(h, s, zero, uncounted) && id in s.mapInfo && s.mapInfo[id].fInTried
    ensures s.mapInfo[id].nRefCount == 0
  {
    assert RefOk(s.mapInfo, s.vvNew, zero, id);
  }

  /** Adjusting nNew, and the ids that may be out of the table. */
  lemma Recount(h: Hasher, s: State, t: State, zero: set<int>, zero': set<int>, uncounted: int, uncounted': int)
    requires InvExcept(h, s, zero, uncounted) && t == s.(nNew := s.nNew + uncounted - uncounted')
    requires forall id :: id in zero && id in s.mapInfo ==> id in zero'
    ensures InvExcept(h, t, zero', uncounted')
  {
    WeakenZero(h, s, zero, zero', uncounted);
  }

  ghost function MakeTried(h: Hasher, s: State, id: int): State
    requires Inv(h, s) && id in s.mapInfo && !s.mapInfo[id].fInTried
  {
    StripNewInv(h, s, id, {}, 0);
    var stripped := StripNew(s, id).(nNew := s.nNew - 1);
    Recount(h, StripNew(s, id), stripped, {} + {id}, {id}, 0, 1);
    var cell := TriedSlot(h, s.mapInfo[id].service);
    var spaced := MakeSpace(h, stripped, cell, id);
    MakeSpaceInv(h, stripped, cell, id);
    PutTried(spaced, cell, id)
  }

  ghost function MakeSpace(h: Hasher, s: State, cell: nat, id: int): State
    requires InvExcept(h, s, {id}, 1) && cell < |s.vvTried|
  {
    if s.vvTried[cell] == EMPTY then s else Evict(h, s, cell, {id}, 1)
  }

  /** Making space empties the tried cell and keeps the entry that is on its way
      there. */
  lemma MakeSpaceInv(h: Hasher, s: State, cell: nat, id: int)
    requires InvExcept(h, s, {id}, 1) && cell < |s.vvTried|
    requires id in s.mapInfo && s.mapInfo[id].nRefCount == 0 && !s.mapInfo[id].fInTried
    ensures var t := MakeSpace(h, s, cell, id);
      && InvExcept(h, t, {id}, 1) && |t.vvTried| == |s.vvTried| && t.vvTried[cell] == EMPTY
      && id in t.mapInfo && t.mapInfo[id] == s.mapInfo[id].(nRandomPos := t.mapInfo[id].nRandomPos)
  {
    if s.vvTried[cell] != EMPTY {
      var e := s.vvTried[cell];
      EvictInv(h, s, cell, {id}, 1);
      DropTriedInv(h, s, cell, {id}, 1);
      EvictRef(h, s, e, {id}, 1);
      var dropped := DropTried(s, cell);
      var home := HomeCell(h, s.mapInfo[e]);
      EvictStep(h, dropped, home, e, {id} + {e}, 2);
      EvictStep(h, dropped, home, id, {id} + {e}, 2);
    }
  }

  lemma MakeTriedInv(h: Hasher, s: State, id: int)
    requires Inv(h, s) && id in s.mapInfo && !s.mapInfo[id].fInTried && s.mapInfo[id].nLastSuccess != 0
    ensures Inv(h, MakeTried(h, s, id))
  {
    StripNewInv(h, s, id, {}, 0);
    var stripped := StripNew(s, id).(nNew := s.nNew - 1);
    Recount(h, StripNew(s, id), stripped, {} + {id}, {id}, 0, 1);
    var cell := TriedSlot(h, s.mapInfo[id].service);
    var spaced := MakeSpace(h, stripped, cell, id);
    MakeSpaceInv(h, stripped, cell, id);
    PutTriedInv(h, spaced, cell, id, {id}, 1);
    WeakenZero(h, MakeTried(h, s, id), {id} - {id}, {}, 0);
  }

  lemma EvictMoves(h: Hasher, s: State, cell: nat, zero: set<int>, uncounted: int)
    requires InvExcept(h, s, zero, uncounted) && cell < |s.vvTried| && s.vvTried[cell] != EMPTY
    ensures var t, e := Evict(h, s, cell, zero, uncounted), s.vvTried[cell];
      && t.vvTried == s.vvTried[cell := EMPTY]
      && e in s.mapInfo && e in t.mapInfo && !t.mapInfo[e].fInTried && t.mapInfo[e].nRefCount == 1
      && t.vvNew == s.vvNew[HomeCell(h, s.mapInfo[e]) := e]
      && t.mapInfo.Keys == s.mapInfo.Keys - Forgotten(s, HomeCell(h, s.mapInfo[e]))
  {
    var e := s.vvTried[cell];
    DropTriedInv(h, s, cell, zero, uncounted);
    EvictRef(h, s, e, zero, uncounted);
    NotThere(h, s.mapInfo, s.vvNew, zero, e, HomeCell(h, s.mapInfo[e]));
    HomeMoves(h, DropTried(s, cell), HomeCell(h, s.mapInfo[e]), e, zero + {e}, uncounted + 1);
    assert DropTried(s, cell).mapInfo.Keys == s.mapInfo.Keys;
  }

  /** Another entry's cell, or a free one, is given to this one. */
  lemma CellTaken(h: Hasher, s: State, cell: nat, id: int, zero: set<int>, uncounted: int)
    requires InvExcept(h, s, zero, uncounted) && cell < |s.vvNew| && id in s.mapInfo && s.vvNew[cell] != id
    ensures ClearNew.requires(s, cell) && id in ClearNew(s, cell).mapInfo && cell < |ClearNew(s, cell).vvNew|
    ensures var t := PutNew(ClearNew(s, cell), cell, id);
      && t.vvNew == s.vvNew[cell := id] && t.vvTried == s.vvTried && id in t.mapInfo
      && t.mapInfo.Keys == s.mapInfo.Keys - Forgotten(s, cell) && OthersKept(s, t, id)
      && t.mapInfo[id] == s.mapInfo[id].(nRefCount := s.mapInfo[id].nRefCount + 1,
                                          nRandomPos := t.mapInfo[id].nRandomPos)
  {
    ClearNewEffect(h, s, cell, zero, uncounted);
    Overwrite(s.vvNew, cell, EMPTY, id);
    PutKeys(ClearNew(s, cell), cell, id);
    assert id !in Forgotten(s, cell);
  }

  lemma HomeMoves(h: Hasher, s: State, home: nat, e: int, zero: set<int>, uncounted: int)
    requires InvExcept(h, s, zero, uncounted) && home < |s.vvNew| && e in s.mapInfo && s.mapInfo[e].nRefCount == 0
    ensures ClearNew.requires(s, home) && e in ClearNew(s, home).mapInfo && home < |ClearNew(s, home).vvNew|
    ensures var t := PutNew(ClearNew(s, home), home, e);
      && t.vvNew == s.vvNew[home := e] && t.vvTried == s.vvTried
      && t.mapInfo.Keys == s.mapInfo.Keys - Forgotten(s, home) && OthersKept(s, t, e)
      && t.mapInfo[e].nRefCount == 1 && t.mapInfo[e].fInTried == s.mapInfo[e].fInTried
  {
    NotThere(h, s.mapInfo, s.vvNew, zero, e, home);
    CellTaken(h, s, home, e, zero, uncounted);
  }

  lemma Overwrite(cells: seq<int>, i: nat, a: int, b: int)
    requires i < |cells|
    ensures cells[i := a][i := b] == cells[i := b]
  {
  }

  lemma PutKeys(s: State, cell: nat, id: int)
    requires id in s.mapInfo
    ensures cell < |s.vvNew| ==> PutNew(s, cell, id).mapInfo.Keys == s.mapInfo.Keys
    ensures cell < |s.vvTried| ==> PutTried(s, cell, id).mapInfo.Keys == s.mapInfo.Keys
  {
  }

  /** What Good_ does once the entry is found and not yet tried: it ends in its
      tried cell; the entry that was there is back in the new table with one
      reference, in its home cell; at most the entry that held that home cell is
      forgotten, and only if that was its last cell. */
  lemma MakeTriedMoves(h: Hasher, s: State, id: int)
    requires Inv(h, s) && id in s.mapInfo && !s.mapInfo[id].fInTried
    ensures var t, cell := MakeTried(h, s, id), TriedSlot(h, s.mapInfo[id].service);
      var e := s.vvTried[cell];
      && t.vvTried == s.vvTried[cell := id]
      && id in t.mapInfo && t.mapInfo[id].fInTried
      && (e == EMPTY ==> t.mapInfo.Keys == s.mapInfo.Keys && t.vvNew == StripNew(s, id).vvNew)
      && (e != EMPTY ==>
           && e in s.mapInfo && e in t.mapInfo && e != id
           && t.mapInfo.Keys == s.mapInfo.Keys - Forgotten(StripNew(s, id), HomeCell(h, s.mapInfo[e]))
           && t.vvNew == StripNew(s, id).vvNew[HomeCell(h, s.mapInfo[e]) := e])
  {
    StripNewInv(h, s, id, {}, 0);
    var stripped := StripNew(s, id).(nNew := s.nNew - 1);
    Recount(h, StripNew(s, id), stripped, {} + {id}, {id}, 0, 1);
    var cell := TriedSlot(h, s.mapInfo[id].service);
    MakeSpaceInv(h, stripped, cell, id);
    SpaceMoves(h, stripped, cell, id);
    assert stripped.mapInfo.Keys == s.mapInfo.Keys;
    PutKeys(MakeSpace(h, stripped, cell, id), cell, id);
    Overwrite(s.vvTried, cell, EMPTY, id);
  }

  lemma SpaceMoves(h: Hasher, s: State, cell: nat, id: int)
    requires InvExcept(h, s, {id}, 1) && cell < |s.vvTried| && id in s.mapInfo && !s.mapInfo[id].fInTried
    ensures var t, e := MakeSpace(h, s, cell, id), s.vvTried[cell];
      && t.vvTried == s.vvTried[cell := EMPTY]
      && (e == EMPTY ==> t.mapInfo.Keys == s.mapInfo.Keys && t.vvNew == s.vvNew)
      && (e != EMPTY ==>
           && e in s.mapInfo && e in t.mapInfo && e != id
           && t.mapInfo.Keys == s.mapInfo.Keys - Forgotten(s, HomeCell(h, s.mapInfo[e]))
           && t.vvNew == s.vvNew[HomeCell(h, s.mapInfo[e]) := e])
  {
    if s.vvTried[cell] != EMPTY {
      EvictMoves(h, s, cell, {id}, 1);
      DropTriedInv(h, s, cell, {id}, 1);
    }
  }

  ghost function Good(h: Hasher, s: State, service: Service, nTime: int): State
    requires Inv(h, s) && nTime >= 0
  {
    var s := s.(nLastGood := nTime);
    if service.addr !in s.mapAddr then s
    else
      var id := s.mapAddr[service.addr];
      if s.mapInfo[id].service != service then s
      else
        var t := s.(mapInfo := s.mapInfo[id := Succeeded(s.mapInfo[id], nTime)]);
        if s.mapInfo[id].fInTried then t
        else
          assert Inv(h, s);
          StatsInv(h, s, id, Succeeded(s.mapInfo[id], nTime), {}, 0);
          MakeTried(h, t, id)
  }

  function Succeeded(info: Info, nTime: int): Info {
    info.(nLastSuccess := nTime, nLastTry := nTime, nAttempts := 0)
  }

  lemma GoodInv(h: Hasher, s: State, service: Service, nTime: int)
    requires Inv(h, s) && nTime > 0
    ensures Inv(h, Good(h, s, service, nTime))
  {
    var s' := s.(nLastGood := nTime);
    assert Inv(h, s');
    if service.addr in s.mapAddr {
      var id := s.mapAddr[service.addr];
      if s.mapInfo[id].service == service {
        StatsInv(h, s', id, Succeeded(s.mapInfo[id], nTime), {}, 0);
        if !s.mapInfo[id].fInTried {
          MakeTriedInv(h, s'.(mapInfo := s.mapInfo[id := Succeeded(s.mapInfo[id], nTime)]), id);
        }
      }
    }
  }

  /** A moved entry keeps its statistics. */
  lemma MakeTriedStats(h: Hasher, s: State, id: int)
    requires Inv(h, s) && id in s.mapInfo && !s.mapInfo[id].fInTried
    ensures var t := MakeTried(h, s, id);
      id in t.mapInfo && t.mapInfo[id].fInTried && t.mapInfo[id].nLastSuccess == s.mapInfo[id].nLastSuccess
  {
    StripNewInv(h, s, id, {}, 0);
    var stripped := StripNew(s, id).(nNew := s.nNew - 1);
    Recount(h, StripNew(s, id), stripped, {} + {id}, {id}, 0, 1);
    MakeSpaceInv(h, stripped, TriedSlot(h, s.mapInfo[id].service), id);
  }

  /** Success at time 0 leaves a tried entry that never succeeded. */
  lemma GoodAtZero(h: Hasher, s: State, service: Service)
    requires Inv(h, s) && Known(s, service)
    ensures !Inv(h, Good(h, s, service, 0))
  {
    var id, s' := s.mapAddr[service.addr], s.(nLastGood := 0);
    var info := Succeeded(s.mapInfo[id], 0);
    var t := s'.(mapInfo := s.mapInfo[id := info]);
    var u := Good(h, s, service, 0);
    if s.mapInfo[id].fInTried {
      assert u == t;
    } else {
      assert Inv(h, s');
      StatsInv(h, s', id, info, {}, 0);
      MakeTriedStats(h, t, id);
      assert u == MakeTried(h, t, id);
    }
    assert u.mapInfo[id].fInTried && u.mapInfo[id].nLastSuccess == 0;
  }

  lemma GoodUnknown(h: Hasher, s: State, service: Service, nTime: int)
    requires Inv(h, s) && nTime >= 0 && !Known(s, service)
    ensures Inv(h, Good(h, s, service, nTime))
  {
    assert Good(h, s, service, nTime) == s.(nLastGood := nTime);
  }

  /** Good_ keeps the tables consistent exactly if the time is not 0 or the
      address is not known. */
  lemma GoodInvIff(h: Hasher, s: State, service: Service, nTime: int)
    requires Inv(h, s) && nTime >= 0
    ensures nTime > 0 || !Known(s, service) ==> Inv(h, Good(h, s, service, nTime))
    ensures nTime == 0 && Known(s, service) ==> !Inv(h, Good(h, s, service, nTime))
  {
    if nTime > 0 {
      GoodInv(h, s, service, nTime);
    } else if Known(s, service) {
      GoodAtZero(h, s, service);
    } else {
      GoodUnknown(h, s, service, nTime);
    }
  }

  /** Good_'s search for "a bucket it is in now" always succeeds, so its
      bail-out is unreachable. */
  lemma NewEntryHasBucket(h: Hasher, s: State, id: int)
    requires Inv(h, s) && id in s.mapInfo && !s.mapInfo[id].fInTried
    ensures exists b: NewBucket :: InBucket(h, s, id, b)
  {
    assert RefOk(s.mapInfo, s.vvNew, {}, id);
    var cells := Cells(s.vvNew, id);
    assert cells != {};
    var i :| i in cells;
    assert NewCellOk(h, s.mapInfo, s.vvNew, i);
    assert InBucket(h, s, id, i / BUCKET_SIZE);
  }

  predicate InBucket(h: Hasher, s: State, id: int, bucket: NewBucket)
    requires id in s.mapInfo
  {
    var cell := NewSlot(h, s.mapInfo[id].service, bucket);
    cell < |s.vvNew| && s.vvNew[cell] == id
  }

  // ----- Add_ -----

  /** Whether the cell may be taken for `id`. */
  predicate CanInsert(s: State, cell: nat, id: int, nNow: int)
    requires cell < |s.vvNew| && id in s.mapInfo
    requires s.vvNew[cell] != EMPTY ==> s.vvNew[cell] in s.mapInfo
  {
    || s.vvNew[cell] == EMPTY
    || IsTerrible(s.mapInfo[s.vvNew[cell]], nNow)
    || (s.mapInfo[s.vvNew[cell]].nRefCount > 1 && s.mapInfo[id].nRefCount == 0)
  }

  ghost function Place(h: Hasher, s: State, id: int, source: NetAddr, nNow: int): State
    requires InvExcept(h, s, {id}, 0) && id in s.mapInfo && !s.mapInfo[id].fInTried
  {
    var info := s.mapInfo[id];
    var cell := NewSlot(h, info.service, h.newBucket(info.service, source));
    assert NewCellOk(h, s.mapInfo, s.vvNew, cell);
    if s.vvNew[cell] == id then s
    else if CanInsert(s, cell, id, nNow) then
      ClearOther(h, s, cell, id, {id}, 0);
      PutNew(ClearNew(s, cell), cell, id)
    else if info.nRefCount == 0 then
      DeleteInv(h, s, id, {id}, 0);
      Delete(s, id)
    else s
  }

  /** Clearing a cell that another entry holds keeps this one as it is. */
  lemma ClearOther(h: Hasher, s: State, cell: nat, id: int, zero: set<int>, uncounted: int)
    requires InvExcept(h, s, zero, uncounted) && cell < |s.vvNew| && id in s.mapInfo && s.vvNew[cell] != id
    ensures ClearNew.requires(s, cell)
    ensures var t := ClearNew(s, cell);
      && InvExcept(h, t, zero, uncounted) && |t.vvNew| == |s.vvNew| && t.vvNew[cell] == EMPTY && t.vvTried == s.vvTried
      && t.mapInfo.Keys == s.mapInfo.Keys - Forgotten(s, cell)
      && id in t.mapInfo && t.mapInfo[id] == s.mapInfo[id].(nRandomPos := t.mapInfo[id].nRandomPos)
  {
    ClearNewInv(h, s, cell, zero, uncounted);
    ClearNewEffect(h, s, cell, zero, uncounted);
  }

  lemma PlaceInv(h: Hasher, s: State, id: int, source: NetAddr, nNow: int)
    requires InvExcept(h, s, {id}, 0) && id in s.mapInfo && !s.mapInfo[id].fInTried
    requires s.mapInfo[id].nRefCount < NEW_BUCKETS_PER_ADDRESS
    ensures Inv(h, Place(h, s, id, source, nNow))
  {
    var info := s.mapInfo[id];
    var cell := NewSlot(h, info.service, h.newBucket(info.service, source));
    assert NewCellOk(h, s.mapInfo, s.vvNew, cell);
    assert RefOk(s.mapInfo, s.vvNew, {id}, id);
    if s.vvNew[cell] == id {
      assert cell as int in Cells(s.vvNew, id);
      Counted(h, s, id);
    } else if CanInsert(s, cell, id, nNow) {
      ClearOther(h, s, cell, id, {id}, 0);
      PutNewInv(h, ClearNew(s, cell), cell, id, {id}, 0);
      WeakenZero(h, PutNew(ClearNew(s, cell), cell, id), {id} - {id}, {}, 0);
    } else if info.nRefCount == 0 {
      DeleteInv(h, s, id, {id}, 0);
      WeakenZero(h, Delete(s, id), {id} - {id}, {}, 0);
    } else {
      Counted(h, s, id);
    }
  }

  lemma Counted(h: Hasher, s: State, id: int)
    requires InvExcept(h, s, {id}, 0) && id in s.mapInfo && s.mapInfo[id].nRefCount > 0
    ensures Inv(h, s)
  {
    forall o | o in s.mapInfo ensures RefOk(s.mapInfo, s.vvNew, {}, o) {
      assert RefOk(s.mapInfo, s.vvNew, {id}, o);
    }
  }

  /** An announcement of an address, and what Add_ learns from outside: whether
      the address is routable, the adjusted time, and a random number. */
  datatype Announcement = Announcement(
    service: Service, nServices: set<nat>, nTime: nat, source: NetAddr, nTimePenalty: int,
    routable: bool, nNow: int, random: nat)

  function Penalty(a: Announcement): int {
    if a.service.addr == a.source then 0 else a.nTimePenalty
  }

  function NonNegative(x: int): int { if x < 0 then 0 else x }

  /** The known entry after the periodic update of its time and services. */
  function Refreshed(info: Info, a: Announcement): Info {
    var interval := if a.nNow - a.nTime < DAY then 60 * 60 else DAY;
    var nTime := if a.nTime != 0 && (info.nTime == 0 || info.nTime < a.nTime - interval - Penalty(a))
                 then NonNegative(a.nTime - Penalty(a)) else info.nTime;
    info.(nTime := nTime, nServices := info.nServices + a.nServices)
  }

  /** The stochastic test: a count of N makes it 2^N times harder. */
  predicate Lucky(info: Info, random: nat)
    requires info.nRefCount >= 0
  {
    info.nRefCount == 0 || random % Pow2(info.nRefCount) == 0
  }

  /** Whether a known entry is worth another reference. */
  predicate Worthwhile(info: Info, a: Announcement)
    requires info.nRefCount >= 0
  {
    && a.nTime != 0 && (info.nTime == 0 || a.nTime > info.nTime)
    && !info.fInTried && info.nRefCount != NEW_BUCKETS_PER_ADDRESS
    && Lucky(info, a.random)
  }

  ghost function Add(h: Hasher, s: State, a: Announcement): (r: (State, bool))
    requires Inv(h, s)
  {
    if !a.routable then (s, false)
    else if a.service.addr in s.mapAddr then
      var id := s.mapAddr[a.service.addr];
      assert RefOk(s.mapInfo, s.vvNew, {}, id);
      var info := Refreshed(s.mapInfo[id], a);
      StatsInv(h, s, id, info, {}, 0);
      var t := s.(mapInfo := s.mapInfo[id := info]);
      if Worthwhile(info, a) then
        WeakenZero(h, t, {}, {id}, 0);
        (Place(h, t, id, a.source, a.nNow), false)
      else (t, false)
    else
      CreateInv(h, s, a.service, a.nServices, a.nTime, a.source, {}, 0);
      EnterInv(h, s, a);
      (Place(h, Entered(s, a), s.nIdCount, a.source, a.nNow), true)
  }

  /** A new entry, created and counted, not yet in a cell. */
  function Entered(s: State, a: Announcement): State {
    var id := s.nIdCount;
    var t := Create(s, a.service, a.nServices, a.nTime, a.source);
    t.(mapInfo := t.mapInfo[id := t.mapInfo[id].(nTime := NonNegative(a.nTime - Penalty(a)))], nNew := t.nNew + 1)
  }

  lemma EnterInv(h: Hasher, s: State, a: Announcement)
    requires Inv(h, s) && a.service.addr !in s.mapAddr
    ensures InvExcept(h, Entered(s, a), {s.nIdCount}, 0)
    ensures s.nIdCount in Entered(s, a).mapInfo && !Entered(s, a).mapInfo[s.nIdCount].fInTried
    ensures Entered(s, a).mapInfo[s.nIdCount].nRefCount == 0
    ensures Entered(s, a).mapInfo.Keys == s.mapInfo.Keys + {s.nIdCount} && s.nIdCount !in s.mapInfo
  {
    var id := s.nIdCount;
    var t := Create(s, a.service, a.nServices, a.nTime, a.source);
    CreateInv(h, s, a.service, a.nServices, a.nTime, a.source, {}, 0);
    var info := t.mapInfo[id].(nTime := NonNegative(a.nTime - Penalty(a)));
    StatsInv(h, t, id, info, {} + {id}, 1);
    var u := t.(mapInfo := t.mapInfo[id := info]);
    assert Entered(s, a) == u.(nNew := u.nNew + 1 - 0);
    Recount(h, u, Entered(s, a), {} + {id}, {id}, 1, 0);
  }

  lemma AddInv(h: Hasher, s: State, a: Announcement)
    requires Inv(h, s)
    ensures Inv(h, Add(h, s, a).0)
  {
    if a.routable {
      if a.service.addr in s.mapAddr {
        var id := s.mapAddr[a.service.addr];
        var info := Refreshed(s.mapInfo[id], a);
        assert RefOk(s.mapInfo, s.vvNew, {}, id);
        StatsInv(h, s, id, info, {}, 0);
        var t := s.(mapInfo := s.mapInfo[id := info]);
        if Worthwhile(info, a) {
          WeakenZero(h, t, {}, {id}, 0);
          PlaceInv(h, t, id, a.source, a.nNow);
        }
      } else {
        EnterInv(h, s, a);
        PlaceInv(h, Entered(s, a), s.nIdCount, a.source, a.nNow);
      }
    }
  }

  /** What Add_ does with an unknown address: it reports true, and it keeps the
      entry exactly when the cell is free or its holder may be displaced. */
  lemma AddUnknown(h: Hasher, s: State, a: Announcement)
    requires Inv(h, s) && a.routable && a.service.addr !in s.mapAddr
    ensures var (t, fNew) := Add(h, s, a);
      var id, e := s.nIdCount, Entered(s, a);
      var cell := NewSlot(h, a.service, h.newBucket(a.service, a.source));
      && fNew && t.vvTried == s.vvTried && OthersKept(s, t, id)
      && id in e.mapInfo && cell < |s.vvNew| && (s.vvNew[cell] != EMPTY ==> s.vvNew[cell] in e.mapInfo)
      && (if CanInsert(e, cell, id, a.nNow)
          then t.mapInfo.Keys == s.mapInfo.Keys + {id} - Forgotten(e, cell) && id in t.mapInfo &&
            t.vvNew == s.vvNew[cell := id]
          else t.mapInfo.Keys == s.mapInfo.Keys && t.vvNew == s.vvNew)
  {
    var id, e := s.nIdCount, Entered(s, a);
    EnterInv(h, s, a);
    var cell := NewSlot(h, a.service, h.newBucket(a.service, a.source));
    assert NewCellOk(h, e.mapInfo, e.vvNew, cell);
    NotThere(h, e.mapInfo, e.vvNew, {id}, id, cell);
    if CanInsert(e, cell, id, a.nNow) {
      HomeMoves(h, e, cell, id, {id}, 0);
    } else {
      DeleteEffect(e, id);
      assert (e.mapInfo - {id}).Keys == s.mapInfo.Keys;
    }
  }

  /** The cell for an entry announced by a source. */
  function CellFor(h: Hasher, info: Info, source: NetAddr): (cell: nat)
    ensures cell < NEW_BUCKET_COUNT * BUCKET_SIZE
  {
    NewSlot(h, info.service, h.newBucket(info.service, source))
  }

  /** An announcement says something new: it is later than the entry's time, the
      entry is not tried and has fewer than eight references, and it wins a draw
      that gets twice as hard with every reference. */
  ghost predicate News(info: Info, nTime: int, a: Announcement)
    requires info.nRefCount >= 0
  {
    && a.nTime > 0 && (nTime == 0 || a.nTime > nTime)
    && !info.fInTried && info.nRefCount < NEW_BUCKETS_PER_ADDRESS && a.random % Pow2(info.nRefCount) == 0
  }

  /** The cell is free, or another entry holds it that is terrible. */
  ghost predicate Takeable(s: State, cell: nat, id: int, nNow: int)
    requires cell < |s.vvNew|
  {
    var holder := s.vvNew[cell];
    holder == EMPTY || (holder != id && holder in s.mapInfo && IsTerrible(s.mapInfo[holder], nNow))
  }

  /** Only the entry's time, services, references and place in the random order
      may have changed. */
  ghost predicate SameButNews(was: Info, now: Info) {
    now == was.(nTime := now.nTime, nServices := now.nServices, nRefCount := now.nRefCount,
                nRandomPos := now.nRandomPos)
  }

  /** What Add_ does with a known address. The entry gets the services announced.
      It gets another cell exactly if the announcement says something new and the
      cell may be taken; only the entry there can be forgotten. */
  lemma AddKnown(h: Hasher, s: State, a: Announcement)
    requires Inv(h, s) && a.routable && a.service.addr in s.mapAddr
    ensures var (t, fNew) := Add(h, s, a);
      var id := s.mapAddr[a.service.addr];
      && !fNew && t.vvTried == s.vvTried && id in s.mapInfo && id in t.mapInfo && s.mapInfo[id].nRefCount >= 0
      && var was, now := s.mapInfo[id], t.mapInfo[id];
      var cell := CellFor(h, was, a.source);
      && OthersKept(s, t, id) && SameButNews(was, now) && now.nServices == was.nServices + a.nServices
      && cell < |s.vvNew|
      && (if News(was, now.nTime, a) && Takeable(s, cell, id, a.nNow)
          then t.vvNew == s.vvNew[cell := id] && now.nRefCount == was.nRefCount + 1
               && t.mapInfo.Keys == s.mapInfo.Keys - Forgotten(s, cell)
          else t.vvNew == s.vvNew && now.nRefCount == was.nRefCount && t.mapInfo.Keys == s.mapInfo.Keys)
  {
    var id := s.mapAddr[a.service.addr];
    var was := s.mapInfo[id];
    var info := Refreshed(was, a);
    assert RefOk(s.mapInfo, s.vvNew, {}, id);
    StatsInv(h, s, id, info, {}, 0);
    var t := s.(mapInfo := s.mapInfo[id := info]);
    assert t.mapInfo.Keys == s.mapInfo.Keys;
    assert was.nRefCount == 0 ==> was.fInTried;
    if Worthwhile(info, a) {
      WeakenZero(h, t, {}, {id}, 0);
      PlaceKnown(h, t, id, a.source, a.nNow);
      var cell := CellFor(h, was, a.source);
      assert NewCellOk(h, s.mapInfo, s.vvNew, cell);
      assert Takeable(t, cell, id, a.nNow) == Takeable(s, cell, id, a.nNow);
    }
  }

  lemma PlaceKnown(h: Hasher, s: State, id: int, source: NetAddr, nNow: int)
    requires InvExcept(h, s, {id}, 0) && id in s.mapInfo && !s.mapInfo[id].fInTried && s.mapInfo[id].nRefCount > 0
    ensures var t := Place(h, s, id, source, nNow);
      var cell := CellFor(h, s.mapInfo[id], source);
      if Takeable(s, cell, id, nNow)
      then t.vvNew == s.vvNew[cell := id] && t.vvTried == s.vvTried && id in t.mapInfo
           && t.mapInfo.Keys == s.mapInfo.Keys - Forgotten(s, cell) && OthersKept(s, t, id)
           && t.mapInfo[id] == s.mapInfo[id].(nRefCount := s.mapInfo[id].nRefCount + 1,
                                               nRandomPos := t.mapInfo[id].nRandomPos)
      else t == s
  {
    var cell := CellFor(h, s.mapInfo[id], source);
    assert NewCellOk(h, s.mapInfo, s.vvNew, cell);
    if s.vvNew[cell] != id && CanInsert(s, cell, id, nNow) { CellTaken(h, s, cell, id, {id}, 0); }
  }

  /** The time of a known entry moves only forward, and never beyond the announced
      one less the penalty: to it, if the announcement is later by more than an
      hour, or a day if it is a day old; at once, if the entry had none. */
  lemma AddKnownTime(h: Hasher, s: State, a: Announcement)
    requires Inv(h, s) && a.routable && a.service.addr in s.mapAddr && a.nTimePenalty >= 0
    ensures var id, t := s.mapAddr[a.service.addr], Add(h, s, a).0;
      && id in s.mapInfo && id in t.mapInfo
      && var was, now := s.mapInfo[id].nTime, t.mapInfo[id].nTime;
      var penalty := if a.service.addr == a.source then 0 else a.nTimePenalty;
      var wait := if a.nNow < a.nTime + 24 * 3600 then 3600 else 24 * 3600;
      && (now != was ==> was < now == a.nTime - penalty || (was < 0 && now == 0))
      && (a.nTime - penalty > 0 && (was == 0 || a.nTime - penalty > was + wait) ==> now == a.nTime - penalty)
      && (was != 0 && a.nTime - penalty <= was + wait ==> now == was)
  {
    AddKnown(h, s, a);
    var id := s.mapAddr[a.service.addr];
    KnownTime(h, s, a, id);
  }

  lemma KnownTime(h: Hasher, s: State, a: Announcement, id: int)
    requires Inv(h, s) && a.routable && a.service.addr in s.mapAddr && id == s.mapAddr[a.service.addr]
    ensures id in s.mapInfo && id in Add(h, s, a).0.mapInfo
    ensures Add(h, s, a).0.mapInfo[id].nTime == Refreshed(s.mapInfo[id], a).nTime
  {
    var info := Refreshed(s.mapInfo[id], a);
    assert RefOk(s.mapInfo, s.vvNew, {}, id);
    StatsInv(h, s, id, info, {}, 0);
    var t := s.(mapInfo := s.mapInfo[id := info]);
    if Worthwhile(info, a) {
      WeakenZero(h, t, {}, {id}, 0);
      PlaceKnown(h, t, id, a.source, a.nNow);
    }
  }

  // ----- The other operations -----

  /** The exact service (address and port) has an entry. */
  predicate Known(s: State, service: Service) {
    && service.addr in s.mapAddr
    && s.mapAddr[service.addr] in s.mapInfo
    && s.mapInfo[s.mapAddr[service.addr]].service == service
  }

  function Attempted(info: Info, fCountFailure: bool, nTime: int, nLastGood: int): Info {
    if fCountFailure && info.nLastCountAttempt < nLastGood then
      info.(nLastTry := nTime, nLastCountAttempt := nTime, nAttempts := info.nAttempts + 1)
    else info.(nLastTry := nTime)
  }

  function Seen(info: Info, nTime: int): Info {
    if nTime - info.nTime > 20 * 60 then info.(nTime := nTime) else info
  }

  function SetInfo(s: State, service: Service, info: Info): State
    requires Known(s, service)
  {
    s.(mapInfo := s.mapInfo[s.mapAddr[service.addr] := info])
  }

  function EntryOf(s: State, service: Service): Info
    requires Known(s, service)
  {
    s.mapInfo[s.mapAddr[service.addr]]
  }

  function Attempt(s: State, service: Service, fCountFailure: bool, nTime: int): State {
    if Known(s, service) then
      SetInfo(s, service, Attempted(EntryOf(s, service), fCountFailure, nTime, s.nLastGood))
    else s
  }

  function Connected(s: State, service: Service, nTime: int): State {
    if Known(s, service) then SetInfo(s, service, Seen(EntryOf(s, service), nTime)) else s
  }

  function SetServices(s: State, service: Service, nServices: set<nat>): State {
    if Known(s, service) then SetInfo(s, service, EntryOf(s, service).(nServices := nServices)) else s
  }

  lemma StatsStepInv(h: Hasher, s: State, op: Op)
    requires Inv(h, s) && Allowed(s, op) && (op.OpAttempt? || op.OpConnected? || op.OpSetServices?)
    ensures Inv(h, Step(h, s, op))
  {
    if Known(s, op.service) {
      var id := s.mapAddr[op.service.addr];
      StatsInv(h, s, id, Step(h, s, op).mapInfo[id], {}, 0);
    }
  }

  lemma AttemptInv(h: Hasher, s: State, service: Service, fCountFailure: bool, nTime: int)
    requires Inv(h, s) && nTime >= 0
    ensures Inv(h, Attempt(s, service, fCountFailure, nTime))
  {
    StatsStepInv(h, s, OpAttempt(service, fCountFailure, nTime));
  }

  /** Attempt_ keeps the tables consistent exactly if the time is not negative
      or the address is not known. */
  lemma AttemptInvIff(h: Hasher, s: State, service: Service, fCountFailure: bool, nTime: int)
    requires Inv(h, s)
    ensures Inv(h, Attempt(s, service, fCountFailure, nTime)) <==> nTime >= 0 || !Known(s, service)
  {
    if nTime >= 0 {
      AttemptInv(h, s, service, fCountFailure, nTime);
    } else if Known(s, service) {
      var id := s.mapAddr[service.addr];
      assert Attempt(s, service, fCountFailure, nTime).mapInfo[id].nLastTry == nTime;
    }
  }

  // ----- Runs -----

  /** An operation with what it gets from outside. GetAddr_ changes the tables
      by swaps in vRandom; `picks[n]` is the position it draws in round n. */
  datatype Op =
    | OpAdd(a: Announcement)
    | OpGood(service: Service, nTime: int)
    | OpAttempt(service: Service, fCountFailure: bool, nTime: int)
    | OpConnected(service: Service, nTime: int)
    | OpSetServices(service: Service, nServices: set<nat>)
    | OpGetAddr(picks: seq<nat>)

  predicate PicksOk(picks: seq<nat>, n: nat) {
    && |picks| <= n
    && forall k :: 0 <= k < |picks| ==> k <= picks[k] < n
  }

  predicate Allowed(s: State, op: Op) {
    match op
    case OpGood(_, nTime) => nTime > 0
    case OpAttempt(_, _, nTime) => nTime >= 0
    case OpGetAddr(picks) => PicksOk(picks, |s.vRandom|)
    case _ => true
  }

  function Swapped(s: State, i: nat, j: nat): State {
    if i < |s.vRandom| && j < |s.vRandom| && s.vRandom[i] in s.mapInfo && s.vRandom[j] in s.mapInfo
    then SwapRandom(s, i, j) else s
  }

  /** The rounds of GetAddr_: round k swaps position k with a drawn one. */
  function Shuffle(s: State, picks: seq<nat>, k: nat): State
    requires k <= |picks|
  {
    if k == 0 then s else Swapped(Shuffle(s, picks, k - 1), k - 1, picks[k - 1])
  }

  lemma {:induction false} ShufflePrefix(s: State, picks: seq<nat>, longer: seq<nat>, k: nat)
    requires k <= |picks| && picks <= longer
    ensures Shuffle(s, longer, k) == Shuffle(s, picks, k)
  {
    if k > 0 { ShufflePrefix(s, picks, longer, k - 1); }
  }

  lemma ShuffleMore(s: State, picks: seq<nat>, pick: nat)
    ensures Shuffle(s, picks + [pick], |picks| + 1) == Swapped(Shuffle(s, picks, |picks|), |picks|, pick)
  {
    ShufflePrefix(s, picks, picks + [pick], |picks|);
  }

  lemma SwappedInv(h: Hasher, s: State, i: nat, j: nat)
    requires Inv(h, s) && i < |s.vRandom| && j < |s.vRandom|
    ensures Inv(h, Swapped(s, i, j)) && |Swapped(s, i, j).vRandom| == |s.vRandom|
  {
    SwapRandomInv(h, s, i, j, {}, 0);
  }

  lemma {:induction false} ShuffleKeeps(s: State, picks: seq<nat>, k: nat, p: State -> bool)
    requires k <= |picks| && p(s) && forall t, i :: 0 <= i < k && p(t) ==> p(Swapped(t, i, picks[i]))
    ensures p(Shuffle(s, picks, k))
  {
    if k > 0 { ShuffleKeeps(s, picks, k - 1, p); }
  }

  lemma ShuffleInv(h: Hasher, s: State, picks: seq<nat>, k: nat)
    requires Inv(h, s) && PicksOk(picks, |s.vRandom|) && k <= |picks|
    ensures Inv(h, Shuffle(s, picks, k)) && |Shuffle(s, picks, k).vRandom| == |s.vRandom|
  {
    forall t, i | 0 <= i < k && Inv(h, t) && |t.vRandom| == |s.vRandom|
      ensures Inv(h, Swapped(t, i, picks[i])) && |Swapped(t, i, picks[i]).vRandom| == |s.vRandom|
    {
      SwappedInv(h, t, i, picks[i]);
    }
    ShuffleKeeps(s, picks, k, t => Inv(h, t) && |t.vRandom| == |s.vRandom|);
  }

  ghost function Step(h: Hasher, s: State, op: Op): State
    requires Inv(h, s) && Allowed(s, op)
  {
    match op
    case OpAdd(a) => Add(h, s, a).0
    case OpGood(service, nTime) => Good(h, s, service, nTime)
    case OpAttempt(service, fCountFailure, nTime) => Attempt(s, service, fCountFailure, nTime)
    case OpConnected(service, nTime) => Connected(s, service, nTime)
    case OpSetServices(service, nServices) => SetServices(s, service, nServices)
    case OpGetAddr(picks) => Shuffle(s, picks, |picks|)
  }

  lemma StepInv(h: Hasher, s: State, op: Op)
    requires Inv(h, s) && Allowed(s, op)
    ensures Inv(h, Step(h, s, op))
  {
    match op
    case OpAdd(a) => AddInv(h, s, a);
    case OpGood(service, nTime) => GoodInv(h, s, service, nTime);
    case OpGetAddr(picks) => ShuffleInv(h, s, picks, |picks|);
    case _ => StatsStepInv(h, s, op);
  }

  function Cleared(): State {
    State(0, map[], map[], [], 0, seq(TRIED_BUCKET_COUNT * BUCKET_SIZE, _ => EMPTY),
          0, seq(NEW_BUCKET_COUNT * BUCKET_SIZE, _ => EMPTY), 1)
  }

  lemma ClearedInv(h: Hasher)
    ensures Inv(h, Cleared())
  {
    var s := Cleared();
    assert TriedIds(s.mapInfo) == {} && NewIds(s.mapInfo) == {};
    assert NewOk(h, s.mapInfo, s.vvNew, {});
  }

  /** A run from the cleared tables; the run stops at a disallowed step. */
  ghost function Run(h: Hasher, ops: seq<Op>): (s: State)
    ensures Inv(h, s)
    decreases |ops|
  {
    if ops == [] then
      ClearedInv(h);
      Cleared()
    else
      var s := Run(h, ops[..|ops| - 1]);
      var op := ops[|ops| - 1];
      if Allowed(s, op) then
        StepInv(h, s, op);
        Step(h, s, op)
      else s
  }
}
