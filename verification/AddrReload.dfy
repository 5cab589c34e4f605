/**
  Rebuilding the address manager's tables from a stream's content
  (src/addrman.h, Unserialize).
*/
module AddrReload {

  import opened AddrTables
  import opened AddrStore
  import Ops = AddrMan

  const NEW_CELLS := NEW_BUCKET_COUNT * BUCKET_SIZE
  const TRIED_CELLS := TRIED_BUCKET_COUNT * BUCKET_SIZE

  /** The stored positions fit this program's new table. */
  predicate Usable(img: Image) {
    img.nVersion == VERSION && img.nUBuckets == NEW_BUCKET_COUNT
  }

  /** A record becomes an entry with the next id, in no table yet. */
  function Admit(s: State, r: Record): State {
    s.(nIdCount := s.nIdCount + 1,
       mapInfo := s.mapInfo[s.nIdCount := Restored(r, |s.vRandom|)],
       mapAddr := s.mapAddr[r.service.addr := s.nIdCount],
       vRandom := s.vRandom + [s.nIdCount])
  }

  /** An entry goes to its home cell, if that is free. */
  function PlaceHome(h: Hasher, s: State, id: int): State
    requires id in s.mapInfo && |s.vvNew| == NEW_CELLS
  {
    var cell := Ops.HomeCell(h, s.mapInfo[id]);
    if s.vvNew[cell] == EMPTY then PutNew(s, cell, id) else s
  }

  /** A new record; without usable positions it is placed at once. */
  function LoadNewRecord(img: Image, s: State, r: Record): State
    requires |s.vvNew| == NEW_CELLS
  {
    if Usable(img) then Admit(s, r) else PlaceHome(img.key, Admit(s, r), s.nIdCount)
  }

  /** The first k records of the new table. */
  function LoadNew(img: Image, k: nat): (s: State)
    requires k <= |img.news|
    ensures s.nIdCount == k && |s.vvNew| == NEW_CELLS && |s.vvTried| == TRIED_CELLS
    ensures s.nNew == img.nNew && s.nTried == 0
    ensures forall n :: 0 <= n < k ==> n in s.mapInfo
  {
    if k == 0 then Ops.Cleared().(nNew := img.nNew) else LoadNewRecord(img, LoadNew(img, k - 1), img.news[k - 1])
  }

  function AdmitTried(s: State, r: Record, cell: nat): State
    requires cell < |s.vvTried|
  {
    var t := Admit(s, r);
    t.(mapInfo := t.mapInfo[s.nIdCount := t.mapInfo[s.nIdCount].(fInTried := true)],
       vvTried := t.vvTried[cell := s.nIdCount])
  }

  /** A tried record enters its cell, or is lost if the cell is taken. */
  function LoadTriedRecord(h: Hasher, s: State, r: Record): State
    requires |s.vvTried| == TRIED_CELLS
  {
    var cell := TriedSlot(h, r.service);
    if s.vvTried[cell] == EMPTY then AdmitTried(s, r, cell) else s.(nTried := s.nTried - 1)
  }

  /** Every position a stored index may refer to has an entry. */
  ghost predicate Ready(img: Image, s: State) {
    && |s.vvNew| == NEW_CELLS && |s.vvTried| == TRIED_CELLS
    && forall n :: 0 <= n < img.nNew ==> n in s.mapInfo
  }

  ghost function LoadTried(img: Image, k: nat): (s: State)
    requires Framed(img) && k <= |img.trieds|
    ensures Ready(img, s)
  {
    if k == 0 then LoadNew(img, |img.news|).(nIdCount := img.nNew, nTried := img.nTried)
    else LoadTriedRecord(img.key, LoadTried(img, k - 1), img.trieds[k - 1])
  }

  /** A stored index puts its entry into the bucket, if it can. */
  ghost function Refer(img: Image, s: State, bucket: nat, n: int): (t: State)
    requires Ready(img, s)
    ensures Ready(img, t) && t.nNew == s.nNew
  {
    if 0 <= n < img.nNew && Usable(img) && bucket < NEW_BUCKET_COUNT then
      var cell := NewSlot(img.key, s.mapInfo[n].service, bucket);
      if s.vvNew[cell] == EMPTY && s.mapInfo[n].nRefCount < NEW_BUCKETS_PER_ADDRESS then PutNew(s, cell, n) else s
    else s
  }

  ghost function LoadRow(img: Image, s: State, bucket: nat, row: seq<int>): (t: State)
    requires Ready(img, s)
    ensures Ready(img, t) && t.nNew == s.nNew
  {
    if row == [] then s
    else Refer(img, LoadRow(img, s, bucket, row[..|row| - 1]), bucket, row[|row| - 1])
  }

  ghost function LoadRows(img: Image, k: nat): (s: State)
    requires Framed(img) && k <= |img.rows|
    ensures Ready(img, s)
  {
    if k == 0 then LoadTried(img, |img.trieds|)
    else LoadRow(img, LoadRows(img, k - 1), k - 1, img.rows[k - 1])
  }

  // ----- The random order is sound whatever the stream holds -----

  ghost predicate Ordered(s: State) {
    RandomOk(s.mapInfo, s.vRandom) && forall id :: id in s.mapInfo ==> id < s.nIdCount
  }

  lemma AdmitOrdered(s: State, r: Record)
    requires Ordered(s)
    ensures Ordered(Admit(s, r))
  {
    CreateRandom(s.mapInfo, s.vRandom, s.nIdCount, Restored(r, |s.vRandom|));
  }

  lemma PutNewOrdered(s: State, cell: nat, id: int)
    requires Ordered(s) && cell < |s.vvNew| && id in s.mapInfo
    ensures Ordered(PutNew(s, cell, id))
  {
    var t := PutNew(s, cell, id);
    assert t.mapInfo.Keys == s.mapInfo.Keys;
    RandomFrame(s.mapInfo, t.mapInfo, s.vRandom);
  }

  lemma LoadNewRecordOrdered(img: Image, s: State, r: Record)
    requires Ordered(s) && |s.vvNew| == NEW_CELLS
    ensures Ordered(LoadNewRecord(img, s, r))
  {
    AdmitOrdered(s, r);
    var t := Admit(s, r);
    PutNewOrdered(t, Ops.HomeCell(img.key, t.mapInfo[s.nIdCount]), s.nIdCount);
  }

  lemma {:induction false} LoadNewKeeps(img: Image, p: State -> bool, k: nat)
    requires k <= |img.news| && p(Ops.Cleared().(nNew := img.nNew))
    requires forall s: State, r: Record :: |s.vvNew| == NEW_CELLS && p(s) ==> p(LoadNewRecord(img, s, r))
    ensures p(LoadNew(img, k))
  {
    if k > 0 { LoadNewKeeps(img, p, k - 1); }
  }

  lemma LoadNewOrdered(img: Image, k: nat)
    requires k <= |img.news|
    ensures Ordered(LoadNew(img, k))
  {
    forall s: State, r: Record | |s.vvNew| == NEW_CELLS && Ordered(s) ensures Ordered(LoadNewRecord(img, s, r)) {
      LoadNewRecordOrdered(img, s, r);
    }
    LoadNewKeeps(img, Ordered, k);
  }

  lemma AdmitTriedOrdered(s: State, r: Record, cell: nat)
    requires Ordered(s) && cell < |s.vvTried|
    ensures Ordered(AdmitTried(s, r, cell))
  {
    AdmitOrdered(s, r);
    var t, u := Admit(s, r), AdmitTried(s, r, cell);
    assert u.mapInfo.Keys == t.mapInfo.Keys;
    RandomFrame(t.mapInfo, u.mapInfo, t.vRandom);
  }

  lemma {:induction false} LoadTriedOrdered(img: Image, k: nat)
    requires Framed(img) && k <= |img.trieds|
    ensures Ordered(LoadTried(img, k))
  {
    if k == 0 {
      LoadNewOrdered(img, |img.news|);
    } else {
      LoadTriedOrdered(img, k - 1);
      var s, r := LoadTried(img, k - 1), img.trieds[k - 1];
      if s.vvTried[TriedSlot(img.key, r.service)] == EMPTY {
        AdmitTriedOrdered(s, r, TriedSlot(img.key, r.service));
      }
    }
  }

  lemma ReferOrdered(img: Image, s: State, bucket: nat, n: int)
    requires Ready(img, s) && Ordered(s)
    ensures Ordered(Refer(img, s, bucket, n))
  {
    if 0 <= n < img.nNew && bucket < NEW_BUCKET_COUNT {
      PutNewOrdered(s, NewSlot(img.key, s.mapInfo[n].service, bucket), n);
    }
  }

  lemma {:induction false} LoadRowOrdered(img: Image, s: State, bucket: nat, row: seq<int>)
    requires Ready(img, s) && Ordered(s)
    ensures Ordered(LoadRow(img, s, bucket, row))
    decreases |row|
  {
    if row != [] {
      var front := row[..|row| - 1];
      LoadRowOrdered(img, s, bucket, front);
      ReferOrdered(img, LoadRow(img, s, bucket, front), bucket, row[|row| - 1]);
    }
  }

  lemma {:induction false} LoadRowsOrdered(img: Image, k: nat)
    requires Framed(img) && k <= |img.rows|
    ensures Ordered(LoadRows(img, k))
  {
    if k == 0 {
      LoadTriedOrdered(img, |img.trieds|);
    } else {
      LoadRowsOrdered(img, k - 1);
      LoadRowOrdered(img, LoadRows(img, k - 1), k - 1, img.rows[k - 1]);
    }
  }

  // ----- Pruning -----

  lemma DropLastOrdered(s: State, id: int)
    requires Ordered(s) && id in s.mapInfo && s.mapInfo[id].nRandomPos == |s.vRandom| - 1
    ensures Ordered(DropLast(s, id))
  {
    RandomDrop(s.mapInfo, s.vRandom, id);
  }

  lemma SwapOrdered(s: State, i: nat, j: nat)
    requires Ordered(s) && i < |s.vRandom| && j < |s.vRandom|
    ensures SwapRandom.requires(s, i, j) && Ordered(SwapRandom(s, i, j))
    ensures SwapRandom(s, i, j).mapInfo.Keys == s.mapInfo.Keys && |SwapRandom(s, i, j).vRandom| == |s.vRandom|
    ensures SwapRandom(s, i, j).mapInfo[s.vRandom[i]].nRandomPos == j
  {
    SwapRandomOk(s, i, j);
  }

  lemma DeleteReady(s: State, id: int)
    requires Ordered(s) && id in s.mapInfo
    ensures Delete.requires(s, id) && s.vRandom[s.mapInfo[id].nRandomPos] == id
  {
  }

  lemma DeleteOrdered(s: State, id: int)
    requires Ordered(s) && id in s.mapInfo
    ensures Delete.requires(s, id) && Ordered(Delete(s, id))
  {
    DeleteReady(s, id);
    var at, last := s.mapInfo[id].nRandomPos, |s.vRandom| - 1;
    SwapOrdered(s, at, last);
    var t := SwapRandom(s, at, last);
    DropLastOrdered(t, id);
    assert Delete(s, id) == DropLast(t, id);
  }

  predicate Unplaced(s: State, id: int) {
    id in s.mapInfo && !s.mapInfo[id].fInTried && s.mapInfo[id].nRefCount == 0
  }

  /** An entry that is in neither table goes. Its deletion is always possible
      while the random order is sound. */
  ghost function PruneAt(s: State, id: int): State {
    if Unplaced(s, id) && Delete.requires(s, id) then Delete(s, id) else s
  }

  /** Running a step for each of the first n numbers in order. */
  ghost function Fold(step: (State, int) -> State, s: State, n: nat): State {
    if n == 0 then s else step(Fold(step, s, n - 1), n - 1)
  }

  lemma {:induction false} FoldKeeps(step: (State, int) -> State, p: (State, int) -> bool, s: State, n: nat)
    requires p(s, 0) && forall t, i :: 0 <= i < n && p(t, i) ==> p(step(t, i), i + 1)
    ensures p(Fold(step, s, n), n)
  {
    if n > 0 { FoldKeeps(step, p, s, n - 1); }
  }

  /** Dropping the entries below n that are in neither table. */
  ghost function Prune(s: State, n: nat): State { Fold(PruneAt, s, n) }

  lemma PruneAtOrdered(s: State, id: int)
    requires Ordered(s)
    ensures Ordered(PruneAt(s, id))
    ensures Unplaced(s, id) ==> Delete.requires(s, id)
  {
    if Unplaced(s, id) { DeleteOrdered(s, id); }
  }

  ghost function Rebuild(img: Image): State
    requires Framed(img)
  {
    var s := LoadRows(img, |img.rows|);
    Prune(s, AtLeastZero(s.nIdCount))
  }

  // ----- Distinct addresses give consistent tables -----

  function Records(img: Image): seq<Record> { img.news + img.trieds }

  ghost function Addrs(rs: seq<Record>, k: nat): set<NetAddr>
    requires k <= |rs|
  {
    if k == 0 then {} else Addrs(rs, k - 1) + {rs[k - 1].service.addr}
  }

  ghost predicate AddrFresh(rs: seq<Record>, k: nat)
    requires k < |rs|
  {
    rs[k].service.addr !in Addrs(rs, k)
  }

  ghost function Below(k: nat): (ids: set<int>)
    ensures forall id :: id in ids <==> 0 <= id < k
  {
    if k == 0 then {} else Below(k - 1) + {k - 1}
  }

  /** No address twice, and the times that consistent tables have. */
  ghost predicate Sound(img: Image) {
    && Framed(img) && img.nNew >= 0 && img.nTried >= 0
    && (forall k :: 0 <= k < |Records(img)| ==> AddrFresh(Records(img), k))
    && (forall k :: 0 <= k < |img.news| ==> img.news[k].nLastSuccess >= 0)
    && (forall k :: 0 <= k < |img.trieds| ==> img.trieds[k].nLastSuccess > 0)
  }

  lemma AdmitInv(h: Hasher, s: State, r: Record, zero: set<int>, uncounted: int)
    requires InvExcept(h, s, zero, uncounted) && r.service.addr !in s.mapAddr && r.nLastSuccess >= 0
    ensures InvExcept(h, Admit(s, r), zero + {s.nIdCount}, uncounted + 1)
  {
    var t := Create(s, r.service, r.nServices, r.nTime, r.source);
    CreateInv(h, s, r.service, r.nServices, r.nTime, r.source, zero, uncounted);
    StatsInv(h, t, s.nIdCount, Restored(r, |s.vRandom|), zero + {s.nIdCount}, uncounted + 1);
    assert Admit(s, r) == t.(mapInfo := t.mapInfo[s.nIdCount := Restored(r, |s.vRandom|)]);
  }

  lemma LoadNewRecordInv(img: Image, s: State, r: Record, zero: set<int>, uncounted: int)
    requires InvExcept(img.key, s, zero, uncounted) && r.service.addr !in s.mapAddr && r.nLastSuccess >= 0
    ensures InvExcept(img.key, LoadNewRecord(img, s, r), zero + {s.nIdCount}, uncounted + 1)
  {
    var id, t := s.nIdCount, Admit(s, r);
    AdmitInv(img.key, s, r, zero, uncounted);
    var cell := Ops.HomeCell(img.key, t.mapInfo[id]);
    if !Usable(img) && t.vvNew[cell] == EMPTY {
      PutNewInv(img.key, t, cell, id, zero + {id}, uncounted + 1);
      WeakenZero(img.key, PutNew(t, cell, id), zero + {id} - {id}, zero + {id}, uncounted + 1);
    }
  }

  lemma AdmitTriedInv(h: Hasher, s: State, r: Record, cell: nat, zero: set<int>, uncounted: int)
    requires InvExcept(h, s, zero, uncounted) && r.service.addr !in s.mapAddr && r.nLastSuccess > 0
    requires cell == TriedSlot(h, r.service) && s.vvTried[cell] == EMPTY
    ensures InvExcept(h, AdmitTried(s, r, cell).(nTried := s.nTried + 1), zero, uncounted)
  {
    var id, t := s.nIdCount, Admit(s, r);
    AdmitInv(h, s, r, zero, uncounted);
    PutTriedInv(h, t, cell, id, zero + {id}, uncounted + 1);
    assert AdmitTried(s, r, cell).(nTried := s.nTried + 1) == PutTried(t, cell, id);
    WeakenZero(h, PutTried(t, cell, id), zero + {id} - {id}, zero, uncounted);
  }

  lemma {:induction false} LoadNewAddrs(img: Image, k: nat)
    requires k <= |img.news|
    ensures LoadNew(img, k).mapAddr.Keys <= Addrs(Records(img), k)
  {
    if k > 0 {
      LoadNewAddrs(img, k - 1);
      assert Records(img)[k - 1] == img.news[k - 1];
    }
  }

  lemma NewAddrFresh(img: Image, k: nat)
    requires Sound(img) && k < |img.news|
    ensures img.news[k].service.addr !in LoadNew(img, k).mapAddr && img.news[k].nLastSuccess >= 0
  {
    LoadNewAddrs(img, k);
    assert AddrFresh(Records(img), k) && Records(img)[k] == img.news[k];
  }

  lemma LoadNewStart(img: Image)
    ensures InvExcept(img.key, LoadNew(img, 0), Below(0), -img.nNew)
  {
    Ops.ClearedInv(img.key);
  }

  lemma {:induction false} LoadNewInv(img: Image, k: nat)
    requires Sound(img) && k <= |img.news|
    ensures InvExcept(img.key, LoadNew(img, k), Below(k), k - img.nNew)
  {
    if k == 0 {
      LoadNewStart(img);
    } else {
      LoadNewInv(img, k - 1);
      NewAddrFresh(img, k - 1);
      LoadNewRecordInv(img, LoadNew(img, k - 1), img.news[k - 1], Below(k - 1), k - 1 - img.nNew);
    }
  }

  /** The entries stored indexes refer to are not tried. */
  ghost predicate NewFirst(img: Image, s: State) {
    && s.nIdCount >= img.nNew == s.nNew
    && forall n :: 0 <= n < img.nNew ==> n in s.mapInfo && !s.mapInfo[n].fInTried
  }

  /** nTried counts all tried records up front; k of them have been read. */
  function Recounted(img: Image, s: State, k: nat): State {
    s.(nTried := s.nTried - (img.nTried - k))
  }

  lemma {:induction false} LoadNewFirst(img: Image, k: nat)
    requires k <= |img.news|
    ensures forall n :: n in LoadNew(img, k).mapInfo ==> !LoadNew(img, k).mapInfo[n].fInTried
  {
    if k > 0 { LoadNewFirst(img, k - 1); }
  }

  lemma {:induction false} LoadTriedAddrs(img: Image, k: nat)
    requires Framed(img) && img.nNew >= 0 && k <= |img.trieds|
    ensures LoadTried(img, k).mapAddr.Keys <= Addrs(Records(img), |img.news| + k)
  {
    if k == 0 {
      LoadNewAddrs(img, |img.news|);
    } else {
      LoadTriedAddrs(img, k - 1);
      assert Records(img)[|img.news| + k - 1] == img.trieds[k - 1];
    }
  }

  lemma {:induction false} LoadTriedFirst(img: Image, k: nat)
    requires Framed(img) && img.nNew >= 0 && k <= |img.trieds|
    ensures NewFirst(img, LoadTried(img, k))
  {
    if k == 0 {
      LoadNewFirst(img, |img.news|);
    } else {
      LoadTriedFirst(img, k - 1);
    }
  }

  lemma LoadTriedRecordInv(img: Image, s: State, r: Record, k: nat, zero: set<int>)
    requires InvExcept(img.key, Recounted(img, s, k), zero, 0)
    requires r.service.addr !in s.mapAddr && r.nLastSuccess > 0 && |s.vvTried| == TRIED_CELLS
    ensures InvExcept(img.key, Recounted(img, LoadTriedRecord(img.key, s, r), k + 1), zero, 0)
  {
    var c, cell := Recounted(img, s, k), TriedSlot(img.key, r.service);
    var t := Recounted(img, LoadTriedRecord(img.key, s, r), k + 1);
    if s.vvTried[cell] == EMPTY {
      AdmitTriedInv(img.key, c, r, cell, zero, 0);
      assert AdmitTried(c, r, cell).(nTried := c.nTried + 1) == t;
    } else {
      assert t == c;
    }
  }

  lemma LoadTriedStart(img: Image)
    requires Sound(img)
    ensures InvExcept(img.key, Recounted(img, LoadTried(img, 0), 0), Below(|img.news|), 0)
  {
    LoadNewInv(img, |img.news|);
    assert Recounted(img, LoadTried(img, 0), 0) == LoadNew(img, |img.news|);
  }

  lemma TriedFresh(img: Image, k: nat)
    requires Sound(img) && k < |img.trieds|
    ensures img.trieds[k].service.addr !in Addrs(Records(img), |img.news| + k) && img.trieds[k].nLastSuccess > 0
  {
    assert AddrFresh(Records(img), |img.news| + k);
  }

  lemma TriedAddrFresh(img: Image, k: nat)
    requires Sound(img) && k < |img.trieds|
    ensures img.trieds[k].service.addr !in LoadTried(img, k).mapAddr && img.trieds[k].nLastSuccess > 0
  {
    LoadTriedAddrs(img, k);
    TriedFresh(img, k);
  }

  lemma {:induction false} LoadTriedInv(img: Image, k: nat)
    requires Sound(img) && k <= |img.trieds|
    ensures InvExcept(img.key, Recounted(img, LoadTried(img, k), k), Below(|img.news|), 0)
  {
    if k == 0 {
      LoadTriedStart(img);
    } else {
      LoadTriedInv(img, k - 1);
      TriedAddrFresh(img, k - 1);
      LoadTriedRecordInv(img, LoadTried(img, k - 1), img.trieds[k - 1], k - 1, Below(|img.news|));
    }
  }

  lemma ReferInv(img: Image, s: State, bucket: nat, n: int, zero: set<int>)
    requires Ready(img, s) && NewFirst(img, s) && InvExcept(img.key, s, zero, 0)
    ensures InvExcept(img.key, Refer(img, s, bucket, n), zero, 0) && NewFirst(img, Refer(img, s, bucket, n))
  {
    var t := Refer(img, s, bucket, n);
    if t != s {
      var cell := NewSlot(img.key, s.mapInfo[n].service, bucket);
      PutNewInv(img.key, s, cell, n, zero, 0);
      WeakenZero(img.key, PutNew(s, cell, n), zero - {n}, zero, 0);
    }
  }

  lemma {:induction false} LoadRowInv(img: Image, s: State, bucket: nat, row: seq<int>, zero: set<int>)
    requires Ready(img, s) && NewFirst(img, s) && InvExcept(img.key, s, zero, 0)
    ensures InvExcept(img.key, LoadRow(img, s, bucket, row), zero, 0) && NewFirst(img, LoadRow(img, s, bucket, row))
    decreases |row|
  {
    if row != [] {
      var front := row[..|row| - 1];
      LoadRowInv(img, s, bucket, front, zero);
      ReferInv(img, LoadRow(img, s, bucket, front), bucket, row[|row| - 1], zero);
    }
  }

  lemma {:induction false} LoadRowsInv(img: Image, k: nat)
    requires Sound(img) && k <= |img.rows|
    ensures InvExcept(img.key, LoadRows(img, k), Below(|img.news|), 0) && NewFirst(img, LoadRows(img, k))
  {
    if k == 0 {
      LoadTriedInv(img, |img.trieds|);
      LoadTriedFirst(img, |img.trieds|);
      assert Recounted(img, LoadTried(img, |img.trieds|), |img.trieds|) == LoadTried(img, |img.trieds|);
    } else {
      LoadRowsInv(img, k - 1);
      LoadRowInv(img, LoadRows(img, k - 1), k - 1, img.rows[k - 1], Below(|img.news|));
    }
  }

  lemma PruneAtInv(h: Hasher, s: State, id: int, zero: set<int>)
    requires InvExcept(h, s, zero, 0)
    ensures InvExcept(h, PruneAt(s, id), zero, 0)
  {
    if Unplaced(s, id) {
      DeleteInv(h, s, id, zero, 0);
      WeakenZero(h, Delete(s, id), zero - {id}, zero, 0);
    }
  }

  lemma PruneAtEffect(s: State, id: int, o: int)
    requires Ordered(s)
    ensures Unplaced(PruneAt(s, id), o) ==> Unplaced(s, o) && o != id
  {
    if Unplaced(s, id) {
      DeleteOrdered(s, id);
      DeleteEffect(s, id);
      if o in s.mapInfo - {id} {
        assert Delete(s, id).mapInfo[o] == s.mapInfo[o].(nRandomPos := Delete(s, id).mapInfo[o].nRandomPos);
      }
    }
  }

  lemma PruneInv(h: Hasher, s: State, n: nat, zero: set<int>)
    requires InvExcept(h, s, zero, 0)
    ensures InvExcept(h, Prune(s, n), zero, 0)
  {
    forall t, i | InvExcept(h, t, zero, 0) ensures InvExcept(h, PruneAt(t, i), zero, 0) { PruneAtInv(h, t, i, zero); }
    FoldKeeps(PruneAt, (t, _) => InvExcept(h, t, zero, 0), s, n);
  }

  /** Nothing in neither table is left below i. */
  ghost predicate PrunedTo(s: State, i: int) {
    Ordered(s) && forall id :: 0 <= id < i ==> !Unplaced(s, id)
  }

  lemma PruneAtTo(s: State, i: int)
    requires PrunedTo(s, i)
    ensures PrunedTo(PruneAt(s, i), i + 1)
  {
    PruneAtOrdered(s, i);
    forall id | 0 <= id < i + 1 ensures !Unplaced(PruneAt(s, i), id) { PruneAtEffect(s, i, id); }
  }

  lemma PrunedAll(s: State, n: nat)
    requires Ordered(s)
    ensures PrunedTo(Prune(s, n), n)
  {
    forall t, i | PrunedTo(t, i) ensures PrunedTo(PruneAt(t, i), i + 1) { PruneAtTo(t, i); }
    FoldKeeps(PruneAt, PrunedTo, s, n);
  }

  lemma AllPlaced(h: Hasher, s: State, n: nat, zero: set<int>)
    requires InvExcept(h, s, zero, 0) && PrunedTo(s, n) && zero <= Below(n)
    ensures Inv(h, s)
  {
    forall o | o in s.mapInfo ensures RefOk(s.mapInfo, s.vvNew, {}, o) {
      assert RefOk(s.mapInfo, s.vvNew, zero, o);
      assert o in zero ==> 0 <= o < n && !Unplaced(s, o);
    }
  }

  /** Any stream with distinct addresses and sensible times, usable positions or
      not, rebuilds to tables that agree. */
  lemma RebuildInv(img: Image)
    requires Sound(img)
    ensures Inv(img.key, Rebuild(img))
  {
    var s, n := LoadRows(img, |img.rows|), LoadRows(img, |img.rows|).nIdCount;
    LoadRowsInv(img, |img.rows|);
    LoadRowsOrdered(img, |img.rows|);
    PruneInv(img.key, s, n, Below(|img.news|));
    PrunedAll(s, n);
    AllPlaced(img.key, Prune(s, n), n, Below(|img.news|));
  }
}
