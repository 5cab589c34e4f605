/**
  The address manager's tables (src/addrman.cpp, src/addrman.h).

  Six tables describe one set of addresses: the entries by id, the ids by
  network address, the randomly ordered id list, the "new" and "tried" bucket
  tables, and two counters. `Check_` writes down how they must agree. Here that
  agreement is the invariant `Inv`, and every operation is proved to keep it.

  Bucket and position hashes are arbitrary functions with the right ranges.
  A two-dimensional table is stored row by row: cell (bucket, pos) is at
  bucket * BUCKET_SIZE + pos.
*/
module AddrTables {

  const NEW_BUCKET_COUNT := 1024
  const TRIED_BUCKET_COUNT := 256
  const BUCKET_SIZE := 64
  const NEW_BUCKETS_PER_ADDRESS := 8
  const EMPTY := -1

  type NewBucket = n: nat | n < NEW_BUCKET_COUNT
  type TriedBucket = n: nat | n < TRIED_BUCKET_COUNT
  type Position = n: nat | n < BUCKET_SIZE

  datatype NetAddr = NetAddr(ip: int)
  datatype Service = Service(addr: NetAddr, port: int)

  datatype Info = Info(
    service: Service,
    nServices: set<nat>,
    nTime: int,
    source: NetAddr,
    nLastTry: int,
    nLastCountAttempt: int,
    nLastSuccess: int,
    nAttempts: int,
    nRefCount: int,
    fInTried: bool,
    nRandomPos: int)

  /** The keyed hashes that choose buckets and positions. */
  datatype Hasher = Hasher(
    triedBucket: Service -> TriedBucket,
    newBucket: (Service, NetAddr) -> NewBucket,
    position: (bool, nat, Service) -> Position)

  type InfoMap = map<int, Info>
  type AddrMap = map<NetAddr, int>

  datatype State = State(
    nIdCount: int,
    mapInfo: InfoMap,
    mapAddr: AddrMap,
    vRandom: seq<int>,
    nTried: int,
    vvTried: seq<int>,
    nNew: int,
    vvNew: seq<int>,
    nLastGood: int)

  function NewSlot(h: Hasher, service: Service, bucket: NewBucket): nat {
    bucket * BUCKET_SIZE + h.position(true, bucket, service)
  }

  function TriedSlot(h: Hasher, service: Service): nat {
    h.triedBucket(service) * BUCKET_SIZE + h.position(false, h.triedBucket(service), service)
  }

  // ----- The invariant -----

  /** vRandom and nRandomPos are inverse to each other. */
  ghost predicate RandomOk(mapInfo: InfoMap, vRandom: seq<int>) {
    && |vRandom| == |mapInfo|
    && (forall id {:trigger mapInfo[id].nRandomPos} :: id in mapInfo ==>
      0 <= mapInfo[id].nRandomPos < |vRandom| && vRandom[mapInfo[id].nRandomPos] == id)
    && (forall k :: 0 <= k < |vRandom| ==> vRandom[k] in mapInfo && mapInfo[vRandom[k]].nRandomPos == k)
  }

  /** mapAddr and the entries' addresses are inverse to each other. */
  ghost predicate AddrOk(mapInfo: InfoMap, mapAddr: AddrMap) {
    && (forall id {:trigger mapInfo[id].service} :: id in mapInfo ==>
      mapInfo[id].service.addr in mapAddr && mapAddr[mapInfo[id].service.addr] == id)
    && (forall a :: a in mapAddr ==> mapAddr[a] in mapInfo && mapInfo[mapAddr[a]].service.addr == a)
  }

  ghost predicate IdsOk(mapInfo: InfoMap, nIdCount: int) {
    && 0 <= nIdCount
    && forall id :: id in mapInfo ==> 0 <= id < nIdCount
  }

  /** The cells of the new table that refer to an id. */
  ghost function Cells(vvNew: seq<int>, id: int): set<int> {
    set i | 0 <= i < |vvNew| && vvNew[i] == id
  }

  /** A cell of the new table holds nothing, or an entry that is not tried and
      whose own position in that bucket this is. */
  ghost predicate NewCellOk(h: Hasher, mapInfo: InfoMap, vvNew: seq<int>, i: int)
    requires 0 <= i < |vvNew| == NEW_BUCKET_COUNT * BUCKET_SIZE
  {
    vvNew[i] != EMPTY ==>
      && vvNew[i] in mapInfo && !mapInfo[vvNew[i]].fInTried
      && i == NewSlot(h, mapInfo[vvNew[i]].service, i / BUCKET_SIZE)
  }

  /** An entry's reference count is its number of cells, between 1 and 8;
      entries in `zero` may be out of the table for the moment. */
  ghost predicate RefOk(mapInfo: InfoMap, vvNew: seq<int>, zero: set<int>, id: int)
    requires id in mapInfo
  {
    var info := mapInfo[id];
    && info.nRefCount == |Cells(vvNew, id)|
    && (if info.fInTried then info.nRefCount == 0
        else 0 <= info.nRefCount <= NEW_BUCKETS_PER_ADDRESS && (info.nRefCount == 0 ==> id in zero))
  }

  ghost predicate NewOk(h: Hasher, mapInfo: InfoMap, vvNew: seq<int>, zero: set<int>) {
    && |vvNew| == NEW_BUCKET_COUNT * BUCKET_SIZE
    && (forall i :: 0 <= i < |vvNew| ==> NewCellOk(h, mapInfo, vvNew, i))
    && (forall id {:trigger RefOk(mapInfo, vvNew, zero, id)} :: id in mapInfo ==> RefOk(mapInfo, vvNew, zero, id))
  }

  /** Tried entries occupy exactly their own cell. */
  ghost predicate TriedOk(h: Hasher, mapInfo: InfoMap, vvTried: seq<int>) {
    && |vvTried| == TRIED_BUCKET_COUNT * BUCKET_SIZE
    && (forall i :: 0 <= i < |vvTried| && vvTried[i] != EMPTY ==>
          vvTried[i] in mapInfo && mapInfo[vvTried[i]].fInTried && i == TriedSlot(h, mapInfo[vvTried[i]].service))
    && (forall id {:trigger mapInfo[id].fInTried} :: id in mapInfo && mapInfo[id].fInTried ==>
          vvTried[TriedSlot(h, mapInfo[id].service)] == id && mapInfo[id].nLastSuccess != 0)
  }

  ghost predicate TimesOk(mapInfo: InfoMap) {
    forall id {:trigger mapInfo[id].nLastTry} {:trigger mapInfo[id].nLastSuccess} ::
      id in mapInfo ==> mapInfo[id].nLastTry >= 0 && mapInfo[id].nLastSuccess >= 0
  }

  ghost function TriedIds(mapInfo: InfoMap): set<int> {
    set id | id in mapInfo && mapInfo[id].fInTried
  }

  ghost function NewIds(mapInfo: InfoMap): set<int> {
    set id | id in mapInfo && !mapInfo[id].fInTried
  }

  /** `uncounted` new entries are not in nNew for the moment. */
  ghost predicate CountsOk(mapInfo: InfoMap, nTried: int, nNew: int, uncounted: int) {
    && nTried == |TriedIds(mapInfo)|
    && nNew == |NewIds(mapInfo)| - uncounted
  }

  ghost predicate InvExcept(h: Hasher, s: State, zero: set<int>, uncounted: int) {
    && RandomOk(s.mapInfo, s.vRandom)
    && AddrOk(s.mapInfo, s.mapAddr)
    && IdsOk(s.mapInfo, s.nIdCount)
    && NewOk(h, s.mapInfo, s.vvNew, zero)
    && TriedOk(h, s.mapInfo, s.vvTried)
    && TimesOk(s.mapInfo)
    && CountsOk(s.mapInfo, s.nTried, s.nNew, uncounted)
  }

  ghost predicate Inv(h: Hasher, s: State) { InvExcept(h, s, {}, 0) }

  // ----- What each part of the invariant looks at -----

  lemma RandomFrame(m: InfoMap, m': InfoMap, vRandom: seq<int>)
    requires RandomOk(m, vRandom) && m'.Keys == m.Keys
    requires forall id :: id in m ==> m'[id].nRandomPos == m[id].nRandomPos
    ensures RandomOk(m', vRandom)
  {
    assert |m'| == |m'.Keys| && |m| == |m.Keys|;
  }

  lemma NewFrame(h: Hasher, m: InfoMap, m': InfoMap, vvNew: seq<int>, zero: set<int>)
    requires NewOk(h, m, vvNew, zero) && m'.Keys == m.Keys
    requires forall id :: id in m ==>
      m'[id].service == m[id].service && m'[id].nRefCount == m[id].nRefCount && m'[id].fInTried == m[id].fInTried
    ensures NewOk(h, m', vvNew, zero)
  {
    forall i | 0 <= i < |vvNew| ensures NewCellOk(h, m', vvNew, i) {
      assert NewCellOk(h, m, vvNew, i);
    }
    forall id | id in m' ensures RefOk(m', vvNew, zero, id) {
      assert RefOk(m, vvNew, zero, id);
    }
  }

  /** Same entries, up to reference counts, random positions and statistics. */
  ghost predicate SameEntries(m: InfoMap, m': InfoMap) {
    && m'.Keys == m.Keys
    && forall id :: id in m ==> m'[id].service == m[id].service && m'[id].fInTried == m[id].fInTried
  }

  ghost predicate SameStats(m: InfoMap, m': InfoMap) {
    && m'.Keys == m.Keys
    && forall id :: id in m ==> m'[id].nLastTry == m[id].nLastTry && m'[id].nLastSuccess == m[id].nLastSuccess
  }

  lemma AddrFrame(m: InfoMap, m': InfoMap, mapAddr: AddrMap, nIdCount: int)
    requires SameEntries(m, m') && AddrOk(m, mapAddr) && IdsOk(m, nIdCount)
    ensures AddrOk(m', mapAddr) && IdsOk(m', nIdCount)
  {
  }

  lemma TriedFrame(h: Hasher, m: InfoMap, m': InfoMap, vvTried: seq<int>)
    requires SameEntries(m, m') && TriedOk(h, m, vvTried)
    requires forall id :: id in m' && m'[id].fInTried ==> m'[id].nLastSuccess != 0
    ensures TriedOk(h, m', vvTried)
  {
  }

  lemma CountsFrame(m: InfoMap, m': InfoMap)
    requires SameEntries(m, m')
    ensures TriedIds(m') == TriedIds(m) && NewIds(m') == NewIds(m)
  {
    forall id ensures id in TriedIds(m') <==> id in TriedIds(m) {}
    forall id ensures id in NewIds(m') <==> id in NewIds(m) {}
  }

  /** The parts that neither counts nor positions nor the new table affect. */
  lemma RestFrame(h: Hasher, s: State, s': State, zero: set<int>, uncounted: int)
    requires InvExcept(h, s, zero, uncounted)
    requires SameEntries(s.mapInfo, s'.mapInfo) && SameStats(s.mapInfo, s'.mapInfo)
    requires s'.mapAddr == s.mapAddr && s'.nIdCount == s.nIdCount && s'.vvTried == s.vvTried
    requires s'.nTried == s.nTried && s'.nNew == s.nNew
    ensures AddrOk(s'.mapInfo, s'.mapAddr) && IdsOk(s'.mapInfo, s'.nIdCount)
    ensures TriedOk(h, s'.mapInfo, s'.vvTried) && TimesOk(s'.mapInfo)
    ensures CountsOk(s'.mapInfo, s'.nTried, s'.nNew, uncounted)
  {
    AddrFrame(s.mapInfo, s'.mapInfo, s.mapAddr, s.nIdCount);
    TriedFrame(h, s.mapInfo, s'.mapInfo, s.vvTried);
    CountsFrame(s.mapInfo, s'.mapInfo);
  }

  /** Changing an entry's statistics keeps the invariant. */
  lemma StatsInv(h: Hasher, s: State, id: int, info: Info, zero: set<int>, uncounted: int)
    requires InvExcept(h, s, zero, uncounted) && id in s.mapInfo
    requires var was := s.mapInfo[id];
      info.service == was.service && info.nRefCount == was.nRefCount && info.fInTried == was.fInTried &&
        info.nRandomPos == was.nRandomPos
    requires info.nLastTry >= 0 && info.nLastSuccess >= 0
    requires info.fInTried ==> info.nLastSuccess != 0
    ensures InvExcept(h, s.(mapInfo := s.mapInfo[id := info]), zero, uncounted)
  {
    var m, m' := s.mapInfo, s.mapInfo[id := info];
    assert m'.Keys == m.Keys;
    RandomFrame(m, m', s.vRandom);
    NewFrame(h, m, m', s.vvNew, zero);
    AddrFrame(m, m', s.mapAddr, s.nIdCount);
    TriedFrame(h, m, m', s.vvTried);
    CountsFrame(m, m');
  }

  // ----- SwapRandom -----

  function SwapRandom(s: State, i: nat, j: nat): State
    requires i < |s.vRandom| && j < |s.vRandom|
    requires s.vRandom[i] in s.mapInfo && s.vRandom[j] in s.mapInfo
  {
    if i == j then s
    else
      var a, b := s.vRandom[i], s.vRandom[j];
      var m := s.mapInfo[a := s.mapInfo[a].(nRandomPos := j)];
      s.(mapInfo := m[b := m[b].(nRandomPos := i)], vRandom := s.vRandom[i := b][j := a])
  }

  /** The same entries at other random positions. */
  ghost predicate Shuffled(m: InfoMap, m': InfoMap) {
    && m'.Keys == m.Keys
    && forall id :: id in m ==> m'[id] == m[id].(nRandomPos := m'[id].nRandomPos)
  }

  lemma SwapRandomInv(h: Hasher, s: State, i: nat, j: nat, zero: set<int>, uncounted: int)
    requires InvExcept(h, s, zero, uncounted) && i < |s.vRandom| && j < |s.vRandom|
    ensures s.vRandom[i] in s.mapInfo && s.vRandom[j] in s.mapInfo
    ensures InvExcept(h, SwapRandom(s, i, j), zero, uncounted)
    ensures Shuffled(s.mapInfo, SwapRandom(s, i, j).mapInfo)
  {
    var t := SwapRandom(s, i, j);
    SwapRandomOk(s, i, j);
    NewFrame(h, s.mapInfo, t.mapInfo, s.vvNew, zero);
    RestFrame(h, s, t, zero, uncounted);
  }

  lemma SwapRandomOk(s: State, i: nat, j: nat)
    requires RandomOk(s.mapInfo, s.vRandom) && i < |s.vRandom| && j < |s.vRandom|
    ensures s.vRandom[i] in s.mapInfo && s.vRandom[j] in s.mapInfo
    ensures RandomOk(SwapRandom(s, i, j).mapInfo, SwapRandom(s, i, j).vRandom)
    ensures Shuffled(s.mapInfo, SwapRandom(s, i, j).mapInfo)
    ensures i != j ==> SwapRandom(s, i, j).mapInfo[s.vRandom[i]].nRandomPos == j
  {
    var t := SwapRandom(s, i, j);
    assert t.mapInfo.Keys == s.mapInfo.Keys;
  }

  // ----- Delete -----

  /** The entry whose id is last in vRandom leaves every index. */
  function DropLast(s: State, id: int): State
    requires id in s.mapInfo && |s.vRandom| > 0
  {
    s.(vRandom := s.vRandom[..|s.vRandom| - 1],
       mapAddr := s.mapAddr - {s.mapInfo[id].service.addr},
       mapInfo := s.mapInfo - {id},
       nNew := s.nNew - 1)
  }

  function Delete(s: State, id: int): State
    requires id in s.mapInfo && 0 <= s.mapInfo[id].nRandomPos < |s.vRandom|
    requires s.vRandom[s.mapInfo[id].nRandomPos] in s.mapInfo && s.vRandom[|s.vRandom| - 1] in s.mapInfo
  {
    DropLast(SwapRandom(s, s.mapInfo[id].nRandomPos, |s.vRandom| - 1), id)
  }

  lemma DropLastInv(h: Hasher, s: State, id: int, zero: set<int>, uncounted: int)
    requires InvExcept(h, s, zero, uncounted) && id in s.mapInfo
    requires !s.mapInfo[id].fInTried && s.mapInfo[id].nRefCount == 0 && s.mapInfo[id].nRandomPos == |s.vRandom| - 1
    ensures InvExcept(h, DropLast(s, id), zero - {id}, uncounted)
  {
    DropCounts(s.mapInfo, id);
    RestDrop(s.mapInfo, id, s.nIdCount);
    RandomDrop(s.mapInfo, s.vRandom, id);
    AddrDrop(s.mapInfo, s.mapAddr, id);
    NewDrop(h, s.mapInfo, s.vvNew, zero, id);
    TriedDrop(h, s.mapInfo, s.vvTried, id);
  }

  lemma DeleteInv(h: Hasher, s: State, id: int, zero: set<int>, uncounted: int)
    requires InvExcept(h, s, zero, uncounted) && id in s.mapInfo
    requires !s.mapInfo[id].fInTried && s.mapInfo[id].nRefCount == 0
    ensures Delete.requires(s, id)
    ensures InvExcept(h, Delete(s, id), zero - {id}, uncounted)
  {
    SwapToLast(h, s, id, zero, uncounted);
    var t := SwapRandom(s, s.mapInfo[id].nRandomPos, |s.vRandom| - 1);
    assert Delete(s, id) == DropLast(t, id);
    DropLastInv(h, t, id, zero, uncounted);
  }

  lemma SwapToLast(h: Hasher, s: State, id: int, zero: set<int>, uncounted: int)
    requires InvExcept(h, s, zero, uncounted) && id in s.mapInfo
    ensures Delete.requires(s, id)
    ensures var t := SwapRandom(s, s.mapInfo[id].nRandomPos, |s.vRandom| - 1);
      && InvExcept(h, t, zero, uncounted) && |t.vRandom| == |s.vRandom|
      && id in t.mapInfo && t.mapInfo[id] == s.mapInfo[id].(nRandomPos := |s.vRandom| - 1)
  {
    var at, last := s.mapInfo[id].nRandomPos, |s.vRandom| - 1;
    SwapRandomInv(h, s, at, last, zero, uncounted);
    SwapRandomOk(s, at, last);
  }

  lemma DeleteEffect(s: State, id: int)
    requires RandomOk(s.mapInfo, s.vRandom) && id in s.mapInfo
    ensures Delete.requires(s, id)
    ensures Shuffled(s.mapInfo - {id}, Delete(s, id).mapInfo)
    ensures Delete(s, id).vvNew == s.vvNew && Delete(s, id).vvTried == s.vvTried
  {
    var at, last := s.mapInfo[id].nRandomPos, |s.vRandom| - 1;
    SwapRandomOk(s, at, last);
    var m, t := s.mapInfo, SwapRandom(s, at, last).mapInfo;
    assert Delete(s, id).mapInfo == t - {id};
    assert (t - {id}).Keys == (m - {id}).Keys;
  }

  lemma DropCounts(m: InfoMap, id: int)
    requires id in m && !m[id].fInTried
    ensures TriedIds(m - {id}) == TriedIds(m) && |NewIds(m - {id})| == |NewIds(m)| - 1
  {
    assert TriedIds(m - {id}) == TriedIds(m);
    assert NewIds(m - {id}) == NewIds(m) - {id};
  }

  lemma RestDrop(m: InfoMap, id: int, nIdCount: int)
    requires IdsOk(m, nIdCount) && TimesOk(m)
    ensures IdsOk(m - {id}, nIdCount) && TimesOk(m - {id})
  {
  }

  lemma RandomDrop(m: InfoMap, vRandom: seq<int>, id: int)
    requires RandomOk(m, vRandom) && id in m && m[id].nRandomPos == |vRandom| - 1
    ensures RandomOk(m - {id}, vRandom[..|vRandom| - 1])
  {
    var m', v' := m - {id}, vRandom[..|vRandom| - 1];
    assert m'.Keys == m.Keys - {id};
    assert |m'| == |m'.Keys| == |m| - 1 by { assert |m| == |m.Keys|; }
    forall k | 0 <= k < |v'| ensures v'[k] in m' && m'[v'[k]].nRandomPos == k {
      assert vRandom[k] in m && m[vRandom[k]].nRandomPos == k;
    }
    forall o | o in m' ensures 0 <= m'[o].nRandomPos < |v'| && v'[m'[o].nRandomPos] == o {
      assert o in m;
    }
  }

  lemma AddrDrop(m: InfoMap, mapAddr: AddrMap, id: int)
    requires AddrOk(m, mapAddr) && id in m
    ensures AddrOk(m - {id}, mapAddr - {m[id].service.addr})
  {
  }

  lemma TriedDrop(h: Hasher, m: InfoMap, vvTried: seq<int>, id: int)
    requires TriedOk(h, m, vvTried) && id in m && !m[id].fInTried
    ensures TriedOk(h, m - {id}, vvTried)
  {
  }

  lemma NewDrop(h: Hasher, m: InfoMap, vvNew: seq<int>, zero: set<int>, id: int)
    requires NewOk(h, m, vvNew, zero) && id in m && m[id].nRefCount == 0
    ensures NewOk(h, m - {id}, vvNew, zero - {id})
  {
    var m' := m - {id};
    assert RefOk(m, vvNew, zero, id);
    forall i | 0 <= i < |vvNew| ensures NewCellOk(h, m', vvNew, i) {
      assert NewCellOk(h, m, vvNew, i);
      assert i !in Cells(vvNew, id);
    }
    forall o | o in m' ensures RefOk(m', vvNew, zero - {id}, o) {
      assert RefOk(m, vvNew, zero, o);
    }
  }

  // ----- ClearNew -----

  /** Taking one reference out of the new table. */
  function Unref(s: State, cell: nat): State
    requires cell < |s.vvNew| && s.vvNew[cell] in s.mapInfo
  {
    var id := s.vvNew[cell];
    s.(mapInfo := s.mapInfo[id := s.mapInfo[id].(nRefCount := s.mapInfo[id].nRefCount - 1)],
       vvNew := s.vvNew[cell := EMPTY])
  }

  lemma CellsPut(vvNew: seq<int>, cell: nat, id: int, o: int)
    requires cell < |vvNew| && o != EMPTY
    requires vvNew[cell] == EMPTY || id == EMPTY
    ensures vvNew[cell] == o && id == EMPTY ==> |Cells(vvNew[cell := id], o)| == |Cells(vvNew, o)| - 1
    ensures vvNew[cell] == EMPTY && id == o ==> |Cells(vvNew[cell := id], o)| == |Cells(vvNew, o)| + 1
    ensures vvNew[cell] != o && id != o ==> Cells(vvNew[cell := id], o) == Cells(vvNew, o)
  {
    var updated := vvNew[cell := id];
    if vvNew[cell] == o && id == EMPTY {
      assert Cells(updated, o) == Cells(vvNew, o) - {cell as int};
    } else if vvNew[cell] == EMPTY && id == o {
      assert Cells(updated, o) == Cells(vvNew, o) + {cell as int};
    }
  }

  lemma UnrefInv(h: Hasher, s: State, cell: nat, zero: set<int>, uncounted: int)
    requires InvExcept(h, s, zero, uncounted) && cell < |s.vvNew| && s.vvNew[cell] != EMPTY
    ensures s.vvNew[cell] in s.mapInfo && s.mapInfo[s.vvNew[cell]].nRefCount > 0
    ensures InvExcept(h, Unref(s, cell), zero + {s.vvNew[cell]}, uncounted)
    ensures Unref(s, cell).mapInfo[s.vvNew[cell]].nRefCount > 0 ==> InvExcept(h, Unref(s, cell), zero, uncounted)
  {
    var id := s.vvNew[cell];
    assert NewCellOk(h, s.mapInfo, s.vvNew, cell);
    assert RefOk(s.mapInfo, s.vvNew, zero, id);
    assert cell as int in Cells(s.vvNew, id);
    var t := Unref(s, cell);
    assert t.mapInfo.Keys == s.mapInfo.Keys;
    UnrefNew(h, s, cell, zero);
    RandomFrame(s.mapInfo, t.mapInfo, s.vRandom);
    RestFrame(h, s, t, zero, uncounted);
  }

  lemma UnrefNew(h: Hasher, s: State, cell: nat, zero: set<int>)
    requires IdsOk(s.mapInfo, s.nIdCount)
    requires NewOk(h, s.mapInfo, s.vvNew, zero) && cell < |s.vvNew| && s.vvNew[cell] != EMPTY &&
      s.vvNew[cell] in s.mapInfo
    ensures NewOk(h, Unref(s, cell).mapInfo, Unref(s, cell).vvNew, zero + {s.vvNew[cell]})
    ensures Unref(s, cell).mapInfo[s.vvNew[cell]].nRefCount > 0 ==>
      NewOk(h, Unref(s, cell).mapInfo, Unref(s, cell).vvNew, zero)
  {
    var id := s.vvNew[cell];
    var t := Unref(s, cell);
    assert NewCellOk(h, s.mapInfo, s.vvNew, cell);
    forall i | 0 <= i < |t.vvNew| ensures NewCellOk(h, t.mapInfo, t.vvNew, i) {
      assert NewCellOk(h, s.mapInfo, s.vvNew, i);
    }
    forall o | o in t.mapInfo
      ensures RefOk(t.mapInfo, t.vvNew, zero + {id}, o)
      ensures t.mapInfo[id].nRefCount > 0 ==> RefOk(t.mapInfo, t.vvNew, zero, o)
    {
      assert RefOk(s.mapInfo, s.vvNew, zero, o);
      CellsPut(s.vvNew, cell, EMPTY, o);
    }
  }

  function ClearNew(s: State, cell: nat): State
    requires cell < |s.vvNew|
    requires s.vvNew[cell] != EMPTY ==>
      s.vvNew[cell] in s.mapInfo &&
        (s.mapInfo[s.vvNew[cell]].nRefCount == 1 ==> Delete.requires(Unref(s, cell), s.vvNew[cell]))
  {
    if s.vvNew[cell] == EMPTY then s
    else if s.mapInfo[s.vvNew[cell]].nRefCount == 1 then Delete(Unref(s, cell), s.vvNew[cell])
    else Unref(s, cell)
  }

  /** The entry that loses its last cell when `cell` is cleared. */
  ghost function Forgotten(s: State, cell: nat): set<int>
    requires cell < |s.vvNew|
  {
    var id := s.vvNew[cell];
    if id != EMPTY && id in s.mapInfo && s.mapInfo[id].nRefCount == 1 then {id} else {}
  }

  /** Clearing a cell keeps the invariant and forgets at most the entry that
      was there, and that one only if this was its last cell. */
  lemma ClearNewInv(h: Hasher, s: State, cell: nat, zero: set<int>, uncounted: int)
    requires InvExcept(h, s, zero, uncounted) && cell < |s.vvNew|
    ensures ClearNew.requires(s, cell)
    ensures InvExcept(h, ClearNew(s, cell), zero, uncounted)
  {
    if s.vvNew[cell] != EMPTY {
      UnrefInv(h, s, cell, zero, uncounted);
      if s.mapInfo[s.vvNew[cell]].nRefCount == 1 {
        ClearLastInv(h, s, cell, zero, uncounted);
      }
    }
  }

  lemma ClearLastInv(h: Hasher, s: State, cell: nat, zero: set<int>, uncounted: int)
    requires InvExcept(h, s, zero, uncounted) && cell < |s.vvNew| && s.vvNew[cell] != EMPTY
    requires s.vvNew[cell] in s.mapInfo && s.mapInfo[s.vvNew[cell]].nRefCount == 1
    ensures Delete.requires(Unref(s, cell), s.vvNew[cell])
    ensures InvExcept(h, Delete(Unref(s, cell), s.vvNew[cell]), zero, uncounted)
  {
    var id := s.vvNew[cell];
    UnrefInv(h, s, cell, zero, uncounted);
    assert NewCellOk(h, s.mapInfo, s.vvNew, cell);
    DeleteInv(h, Unref(s, cell), id, zero + {id}, uncounted);
    WeakenZero(h, Delete(Unref(s, cell), id), zero + {id} - {id}, zero, uncounted);
  }

  /** Only the references and the place in the random order may have changed. */
  ghost predicate SameRecord(was: Info, now: Info) {
    now == was.(nRefCount := now.nRefCount, nRandomPos := now.nRandomPos)
  }

  /** So it is for every entry that is left but one. */
  ghost predicate OthersKept(s: State, t: State, id: int) {
    forall o :: o in t.mapInfo && o in s.mapInfo && o != id ==> SameRecord(s.mapInfo[o], t.mapInfo[o])
  }

  lemma ClearNewEffect(h: Hasher, s: State, cell: nat, zero: set<int>, uncounted: int)
    requires InvExcept(h, s, zero, uncounted) && cell < |s.vvNew|
    ensures ClearNew.requires(s, cell)
    ensures var t := ClearNew(s, cell);
      && t.vvNew == s.vvNew[cell := EMPTY] && t.vvTried == s.vvTried
      && t.mapInfo.Keys == s.mapInfo.Keys - Forgotten(s, cell)
      && (forall o :: o in t.mapInfo && o != s.vvNew[cell] ==>
        t.mapInfo[o] == s.mapInfo[o].(nRandomPos := t.mapInfo[o].nRandomPos))
      && OthersKept(s, t, EMPTY)
  {
    if s.vvNew[cell] != EMPTY {
      var id := s.vvNew[cell];
      UnrefInv(h, s, cell, zero, uncounted);
      if s.mapInfo[id].nRefCount == 1 {
        DeleteEffect(Unref(s, cell), id);
        assert Unref(s, cell).mapInfo.Keys == s.mapInfo.Keys;
      }
    }
  }

  lemma WeakenZero(h: Hasher, s: State, zero: set<int>, zero': set<int>, uncounted: int)
    requires InvExcept(h, s, zero, uncounted) && forall id :: id in zero && id in s.mapInfo ==> id in zero'
    ensures InvExcept(h, s, zero', uncounted)
  {
    forall id | id in s.mapInfo ensures RefOk(s.mapInfo, s.vvNew, zero', id) {
      assert RefOk(s.mapInfo, s.vvNew, zero, id);
    }
  }

  // ----- Entering and leaving the tables -----

  function Create(s: State, service: Service, nServices: set<nat>, nTime: int, source: NetAddr): State {
    s.(nIdCount := s.nIdCount + 1,
       mapInfo := s.mapInfo[s.nIdCount := Info(service, nServices, nTime, source, 0, 0, 0, 0, 0, false, |s.vRandom|)],
       mapAddr := s.mapAddr[service.addr := s.nIdCount],
       vRandom := s.vRandom + [s.nIdCount])
  }

  lemma CreateInv(h: Hasher, s: State, service: Service, nServices: set<nat>, nTime: int, source: NetAddr,
        zero: set<int>, uncounted: int)
    requires InvExcept(h, s, zero, uncounted) && service.addr !in s.mapAddr
    ensures InvExcept(h, Create(s, service, nServices, nTime, source), zero + {s.nIdCount}, uncounted + 1)
  {
    var id := s.nIdCount;
    var t := Create(s, service, nServices, nTime, source);
    var info := t.mapInfo[id];
    assert id !in s.mapInfo;
    CreateRandom(s.mapInfo, s.vRandom, id, info);
    CreateAddr(s.mapInfo, s.mapAddr, s.nIdCount, id, info);
    CreateNew(h, s.mapInfo, s.vvNew, zero, id, info);
    CreateRest(h, s.mapInfo, s.vvTried, id, info);
  }

  lemma CreateRandom(m: InfoMap, vRandom: seq<int>, id: int, info: Info)
    requires RandomOk(m, vRandom) && id !in m && info.nRandomPos == |vRandom|
    ensures RandomOk(m[id := info], vRandom + [id])
  {
    var m', v' := m[id := info], vRandom + [id];
    assert m'.Keys == m.Keys + {id};
    assert |m'| == |m'.Keys| == |m.Keys| + 1 && |m| == |m.Keys|;
    forall k | 0 <= k < |v'| ensures v'[k] in m' && m'[v'[k]].nRandomPos == k {
      if k < |vRandom| { assert vRandom[k] in m; }
    }
  }

  lemma CreateAddr(m: InfoMap, mapAddr: AddrMap, nIdCount: int, id: int, info: Info)
    requires AddrOk(m, mapAddr) && IdsOk(m, nIdCount) && id == nIdCount && info.service.addr !in mapAddr
    ensures AddrOk(m[id := info], mapAddr[info.service.addr := id]) && IdsOk(m[id := info], nIdCount + 1)
  {
    assert id !in m;
  }

  lemma CreateNew(h: Hasher, m: InfoMap, vvNew: seq<int>, zero: set<int>, id: int, info: Info)
    requires NewOk(h, m, vvNew, zero) && id !in m && id != EMPTY && info.nRefCount == 0 && !info.fInTried
    ensures NewOk(h, m[id := info], vvNew, zero + {id})
  {
    var m' := m[id := info];
    forall i | 0 <= i < |vvNew| ensures NewCellOk(h, m', vvNew, i) && vvNew[i] != id {
      assert NewCellOk(h, m, vvNew, i);
    }
    assert Cells(vvNew, id) == {};
    forall o | o in m' ensures RefOk(m', vvNew, zero + {id}, o) {
      if o != id { assert RefOk(m, vvNew, zero, o); }
    }
  }

  lemma CreateRest(h: Hasher, m: InfoMap, vvTried: seq<int>, id: int, info: Info)
    requires TriedOk(h, m, vvTried) && id !in m && !info.fInTried
    ensures TriedOk(h, m[id := info], vvTried)
    ensures TriedIds(m[id := info]) == TriedIds(m) && |NewIds(m[id := info])| == |NewIds(m)| + 1
  {
    assert NewIds(m[id := info]) == NewIds(m) + {id};
  }

  /** One more reference in the new table. */
  function PutNew(s: State, cell: nat, id: int): State
    requires cell < |s.vvNew| && id in s.mapInfo
  {
    s.(mapInfo := s.mapInfo[id := s.mapInfo[id].(nRefCount := s.mapInfo[id].nRefCount + 1)],
       vvNew := s.vvNew[cell := id])
  }

  lemma PutNewInv(h: Hasher, s: State, cell: nat, id: int, zero: set<int>, uncounted: int)
    requires InvExcept(h, s, zero, uncounted) && cell < |s.vvNew| && s.vvNew[cell] == EMPTY
    requires id in s.mapInfo && !s.mapInfo[id].fInTried && s.mapInfo[id].nRefCount < NEW_BUCKETS_PER_ADDRESS
    requires cell == NewSlot(h, s.mapInfo[id].service, cell / BUCKET_SIZE)
    ensures InvExcept(h, PutNew(s, cell, id), zero - {id}, uncounted)
  {
    var t := PutNew(s, cell, id);
    assert t.mapInfo.Keys == s.mapInfo.Keys;
    PutNewOk(h, s, cell, id, zero);
    RandomFrame(s.mapInfo, t.mapInfo, s.vRandom);
    RestFrame(h, s, t, zero, uncounted);
  }

  lemma PutNewOk(h: Hasher, s: State, cell: nat, id: int, zero: set<int>)
    requires NewOk(h, s.mapInfo, s.vvNew, zero) && IdsOk(s.mapInfo, s.nIdCount) && cell < |s.vvNew| &&
      s.vvNew[cell] == EMPTY
    requires id in s.mapInfo && !s.mapInfo[id].fInTried && s.mapInfo[id].nRefCount < NEW_BUCKETS_PER_ADDRESS
    requires cell == NewSlot(h, s.mapInfo[id].service, cell / BUCKET_SIZE)
    ensures NewOk(h, PutNew(s, cell, id).mapInfo, PutNew(s, cell, id).vvNew, zero - {id})
  {
    var t := PutNew(s, cell, id);
    forall i | 0 <= i < |t.vvNew| ensures NewCellOk(h, t.mapInfo, t.vvNew, i) {
      assert NewCellOk(h, s.mapInfo, s.vvNew, i);
    }
    forall o | o in t.mapInfo ensures RefOk(t.mapInfo, t.vvNew, zero - {id}, o) {
      assert RefOk(s.mapInfo, s.vvNew, zero, o);
      CellsPut(s.vvNew, cell, id, o);
    }
  }

  /** The new table with every reference to `id` removed from the cells below
      `bound`. */
  ghost function Stripped(vvNew: seq<int>, id: int, bound: int): seq<int> {
    seq(|vvNew|, i requires 0 <= i < |vvNew| => if i < bound && vvNew[i] == id then EMPTY else vvNew[i])
  }

  /** Of a bucket's cells only the entry's own position can refer to it. */
  lemma StripBucket(h: Hasher, m: InfoMap, vvNew: seq<int>, zero: set<int>, id: int, bucket: NewBucket)
    requires NewOk(h, m, vvNew, zero) && id in m && id != EMPTY
    ensures var cell := NewSlot(h, m[id].service, bucket);
      var before := Stripped(vvNew, id, bucket * BUCKET_SIZE);
      && cell < |before|
      && Stripped(vvNew, id, (bucket + 1) * BUCKET_SIZE) == if before[cell] == id then before[cell := EMPTY] else before
  {
    var cell := NewSlot(h, m[id].service, bucket);
    var before, after := Stripped(vvNew, id, bucket * BUCKET_SIZE), Stripped(vvNew, id, (bucket + 1) * BUCKET_SIZE);
    forall i | 0 <= i < |vvNew|
      ensures after[i] == if before[cell] == id && i == cell then EMPTY else before[i]
    {
      assert NewCellOk(h, m, vvNew, i);
      if bucket * BUCKET_SIZE <= i < (bucket + 1) * BUCKET_SIZE && vvNew[i] == id {
        assert i / BUCKET_SIZE == bucket;
      }
    }
  }

  lemma StrippedAll(vvNew: seq<int>, id: int)
    requires id != EMPTY
    ensures Cells(Stripped(vvNew, id, |vvNew|), id) == {}
    ensures Stripped(vvNew, id, 0) == vvNew
  {
  }

  ghost function StripNew(s: State, id: int): State
    requires id in s.mapInfo
  {
    s.(mapInfo := s.mapInfo[id := s.mapInfo[id].(nRefCount := 0)], vvNew := Stripped(s.vvNew, id, |s.vvNew|))
  }

  lemma StripNewInv(h: Hasher, s: State, id: int, zero: set<int>, uncounted: int)
    requires InvExcept(h, s, zero, uncounted) && id in s.mapInfo && !s.mapInfo[id].fInTried
    ensures InvExcept(h, StripNew(s, id), zero + {id}, uncounted)
  {
    var t := StripNew(s, id);
    assert t.mapInfo.Keys == s.mapInfo.Keys;
    StripNewOk(h, s, id, zero);
    RandomFrame(s.mapInfo, t.mapInfo, s.vRandom);
    RestFrame(h, s, t, zero, uncounted);
  }

  lemma StripNewOk(h: Hasher, s: State, id: int, zero: set<int>)
    requires NewOk(h, s.mapInfo, s.vvNew, zero) && IdsOk(s.mapInfo, s.nIdCount) && id in s.mapInfo &&
      !s.mapInfo[id].fInTried
    ensures NewOk(h, StripNew(s, id).mapInfo, StripNew(s, id).vvNew, zero + {id})
  {
    var t := StripNew(s, id);
    forall i | 0 <= i < |t.vvNew| ensures NewCellOk(h, t.mapInfo, t.vvNew, i) {
      assert NewCellOk(h, s.mapInfo, s.vvNew, i);
    }
    assert Cells(t.vvNew, id) == {};
    forall o | o in t.mapInfo ensures RefOk(t.mapInfo, t.vvNew, zero + {id}, o) {
      assert RefOk(s.mapInfo, s.vvNew, zero, o);
      if o != id { assert Cells(t.vvNew, o) == Cells(s.vvNew, o); }
    }
  }

  /** A tried entry leaves its cell; it is in no table until it gets a new one. */
  function DropTried(s: State, cell: nat): State
    requires cell < |s.vvTried| && s.vvTried[cell] in s.mapInfo
  {
    var id := s.vvTried[cell];
    s.(mapInfo := s.mapInfo[id := s.mapInfo[id].(fInTried := false)], vvTried := s.vvTried[cell := EMPTY],
      nTried := s.nTried - 1)
  }

  lemma DropTriedInv(h: Hasher, s: State, cell: nat, zero: set<int>, uncounted: int)
    requires InvExcept(h, s, zero, uncounted) && cell < |s.vvTried| && s.vvTried[cell] != EMPTY
    ensures s.vvTried[cell] in s.mapInfo && s.mapInfo[s.vvTried[cell]].fInTried
    ensures InvExcept(h, DropTried(s, cell), zero + {s.vvTried[cell]}, uncounted + 1)
  {
    var id := s.vvTried[cell];
    var t := DropTried(s, cell);
    assert RefOk(s.mapInfo, s.vvNew, zero, id);
    MoveFrame(h, s, t, id, zero);
    assert TriedIds(t.mapInfo) == TriedIds(s.mapInfo) - {id};
    assert NewIds(t.mapInfo) == NewIds(s.mapInfo) + {id};
    DropTriedOk(h, s, cell);
  }

  lemma DropTriedOk(h: Hasher, s: State, cell: nat)
    requires TriedOk(h, s.mapInfo, s.vvTried) && IdsOk(s.mapInfo, s.nIdCount) && cell < |s.vvTried| &&
      s.vvTried[cell] != EMPTY
    ensures s.vvTried[cell] in s.mapInfo
    ensures TriedOk(h, DropTried(s, cell).mapInfo, DropTried(s, cell).vvTried)
  {
  }

  /** An entry that is in no new cell may change its tried flag as far as the
      other tables are concerned. */
  lemma MoveFrame(h: Hasher, s: State, t: State, id: int, zero: set<int>)
    requires RandomOk(s.mapInfo, s.vRandom) && AddrOk(s.mapInfo, s.mapAddr) && IdsOk(s.mapInfo, s.nIdCount)
    requires NewOk(h, s.mapInfo, s.vvNew, zero) && TimesOk(s.mapInfo)
    requires id in s.mapInfo && s.mapInfo[id].nRefCount == 0
    requires t.mapInfo == s.mapInfo[id := s.mapInfo[id].(fInTried := !s.mapInfo[id].fInTried)]
    ensures RandomOk(t.mapInfo, s.vRandom) && AddrOk(t.mapInfo, s.mapAddr) && IdsOk(t.mapInfo, s.nIdCount) &&
      TimesOk(t.mapInfo)
    ensures NewOk(h, t.mapInfo, s.vvNew, if t.mapInfo[id].fInTried then zero - {id} else zero + {id})
  {
    var m, m' := s.mapInfo, t.mapInfo;
    assert m'.Keys == m.Keys;
    RandomFrame(m, m', s.vRandom);
    var zero' := if t.mapInfo[id].fInTried then zero - {id} else zero + {id};
    assert RefOk(m, s.vvNew, zero, id);
    forall i | 0 <= i < |s.vvNew| ensures NewCellOk(h, m', s.vvNew, i) {
      assert NewCellOk(h, m, s.vvNew, i);
      assert i !in Cells(s.vvNew, id);
    }
    forall o | o in m' ensures RefOk(m', s.vvNew, zero', o) {
      assert RefOk(m, s.vvNew, zero, o);
    }
  }

  function PutTried(s: State, cell: nat, id: int): State
    requires cell < |s.vvTried| && id in s.mapInfo
  {
    s.(mapInfo := s.mapInfo[id := s.mapInfo[id].(fInTried := true)], vvTried := s.vvTried[cell := id],
      nTried := s.nTried + 1)
  }

  lemma PutTriedInv(h: Hasher, s: State, cell: nat, id: int, zero: set<int>, uncounted: int)
    requires InvExcept(h, s, zero, uncounted) && id in s.mapInfo
    requires !s.mapInfo[id].fInTried && s.mapInfo[id].nRefCount == 0 && s.mapInfo[id].nLastSuccess != 0
    requires cell < |s.vvTried| && cell == TriedSlot(h, s.mapInfo[id].service) && s.vvTried[cell] == EMPTY
    ensures InvExcept(h, PutTried(s, cell, id), zero - {id}, uncounted - 1)
  {
    var t := PutTried(s, cell, id);
    MoveFrame(h, s, t, id, zero);
    assert TriedIds(t.mapInfo) == TriedIds(s.mapInfo) + {id};
    assert NewIds(t.mapInfo) == NewIds(s.mapInfo) - {id};
    PutTriedOk(h, s, cell, id);
  }

  lemma PutTriedOk(h: Hasher, s: State, cell: nat, id: int)
    requires TriedOk(h, s.mapInfo, s.vvTried) && IdsOk(s.mapInfo, s.nIdCount) && id in s.mapInfo
    requires !s.mapInfo[id].fInTried && s.mapInfo[id].nLastSuccess != 0
    requires cell < |s.vvTried| && cell == TriedSlot(h, s.mapInfo[id].service) && s.vvTried[cell] == EMPTY
    ensures TriedOk(h, PutTried(s, cell, id).mapInfo, PutTried(s, cell, id).vvTried)
  {
  }
}
