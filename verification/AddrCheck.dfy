/**
  What CAddrMan::Check_ looks at (src/addrman.cpp), and why passing it is the
  same as the tables agreeing.
*/
module AddrCheck {

  import opened AddrTables
  import opened AddrReload
  import opened AddrRoundTrip

  // ----- The entries -----

  /** The tests on one entry, but for its address. */
  predicate EntryOk(m: InfoMap, vRandom: seq<int>, id: int)
    requires id in m
  {
    var info := m[id];
    && (if info.fInTried then info.nLastSuccess != 0 && info.nRefCount == 0
        else 0 < info.nRefCount <= NEW_BUCKETS_PER_ADDRESS)
    && 0 <= info.nRandomPos < |vRandom| && vRandom[info.nRandomPos] == id
    && info.nLastTry >= 0 && info.nLastSuccess >= 0
  }

  ghost predicate EntriesOk(m: InfoMap, vRandom: seq<int>, n: int) {
    forall id :: id in m && id < n ==> EntryOk(m, vRandom, id)
  }

  ghost predicate AddrsForth(m: InfoMap, mapAddr: AddrMap, n: int) {
    forall id :: id in m && id < n ==> m[id].service.addr in mapAddr && mapAddr[m[id].service.addr] == id
  }

  ghost predicate AddrsBack(m: InfoMap, mapAddr: AddrMap) {
    forall a :: a in mapAddr ==> mapAddr[a] in m && m[mapAddr[a]].service.addr == a
  }

  ghost function TriedBelow(m: InfoMap, n: int): set<int> {
    set id | id in m && id < n && m[id].fInTried
  }

  ghost function RefsOf(m: InfoMap, n: int): map<int, int> {
    map id | id in m && id < n && !m[id].fInTried :: m[id].nRefCount
  }

  lemma BelowMore(m: InfoMap, n: int)
    ensures TriedBelow(m, n + 1) == if n in m && m[n].fInTried then TriedBelow(m, n) + {n} else TriedBelow(m, n)
    ensures RefsOf(m, n + 1) == if n in m && !m[n].fInTried then RefsOf(m, n)[n := m[n].nRefCount] else RefsOf(m, n)
  {
  }

  lemma InvEntry(h: Hasher, s: State, id: int)
    requires Inv(h, s) && id in s.mapInfo
    ensures EntryOk(s.mapInfo, s.vRandom, id)
    ensures s.mapInfo[id].service.addr in s.mapAddr && s.mapAddr[s.mapInfo[id].service.addr] == id
  {
    assert RefOk(s.mapInfo, s.vvNew, {}, id);
  }

  lemma InvEntries(h: Hasher, s: State)
    requires Inv(h, s)
    ensures EntriesOk(s.mapInfo, s.vRandom, s.nIdCount) && AddrsForth(s.mapInfo, s.mapAddr, s.nIdCount)
  {
    forall id | id in s.mapInfo
      ensures EntryOk(s.mapInfo, s.vRandom, id)
      ensures s.mapInfo[id].service.addr in s.mapAddr && s.mapAddr[s.mapInfo[id].service.addr] == id
    {
      InvEntry(h, s, id);
    }
  }

  lemma PositionsCover(m: InfoMap, vRandom: seq<int>, n: int)
    requires EntriesOk(m, vRandom, n) && |vRandom| == |m| && forall id :: id in m ==> id < n
    ensures RandomOk(m, vRandom)
  {
    forall id | id in m ensures 0 <= m[id].nRandomPos < |vRandom| && vRandom[m[id].nRandomPos] == id {
      assert EntryOk(m, vRandom, id);
    }
    forall k | 0 <= k < |vRandom| ensures vRandom[k] in m && m[vRandom[k]].nRandomPos == k {
      PositionTaken(m, vRandom, k);
    }
  }

  /** As many entries as positions, each at a position of its own: every
      position is taken. */
  lemma PositionTaken(m: InfoMap, vRandom: seq<int>, k: nat)
    requires |vRandom| == |m| && k < |vRandom|
    requires forall id :: id in m ==> 0 <= m[id].nRandomPos < |vRandom| && vRandom[m[id].nRandomPos] == id
    ensures vRandom[k] in m && m[vRandom[k]].nRandomPos == k
  {
    if !(vRandom[k] in m && m[vRandom[k]].nRandomPos == k) {
      var others := vRandom[..k] + vRandom[k + 1..];
      ValuesBound(others, |others|);
      forall id | id in m.Keys ensures id in ValuesOf(others, |others|) {
        var pos := m[id].nRandomPos;
        assert id == others[if pos < k then pos else pos - 1];
      }
      SubsetSize(m.Keys, ValuesOf(others, |others|));
    }
  }

  // ----- The tried table -----

  ghost predicate TriedCellOk(h: Hasher, m: InfoMap, vvTried: seq<int>, i: int)
    requires 0 <= i < |vvTried|
  {
    vvTried[i] != EMPTY ==> vvTried[i] in m && m[vvTried[i]].fInTried && i == TriedSlot(h, m[vvTried[i]].service)
  }

  /** The tried entries not met in the first c cells. */
  ghost function Unmet(h: Hasher, m: InfoMap, vvTried: seq<int>, c: int): set<int>
    requires |vvTried| == TRIED_CELLS
  {
    set id | id in m && m[id].fInTried &&
      !(TriedSlot(h, m[id].service) < c && vvTried[TriedSlot(h, m[id].service)] == id)
  }

  ghost predicate TriedChecked(h: Hasher, m: InfoMap, vvTried: seq<int>, c: int, setTried: set<int>) {
    && |vvTried| == TRIED_CELLS && c <= TRIED_CELLS
    && (forall i :: 0 <= i < c ==> TriedCellOk(h, m, vvTried, i))
    && setTried == Unmet(h, m, vvTried, c)
  }

  lemma TriedMet(h: Hasher, m: InfoMap, vvTried: seq<int>, c: nat, setTried: set<int>)
    requires c < TRIED_CELLS && TriedChecked(h, m, vvTried, c, setTried) && EMPTY !in m
    requires TriedCellOk(h, m, vvTried, c)
    ensures TriedChecked(h, m, vvTried, c + 1, setTried - {vvTried[c]})
  {
    var id := vvTried[c];
    forall o ensures o in Unmet(h, m, vvTried, c + 1) <==> o in Unmet(h, m, vvTried, c) && o != id {}
  }

  /** In consistent tables a filled cell's entry has not been met before. */
  lemma TriedAwaited(h: Hasher, s: State, c: nat, setTried: set<int>)
    requires Inv(h, s) && c < TRIED_CELLS && TriedChecked(h, s.mapInfo, s.vvTried, c, setTried) && s.vvTried[c] != EMPTY
    ensures s.vvTried[c] in setTried && TriedCellOk(h, s.mapInfo, s.vvTried, c)
  {
  }

  lemma TriedDone(h: Hasher, m: InfoMap, vRandom: seq<int>, vvTried: seq<int>, n: int)
    requires TriedChecked(h, m, vvTried, TRIED_CELLS, {}) && EntriesOk(m, vRandom, n) && forall id :: id in m ==> id < n
    ensures TriedOk(h, m, vvTried)
  {
    forall i | 0 <= i < |vvTried| && vvTried[i] != EMPTY
      ensures vvTried[i] in m && m[vvTried[i]].fInTried && i == TriedSlot(h, m[vvTried[i]].service)
    {
      assert TriedCellOk(h, m, vvTried, i);
    }
    forall id | id in m && m[id].fInTried
      ensures vvTried[TriedSlot(h, m[id].service)] == id && m[id].nLastSuccess != 0
    {
      assert EntryOk(m, vRandom, id);
      assert id !in Unmet(h, m, vvTried, TRIED_CELLS);
    }
  }

  lemma AllMet(h: Hasher, s: State, setTried: set<int>)
    requires Inv(h, s) && TriedChecked(h, s.mapInfo, s.vvTried, TRIED_CELLS, setTried)
    ensures setTried == {}
  {
    forall id ensures id !in setTried {
      if id in s.mapInfo && s.mapInfo[id].fInTried { assert s.vvTried[TriedSlot(h, s.mapInfo[id].service)] == id; }
    }
  }

  // ----- The new table -----

  /** A counter for every new entry that has cells to come. */
  ghost predicate NewChecked(h: Hasher, m: InfoMap, vvNew: seq<int>, c: nat, mapNew: map<int, int>) {
    && |vvNew| == NEW_CELLS && c <= NEW_CELLS
    && (forall i :: 0 <= i < c ==> NewCellOk(h, m, vvNew, i))
    && (forall id :: id in mapNew ==> id in m)
    && (forall id :: id in m && m[id].fInTried ==> id !in mapNew)
    && (forall id :: id in m && !m[id].fInTried ==> Awaiting(m, vvNew, c, mapNew, id))
  }

  ghost predicate Awaiting(m: InfoMap, vvNew: seq<int>, c: nat, mapNew: map<int, int>, id: int)
    requires id in m && c <= |vvNew|
  {
    var left := m[id].nRefCount - RefsBelow(vvNew, id, c);
    left >= 0 && (id in mapNew <==> left > 0) && (id in mapNew ==> mapNew[id] == left)
  }

  function Counted(mapNew: map<int, int>, id: int): map<int, int>
    requires id in mapNew
  {
    if mapNew[id] == 1 then mapNew - {id} else mapNew[id := mapNew[id] - 1]
  }

  lemma NewMet(h: Hasher, m: InfoMap, vvNew: seq<int>, c: nat, mapNew: map<int, int>)
    requires c < NEW_CELLS && NewChecked(h, m, vvNew, c, mapNew)
    requires vvNew[c] in mapNew && vvNew[c] != EMPTY && NewCellOk(h, m, vvNew, c)
    ensures NewChecked(h, m, vvNew, c + 1, Counted(mapNew, vvNew[c]))
  {
    var after := Counted(mapNew, vvNew[c]);
    forall id | id in m && !m[id].fInTried ensures Awaiting(m, vvNew, c + 1, after, id) {
      assert Awaiting(m, vvNew, c, mapNew, id);
    }
  }

  lemma NewSkipped(h: Hasher, m: InfoMap, vvNew: seq<int>, c: nat, mapNew: map<int, int>)
    requires c < NEW_CELLS && NewChecked(h, m, vvNew, c, mapNew) && vvNew[c] == EMPTY && EMPTY !in m
    ensures NewChecked(h, m, vvNew, c + 1, mapNew)
  {
    forall id | id in m && !m[id].fInTried ensures Awaiting(m, vvNew, c + 1, mapNew, id) {
      assert Awaiting(m, vvNew, c, mapNew, id);
    }
  }

  lemma NewAwaited(h: Hasher, s: State, c: nat, mapNew: map<int, int>)
    requires Inv(h, s) && c < NEW_CELLS && NewChecked(h, s.mapInfo, s.vvNew, c, mapNew) && s.vvNew[c] != EMPTY
    ensures s.vvNew[c] in mapNew && NewCellOk(h, s.mapInfo, s.vvNew, c)
  {
    var id := s.vvNew[c];
    assert NewCellOk(h, s.mapInfo, s.vvNew, c);
    assert Awaiting(s.mapInfo, s.vvNew, c, mapNew, id);
    assert RefOk(s.mapInfo, s.vvNew, {}, id);
    RefsAll(s.vvNew, id);
    RefsGrow(s.vvNew, id, c + 1, |s.vvNew|);
  }

  lemma NewDone(h: Hasher, m: InfoMap, vRandom: seq<int>, vvNew: seq<int>, n: int)
    requires NewChecked(h, m, vvNew, NEW_CELLS, map[]) && EntriesOk(m, vRandom, n)
    requires forall id :: id in m ==> EMPTY < id < n
    ensures NewOk(h, m, vvNew, {})
  {
    forall id | id in m ensures RefOk(m, vvNew, {}, id) {
      assert EntryOk(m, vRandom, id);
      RefsAll(vvNew, id);
      if m[id].fInTried {
        forall i | 0 <= i < |vvNew| ensures vvNew[i] != id { assert NewCellOk(h, m, vvNew, i); }
        assert Cells(vvNew, id) == {};
      } else {
        assert Awaiting(m, vvNew, NEW_CELLS, map[], id);
      }
    }
  }

  lemma AllCounted(h: Hasher, s: State, mapNew: map<int, int>)
    requires Inv(h, s) && NewChecked(h, s.mapInfo, s.vvNew, NEW_CELLS, mapNew)
    ensures mapNew == map[]
  {
    forall id ensures id !in mapNew {
      if id in s.mapInfo && !s.mapInfo[id].fInTried {
        assert Awaiting(s.mapInfo, s.vvNew, NEW_CELLS, mapNew, id);
        assert RefOk(s.mapInfo, s.vvNew, {}, id);
        RefsAll(s.vvNew, id);
      }
    }
  }

  // ----- All together -----

  lemma EntriesChecked(h: Hasher, m: InfoMap, vRandom: seq<int>, vvTried: seq<int>, vvNew: seq<int>, n: int)
    requires EntriesOk(m, vRandom, n) && (forall id :: id in m ==> EMPTY < id < n)
    requires |vvTried| == TRIED_CELLS && |vvNew| == NEW_CELLS
    ensures TriedChecked(h, m, vvTried, 0, TriedBelow(m, n)) && NewChecked(h, m, vvNew, 0, RefsOf(m, n))
  {
    forall id | id in m ensures EntryOk(m, vRandom, id) {}
    assert TriedBelow(m, n) == Unmet(h, m, vvTried, 0);
  }

  lemma SizesChecked(m: InfoMap, n: int)
    requires forall id :: id in m ==> id < n
    ensures TriedBelow(m, n) == TriedIds(m) && RefsOf(m, n).Keys == NewIds(m)
    ensures |TriedBelow(m, n)| + |RefsOf(m, n)| == |m| && |RefsOf(m, n)| == |NewIds(m)|
  {
    assert m.Keys == TriedIds(m) + NewIds(m) && TriedIds(m) !! NewIds(m);
    assert |m| == |m.Keys| && |RefsOf(m, n)| == |RefsOf(m, n).Keys|;
  }

  lemma CheckSizes(h: Hasher, s: State)
    requires Inv(h, s)
    ensures |s.vRandom| == s.nTried + s.nNew
    ensures |TriedBelow(s.mapInfo, s.nIdCount)| == s.nTried && |RefsOf(s.mapInfo, s.nIdCount)| == s.nNew
  {
    SizesChecked(s.mapInfo, s.nIdCount);
  }

  lemma Passed(h: Hasher, s: State)
    requires IdsOk(s.mapInfo, s.nIdCount) && EntriesOk(s.mapInfo, s.vRandom, s.nIdCount)
    requires AddrsForth(s.mapInfo, s.mapAddr, s.nIdCount) && AddrsBack(s.mapInfo, s.mapAddr)
    requires |s.vRandom| == s.nTried + s.nNew
    requires |TriedBelow(s.mapInfo, s.nIdCount)| == s.nTried && |RefsOf(s.mapInfo, s.nIdCount)| == s.nNew
    requires TriedChecked(h, s.mapInfo, s.vvTried, TRIED_CELLS, {}) &&
      NewChecked(h, s.mapInfo, s.vvNew, NEW_CELLS, map[])
    ensures Inv(h, s)
  {
    var m, n := s.mapInfo, s.nIdCount;
    SizesChecked(m, n);
    PositionsCover(m, s.vRandom, n);
    TriedDone(h, m, s.vRandom, s.vvTried, n);
    NewDone(h, m, s.vRandom, s.vvNew, n);
    forall id | id in m ensures m[id].nLastTry >= 0 && m[id].nLastSuccess >= 0 { assert EntryOk(m, s.vRandom, id); }
  }

  // ----- What Check_ does not see -----

  /** While it looks for the addresses of the entries, Check_ enters a missing
      one with id 0: the address of entry 0 passes that way. */
  ghost function Repaired(m: InfoMap, mapAddr: AddrMap): AddrMap {
    if 0 in m && m[0].service.addr !in mapAddr then mapAddr[m[0].service.addr := 0] else mapAddr
  }

  /** It does not look at addresses that lead to no entry of theirs. */
  ghost function Owned(m: InfoMap, mapAddr: AddrMap): AddrMap {
    map a | a in mapAddr && mapAddr[a] in m && m[mapAddr[a]].service.addr == a :: mapAddr[a]
  }

  /** The tables as Check_ sees them. */
  ghost function Seen(s: State): State {
    s.(mapAddr := Owned(s.mapInfo, Repaired(s.mapInfo, s.mapAddr)))
  }

  lemma SeenForth(m: InfoMap, mapAddr: AddrMap, n: int)
    ensures AddrsForth(m, Owned(m, mapAddr), n) <==> AddrsForth(m, mapAddr, n)
    ensures AddrsBack(m, Owned(m, mapAddr)) && (AddrsBack(m, mapAddr) ==> Owned(m, mapAddr) == mapAddr)
  {
  }

  lemma SeenStart(h: Hasher, s: State)
    requires Inv(h, Seen(s))
    ensures |s.vRandom| == s.nTried + s.nNew && EntriesOk(s.mapInfo, s.vRandom, s.nIdCount)
    ensures |TriedBelow(s.mapInfo, s.nIdCount)| == s.nTried && |RefsOf(s.mapInfo, s.nIdCount)| == s.nNew
    ensures AddrsForth(s.mapInfo, Repaired(s.mapInfo, s.mapAddr), s.nIdCount)
  {
    SeenForth(s.mapInfo, Repaired(s.mapInfo, s.mapAddr), s.nIdCount);
    InvEntries(h, Seen(s));
    CheckSizes(h, Seen(s));
  }

  lemma SeenPassed(h: Hasher, s: State)
    requires IdsOk(s.mapInfo, s.nIdCount) && EntriesOk(s.mapInfo, s.vRandom, s.nIdCount)
    requires AddrsForth(s.mapInfo, Repaired(s.mapInfo, s.mapAddr), s.nIdCount) && |s.vRandom| == s.nTried + s.nNew
    requires |TriedBelow(s.mapInfo, s.nIdCount)| == s.nTried && |RefsOf(s.mapInfo, s.nIdCount)| == s.nNew
    requires TriedChecked(h, s.mapInfo, s.vvTried, TRIED_CELLS, {}) &&
      NewChecked(h, s.mapInfo, s.vvNew, NEW_CELLS, map[])
    ensures Inv(h, Seen(s))
  {
    SeenForth(s.mapInfo, Repaired(s.mapInfo, s.mapAddr), s.nIdCount);
    Passed(h, Seen(s));
  }

  lemma SeenAgain(s: State)
    ensures Seen(s.(mapAddr := Repaired(s.mapInfo, s.mapAddr))) == Seen(s)
  {
  }

  lemma InvSeen(h: Hasher, s: State)
    requires Inv(h, s)
    ensures Seen(s) == s && Repaired(s.mapInfo, s.mapAddr) == s.mapAddr
  {
    SeenForth(s.mapInfo, s.mapAddr, s.nIdCount);
  }

  /** Tables that pass agree, but for an address without an entry and for entry
      0 without its address. */
  lemma SeenExactly(h: Hasher, s: State)
    ensures Inv(h, s) <==>
      Inv(h, Seen(s)) && AddrsBack(s.mapInfo, s.mapAddr) && (0 in s.mapInfo ==> s.mapInfo[0].service.addr in s.mapAddr)
  {
    SeenForth(s.mapInfo, s.mapAddr, s.nIdCount);
    if Inv(h, s) { InvSeen(h, s); }
  }

  /** Any further address passes. */
  lemma DanglingUnseen(h: Hasher, s: State, a: NetAddr, id: int)
    requires Inv(h, s) && a !in s.mapAddr
    ensures var t := s.(mapAddr := s.mapAddr[a := id]);
      Seen(t) == s && !Inv(h, t)
  {
    var t := s.(mapAddr := s.mapAddr[a := id]);
    assert Owned(t.mapInfo, t.mapAddr) == s.mapAddr;
    if id in s.mapInfo { assert s.mapInfo[id].service.addr in s.mapAddr; }
  }
}
