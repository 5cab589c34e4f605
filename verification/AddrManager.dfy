/**
  The address manager as an object that updates its tables in place
  (src/addrman.cpp, src/addrman.h). Each method is tied to the function on
  tables that specifies it, so the invariant and the effect lemmas apply.
*/
module AddrManager {

  import opened Arithmetic
  import opened AddrTables
  import Ops = AddrMan
  import Tables = AddrTables
  import opened AddrStore
  import opened AddrReload
  import Trip = AddrRoundTrip
  import opened AddrCheck

  class AddrMan {
    const h: Hasher
    var nIdCount: int
    var mapInfo: InfoMap
    var mapAddr: AddrMap
    var vRandom: seq<int>
    var nTried: int
    const vvTried: array<int>
    var nNew: int
    const vvNew: array<int>
    var nLastGood: int

    ghost function Abs(): State
      reads this, vvTried, vvNew
    {
      State(nIdCount, mapInfo, mapAddr, vRandom, nTried, vvTried[..], nNew, vvNew[..], nLastGood)
    }

    /** The tables agree, as Check_ demands. */
    ghost predicate Valid()
      reads this, vvTried, vvNew
    {
      vvTried != vvNew && Inv(h, Abs())
    }

    constructor (h: Hasher)
      ensures Valid() && this.h == h && Abs() == Ops.Cleared() && fresh(vvTried) && fresh(vvNew)
    {
      this.h := h;
      nIdCount, mapInfo, mapAddr, vRandom := 0, map[], map[], [];
      nTried, nNew, nLastGood := 0, 0, 1;
      vvTried := new int[TRIED_BUCKET_COUNT * BUCKET_SIZE](_ => EMPTY);
      vvNew := new int[NEW_BUCKET_COUNT * BUCKET_SIZE](_ => EMPTY);
      new;
      assert Abs() == Ops.Cleared();
      Ops.ClearedInv(h);
    }

    method SwapRandom(i: nat, j: nat)
      requires i < |vRandom| && j < |vRandom| && vRandom[i] in mapInfo && vRandom[j] in mapInfo
      modifies this`vRandom, this`mapInfo
      ensures Abs() == Tables.SwapRandom(old(Abs()), i, j)
    {
      if i == j { return; }
      var nId1, nId2 := vRandom[i], vRandom[j];
      mapInfo := mapInfo[nId1 := mapInfo[nId1].(nRandomPos := j)];
      mapInfo := mapInfo[nId2 := mapInfo[nId2].(nRandomPos := i)];
      vRandom := vRandom[i := nId2];
      vRandom := vRandom[j := nId1];
    }

    method Delete(nId: int)
      requires Tables.Delete.requires(Abs(), nId)
      requires !mapInfo[nId].fInTried && mapInfo[nId].nRefCount == 0
      modifies this`vRandom, this`mapInfo, this`mapAddr, this`nNew
      ensures Abs() == Tables.Delete(old(Abs()), nId)
    {
      var addr := mapInfo[nId].service.addr;
      SwapRandom(mapInfo[nId].nRandomPos, |vRandom| - 1);
      assert mapInfo[nId].service.addr == addr;
      vRandom := vRandom[..|vRandom| - 1];
      mapAddr := mapAddr - {addr};
      mapInfo := mapInfo - {nId};
      nNew := nNew - 1;
    }

    method ClearNew(cell: nat)
      requires vvTried != vvNew && cell < vvNew.Length && Tables.ClearNew.requires(Abs(), cell)
      requires vvNew[cell] != EMPTY ==> mapInfo[vvNew[cell]].nRefCount > 0 && !mapInfo[vvNew[cell]].fInTried
      modifies this`vRandom, this`mapInfo, this`mapAddr, this`nNew, vvNew
      ensures Abs() == Tables.ClearNew(old(Abs()), cell)
    {
      if vvNew[cell] != EMPTY {
        var nIdDelete := vvNew[cell];
        mapInfo := mapInfo[nIdDelete := mapInfo[nIdDelete].(nRefCount := mapInfo[nIdDelete].nRefCount - 1)];
        vvNew[cell] := EMPTY;
        assert vvNew[..] == old(vvNew[..])[cell := EMPTY];
        assert Abs() == Tables.Unref(old(Abs()), cell);
        if mapInfo[nIdDelete].nRefCount == 0 {
          Delete(nIdDelete);
        }
      }
    }

    /** Removing the entry from all new buckets. */
    method StripFromNew(nId: int)
      requires Valid() && nId in mapInfo && !mapInfo[nId].fInTried
      modifies this`mapInfo, vvNew
      ensures Abs() == StripNew(old(Abs()), nId)
    {
      ghost var m, cells := mapInfo, vvNew[..];
      var service := mapInfo[nId].service;
      assert RefOk(m, cells, {}, nId);
      StrippedAll(cells, nId);
      assert mapInfo == m[nId := m[nId].(nRefCount := |Cells(cells, nId)|)];
      for bucket := 0 to NEW_BUCKET_COUNT
        invariant vvNew[..] == Stripped(cells, nId, bucket * BUCKET_SIZE)
        invariant mapInfo == m[nId := m[nId].(nRefCount := |Cells(vvNew[..], nId)|)]
        invariant unchanged(vvTried)
      {
        StripBucket(h, m, cells, {}, nId, bucket);
        ghost var before := vvNew[..];
        var cell := NewSlot(h, service, bucket);
        if vvNew[cell] == nId {
          CellsPut(before, cell, EMPTY, nId);
          vvNew[cell] := EMPTY;
          assert vvNew[..] == before[cell := EMPTY];
          mapInfo := mapInfo[nId := mapInfo[nId].(nRefCount := mapInfo[nId].nRefCount - 1)];
        }
      }
      assert NEW_BUCKET_COUNT * BUCKET_SIZE == |cells|;
    }

    /** Moving the tried entry in a cell back to the new table. */
    method EvictTried(cell: nat, ghost zero: set<int>, ghost uncounted: int)
      requires vvTried != vvNew && InvExcept(h, Abs(), zero, uncounted) && cell < vvTried.Length &&
        vvTried[cell] != EMPTY
      modifies this, vvNew, vvTried
      ensures Abs() == Ops.Evict(h, old(Abs()), cell, zero, uncounted)
    {
      ghost var s := Abs();
      DropTriedInv(h, s, cell, zero, uncounted);
      var nIdEvict := vvTried[cell];
      Ops.EvictRef(h, s, nIdEvict, zero, uncounted);
      var home := Ops.HomeCell(h, mapInfo[nIdEvict]);
      LeaveTried(cell);
      Ops.EvictStep(h, Abs(), home, nIdEvict, zero + {nIdEvict}, uncounted + 1);
      ClearNewReady(h, Abs(), home, zero + {nIdEvict}, uncounted + 1);
      ClearNew(home);
      assert vvNew[home] == EMPTY;
      Reenter(home, nIdEvict);
    }

    method LeaveTried(cell: nat)
      requires vvTried != vvNew && cell < vvTried.Length && vvTried[cell] in mapInfo
      modifies this`mapInfo, this`nTried, vvTried
      ensures Abs() == DropTried(old(Abs()), cell)
    {
      var nIdEvict := vvTried[cell];
      mapInfo := mapInfo[nIdEvict := mapInfo[nIdEvict].(fInTried := false)];
      vvTried[cell] := EMPTY;
      nTried := nTried - 1;
      assert vvTried[..] == old(vvTried[..])[cell := EMPTY];
    }

    /** An evicted entry enters the new set again. */
    method Reenter(home: nat, nId: int)
      requires vvTried != vvNew && home < vvNew.Length && nId in mapInfo && mapInfo[nId].nRefCount == 0
      modifies this`mapInfo, this`nNew, vvNew
      ensures Abs() == PutNew(old(Abs()), home, nId).(nNew := old(nNew) + 1)
    {
      mapInfo := mapInfo[nId := mapInfo[nId].(nRefCount := 1)];
      vvNew[home] := nId;
      nNew := nNew + 1;
      assert vvNew[..] == old(vvNew[..])[home := nId];
    }

    method EnterTried(cell: nat, nId: int)
      requires vvTried != vvNew && cell < vvTried.Length && nId in mapInfo
      modifies this`mapInfo, this`nTried, vvTried
      ensures Abs() == PutTried(old(Abs()), cell, nId)
    {
      vvTried[cell] := nId;
      nTried := nTried + 1;
      mapInfo := mapInfo[nId := mapInfo[nId].(fInTried := true)];
      assert vvTried[..] == old(vvTried[..])[cell := nId];
    }

    method MakeTried(nId: int)
      requires Valid() && nId in mapInfo && !mapInfo[nId].fInTried
      modifies this, vvNew, vvTried
      ensures Abs() == Ops.MakeTried(h, old(Abs()), nId)
    {
      ghost var s := Abs();
      StripNewInv(h, s, nId, {}, 0);
      StripFromNew(nId);
      nNew := nNew - 1;
      Ops.Recount(h, StripNew(s, nId), Abs(), {} + {nId}, {nId}, 0, 1);
      assert mapInfo[nId].nRefCount == 0;
      var cell := TriedSlot(h, mapInfo[nId].service);
      ghost var stripped := Abs();
      Ops.MakeSpaceInv(h, stripped, cell, nId);
      if vvTried[cell] != EMPTY {
        EvictTried(cell, {nId}, 1);
      }
      assert Abs() == Ops.MakeSpace(h, stripped, cell, nId);
      assert vvTried[cell] == EMPTY;
      EnterTried(cell, nId);
    }

    /** Good_'s search for a bucket that holds the entry, from a random start. */
    method FindBucket(nId: int, nRnd: nat) returns (nUBucket: int)
      requires Valid() && nId in mapInfo && !mapInfo[nId].fInTried
      ensures 0 <= nUBucket < NEW_BUCKET_COUNT && Ops.InBucket(h, Abs(), nId, nUBucket)
    {
      nUBucket := -1;
      var n := 0;
      while n < NEW_BUCKET_COUNT && nUBucket == -1
        invariant 0 <= n <= NEW_BUCKET_COUNT
        invariant nUBucket != -1 ==> 0 <= nUBucket < NEW_BUCKET_COUNT && Ops.InBucket(h, Abs(), nId, nUBucket)
        invariant nUBucket == -1 ==> forall k: nat :: k < n ==> !Ops.InBucket(h, Abs(), nId, Probe(k, nRnd))
      {
        var nB := Probe(n, nRnd);
        if vvNew[NewSlot(h, mapInfo[nId].service, nB)] == nId {
          nUBucket := nB;
        }
        n := n + 1;
      }
      Ops.NewEntryHasBucket(h, Abs(), nId);
      ghost var b: NewBucket :| Ops.InBucket(h, Abs(), nId, b);
      ProbeHits(b, nRnd);
    }

    method Good(service: Service, nTime: int, nRnd: nat)
      requires Valid() && nTime >= 0
      modifies this, vvNew, vvTried
      ensures Abs() == Ops.Good(h, old(Abs()), service, nTime)
      ensures nTime > 0 ==> Valid()
    {
      if nTime > 0 { Ops.GoodInv(h, Abs(), service, nTime); }
      nLastGood := nTime;
      if service.addr !in mapAddr { return; }
      var nId := mapAddr[service.addr];
      if mapInfo[nId].service != service { return; }
      if !mapInfo[nId].fInTried { StatsInv(h, Abs(), nId, Ops.Succeeded(mapInfo[nId], nTime), {}, 0); }
      mapInfo := mapInfo[nId := mapInfo[nId].(nLastSuccess := nTime, nLastTry := nTime, nAttempts := 0)];
      if mapInfo[nId].fInTried { return; }
      var nUBucket := FindBucket(nId, nRnd);
      assert nUBucket != -1;
      MakeTried(nId);
    }

    method AddReference(cell: nat, nId: int)
      requires vvTried != vvNew && cell < vvNew.Length && nId in mapInfo
      modifies this`mapInfo, vvNew
      ensures Abs() == PutNew(old(Abs()), cell, nId)
    {
      mapInfo := mapInfo[nId := mapInfo[nId].(nRefCount := mapInfo[nId].nRefCount + 1)];
      vvNew[cell] := nId;
      assert vvNew[..] == old(vvNew[..])[cell := nId];
    }

    /** The second half of Add_: a reference in the bucket of this source. */
    method Place(nId: int, source: NetAddr, nNow: int)
      requires vvTried != vvNew && InvExcept(h, Abs(), {nId}, 0) && nId in mapInfo && !mapInfo[nId].fInTried
      modifies this, vvNew
      ensures Abs() == Ops.Place(h, old(Abs()), nId, source, nNow)
    {
      ghost var s := Abs();
      var service := mapInfo[nId].service;
      var cell := NewSlot(h, service, h.newBucket(service, source));
      if vvNew[cell] != nId {
        ClearNewReady(h, s, cell, {nId}, 0);
        var fInsert := vvNew[cell] == EMPTY;
        if !fInsert {
          var existing := mapInfo[vvNew[cell]];
          if Ops.IsTerrible(existing, nNow) || (existing.nRefCount > 1 && mapInfo[nId].nRefCount == 0) {
            fInsert := true;
          }
        }
        if fInsert {
          Ops.ClearOther(h, s, cell, nId, {nId}, 0);
          ClearNew(cell);
          AddReference(cell, nId);
        } else if mapInfo[nId].nRefCount == 0 {
          DeleteInv(h, s, nId, {nId}, 0);
          Delete(nId);
        }
      }
    }

    method Add(a: Ops.Announcement) returns (fNew: bool)
      requires Valid()
      modifies this, vvNew
      ensures Valid() && Abs() == Ops.Add(h, old(Abs()), a).0 && fNew == Ops.Add(h, old(Abs()), a).1
    {
      ghost var s := Abs();
      Ops.AddInv(h, s, a);
      if !a.routable { return false; }
      var nTimePenalty := if a.service.addr == a.source then 0 else a.nTimePenalty;
      if a.service.addr in mapAddr {
        var nId := mapAddr[a.service.addr];
        assert RefOk(mapInfo, vvNew[..], {}, nId);
        var worthwhile := Refresh(nId, a, nTimePenalty);
        if worthwhile {
          StatsInv(h, s, nId, Ops.Refreshed(s.mapInfo[nId], a), {}, 0);
          WeakenZero(h, Abs(), {}, {nId}, 0);
          Place(nId, a.source, a.nNow);
        }
        return false;
      }
      Ops.EnterInv(h, s, a);
      var nId := Enter(a, nTimePenalty);
      Place(nId, a.source, a.nNow);
      return true;
    }

    /** Updating a known entry, and the tests that end Add_ early. */
    method Refresh(nId: int, a: Ops.Announcement, nTimePenalty: int) returns (worthwhile: bool)
      requires nId in mapInfo && mapInfo[nId].nRefCount >= 0 && nTimePenalty == Ops.Penalty(a)
      modifies this`mapInfo
      ensures mapInfo == old(mapInfo)[nId := Ops.Refreshed(old(mapInfo)[nId], a)]
      ensures worthwhile == Ops.Worthwhile(mapInfo[nId], a)
    {
      var info := mapInfo[nId];
      var fCurrentlyOnline := a.nNow - a.nTime < 24 * 60 * 60;
      var nUpdateInterval := if fCurrentlyOnline then 60 * 60 else 24 * 60 * 60;
      if a.nTime != 0 && (info.nTime == 0 || info.nTime < a.nTime - nUpdateInterval - nTimePenalty) {
        info := info.(nTime := Ops.NonNegative(a.nTime - nTimePenalty));
      }
      info := info.(nServices := info.nServices + a.nServices);
      mapInfo := mapInfo[nId := info];
      if a.nTime == 0 || (info.nTime != 0 && a.nTime <= info.nTime) { return false; }
      if info.fInTried { return false; }
      if info.nRefCount == NEW_BUCKETS_PER_ADDRESS { return false; }
      var nFactor := 1;
      for n := 0 to info.nRefCount
        invariant nFactor == Pow2(n)
      {
        nFactor := nFactor * 2;
      }
      if nFactor > 1 && a.random % nFactor != 0 { return false; }
      return true;
    }

    method Enter(a: Ops.Announcement, nTimePenalty: int) returns (nId: int)
      requires nTimePenalty == Ops.Penalty(a)
      modifies this
      ensures nId == old(nIdCount) && Abs() == Ops.Entered(old(Abs()), a)
    {
      nId := nIdCount;
      nIdCount := nIdCount + 1;
      mapInfo := mapInfo[nId := Info(a.service, a.nServices, a.nTime, a.source, 0, 0, 0, 0, 0, false, -1)];
      mapAddr := mapAddr[a.service.addr := nId];
      mapInfo := mapInfo[nId := mapInfo[nId].(nRandomPos := |vRandom|)];
      vRandom := vRandom + [nId];
      mapInfo := mapInfo[nId := mapInfo[nId].(nTime := Ops.NonNegative(a.nTime - nTimePenalty))];
      nNew := nNew + 1;
    }

    method Attempt(service: Service, fCountFailure: bool, nTime: int)
      requires Valid() && nTime >= 0
      modifies this`mapInfo
      ensures Valid() && Abs() == Ops.Attempt(old(Abs()), service, fCountFailure, nTime)
    {
      Ops.AttemptInv(h, Abs(), service, fCountFailure, nTime);
      CountAttempt(service, fCountFailure, nTime);
    }

    method CountAttempt(service: Service, fCountFailure: bool, nTime: int)
      requires AddrOk(mapInfo, mapAddr)
      modifies this`mapInfo
      ensures Abs() == Ops.Attempt(old(Abs()), service, fCountFailure, nTime)
    {
      if service.addr !in mapAddr { return; }
      var nId := mapAddr[service.addr];
      if mapInfo[nId].service != service { return; }
      var info := mapInfo[nId].(nLastTry := nTime);
      if fCountFailure && info.nLastCountAttempt < nLastGood {
        info := info.(nLastCountAttempt := nTime, nAttempts := info.nAttempts + 1);
      }
      mapInfo := mapInfo[nId := info];
    }

    /** One round of GetAddr_: a random one of the remaining ids comes to n. */
    method DrawInto(n: nat) returns (ghost pick: nat)
      requires RandomOk(mapInfo, vRandom) && n < |vRandom|
      modifies this`mapInfo, this`vRandom
      ensures RandomOk(mapInfo, vRandom) && n <= pick < |vRandom| == old(|vRandom|)
      ensures Abs() == Ops.Swapped(old(Abs()), n, pick)
      ensures Shuffled(old(mapInfo), mapInfo) && vRandom[n] in mapInfo
      ensures forall k :: 0 <= k < n ==> vRandom[k] == old(vRandom)[k] && vRandom[k] in old(mapInfo)
    {
      var nRndPos: nat :| n <= nRndPos < |vRandom|;
      SwapRandomOk(Abs(), n, nRndPos);
      SwapRandom(n, nRndPos);
      pick := nRndPos;
    }

    /** The addresses reported are those of the first `seen` ids of vRandom that
        are not terrible; `picks` are the random draws. Either all ids were
        looked at or the quota is used up, and the quota is never exceeded. */
    method GetAddr(nNow: int) returns (vAddr: seq<Service>, ghost picks: seq<nat>, ghost seen: nat)
      requires Valid()
      modifies this`mapInfo, this`vRandom
      ensures Valid() && Ops.PicksOk(picks, old(|vRandom|)) && Abs() == Ops.Shuffle(old(Abs()), picks, |picks|)
      ensures seen == |picks| <= |vRandom| && vAddr == Presentable(mapInfo, vRandom, seen, nNow)
      ensures |vAddr| <= Quota(|vRandom|)
      ensures seen == |vRandom| || |vAddr| == Quota(|vRandom|)
    {
      ghost var s := Abs();
      var nNodes := Ops.GETADDR_MAX_PCT * |vRandom| / 100;
      if nNodes > Ops.GETADDR_MAX { nNodes := Ops.GETADDR_MAX; }
      vAddr, picks := Gather(nNodes, nNow);
      seen := |picks|;
      Ops.ShuffleInv(h, s, picks, |picks|);
    }

    method Round(n: nat, vAddr: seq<Service>, nNow: int) returns (vAddr': seq<Service>, ghost pick: nat)
      requires RandomOk(mapInfo, vRandom) && n < |vRandom| && vAddr == Presentable(mapInfo, vRandom, n, nNow)
      modifies this`mapInfo, this`vRandom
      ensures RandomOk(mapInfo, vRandom) && n <= pick < |vRandom| == old(|vRandom|)
      ensures Abs() == Ops.Swapped(old(Abs()), n, pick)
      ensures vAddr' == Presentable(mapInfo, vRandom, n + 1, nNow) && |vAddr'| <= |vAddr| + 1
    {
      pick := DrawInto(n);
      PresentableFrame(old(mapInfo), old(vRandom), mapInfo, vRandom, n, nNow);
      vAddr' := vAddr;
      var ai := mapInfo[vRandom[n]];
      if !Ops.IsTerrible(ai, nNow) {
        vAddr' := vAddr + [ai.service];
      }
    }

    method Gather(nNodes: nat, nNow: int) returns (vAddr: seq<Service>, ghost picks: seq<nat>)
      requires RandomOk(mapInfo, vRandom)
      modifies this`mapInfo, this`vRandom
      ensures Gathered(old(Abs()), Abs(), picks, vAddr, nNow)
      ensures |vAddr| <= nNodes && (|picks| == |vRandom| || |vAddr| == nNodes)
    {
      vAddr, picks := [], [];
      var n := 0;
      while n < |vRandom| && |vAddr| < nNodes
        invariant n == |picks| && |vAddr| <= nNodes
        invariant Gathered(old(Abs()), Abs(), picks, vAddr, nNow)
      {
        ghost var t, before := Abs(), vAddr;
        ghost var pick;
        vAddr, pick := Round(n, vAddr, nNow);
        GatheredMore(old(Abs()), t, Abs(), picks, pick, before, vAddr, nNow);
        picks := picks + [pick];
        n := n + 1;
      }
    }

    // ----- Check_ -----

    /** The tests on one entry. Looking up an address that is missing enters it
        with id 0. */
    method CheckEntry(n: int) returns (code: int)
      requires n in mapInfo
      modifies this`mapAddr
      ensures var addr, known := mapInfo[n].service.addr, old(mapAddr);
        && (code == 0 <==> EntryOk(mapInfo, vRandom, n) && (if addr in known then known[addr] == n else n == 0))
        && (code == 0 ==> mapAddr == if addr in known then known else known[addr := 0])
    {
      var info := mapInfo[n];
      if info.fInTried {
        if info.nLastSuccess == 0 { return -1; }
        if info.nRefCount != 0 { return -2; }
      } else {
        if info.nRefCount < 0 || info.nRefCount > NEW_BUCKETS_PER_ADDRESS { return -3; }
        if info.nRefCount == 0 { return -4; }
      }
      if info.service.addr !in mapAddr { mapAddr := mapAddr[info.service.addr := 0]; }
      if mapAddr[info.service.addr] != n { return -5; }
      if info.nRandomPos < 0 || info.nRandomPos >= |vRandom| || vRandom[info.nRandomPos] != n { return -14; }
      if info.nLastTry < 0 { return -6; }
      if info.nLastSuccess < 0 { return -8; }
      return 0;
    }

    method CheckEntries(ghost consistent: bool) returns (code: int, setTried: set<int>, mapNew: map<int, int>)
      requires IdsOk(mapInfo, nIdCount)
      requires consistent ==> EntriesOk(mapInfo, vRandom, nIdCount)
      requires consistent ==> AddrsForth(mapInfo, Repaired(mapInfo, mapAddr), nIdCount)
      modifies this`mapAddr
      ensures code == 0 ==> EntriesOk(mapInfo, vRandom, nIdCount) && AddrsForth(mapInfo, mapAddr, nIdCount)
      ensures code == 0 ==> mapAddr == Repaired(mapInfo, old(mapAddr))
      ensures code == 0 ==> setTried == TriedBelow(mapInfo, nIdCount) && mapNew == RefsOf(mapInfo, nIdCount)
      ensures consistent ==> code == 0
    {
      code, setTried, mapNew := 0, {}, map[];
      for n := 0 to nIdCount
        invariant EntriesOk(mapInfo, vRandom, n) && AddrsForth(mapInfo, mapAddr, n)
        invariant mapAddr == if n == 0 then old(mapAddr) else Repaired(mapInfo, old(mapAddr))
        invariant setTried == TriedBelow(mapInfo, n) && mapNew == RefsOf(mapInfo, n)
        invariant code == 0
      {
        BelowMore(mapInfo, n);
        if n in mapInfo {
          code := CheckEntry(n);
          if code != 0 { return; }
          if mapInfo[n].fInTried {
            setTried := setTried + {n};
          } else {
            mapNew := mapNew[n := mapInfo[n].nRefCount];
          }
        }
      }
    }

    method CheckTriedCell(cell: nat, setTried: set<int>, ghost consistent: bool)
      returns (code: int, setTried': set<int>)
      requires cell < TRIED_CELLS && TriedChecked(h, mapInfo, vvTried[..], cell, setTried) && EMPTY !in mapInfo
      requires consistent ==> Inv(h, Seen(Abs()))
      ensures code == 0 ==> TriedChecked(h, mapInfo, vvTried[..], cell + 1, setTried')
      ensures consistent ==> code == 0
    {
      setTried' := setTried;
      if consistent && vvTried[cell] != EMPTY { TriedAwaited(h, Seen(Abs()), cell, setTried); }
      if vvTried[cell] != EMPTY {
        var id := vvTried[cell];
        if id !in setTried { return -11, setTried'; }
        if h.triedBucket(mapInfo[id].service) != cell / BUCKET_SIZE { return -17, setTried'; }
        if h.position(false, cell / BUCKET_SIZE, mapInfo[id].service) != cell % BUCKET_SIZE { return -18, setTried'; }
        setTried' := setTried - {id};
      }
      TriedMet(h, mapInfo, vvTried[..], cell, setTried);
      assert vvTried[cell] == EMPTY ==> setTried - {vvTried[cell]} == setTried;
      return 0, setTried';
    }

    method CheckTried(setTried: set<int>, ghost consistent: bool) returns (code: int, left: set<int>)
      requires TriedChecked(h, mapInfo, vvTried[..], 0, setTried) && EMPTY !in mapInfo
      requires consistent ==> Inv(h, Seen(Abs()))
      ensures code == 0 ==> TriedChecked(h, mapInfo, vvTried[..], TRIED_CELLS, left)
      ensures consistent ==> code == 0
    {
      code, left := 0, setTried;
      var n := TRIED_CELLS;
      for cell := 0 to n
        invariant code == 0 && TriedChecked(h, mapInfo, vvTried[..], cell, left)
      {
        code, left := CheckTriedCell(cell, left, consistent);
        if code != 0 { return; }
      }
    }

    method CheckNewCell(cell: nat, mapNew: map<int, int>, ghost consistent: bool)
      returns (code: int, mapNew': map<int, int>)
      requires cell < NEW_CELLS && NewChecked(h, mapInfo, vvNew[..], cell, mapNew) && EMPTY !in mapInfo
      requires consistent ==> Inv(h, Seen(Abs()))
      ensures code == 0 ==> NewChecked(h, mapInfo, vvNew[..], cell + 1, mapNew')
      ensures consistent ==> code == 0
    {
      mapNew' := mapNew;
      if vvNew[cell] == EMPTY {
        NewSkipped(h, mapInfo, vvNew[..], cell, mapNew);
        return 0, mapNew';
      }
      if consistent { NewAwaited(h, Seen(Abs()), cell, mapNew); }
      var id := vvNew[cell];
      if id !in mapNew { return -12, mapNew'; }
      if h.position(true, cell / BUCKET_SIZE, mapInfo[id].service) != cell % BUCKET_SIZE { return -19, mapNew'; }
      mapNew' := mapNew[id := mapNew[id] - 1];
      if mapNew'[id] == 0 { mapNew' := mapNew' - {id}; }
      assert mapNew' == Counted(mapNew, id);
      NewMet(h, mapInfo, vvNew[..], cell, mapNew);
      return 0, mapNew';
    }

    method CheckNew(mapNew: map<int, int>, ghost consistent: bool) returns (code: int, left: map<int, int>)
      requires NewChecked(h, mapInfo, vvNew[..], 0, mapNew) && EMPTY !in mapInfo
      requires consistent ==> Inv(h, Seen(Abs()))
      ensures code == 0 ==> NewChecked(h, mapInfo, vvNew[..], NEW_CELLS, left)
      ensures consistent ==> code == 0
    {
      code, left := 0, mapNew;
      var n := NEW_CELLS;
      for cell := 0 to n
        invariant code == 0 && NewChecked(h, mapInfo, vvNew[..], cell, left)
      {
        code, left := CheckNewCell(cell, left, consistent);
        if code != 0 { return; }
      }
    }

    method CheckTables(setTried: set<int>, mapNew: map<int, int>, ghost consistent: bool) returns (code: int)
      requires TriedChecked(h, mapInfo, vvTried[..], 0, setTried) && NewChecked(h, mapInfo, vvNew[..], 0, mapNew)
      requires EMPTY !in mapInfo && (consistent ==> Inv(h, Seen(Abs())))
      ensures code == 0 ==> TriedChecked(h, mapInfo, vvTried[..], TRIED_CELLS, {})
      ensures code == 0 ==> NewChecked(h, mapInfo, vvNew[..], NEW_CELLS, map[])
      ensures consistent ==> code == 0
    {
      var unmet, uncounted;
      code, unmet := CheckTried(setTried, consistent);
      if code != 0 { return; }
      code, uncounted := CheckNew(mapNew, consistent);
      if code != 0 { return; }
      if consistent { AllMet(h, Seen(Abs()), unmet); AllCounted(h, Seen(Abs()), uncounted); }
      if unmet != {} { return -13; }
      if uncounted != map[] { return -15; }
    }

    /** All of Check_ but the test of the key. */
    method CheckAll() returns (code: int)
      requires vvTried != vvNew && vvTried.Length == TRIED_CELLS && vvNew.Length == NEW_CELLS
      requires IdsOk(mapInfo, nIdCount)
      modifies this`mapAddr
      ensures code == 0 <==> Inv(h, Seen(old(Abs())))
      ensures code == 0 ==> mapAddr == Repaired(mapInfo, old(mapAddr))
    {
      ghost var s := Abs();
      ghost var consistent := Inv(h, Seen(s));
      if consistent { SeenStart(h, s); }
      SeenAgain(s);
      var setTried, mapNew;
      if |vRandom| != nTried + nNew { return -7; }
      code, setTried, mapNew := CheckEntries(consistent);
      if code != 0 { return; }
      if |setTried| != nTried { return -9; }
      if |mapNew| != nNew { return -10; }
      EntriesChecked(h, mapInfo, vRandom, vvTried[..], vvNew[..], nIdCount);
      code := CheckTables(setTried, mapNew, consistent);
      if code == 0 { SeenPassed(h, s); }
    }

    /** Check_ passes exactly if there is a key and the tables, as it sees them,
        agree; on valid tables it changes nothing. */
    method Check(nKeyIsNull: bool) returns (code: int)
      requires vvTried != vvNew && vvTried.Length == TRIED_CELLS && vvNew.Length == NEW_CELLS
      requires IdsOk(mapInfo, nIdCount)
      modifies this`mapAddr
      ensures code == 0 <==> !nKeyIsNull && Inv(h, Seen(old(Abs())))
      ensures code == 0 ==> mapAddr == Repaired(mapInfo, old(mapAddr))
      ensures old(Valid()) ==> Abs() == old(Abs()) && code == if nKeyIsNull then -16 else 0
    {
      ghost var s := Abs();
      if Inv(h, s) { InvSeen(h, s); }
      code := CheckAll();
      if code == 0 && nKeyIsNull { code := -16; }
    }

    // ----- Serialize -----

    /** The entries of the new table in the order of their ids, and the number
        each id gets. */
    method WriteNew(front: seq<Item>) returns (stream: seq<Item>, mapUnkIds: map<int, int>)
      requires Valid()
      ensures stream == front + Entries(SavedTable(mapInfo, nIdCount, false))
      ensures forall id :: id in mapInfo ==> id in mapUnkIds && mapUnkIds[id] == Rank(mapInfo, id)
    {
      stream, mapUnkIds := front, map[];
      var nIds := 0;
      Trip.SavedCounts(h, Abs());
      for id := 0 to nIdCount
        invariant nIds == |Ids(mapInfo, id, false)|
        invariant stream == front + Entries(SavedTable(mapInfo, id, false))
        invariant forall k :: 0 <= k < id && k in mapInfo ==> k in mapUnkIds && mapUnkIds[k] == Rank(mapInfo, k)
      {
        if id in mapInfo {
          mapUnkIds := mapUnkIds[id := nIds];
          if mapInfo[id].nRefCount != 0 {
            Trip.IdsAt(mapInfo, nIdCount, false, id);
            assert nIds != nNew;
            stream := stream + [Entry(Saved(mapInfo[id]))];
            nIds := nIds + 1;
          }
        }
      }
    }

    method WriteTried(front: seq<Item>) returns (stream: seq<Item>)
      requires Valid()
      ensures stream == front + Entries(SavedTable(mapInfo, nIdCount, true))
    {
      stream := front;
      var nIds := 0;
      Trip.SavedCounts(h, Abs());
      for id := 0 to nIdCount
        invariant nIds == |Ids(mapInfo, id, true)|
        invariant stream == front + Entries(SavedTable(mapInfo, id, true))
      {
        if id in mapInfo && mapInfo[id].fInTried {
          Trip.IdsAt(mapInfo, nIdCount, true, id);
          assert nIds != nTried;
          stream := stream + [Entry(Saved(mapInfo[id]))];
          nIds := nIds + 1;
        }
      }
    }

    method CountRow(lo: nat) returns (nSize: nat)
      requires lo + BUCKET_SIZE <= vvNew.Length
      ensures nSize == |RowOf(mapInfo, vvNew[..], lo, BUCKET_SIZE)|
    {
      nSize := 0;
      var n := BUCKET_SIZE;
      for i := 0 to n
        invariant nSize == |RowOf(mapInfo, vvNew[..], lo, i)|
      {
        if vvNew[lo + i] != EMPTY { nSize := nSize + 1; }
      }
    }

    method WriteRow(front: seq<Item>, mapUnkIds: map<int, int>, lo: nat) returns (stream: seq<Item>)
      requires lo + BUCKET_SIZE <= vvNew.Length && Ranked(mapInfo, vvNew[..], mapUnkIds)
      ensures var row := RowOf(mapInfo, vvNew[..], lo, BUCKET_SIZE); stream == front + [Number(|row|)] + Numbers(row)
    {
      var nSize := CountRow(lo);
      stream := front + [Number(nSize)];
      var n := BUCKET_SIZE;
      for i := 0 to n
        invariant stream == front + [Number(nSize)] + Numbers(RowOf(mapInfo, vvNew[..], lo, i))
      {
        if vvNew[lo + i] != EMPTY {
          assert vvNew[..][lo + i] == vvNew[lo + i];
          stream := stream + [Number(mapUnkIds[vvNew[lo + i]])];
        }
      }
    }

    method WriteRows(front: seq<Item>, mapUnkIds: map<int, int>) returns (stream: seq<Item>)
      requires vvNew.Length == NEW_CELLS && Ranked(mapInfo, vvNew[..], mapUnkIds)
      ensures stream == front + RowItems(SavedRows(mapInfo, vvNew[..]), NEW_BUCKET_COUNT)
    {
      stream := front;
      ghost var rows := SavedRows(mapInfo, vvNew[..]);
      var n := NEW_BUCKET_COUNT;
      for bucket := 0 to n
        invariant stream == front + RowItems(rows, bucket)
      {
        ghost var before := stream;
        stream := WriteRow(stream, mapUnkIds, bucket * BUCKET_SIZE);
        assert stream == before + [Number(|rows[bucket]|)] + Numbers(rows[bucket]);
        RowItemsNext(front, rows, bucket);
      }
    }

    /** The stream describes the tables; the source's two assertions on the
        counts never fail. */
    method Serialize() returns (stream: seq<Item>)
      requires Valid()
      ensures stream == Items(Save(h, Abs()))
    {
      stream := [Byte(VERSION), Byte(KEY_SIZE), Key(h), Number(nNew), Number(nTried), Number(Marked(NEW_BUCKET_COUNT))];
      assert stream == Header(Save(h, Abs()));
      var mapUnkIds;
      stream, mapUnkIds := WriteNew(stream);
      stream := WriteTried(stream);
      forall i | 0 <= i < vvNew.Length && vvNew[i] != EMPTY ensures vvNew[i] in mapInfo {
        assert NewCellOk(h, mapInfo, vvNew[..], i);
      }
      stream := WriteRows(stream, mapUnkIds);
    }

    // ----- Unserialize -----

    method TakeNew(ghost img: Image, n: nat, r: Record, usable: bool)
      requires vvTried != vvNew && vvNew.Length == NEW_CELLS && h == img.key && usable == Usable(img)
      modifies this`mapInfo, this`mapAddr, this`vRandom, vvNew
      ensures Abs().(nIdCount := n + 1) == LoadNewRecord(img, old(Abs()).(nIdCount := n), r)
    {
      mapInfo := mapInfo[n := Restored(r, -1)];
      mapAddr := mapAddr[r.service.addr := n];
      mapInfo := mapInfo[n := mapInfo[n].(nRandomPos := |vRandom|)];
      vRandom := vRandom + [n];
      assert mapInfo == old(mapInfo)[n := Restored(r, old(|vRandom|))];
      if !usable {
        var cell := Ops.HomeCell(h, mapInfo[n]);
        if vvNew[cell] == EMPTY {
          vvNew[cell] := n;
          mapInfo := mapInfo[n := mapInfo[n].(nRefCount := mapInfo[n].nRefCount + 1)];
          assert vvNew[..] == old(vvNew[..])[cell := n];
        }
      }
    }

    /** ok says whether the stream holds the new entries it announces. */
    method ReadNew(stream: seq<Item>) returns (ok: bool)
      requires HeaderOk(stream) && vvTried != vvNew && h == stream[2].key
      requires Abs() == Ops.Cleared().(nNew := stream[3].n, nTried := stream[4].n)
      modifies this, vvNew
      ensures ok == EntriesAt(stream, 6, AtLeastZero(stream[3].n))
      ensures ok ==> TriedRead(stream, Abs(), 0, 0)
    {
      var usable := stream[0].b == VERSION && BucketsOf(stream) == NEW_BUCKET_COUNT;
      var nEntries := AtLeastZero(stream[3].n);
      for n := 0 to nEntries
        modifies this`mapInfo, this`mapAddr, this`vRandom, vvNew
        invariant NewRead(stream, Abs(), n)
      {
        if 6 + n >= |stream| || !stream[6 + n].Entry? { return false; }
        ghost var s := Abs();
        TakeNew(ImageOf(stream), n, stream[6 + n].r, usable);
        NewReadMore(stream, s, Abs(), n);
      }
      NewReadAll(stream, Abs());
      nIdCount := nNew;
      return true;
    }

    method TakeTried(r: Record) returns (lost: bool)
      requires vvTried != vvNew && vvTried.Length == TRIED_CELLS
      modifies this`mapInfo, this`mapAddr, this`vRandom, this`nIdCount, vvTried
      ensures Abs().(nTried := nTried - if lost then 1 else 0) == LoadTriedRecord(h, old(Abs()), r)
    {
      var cell := TriedSlot(h, r.service);
      lost := vvTried[cell] != EMPTY;
      if !lost {
        var info := Restored(r, |vRandom|).(fInTried := true);
        vRandom := vRandom + [nIdCount];
        mapInfo := mapInfo[nIdCount := info];
        mapAddr := mapAddr[r.service.addr := nIdCount];
        vvTried[cell] := nIdCount;
        assert vvTried[..] == old(vvTried[..])[cell := nIdCount];
        nIdCount := nIdCount + 1;
        assert mapInfo == Admit(old(Abs()), r).mapInfo[old(nIdCount) := info];
      }
    }

    method ReadTried(stream: seq<Item>) returns (ok: bool)
      requires HeaderOk(stream) && vvTried != vvNew && h == stream[2].key && TriedRead(stream, Abs(), 0, 0)
      requires EntriesAt(stream, 6, AtLeastZero(stream[3].n))
      modifies this, vvTried
      ensures ok == EntriesAt(stream, AfterNew(stream), AtLeastZero(stream[4].n))
      ensures ok ==> RowsRead(stream, Abs(), 0, AfterTried(stream))
    {
      var nLost := 0;
      var nEntries, pos := AtLeastZero(stream[4].n), AfterNew(stream);
      for n := 0 to nEntries
        modifies this`mapInfo, this`mapAddr, this`vRandom, this`nIdCount, vvTried
        invariant TriedRead(stream, Abs(), n, nLost)
      {
        if pos + n >= |stream| || !stream[pos + n].Entry? { return false; }
        ghost var s := Abs();
        var lost := TakeTried(stream[pos + n].r);
        TriedReadMore(stream, s, Abs(), n, nLost, lost);
        if lost { nLost := nLost + 1; }
      }
      TriedReadAll(stream, Abs(), nLost);
      nTried := nTried - nLost;
      return true;
    }

    method PlaceIndex(ghost img: Image, bucket: nat, nIndex: int, usable: bool)
      requires vvTried != vvNew && h == img.key && nNew == img.nNew && usable == Usable(img) && Ready(img, Abs())
      requires usable ==> bucket < NEW_BUCKET_COUNT
      modifies this`mapInfo, vvNew
      ensures Abs() == Refer(img, old(Abs()), bucket, nIndex)
    {
      if 0 <= nIndex < nNew && usable {
        var info := mapInfo[nIndex];
        var cell := NewSlot(h, info.service, bucket);
        if vvNew[cell] == EMPTY && info.nRefCount < NEW_BUCKETS_PER_ADDRESS {
          mapInfo := mapInfo[nIndex := info.(nRefCount := info.nRefCount + 1)];
          vvNew[cell] := nIndex;
          assert vvNew[..] == old(vvNew[..])[cell := nIndex];
        }
      }
    }

    method ReadRow(ghost img: Image, stream: seq<Item>, pos: nat, nSize: nat, bucket: nat, usable: bool)
      returns (ok: bool)
      requires vvTried != vvNew && h == img.key && nNew == img.nNew && usable == Usable(img) && Ready(img, Abs())
      requires pos <= |stream| && (usable ==> bucket < NEW_BUCKET_COUNT)
      modifies this`mapInfo, vvNew
      ensures ok == NumbersAt(stream, pos, nSize)
      ensures ok ==> Abs() == LoadRow(img, old(Abs()), bucket, NumbersFrom(stream, pos, nSize))
    {
      for n := 0 to nSize
        invariant NumbersAt(stream, pos, n) && Ready(img, Abs())
        invariant Abs() == LoadRow(img, old(Abs()), bucket, NumbersFrom(stream, pos, n))
      {
        if pos + n >= |stream| || !stream[pos + n].Number? { return false; }
        Trip.LoadRowOneMore(img, old(Abs()), bucket, NumbersFrom(stream, pos, n), stream[pos + n].n);
        assert NumbersFrom(stream, pos, n + 1) == NumbersFrom(stream, pos, n) + [stream[pos + n].n];
        PlaceIndex(img, bucket, stream[pos + n].n, usable);
      }
      return true;
    }

    method ReadBucket(stream: seq<Item>, bucket: nat, pos: nat, usable: bool) returns (ok: bool, end: nat)
      requires HeaderOk(stream) && vvTried != vvNew && h == stream[2].key && usable == Usable(ImageOf(stream))
      requires RowsRead(stream, Abs(), bucket, pos) && bucket < AtLeastZero(BucketsOf(stream))
      modifies this`mapInfo, vvNew
      ensures if ok then RowsRead(stream, Abs(), bucket + 1, end) else !Parse(stream).Success?
    {
      end := pos;
      RowsReadNext(stream, Abs(), bucket, pos);
      if pos >= |stream| || !stream[pos].Number? { return false, pos; }
      var nSize := AtLeastZero(stream[pos].n);
      ok := ReadRow(ImageOf(stream), stream, pos + 1, nSize, bucket, usable);
      end := pos + 1 + nSize;
    }

    method ReadPositions(stream: seq<Item>) returns (ok: bool)
      requires HeaderOk(stream) && vvTried != vvNew && h == stream[2].key &&
        RowsRead(stream, Abs(), 0, AfterTried(stream))
      modifies this`mapInfo, vvNew
      ensures ok == Parse(stream).Success?
      ensures ok ==> Abs() == LoadRows(ImageOf(stream), |ImageOf(stream).rows|)
    {
      var usable := stream[0].b == VERSION && BucketsOf(stream) == NEW_BUCKET_COUNT;
      var nUBuckets := AtLeastZero(BucketsOf(stream));
      var pos: nat := AfterTried(stream);
      for bucket := 0 to nUBuckets
        invariant RowsRead(stream, Abs(), bucket, pos)
      {
        ok, pos := ReadBucket(stream, bucket, pos, usable);
        if !ok { return false; }
      }
      RowsReadAll(stream, Abs(), pos);
      return true;
    }

    method PruneOne(id: int)
      requires Ordered(Abs())
      modifies this`vRandom, this`mapInfo, this`mapAddr, this`nNew
      ensures Abs() == PruneAt(old(Abs()), id) && Ordered(Abs())
    {
      PruneAtOrdered(Abs(), id);
      if id in mapInfo && !mapInfo[id].fInTried && mapInfo[id].nRefCount == 0 {
        Delete(id);
      }
    }

    method PruneAll()
      requires Ordered(Abs())
      modifies this`vRandom, this`mapInfo, this`mapAddr, this`nNew
      ensures Abs() == Prune(old(Abs()), AtLeastZero(nIdCount))
    {
      var n := AtLeastZero(nIdCount);
      for id := 0 to n
        invariant Abs() == Prune(old(Abs()), id) && Ordered(Abs())
      {
        PruneOne(id);
      }
    }

    /** Reading fails exactly when the stream is malformed; otherwise the tables
        are the ones it describes. */
    static method Unserialize(stream: seq<Item>) returns (r: Loaded)
      ensures r.Loaded? <==> Parse(stream).Success?
      ensures r.Loaded? ==> fresh(r.addrman) && r.addrman.vvTried != r.addrman.vvNew
      ensures r.Loaded? ==> r.addrman.h == ImageOf(stream).key && r.addrman.Abs() == Rebuild(ImageOf(stream))
    {
      if !HeaderOk(stream) { return Thrown; }
      var a := new AddrMan(stream[2].key);
      a.nNew, a.nTried := stream[3].n, stream[4].n;
      var ok := a.ReadNew(stream);
      if !ok { return Thrown; }
      ok := a.ReadTried(stream);
      if !ok { return Thrown; }
      ok := a.ReadPositions(stream);
      if !ok { return Thrown; }
      LoadRowsOrdered(ImageOf(stream), |ImageOf(stream).rows|);
      a.PruneAll();
      return Loaded(a);
    }

    /** Saving and loading gives an address manager that is valid and the same up
        to the numbers of its entries. */
    method Reopen() returns (r: Loaded)
      requires Valid()
      ensures r.Loaded? && r.addrman.h == h && r.addrman.Valid()
      ensures Trip.Numbered(Abs()) && Trip.SameUpToNumbers(Abs(), r.addrman.Abs())
    {
      var stream := Serialize();
      Trip.RoundTrip(h, Abs());
      r := Unserialize(stream);
    }
  }

  /** n new entries have been read; the ids are counted only afterwards. */
  ghost predicate NewRead(stream: seq<Item>, s: State, n: nat)
    requires HeaderOk(stream)
  {
    && EntriesAt(stream, 6, n) && n <= AtLeastZero(stream[3].n) && s.nIdCount == 0 && s.nNew == stream[3].n
    && |s.vvNew| == NEW_CELLS && |s.vvTried| == TRIED_CELLS
    && (forall k :: 0 <= k < n ==> k in s.mapInfo)
    && (Parse(stream).Success? ==> s == LoadNew(ImageOf(stream), n).(nIdCount := 0, nTried := stream[4].n))
  }

  lemma NewReadMore(stream: seq<Item>, s: State, t: State, n: nat)
    requires HeaderOk(stream) && NewRead(stream, s, n) && n < AtLeastZero(stream[3].n)
    requires 6 + n < |stream| && stream[6 + n].Entry? && t.nIdCount == 0
    requires t.(nIdCount := n + 1) == LoadNewRecord(ImageOf(stream), s.(nIdCount := n), stream[6 + n].r)
    ensures NewRead(stream, t, n + 1)
  {
    var img := ImageOf(stream);
    if Parse(stream).Success? {
      assert img.news[n] == stream[6 + n].r;
      var l := LoadNew(img, n);
      assert LoadNewRecord(img, l.(nTried := stream[4].n), img.news[n]) ==
        LoadNewRecord(img, l, img.news[n]).(nTried := stream[4].n);
    }
  }

  /** n tried entries have been read; the lost ones are taken off nTried
      afterwards. */
  ghost predicate TriedRead(stream: seq<Item>, s: State, n: nat, nLost: int)
    requires HeaderOk(stream)
  {
    && EntriesAt(stream, AfterNew(stream), n) && n <= AtLeastZero(stream[4].n) && s.nNew == stream[3].n
    && Ready(ImageOf(stream), s)
    && (Parse(stream).Success? ==> s.(nTried := s.nTried - nLost) == LoadTried(ImageOf(stream), n))
  }

  lemma NewReadAll(stream: seq<Item>, s: State)
    requires HeaderOk(stream) && NewRead(stream, s, AtLeastZero(stream[3].n))
    ensures TriedRead(stream, s.(nIdCount := stream[3].n), 0, 0)
  {
  }

  lemma LoadTriedRecordReady(img: Image, s: State, r: Record, nTried: int)
    requires Ready(img, s)
    ensures Ready(img, LoadTriedRecord(img.key, s, r))
    ensures LoadTriedRecord(img.key, s, r).nNew == s.nNew
    ensures LoadTriedRecord(img.key, s.(nTried := nTried), r) ==
      LoadTriedRecord(img.key, s, r).(nTried := nTried + LoadTriedRecord(img.key, s, r).nTried - s.nTried)
  {
  }

  lemma TriedReadMore(stream: seq<Item>, s: State, t: State, n: nat, nLost: int, lost: bool)
    requires HeaderOk(stream) && TriedRead(stream, s, n, nLost) && n < AtLeastZero(stream[4].n)
    requires AfterNew(stream) + n < |stream| && stream[AfterNew(stream) + n].Entry? && t.nTried == s.nTried
    requires t.(nTried := t.nTried - if lost then 1 else 0) ==
      LoadTriedRecord(stream[2].key, s, stream[AfterNew(stream) + n].r)
    ensures TriedRead(stream, t, n + 1, nLost + if lost then 1 else 0)
  {
    var img := ImageOf(stream);
    LoadTriedRecordReady(img, s, stream[AfterNew(stream) + n].r, s.nTried - nLost);
    if Parse(stream).Success? {
      assert img.trieds[n] == stream[AfterNew(stream) + n].r;
    }
  }

  /** b rows have been read, up to pos. */
  ghost predicate RowsRead(stream: seq<Item>, s: State, b: nat, pos: nat)
    requires HeaderOk(stream)
  {
    && EntriesAt(stream, 6, AtLeastZero(stream[3].n)) && EntriesAt(stream, AfterNew(stream), AtLeastZero(stream[4].n))
    && b <= AtLeastZero(BucketsOf(stream)) && s.nNew == stream[3].n && Ready(ImageOf(stream), s)
    && ReadRows(stream, AfterTried(stream), b).Rows? && ReadRows(stream, AfterTried(stream), b).end == pos
    && (Parse(stream).Success? ==> s == LoadRows(ImageOf(stream), b))
  }

  lemma TriedReadAll(stream: seq<Item>, s: State, nLost: int)
    requires HeaderOk(stream) && TriedRead(stream, s, AtLeastZero(stream[4].n), nLost)
    requires EntriesAt(stream, 6, AtLeastZero(stream[3].n))
    ensures RowsRead(stream, s.(nTried := s.nTried - nLost), 0, AfterTried(stream))
  {
  }

  /** The next row is there exactly if reading can go on, and is the next of
      the content. */
  lemma RowsReadNext(stream: seq<Item>, s: State, b: nat, pos: nat)
    requires HeaderOk(stream) && RowsRead(stream, s, b, pos) && b < AtLeastZero(BucketsOf(stream))
    ensures !RowAt(stream, pos) ==> !Parse(stream).Success?
    ensures RowAt(stream, pos) ==>
      var nSize := AtLeastZero(stream[pos].n);
      RowsRead(stream, LoadRow(ImageOf(stream), s, b, NumbersFrom(stream, pos + 1, nSize)), b + 1, pos + 1 + nSize)
  {
    var start, n := AfterTried(stream), AtLeastZero(BucketsOf(stream));
    if ReadRows(stream, start, n).Rows? {
      RowsExtend(stream, start, b, n);
    }
    if !RowAt(stream, pos) {
      ShortStays(stream, start, b + 1, n);
    }
  }

  lemma RowsReadAll(stream: seq<Item>, s: State, pos: nat)
    requires HeaderOk(stream) && RowsRead(stream, s, AtLeastZero(BucketsOf(stream)), pos)
    ensures Parse(stream).Success? && s == LoadRows(ImageOf(stream), |ImageOf(stream).rows|)
  {
  }

  datatype Loaded = Thrown | Loaded(addrman: AddrMan)

  /** Every filled cell's id has its number. */
  ghost predicate Ranked(m: InfoMap, cells: seq<int>, mapUnkIds: map<int, int>) {
    forall i :: 0 <= i < |cells| && cells[i] != EMPTY ==>
      cells[i] in mapUnkIds && mapUnkIds[cells[i]] == Rank(m, cells[i])
  }

  lemma RowItemsNext(front: seq<Item>, rows: seq<seq<int>>, k: nat)
    requires k < |rows|
    ensures front + RowItems(rows, k + 1) == front + RowItems(rows, k) + [Number(|rows[k]|)] + Numbers(rows[k])
  {
  }

  function Quota(n: nat): int {
    var share := Ops.GETADDR_MAX_PCT * n / 100;
    if share > Ops.GETADDR_MAX then Ops.GETADDR_MAX else share
  }

  /** The services of the first n ids that are not terrible. */
  function Presentable(m: InfoMap, vRandom: seq<int>, n: nat, nNow: int): seq<Service>
    requires n <= |vRandom| && forall k :: 0 <= k < n ==> vRandom[k] in m
  {
    if n == 0 then []
    else
      Presentable(m, vRandom, n - 1, nNow) +
      (if Ops.IsTerrible(m[vRandom[n - 1]], nNow) then [] else [m[vRandom[n - 1]].service])
  }

  /** The draws so far took s to t and reported vAddr. */
  ghost predicate Gathered(s: State, t: State, picks: seq<nat>, vAddr: seq<Service>, nNow: int) {
    && RandomOk(t.mapInfo, t.vRandom) && |picks| <= |t.vRandom| == |s.vRandom|
    && Ops.PicksOk(picks, |s.vRandom|) && t == Ops.Shuffle(s, picks, |picks|)
    && vAddr == Presentable(t.mapInfo, t.vRandom, |picks|, nNow)
  }

  lemma GatheredMore(s: State, t: State, u: State, picks: seq<nat>, pick: nat, vAddr: seq<Service>,
        vAddr': seq<Service>, nNow: int)
    requires Gathered(s, t, picks, vAddr, nNow) && |picks| <= pick < |u.vRandom| == |t.vRandom|
    requires u == Ops.Swapped(t, |picks|, pick) && RandomOk(u.mapInfo, u.vRandom)
    requires vAddr' == Presentable(u.mapInfo, u.vRandom, |picks| + 1, nNow)
    ensures Gathered(s, u, picks + [pick], vAddr', nNow)
  {
    Ops.ShuffleMore(s, picks, pick);
  }

  lemma {:induction false} PresentableFrame(m: InfoMap, v: seq<int>, m': InfoMap, v': seq<int>, n: nat, nNow: int)
    requires Shuffled(m, m') && n <= |v| && n <= |v'|
    requires forall k :: 0 <= k < n ==> v'[k] == v[k] && v[k] in m
    ensures Presentable(m', v', n, nNow) == Presentable(m, v, n, nNow)
  {
    if n > 0 { PresentableFrame(m, v, m', v', n - 1, nNow); }
  }

  ghost predicate ListedBefore(m: InfoMap, vRandom: seq<int>, n: nat, service: Service)
    requires n <= |vRandom|
  {
    exists k :: 0 <= k < n && vRandom[k] in m && m[vRandom[k]].service == service
  }

  ghost predicate AllListed(m: InfoMap, vRandom: seq<int>, n: nat, out: seq<Service>)
    requires n <= |vRandom|
  {
    forall i :: 0 <= i < |out| ==> ListedBefore(m, vRandom, n, out[i])
  }

  ghost predicate DistinctAddrs(out: seq<Service>) {
    forall i, j :: 0 <= i < j < |out| ==> out[i].addr != out[j].addr
  }

  /** Nobody is reported twice: the reported services have distinct addresses. */
  lemma {:induction false} PresentableDistinct(m: InfoMap, mapAddr: AddrMap, vRandom: seq<int>, n: nat, nNow: int)
    requires RandomOk(m, vRandom) && AddrOk(m, mapAddr) && n <= |vRandom|
    ensures forall k :: 0 <= k < n ==> vRandom[k] in m
    ensures AllListed(m, vRandom, n, Presentable(m, vRandom, n, nNow))
    ensures DistinctAddrs(Presentable(m, vRandom, n, nNow))
  {
    if n > 0 {
      PresentableDistinct(m, mapAddr, vRandom, n - 1, nNow);
      var before := Presentable(m, vRandom, n - 1, nNow);
      var last := m[vRandom[n - 1]].service;
      assert ListedBefore(m, vRandom, n, last);
      forall i | 0 <= i < |before| ensures before[i].addr != last.addr && ListedBefore(m, vRandom, n, before[i]) {
        assert ListedBefore(m, vRandom, n - 1, before[i]);
        var k :| 0 <= k < n - 1 && vRandom[k] in m && m[vRandom[k]].service == before[i];
        assert m[vRandom[k]].nRandomPos == k && m[vRandom[n - 1]].nRandomPos == n - 1;
        AddrDistinct(m, mapAddr, vRandom[k], vRandom[n - 1]);
      }
    }
  }

  lemma AddrDistinct(m: InfoMap, mapAddr: AddrMap, a: int, b: int)
    requires AddrOk(m, mapAddr) && a in m && b in m && a != b
    ensures m[a].service.addr != m[b].service.addr
  {
    var sa, sb := m[a].service, m[b].service;
    assert mapAddr[sa.addr] == a;
    assert mapAddr[sb.addr] == b;
  }

  function Probe(n: nat, nRnd: nat): NewBucket { (n + nRnd) % NEW_BUCKET_COUNT }

  lemma ProbeHits(b: NewBucket, nRnd: nat)
    ensures exists k: nat :: k < NEW_BUCKET_COUNT && Probe(k, nRnd) == b
  {
    var k: nat := (b + NEW_BUCKET_COUNT - nRnd % NEW_BUCKET_COUNT) % NEW_BUCKET_COUNT;
    assert Probe(k, nRnd) == b;
  }

  lemma ClearNewReady(h: Hasher, s: State, cell: nat, zero: set<int>, uncounted: int)
    requires InvExcept(h, s, zero, uncounted) && cell < |s.vvNew|
    ensures Tables.ClearNew.requires(s, cell)
    ensures s.vvNew[cell] != EMPTY ==>
      s.vvNew[cell] in s.mapInfo && s.mapInfo[s.vvNew[cell]].nRefCount > 0 && !s.mapInfo[s.vvNew[cell]].fInTried
  {
    ClearNewInv(h, s, cell, zero, uncounted);
    assert NewCellOk(h, s.mapInfo, s.vvNew, cell);
    if s.vvNew[cell] != EMPTY {
      UnrefInv(h, s, cell, zero, uncounted);
    }
  }
}
