/**
  Which transactions fill the slots of a compact block (src/blockencodings.cpp):
  what is taken from the mempool and from the extra transactions, what is left
  to request, and when a message is accepted.
*/
module CompactMatch {
  import opened CompactBlock

  // ----- What a slot should hold -----

  /** The candidates with a short ID, in order. */
  function Hits(pool: seq<Candidate>, id: ShortId): seq<Tx> {
    if pool == [] then []
    else
      var last := pool[|pool| - 1];
      Hits(pool[..|pool| - 1], id) + if last.id == id then [last.tx] else []
  }

  ghost predicate Alike(all: seq<Tx>, wtxid: Tx -> TxHash) {
    forall k :: 0 <= k < |all| ==> wtxid(all[k]) == wtxid(all[0])
  }

  /** The only one of the mempool or else the first extra one, unless a second one
      of the mempool or a different extra one has the same short ID. */
  ghost function Chosen(mine: seq<Tx>, others: seq<Tx>, wtxid: Tx -> TxHash): Option<Tx> {
    var all := mine + others;
    if all == [] || |mine| > 1 || !Alike(all, wtxid) then None else Some(all[0])
  }

  ghost function Held(pool: seq<Candidate>, extra: seq<Candidate>, id: ShortId, wtxid: Tx -> TxHash): Option<Tx> {
    Chosen(Hits(pool, id), Hits(extra, id), wtxid)
  }

  /** The short IDs stand for the slots that were free, one to one. */
  ghost predicate Mapped(ids: map<ShortId, nat>, base: Slots) {
    && (forall id :: id in ids ==> ids[id] < |base| && base[ids[id]].None?)
    && (forall id, id' :: id in ids && id' in ids && ids[id] == ids[id'] ==> id == id')
    && (forall j :: 0 <= j < |base| && base[j].None? ==> exists id :: id in ids && ids[id] == j)
  }

  /** The slots are those that the candidates scanned so far should give. */
  ghost predicate Tracks(ids: map<ShortId, nat>, base: Slots, m: Match, pool: seq<Candidate>, extra: seq<Candidate>,
        wtxid: Tx -> TxHash)
  {
    && InRange(ids, m) && |m.slots| == |base|
    && (forall j :: 0 <= j < |base| && base[j].Some? ==> m.slots[j] == base[j])
    && (forall id :: id in ids ==> m.have[ids[id]] == (Hits(pool, id) + Hits(extra, id) != []))
    && (forall id :: id in ids ==> m.slots[ids[id]] == Held(pool, extra, id, wtxid))
  }

  lemma HitsMore(pool: seq<Candidate>, c: Candidate, id: ShortId)
    ensures Hits(pool + [c], id) == if c.id == id then Hits(pool, id) + [c.tx] else Hits(pool, id)
  {
    assert (pool + [c])[..|pool|] == pool;
  }

  lemma ChosenMine(mine: seq<Tx>, tx: Tx, wtxid: Tx -> TxHash)
    ensures Chosen(mine + [tx], [], wtxid) == if mine == [] then Some(tx) else None
  {
    var all := mine + [tx] + [];
    if mine == [] { assert all == [tx] && Alike(all, wtxid); } else { assert |mine + [tx]| > 1; }
  }

  lemma ChosenOther(mine: seq<Tx>, others: seq<Tx>, tx: Tx, wtxid: Tx -> TxHash)
    ensures var was := Chosen(mine, others, wtxid);
      Chosen(mine, others + [tx], wtxid) ==
        if mine + others == [] then Some(tx)
        else if was.Some? && wtxid(was.value) == wtxid(tx) then was else None
  {
    var all := mine + others;
    assert mine + (others + [tx]) == all + [tx];
    AlikeMore(all, tx, wtxid);
  }

  lemma HeldPool(pool: seq<Candidate>, c: Candidate, id: ShortId, wtxid: Tx -> TxHash)
    ensures Held(pool + [c], [], id, wtxid) ==
      if c.id != id then Held(pool, [], id, wtxid) else if Hits(pool, id) == [] then Some(c.tx) else None
  {
    HitsMore(pool, c, id);
    ChosenMine(Hits(pool, id), c.tx, wtxid);
  }

  lemma HeldExtra(pool: seq<Candidate>, extra: seq<Candidate>, c: Candidate, id: ShortId, wtxid: Tx -> TxHash)
    ensures var was := Held(pool, extra, id, wtxid);
      Held(pool, extra + [c], id, wtxid) ==
        if c.id != id then was
        else if Hits(pool, id) + Hits(extra, id) == [] then Some(c.tx)
        else if was.Some? && wtxid(was.value) == wtxid(c.tx) then was else None
  {
    HitsMore(extra, c, id);
    ChosenOther(Hits(pool, id), Hits(extra, id), c.tx, wtxid);
  }

  lemma AlikeMore(all: seq<Tx>, tx: Tx, wtxid: Tx -> TxHash)
    ensures Alike(all + [tx], wtxid) <==> all == [] || (Alike(all, wtxid) && wtxid(all[0]) == wtxid(tx))
  {
    var more := all + [tx];
    if Alike(more, wtxid) && all != [] {
      assert more[|all|] == tx && more[0] == all[0];
      forall k | 0 <= k < |all| ensures wtxid(all[k]) == wtxid(all[0]) { assert more[k] == all[k]; }
    }
  }

  lemma PoolStepTracks(ids: map<ShortId, nat>, base: Slots, m: Match, pool: seq<Candidate>, c: Candidate,
        wtxid: Tx -> TxHash)
    requires Mapped(ids, base) && Tracks(ids, base, m, pool, [], wtxid)
    ensures Tracks(ids, base, PoolStep(ids, c.id, c.tx, m), pool + [c], [], wtxid)
  {
    var r := PoolStep(ids, c.id, c.tx, m);
    forall id | id in ids
      ensures r.have[ids[id]] == (Hits(pool + [c], id) + Hits([], id) != [])
      ensures r.slots[ids[id]] == Held(pool + [c], [], id, wtxid)
    {
      HitsMore(pool, c, id);
      HeldPool(pool, c, id, wtxid);
    }
  }

  lemma ExtraStepTracks(ids: map<ShortId, nat>, base: Slots, m: Match, pool: seq<Candidate>, extra: seq<Candidate>,
        c: Candidate, wtxid: Tx -> TxHash)
    requires Mapped(ids, base) && Tracks(ids, base, m, pool, extra, wtxid)
    ensures Tracks(ids, base, ExtraStep(ids, c.id, c.tx, wtxid, m), pool, extra + [c], wtxid)
  {
    var r := ExtraStep(ids, c.id, c.tx, wtxid, m);
    forall id | id in ids
      ensures r.have[ids[id]] == (Hits(pool, id) + Hits(extra + [c], id) != [])
      ensures r.slots[ids[id]] == Held(pool, extra + [c], id, wtxid)
    {
      HitsMore(extra, c, id);
      HeldExtra(pool, extra, c, id, wtxid);
    }
  }

  // ----- The scans -----

  ghost predicate AllHeld(want: seq<ShortId>, pool: seq<Candidate>, extra: seq<Candidate>, wtxid: Tx -> TxHash) {
    forall i :: 0 <= i < |want| ==> Held(pool, extra, want[i], wtxid).Some?
  }

  /** The mempool is scanned up to the first position at which every slot is full. */
  ghost predicate PoolScanned(want: seq<ShortId>, pool: seq<Candidate>, from: nat, n: nat, wtxid: Tx -> TxHash) {
    && from <= n <= |pool| && (n < |pool| ==> from < n && AllHeld(want, pool[..n], [], wtxid))
    && forall x :: from < x < n ==> !AllHeld(want, pool[..x], [], wtxid)
  }

  /** Then the extra ones, likewise. */
  ghost predicate ExtraScanned(want: seq<ShortId>, pool: seq<Candidate>, extra: seq<Candidate>, from: nat, n: nat,
        wtxid: Tx -> TxHash)
  {
    && from <= n <= |extra| && (n < |extra| ==> from < n && AllHeld(want, pool, extra[..n], wtxid))
    && forall x :: from < x < n ==> !AllHeld(want, pool, extra[..x], wtxid)
  }

  /** The scanned candidates give the slots and the count. */
  ghost predicate Scanning(ids: map<ShortId, nat>, want: seq<ShortId>, base: Slots, p: nat, m: Match,
        pool: seq<Candidate>, extra: seq<Candidate>, wtxid: Tx -> TxHash)
  {
    && Mapped(ids, base) && (forall id :: id in ids <==> id in want) && |ids| + p == |base|
    && Tracks(ids, base, m, pool, extra, wtxid) && Matched(ids, p, m)
  }

  lemma CountFull(ids: map<ShortId, nat>, want: seq<ShortId>, base: Slots, p: nat, m: Match, pool: seq<Candidate>,
        extra: seq<Candidate>, wtxid: Tx -> TxHash)
    requires Scanning(ids, want, base, p, m, pool, extra, wtxid)
    ensures m.mempool == |ids| <==> AllHeld(want, pool, extra, wtxid)
  {
    var n := |m.slots|;
    if m.mempool == |ids| {
      forall i | 0 <= i < |want| ensures Held(pool, extra, want[i], wtxid).Some? {
        assert want[i] in ids;
        AllFilled(m.slots, n, ids[want[i]]);
      }
    }
    if AllHeld(want, pool, extra, wtxid) {
      forall j | 0 <= j < n ensures m.slots[j].Some? {
        if base[j].None? {
          var id :| id in ids && ids[id] == j;
          assert id in want;
        }
      }
      FilledSpan(m.slots, 0, n);
    }
  }

  lemma PoolRound(ids: map<ShortId, nat>, want: seq<ShortId>, base: Slots, p: nat, m: Match, pool: seq<Candidate>,
        c: Candidate, wtxid: Tx -> TxHash)
    requires Scanning(ids, want, base, p, m, pool, [], wtxid)
    ensures var r := PoolStep(ids, c.id, c.tx, m);
      Scanning(ids, want, base, p, r, pool + [c], [], wtxid) &&
        (r.mempool == |ids| <==> AllHeld(want, pool + [c], [], wtxid))
  {
    PoolStepTracks(ids, base, m, pool, c, wtxid);
    PoolStepMatched(ids, p, c.id, c.tx, m);
    CountFull(ids, want, base, p, PoolStep(ids, c.id, c.tx, m), pool + [c], [], wtxid);
  }

  lemma ExtraRound(ids: map<ShortId, nat>, want: seq<ShortId>, base: Slots, p: nat, m: Match, pool: seq<Candidate>,
        extra: seq<Candidate>, c: Candidate, wtxid: Tx -> TxHash)
    requires Scanning(ids, want, base, p, m, pool, extra, wtxid)
    ensures var r := ExtraStep(ids, c.id, c.tx, wtxid, m);
      Scanning(ids, want, base, p, r, pool, extra + [c], wtxid) &&
        (r.mempool == |ids| <==> AllHeld(want, pool, extra + [c], wtxid))
  {
    ExtraStepTracks(ids, base, m, pool, extra, c, wtxid);
    ExtraStepMatched(ids, p, c.id, c.tx, wtxid, m);
    CountFull(ids, want, base, p, ExtraStep(ids, c.id, c.tx, wtxid, m), pool, extra + [c], wtxid);
  }

  lemma {:induction false} ScanPoolTracks(ids: map<ShortId, nat>, want: seq<ShortId>, base: Slots, p: nat, m: Match,
        pool: seq<Candidate>, k: nat, wtxid: Tx -> TxHash)
    returns (n: nat)
    requires k <= |pool| && Scanning(ids, want, base, p, m, pool[..k], [], wtxid)
    ensures PoolScanned(want, pool, k, n, wtxid)
    ensures Scanning(ids, want, base, p, ScanPool(ids, pool[k..], m), pool[..n], [], wtxid)
    decreases |pool| - k
  {
    n := k;
    if k < |pool| {
      var c := pool[k];
      assert pool[k..][0] == c && pool[k..][1..] == pool[k + 1..] && pool[..k + 1] == pool[..k] + [c];
      PoolRound(ids, want, base, p, m, pool[..k], c, wtxid);
      var next := PoolStep(ids, c.id, c.tx, m);
      n := k + 1;
      if next.mempool != |ids| { n := ScanPoolTracks(ids, want, base, p, next, pool, k + 1, wtxid); }
      PoolScannedOn(want, pool, k, n, wtxid);
    }
  }

  lemma PoolScannedOn(want: seq<ShortId>, pool: seq<Candidate>, k: nat, n: nat, wtxid: Tx -> TxHash)
    requires k < |pool|
    requires if AllHeld(want, pool[..k + 1], [], wtxid) then n == k + 1 else PoolScanned(want, pool, k + 1, n, wtxid)
    ensures PoolScanned(want, pool, k, n, wtxid)
  {
  }

  lemma {:induction false} ScanExtraTracks(ids: map<ShortId, nat>, want: seq<ShortId>, base: Slots, p: nat, m: Match,
        pool: seq<Candidate>, extra: seq<Candidate>, k: nat, wtxid: Tx -> TxHash)
    returns (n: nat)
    requires k <= |extra| && Scanning(ids, want, base, p, m, pool, extra[..k], wtxid)
    ensures ExtraScanned(want, pool, extra, k, n, wtxid)
    ensures Scanning(ids, want, base, p, ScanExtra(ids, extra[k..], wtxid, m), pool, extra[..n], wtxid)
    decreases |extra| - k
  {
    n := k;
    if k < |extra| {
      var c := extra[k];
      assert extra[k..][0] == c && extra[k..][1..] == extra[k + 1..] && extra[..k + 1] == extra[..k] + [c];
      ExtraRound(ids, want, base, p, m, pool, extra[..k], c, wtxid);
      var next := ExtraStep(ids, c.id, c.tx, wtxid, m);
      n := k + 1;
      if next.mempool != |ids| { n := ScanExtraTracks(ids, want, base, p, next, pool, extra, k + 1, wtxid); }
      ExtraScannedOn(want, pool, extra, k, n, wtxid);
    }
  }

  lemma ExtraScannedOn(want: seq<ShortId>, pool: seq<Candidate>, extra: seq<Candidate>, k: nat, n: nat,
        wtxid: Tx -> TxHash)
    requires k < |extra|
    requires if AllHeld(want, pool, extra[..k + 1], wtxid) then n == k + 1
             else ExtraScanned(want, pool, extra, k + 1, n, wtxid)
    ensures ExtraScanned(want, pool, extra, k, n, wtxid)
  {
  }

  // ----- The map of an accepted message -----

  /** A free slot is the one after as many free slots as come before it. */
  lemma FreeSlotAt(slots: Slots, j: nat)
    requires j < |slots| && slots[j].None?
    ensures j - Filled(slots, j) < |slots| - FilledCount(slots) && FreeSlot(slots, j - Filled(slots, j)) == j
  {
    FreeBetween(slots, j, |slots|);
    var i := j - Filled(slots, j);
    FreeSlotExists(slots, i);
    var k := FreeSlot(slots, i);
    if j < k { FreeBetween(slots, j, k); }
    if k < j { FreeBetween(slots, k, j); }
  }

  /** The i-th short ID has the i-th free slot. */
  ghost predicate OwnFree(want: seq<ShortId>, base: Slots, ids: map<ShortId, nat>) {
    forall i :: 0 <= i < |want| ==>
      FreeSlot(base, i) < |base| && want[i] in ids && ids[want[i]] == FreeSlot(base, i)
  }

  lemma MessageOwnFree(c: Compact, base: Slots, n: nat, ids: map<ShortId, nat>)
    requires |base| == n + |c.prefilled| <= UINT16 && FilledCount(base) == |c.prefilled|
    requires n == |c.shortIds| && Distinct(c.shortIds, n) && ids == Ids(c, base, n)
    ensures OwnFree(c.shortIds, base, ids)
  {
    forall i | 0 <= i < n
      ensures FreeSlot(base, i) < |base| && c.shortIds[i] in ids && ids[c.shortIds[i]] == FreeSlot(base, i)
    {
      IdsExact(c, base, n, i);
    }
  }

  lemma MessageKeys(c: Compact, base: Slots, n: nat, ids: map<ShortId, nat>)
    requires n == |c.shortIds| && Distinct(c.shortIds, n) && ids == Ids(c, base, n)
    ensures (forall id :: id in ids <==> id in c.shortIds) && |ids| == n
  {
    IdsCount(c, base, n);
    forall id ensures id in ids <==> id in c.shortIds { IdsKeys(c, base, n, id); }
  }

  lemma MessageMapped(c: Compact, base: Slots, n: nat, ids: map<ShortId, nat>)
    requires |base| == n + |c.prefilled| <= UINT16 && FilledCount(base) == |c.prefilled|
    requires n == |c.shortIds| && Distinct(c.shortIds, n) && ids == Ids(c, base, n)
    ensures Mapped(ids, base) && (forall id :: id in ids <==> id in c.shortIds) && |ids| == n
    ensures OwnFree(c.shortIds, base, ids)
  {
    MessageKeys(c, base, n, ids);
    MessageOwnFree(c, base, n, ids);
    var free := FreeSlots(base, n);
    OwnMapped(c.shortIds, free, base, ids);
  }

  lemma OwnMapped(want: seq<ShortId>, free: seq<nat>, base: Slots, ids: map<ShortId, nat>)
    requires |want| == |free| && (forall id :: id in ids <==> id in want)
    requires forall i :: 0 <= i < |want| ==> want[i] in ids && ids[want[i]] == free[i]
    requires forall i, j :: 0 <= i < j < |free| ==> free[i] < free[j]
    requires forall j :: 0 <= j < |base| ==> (base[j].None? <==> j in free)
    requires forall i :: 0 <= i < |free| ==> free[i] < |base|
    ensures Mapped(ids, base)
  {
    forall id | id in ids ensures ids[id] < |base| && base[ids[id]].None? {
      var i :| 0 <= i < |want| && want[i] == id;
      assert free[i] in free;
    }
    forall id, id' | id in ids && id' in ids && ids[id] == ids[id'] ensures id == id' {
      var i :| 0 <= i < |want| && want[i] == id;
      var i' :| 0 <= i' < |want| && want[i'] == id';
    }
    forall j | 0 <= j < |base| && base[j].None? ensures exists id :: id in ids && ids[id] == j {
      var i :| 0 <= i < |free| && free[i] == j;
      assert want[i] in ids;
    }
  }

  /** The positions of the free slots. */
  lemma FreeSlots(base: Slots, n: nat) returns (free: seq<nat>)
    requires n == |base| - FilledCount(base)
    ensures |free| == n && (forall i :: 0 <= i < n ==> free[i] == FreeSlot(base, i) < |base|)
    ensures forall i, j :: 0 <= i < j < |free| ==> free[i] < free[j]
    ensures forall j :: 0 <= j < |base| ==> (base[j].None? <==> j in free)
  {
    free := seq(n, i requires 0 <= i < n => FreeSlot(base, i));
    FreeSlotsDiffer(base, n);
    forall i | 0 <= i < n ensures free[i] < |base| { FreeSlotExists(base, i); }
    forall j | 0 <= j < |base| ensures base[j].None? <==> j in free { FreeCovered(base, n, free, j); }
  }

  lemma FreeCovered(base: Slots, n: nat, free: seq<nat>, j: nat)
    requires n == |base| - FilledCount(base) && |free| == n && j < |base|
    requires forall i :: 0 <= i < n ==> free[i] == FreeSlot(base, i)
    ensures base[j].None? <==> j in free
  {
    if base[j].None? {
      FreeSlotAt(base, j);
      assert free[j - Filled(base, j)] == j;
    }
  }

  lemma TracksNothing(ids: map<ShortId, nat>, base: Slots, wtxid: Tx -> TxHash)
    requires Mapped(ids, base)
    ensures Tracks(ids, base, StartMatch(base), [], [], wtxid)
  {
  }

  lemma StartTracks(c: Compact, base: Slots, n: nat, ids: map<ShortId, nat>, wtxid: Tx -> TxHash)
    requires |base| == n + |c.prefilled| <= UINT16 && FilledCount(base) == |c.prefilled|
    requires n == |c.shortIds| && ids == Ids(c, base, n)
    requires Mapped(ids, base) && (forall id :: id in ids <==> id in c.shortIds) && |ids| == n
    ensures Scanning(ids, c.shortIds, base, |c.prefilled|, StartMatch(base), [], [], wtxid)
  {
    OwnIsFree(c, base);
    StartMatched(c, base);
    TracksNothing(ids, base, wtxid);
  }

  /** Every slot of an accepted message: the scans go on until all slots are full,
      and each slot holds what the scanned candidates decide. The prefilled
      transactions stay. */
  lemma SlotsDecided(c: Compact, base: Slots, maxCount: nat, crowded: bool, pool: seq<Candidate>,
        extra: seq<Candidate>, wtxid: Tx -> TxHash)
    returns (n: nat, e: nat)
    requires InitData(c, maxCount, crowded, pool, extra, wtxid).status.Ready? && PlaceAll(c) == Some(base)
    requires |c.shortIds| + |c.prefilled| <= UINT16
    ensures PoolScanned(c.shortIds, pool, 0, n, wtxid) && ExtraScanned(c.shortIds, pool[..n], extra, 0, e, wtxid)
    ensures var r := InitData(c, maxCount, crowded, pool, extra, wtxid).slots;
      && |r| == |base| == |c.shortIds| + |c.prefilled|
      && (forall j :: 0 <= j < |base| && base[j].Some? ==> r[j] == base[j])
      && forall i :: 0 <= i < |c.shortIds| ==>
           FreeSlot(base, i) < |r| && r[FreeSlot(base, i)] == Held(pool[..n], extra[..e], c.shortIds[i], wtxid)
  {
    PlaceAllCounts(c);
    IdsCount(c, base, |c.shortIds|);
    var ids, p, start := Ids(c, base, |c.shortIds|), |c.prefilled|, StartMatch(base);
    MessageMapped(c, base, |c.shortIds|, ids);
    StartTracks(c, base, |c.shortIds|, ids, wtxid);
    assert pool[..0] == [] && pool[0..] == pool && extra[..0] == [] && extra[0..] == extra;
    n := ScanPoolTracks(ids, c.shortIds, base, p, start, pool, 0, wtxid);
    e := ScanExtraTracks(ids, c.shortIds, base, p, ScanPool(ids, pool, start), pool[..n], extra, 0, wtxid);
  }

  // ----- What a candidate does -----

  lemma {:induction false} HitsPrefix(pool: seq<Candidate>, n: nat, id: ShortId)
    requires n <= |pool|
    ensures Hits(pool[..n], id) <= Hits(pool, id)
    decreases |pool|
  {
    if n == |pool| {
      assert pool[..n] == pool;
    } else {
      assert pool[..|pool| - 1][..n] == pool[..n];
      HitsPrefix(pool[..|pool| - 1], n, id);
    }
  }

  /** If one candidate of the mempool and the extra transactions has the short ID
      of a slot, the slot holds it; if none has, the slot is empty. */
  lemma OneCandidate(c: Compact, base: Slots, maxCount: nat, crowded: bool, pool: seq<Candidate>,
        extra: seq<Candidate>, wtxid: Tx -> TxHash, i: nat)
    requires InitData(c, maxCount, crowded, pool, extra, wtxid).status.Ready? && PlaceAll(c) == Some(base)
    requires |c.shortIds| + |c.prefilled| <= UINT16 && i < |c.shortIds|
    ensures var r, all := InitData(c, maxCount, crowded, pool, extra, wtxid).slots,
                          Hits(pool, c.shortIds[i]) + Hits(extra, c.shortIds[i]);
      && FreeSlot(base, i) < |r|
      && (all == [] ==> r[FreeSlot(base, i)] == None)
      && (|all| == 1 ==> r[FreeSlot(base, i)] == Some(all[0]))
  {
    var id := c.shortIds[i];
    var n, e := SlotsDecided(c, base, maxCount, crowded, pool, extra, wtxid);
    HitsPrefix(pool, n, id);
    HitsPrefix(extra, e, id);
    if |Hits(pool, id) + Hits(extra, id)| == 1 { OneHeld(c.shortIds, pool, extra, n, e, wtxid, i); }
  }

  lemma OneHeld(want: seq<ShortId>, pool: seq<Candidate>, extra: seq<Candidate>, n: nat, e: nat, wtxid: Tx -> TxHash,
        i: nat)
    requires PoolScanned(want, pool, 0, n, wtxid) && ExtraScanned(want, pool[..n], extra, 0, e, wtxid) && i < |want|
    requires |Hits(pool, want[i]) + Hits(extra, want[i])| == 1
    ensures Held(pool[..n], extra[..e], want[i], wtxid) == Some((Hits(pool, want[i]) + Hits(extra, want[i]))[0])
  {
    var id := want[i];
    HitsPrefix(pool, n, id);
    HitsPrefix(extra, e, id);
    if n < |pool| { assert Held(pool[..n], [], id, wtxid).Some?; } else { assert pool[..n] == pool; }
    if e < |extra| { assert Held(pool[..n], extra[..e], id, wtxid).Some?; } else { assert extra[..e] == extra; }
    ChosenOne(Hits(pool[..n], id), Hits(extra[..e], id), Hits(pool, id), Hits(extra, id), wtxid);
  }

  lemma ChosenOne(mine: seq<Tx>, others: seq<Tx>, mine': seq<Tx>, others': seq<Tx>, wtxid: Tx -> TxHash)
    requires mine <= mine' && others <= others' && |mine' + others'| == 1 && mine + others != []
    ensures Chosen(mine, others, wtxid) == Some((mine' + others')[0])
  {
    assert mine + others == mine' + others';
  }

  /** If two of the mempool have it, and not all slots were full before its end,
      the slot is empty and its transaction will be requested. */
  lemma TwoCandidates(c: Compact, base: Slots, maxCount: nat, crowded: bool, pool: seq<Candidate>,
        extra: seq<Candidate>, wtxid: Tx -> TxHash, i: nat)
    requires InitData(c, maxCount, crowded, pool, extra, wtxid).status.Ready? && PlaceAll(c) == Some(base)
    requires |c.shortIds| + |c.prefilled| <= UINT16 && i < |c.shortIds| && |Hits(pool, c.shortIds[i])| > 1
    requires forall x :: 0 < x < |pool| ==> !AllHeld(c.shortIds, pool[..x], [], wtxid)
    ensures var r := InitData(c, maxCount, crowded, pool, extra, wtxid).slots;
      FreeSlot(base, i) < |r| && r[FreeSlot(base, i)] == None
  {
    var n, e := SlotsDecided(c, base, maxCount, crowded, pool, extra, wtxid);
    assert pool[..n] == pool;
  }

  // ----- Which messages are accepted -----

  /** The position of the i-th prefilled transaction. */
  function PrefilledAt(c: Compact, i: int): int
    requires -1 <= i < |c.prefilled|
    decreases i + 1
  {
    if i == -1 then -1 else PrefilledAt(c, i - 1) + c.prefilled[i].index + 1
  }

  ghost predicate GoodPrefilled(c: Compact, i: nat)
    requires i < |c.prefilled|
  {
    c.prefilled[i].tx.Some? && PrefilledAt(c, i) < UINT16 && PrefilledAt(c, i) <= |c.shortIds| + i
  }

  lemma {:induction false} PlacedFrom(c: Compact, i: nat, last: int, slots: Slots)
    requires i <= |c.prefilled| && -1 <= last == PrefilledAt(c, i - 1) && |slots| == |c.shortIds| + |c.prefilled|
    ensures Place(c, i, last, slots).Some? <==> forall k :: i <= k < |c.prefilled| ==> GoodPrefilled(c, k)
    ensures Place(c, i, last, slots).Some? ==>
      var r := Place(c, i, last, slots).value;
      && |r| == |slots| && (forall j :: 0 <= j <= last && j < |r| ==> r[j] == slots[j])
      && (forall k :: i <= k < |c.prefilled| ==>
            last < PrefilledAt(c, k) < |r| && r[PrefilledAt(c, k)] == c.prefilled[k].tx)
      && (forall j :: last < j < |r| && r[j] != slots[j] ==>
            exists k :: i <= k < |c.prefilled| && PrefilledAt(c, k) == j)
    decreases |c.prefilled| - i
  {
    if i < |c.prefilled| {
      assert PrefilledAt(c, i) == last + c.prefilled[i].index + 1;
      if GoodPrefilled(c, i) {
        PlacedFrom(c, i + 1, PrefilledAt(c, i), slots[PrefilledAt(c, i) := c.prefilled[i].tx]);
      }
    }
  }

  /** The prefilled transactions are accepted if and only if each exists and its
      position is a 16-bit number and not beyond the short IDs and the prefilled
      ones before it; then each is at its position, and the other slots are free. */
  lemma PlacedExactly(c: Compact)
    ensures PlaceAll(c).Some? <==> forall k :: 0 <= k < |c.prefilled| ==> GoodPrefilled(c, k)
    ensures PlaceAll(c).Some? ==>
      var r := PlaceAll(c).value;
      && |r| == |c.shortIds| + |c.prefilled|
      && (forall k :: 0 <= k < |c.prefilled| ==>
            0 <= PrefilledAt(c, k) < |r| && r[PrefilledAt(c, k)] == c.prefilled[k].tx)
      && (forall j :: 0 <= j < |r| && r[j].Some? ==> exists k :: 0 <= k < |c.prefilled| && PrefilledAt(c, k) == j)
  {
    PlacedFrom(c, 0, -1, NoSlots(|c.shortIds| + |c.prefilled|));
  }

  /** A message leads to a block to fill if and only if it has a header and a
      transaction, its size is within the limit, the prefilled transactions are
      accepted and fewer than 65536 if there are short IDs, no bucket is crowded,
      and the short IDs are distinct. */
  lemma ReadyExactly(c: Compact, maxCount: nat, crowded: bool, pool: seq<Candidate>, extra: seq<Candidate>,
        wtxid: Tx -> TxHash)
    ensures InitData(c, maxCount, crowded, pool, extra, wtxid).status.Ready? <==>
      && !c.headerNull && 0 < |c.shortIds| + |c.prefilled| <= maxCount
      && (forall k :: 0 <= k < |c.prefilled| ==> GoodPrefilled(c, k)) && (c.shortIds == [] || |c.prefilled| < UINT16)
      && !crowded && Distinct(c.shortIds, |c.shortIds|)
  {
    PlacedExactly(c);
    if PlaceAll(c).Some? {
      PlaceAllCounts(c);
      MessageOverflows(c);
      IdsCount(c, PlaceAll(c).value, |c.shortIds|);
    }
  }

  /** The message made from a block is accepted if and only if the block is within
      the limit, no bucket is crowded and the short IDs are distinct. */
  lemma MadeReady(vtx: seq<Tx>, shortId: Tx -> ShortId, maxCount: nat, crowded: bool, pool: seq<Candidate>,
        extra: seq<Candidate>, wtxid: Tx -> TxHash)
    requires vtx != []
    ensures var c := MakeCompact(vtx, shortId);
      InitData(c, maxCount, crowded, pool, extra, wtxid).status.Ready? <==>
        |vtx| <= maxCount && !crowded && Distinct(c.shortIds, |c.shortIds|)
  {
    var c := MakeCompact(vtx, shortId);
    ReadyExactly(c, maxCount, crowded, pool, extra, wtxid);
    assert PrefilledAt(c, -1) == -1 && PrefilledAt(c, 0) == 0 && GoodPrefilled(c, 0);
  }

  /** If the mempool holds every transaction of the block but the first, each once,
      and nothing else with their short IDs, the block is filled without asking
      for any. */
  lemma NothingMissing(vtx: seq<Tx>, shortId: Tx -> ShortId, maxCount: nat, crowded: bool, pool: seq<Candidate>,
        wtxid: Tx -> TxHash)
    requires 0 < |vtx| <= maxCount && |vtx| <= UINT16 && !crowded
    requires Distinct(MakeCompact(vtx, shortId).shortIds, |vtx| - 1)
    requires forall i :: 1 <= i < |vtx| ==> Hits(pool, shortId(vtx[i])) == [vtx[i]]
    ensures var r := InitData(MakeCompact(vtx, shortId), maxCount, crowded, pool, [], wtxid);
      r.status.Ready? && FillBlock(r.slots, []) == Some(vtx)
  {
    var c := MakeCompact(vtx, shortId);
    MadeReady(vtx, shortId, maxCount, crowded, pool, [], wtxid);
    MadeCompactDescribes(vtx, shortId);
    var base, r := PlaceAll(c).value, InitData(c, maxCount, crowded, pool, [], wtxid).slots;
    SlotsHold(c, base, maxCount, crowded, pool, wtxid);
    PrefilledStays(c, base, maxCount, crowded, pool, [], wtxid, 0);
    MadeFilled(vtx, shortId, c, base, pool, r);
    FilledWhole(r, vtx);
  }

  lemma SlotsHold(c: Compact, base: Slots, maxCount: nat, crowded: bool, pool: seq<Candidate>, wtxid: Tx -> TxHash)
    requires InitData(c, maxCount, crowded, pool, [], wtxid).status.Ready? && PlaceAll(c) == Some(base)
    requires |c.shortIds| + |c.prefilled| <= UINT16
    requires forall i :: 0 <= i < |c.shortIds| ==> |Hits(pool, c.shortIds[i])| == 1
    ensures var r := InitData(c, maxCount, crowded, pool, [], wtxid).slots;
      && |r| == |c.shortIds| + |c.prefilled|
      && forall i :: 0 <= i < |c.shortIds| ==>
           FreeSlot(base, i) < |r| && r[FreeSlot(base, i)] == Some(Hits(pool, c.shortIds[i])[0])
  {
    InitDataCounts(c, maxCount, crowded, pool, [], wtxid);
    var r := InitData(c, maxCount, crowded, pool, [], wtxid).slots;
    forall i | 0 <= i < |c.shortIds|
      ensures FreeSlot(base, i) < |r| && r[FreeSlot(base, i)] == Some(Hits(pool, c.shortIds[i])[0])
    {
      OneCandidate(c, base, maxCount, crowded, pool, [], wtxid, i);
    }
  }

  lemma MadeFilled(vtx: seq<Tx>, shortId: Tx -> ShortId, c: Compact, base: Slots, pool: seq<Candidate>, r: Slots)
    requires vtx != [] && c == MakeCompact(vtx, shortId) && |r| == |vtx| && 0 <= PrefilledAt(c, 0) < |r|
    requires forall i :: 0 <= i < |c.shortIds| ==> FreeSlot(base, i) == i + 1
    requires forall i :: 1 <= i < |vtx| ==> Hits(pool, shortId(vtx[i])) == [vtx[i]]
    requires forall i :: 0 <= i < |c.shortIds| ==>
      |Hits(pool, c.shortIds[i])| == 1 && r[FreeSlot(base, i)] == Some(Hits(pool, c.shortIds[i])[0])
    requires r[PrefilledAt(c, 0)] == c.prefilled[0].tx
    ensures forall i :: 0 <= i < |vtx| ==> r[i] == Some(vtx[i])
  {
    assert PrefilledAt(c, -1) == -1 && PrefilledAt(c, 0) == 0;
    forall i | 1 <= i < |vtx| ensures r[i] == Some(vtx[i]) {
      assert FreeSlot(base, i - 1) == i && c.shortIds[i - 1] == shortId(vtx[i]);
    }
  }

  /** A prefilled transaction stays where it was placed. */
  lemma PrefilledStays(c: Compact, base: Slots, maxCount: nat, crowded: bool, pool: seq<Candidate>,
        extra: seq<Candidate>, wtxid: Tx -> TxHash, k: nat)
    requires InitData(c, maxCount, crowded, pool, extra, wtxid).status.Ready? && PlaceAll(c) == Some(base)
    requires |c.shortIds| + |c.prefilled| <= UINT16 && k < |c.prefilled|
    ensures var r := InitData(c, maxCount, crowded, pool, extra, wtxid).slots;
      0 <= PrefilledAt(c, k) < |r| && r[PrefilledAt(c, k)] == c.prefilled[k].tx
  {
    PlacedExactly(c);
    assert GoodPrefilled(c, k);
    var n, e := SlotsDecided(c, base, maxCount, crowded, pool, extra, wtxid);
  }

  lemma FilledWhole(slots: Slots, vtx: seq<Tx>)
    requires |slots| == |vtx| && forall i :: 0 <= i < |vtx| ==> slots[i] == Some(vtx[i])
    ensures FillBlock(slots, []) == Some(vtx)
  {
    NothingToAsk(slots, vtx, |vtx|);
    FillGenuine(slots, vtx, [], |vtx|);
    assert vtx[..|vtx|] == vtx;
  }

  lemma {:induction false} NothingToAsk(slots: Slots, vtx: seq<Tx>, n: nat)
    requires n <= |slots| == |vtx| && forall i :: 0 <= i < n ==> slots[i].Some?
    ensures MissingOf(slots, vtx, n) == []
  {
    if n > 0 { NothingToAsk(slots, vtx, n - 1); }
  }
}
