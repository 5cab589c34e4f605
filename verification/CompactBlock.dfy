/**
  Compact block reconstruction (src/blockencodings.cpp, src/blockencodings.h;
  sections "HeaderAndShortIDs" and "Short transaction IDs" of BIP 152).

  Transactions are abstract; short IDs are an uninterpreted function of the
  transaction hash. How evenly the short IDs fall into hash buckets is a
  parameter.
*/
module CompactBlock {

  type Tx = nat
  type ShortId = nat
  type TxHash = nat

  const UINT16 := 0x1_0000
  const UINT64 := 0x1_0000_0000_0000_0000

  datatype Option<T> = None | Some(value: T)

  type Slots = seq<Option<Tx>>

  // ----- Free slots -----

  /** How many of the first n slots hold a transaction. */
  function Filled(slots: Slots, n: nat): (c: nat)
    requires n <= |slots|
    ensures c <= n
  {
    if n == 0 then 0 else Filled(slots, n - 1) + if slots[n - 1].Some? then 1 else 0
  }

  function FilledCount(slots: Slots): nat { Filled(slots, |slots|) }

  /** The first free slot from position i on; the number of slots if none. */
  function NextFree(slots: Slots, i: nat): (j: nat)
    requires i <= |slots|
    ensures i <= j <= |slots|
    ensures j < |slots| ==> slots[j].None?
    ensures forall k :: i <= k < j ==> slots[k].Some?
    decreases |slots| - i
  {
    if i == |slots| || slots[i].None? then i else NextFree(slots, i + 1)
  }

  /** The position of the i-th free slot. */
  function FreeSlot(slots: Slots, i: nat): (j: nat)
    ensures j <= |slots| && (j < |slots| ==> slots[j].None?)
  {
    if i == 0 then NextFree(slots, 0)
    else
      var before := FreeSlot(slots, i - 1);
      if before == |slots| then before else NextFree(slots, before + 1)
  }

  lemma {:induction false} FilledSpan(slots: Slots, i: nat, j: nat)
    requires i <= j <= |slots| && forall k :: i <= k < j ==> slots[k].Some?
    ensures Filled(slots, j) == Filled(slots, i) + (j - i)
    decreases j - i
  {
    if i < j { FilledSpan(slots, i, j - 1); }
  }

  /** Exactly i free slots come before the i-th one, so it exists as long as
      there are more than i. */
  lemma {:induction false} FreeSlotExists(slots: Slots, i: nat)
    requires i < |slots| - FilledCount(slots)
    ensures FreeSlot(slots, i) < |slots| && Filled(slots, FreeSlot(slots, i)) == FreeSlot(slots, i) - i
  {
    if i == 0 {
      FilledSpan(slots, 0, NextFree(slots, 0));
    } else {
      FreeSlotExists(slots, i - 1);
      var before := FreeSlot(slots, i - 1);
      FilledSpan(slots, before + 1, NextFree(slots, before + 1));
    }
  }

  lemma {:induction false} FreeSlotsIncrease(slots: Slots, i: nat, j: nat)
    requires i < j && FreeSlot(slots, j) < |slots|
    ensures FreeSlot(slots, i) < FreeSlot(slots, j)
    decreases j
  {
    if i < j - 1 { FreeSlotsIncrease(slots, i, j - 1); }
  }

  lemma {:induction false} FilledUpdate(slots: Slots, j: nat, t: Option<Tx>, n: nat)
    requires j < |slots| && n <= |slots|
    ensures Filled(slots[j := t], n) ==
      Filled(slots, n) + if j < n then (if t.Some? then 1 else 0) - (if slots[j].Some? then 1 else 0) else 0
  {
    if n > 0 { FilledUpdate(slots, j, t, n - 1); }
  }

  lemma {:induction false} FilledMono(slots: Slots, i: nat, j: nat)
    requires i <= j <= |slots|
    ensures Filled(slots, i) <= Filled(slots, j)
    decreases j
  {
    if i < j { FilledMono(slots, i, j - 1); }
  }

  lemma {:induction false} AllFilled(slots: Slots, n: nat, k: nat)
    requires k < n <= |slots| && Filled(slots, n) == n
    ensures slots[k].Some?
  {
    if k < n - 1 { AllFilled(slots, n - 1, k); }
  }

  lemma {:induction false} NoneBeyond(slots: Slots, i: nat, j: nat)
    requires i <= j <= |slots| && forall k :: i <= k < j ==> slots[k].None?
    ensures Filled(slots, j) == Filled(slots, i)
    decreases j
  {
    if i < j { NoneBeyond(slots, i, j - 1); }
  }

  // ----- Prefilled transactions -----

  /** `index` is the distance from the previous one, a 16-bit number. */
  datatype Prefilled = Prefilled(index: nat, tx: Option<Tx>)

  datatype Compact = Compact(headerNull: bool, shortIds: seq<ShortId>, prefilled: seq<Prefilled>)

  /** `Endless` stands for a call that does not return. */
  datatype Status = Ready | Invalid | Failed | Endless

  /** Places the prefilled transactions from the i-th on; None if the message is
      invalid. */
  function Place(c: Compact, i: nat, last: int, slots: Slots): Option<Slots>
    requires i <= |c.prefilled| && -1 <= last && |slots| == |c.shortIds| + |c.prefilled|
    decreases |c.prefilled| - i
  {
    if i == |c.prefilled| then Some(slots)
    else if c.prefilled[i].tx.None? then None
    else
      var next := last + c.prefilled[i].index + 1;
      if next >= UINT16 || next > |c.shortIds| + i then None
      else Place(c, i + 1, next, slots[next := c.prefilled[i].tx])
  }

  function NoSlots(n: nat): (s: Slots)
    ensures |s| == n && forall k :: 0 <= k < n ==> s[k].None?
  {
    seq(n, k => None)
  }

  /** Every prefilled transaction takes a slot of its own. */
  lemma {:induction false} PlaceCounts(c: Compact, i: nat, last: int, slots: Slots)
    requires i <= |c.prefilled| && -1 <= last && |slots| == |c.shortIds| + |c.prefilled|
    requires FilledCount(slots) == i && forall k :: last < k < |slots| ==> slots[k].None?
    ensures var r := Place(c, i, last, slots);
      r.Some? ==> |r.value| == |slots| && FilledCount(r.value) == |c.prefilled|
    decreases |c.prefilled| - i
  {
    if i < |c.prefilled| && c.prefilled[i].tx.Some? {
      var next := last + c.prefilled[i].index + 1;
      if next < UINT16 && next <= |c.shortIds| + i {
        FilledUpdate(slots, next, c.prefilled[i].tx, |slots|);
        PlaceCounts(c, i + 1, next, slots[next := c.prefilled[i].tx]);
      }
    }
  }

  lemma {:induction false} NoneFilled(slots: Slots, n: nat)
    requires n <= |slots| && forall k :: 0 <= k < n ==> slots[k].None?
    ensures Filled(slots, n) == 0
  {
    if n > 0 { NoneFilled(slots, n - 1); }
  }

  function PlaceAll(c: Compact): Option<Slots> {
    Place(c, 0, -1, NoSlots(|c.shortIds| + |c.prefilled|))
  }

  lemma PlaceAllCounts(c: Compact)
    ensures var r := PlaceAll(c);
      r.Some? ==> |r.value| == |c.shortIds| + |c.prefilled| && FilledCount(r.value) == |c.prefilled|
  {
    var slots := NoSlots(|c.shortIds| + |c.prefilled|);
    NoneFilled(slots, |slots|);
    PlaceCounts(c, 0, -1, slots);
  }

  /** Prefilled positions are 16-bit numbers. */
  ghost predicate Low(slots: Slots) {
    forall k :: UINT16 <= k < |slots| ==> slots[k].None?
  }

  lemma {:induction false} PlaceLow(c: Compact, i: nat, last: int, slots: Slots)
    requires i <= |c.prefilled| && -1 <= last && |slots| == |c.shortIds| + |c.prefilled| && Low(slots)
    ensures Place(c, i, last, slots).Some? ==> Low(Place(c, i, last, slots).value)
    decreases |c.prefilled| - i
  {
    if i < |c.prefilled| && c.prefilled[i].tx.Some? {
      var next := last + c.prefilled[i].index + 1;
      if next < UINT16 && next <= |c.shortIds| + i {
        PlaceLow(c, i + 1, next, slots[next := c.prefilled[i].tx]);
      }
    }
  }

  lemma PlaceAllLow(c: Compact)
    ensures PlaceAll(c).Some? ==> Low(PlaceAll(c).value)
  {
    PlaceLow(c, 0, -1, NoSlots(|c.shortIds| + |c.prefilled|));
  }

  // ----- The 16-bit offset -----

  /** For some of the first n short IDs the distance to its free slot does not
      fit the 16 bits of the offset. */
  predicate Overflows(slots: Slots, n: nat) {
    exists i :: 0 <= i < n && FreeSlot(slots, i) - i >= UINT16
  }

  lemma FirstFree(slots: Slots)
    requires Low(slots)
    ensures FilledCount(slots) >= UINT16 ==> FreeSlot(slots, 0) >= UINT16
    ensures FilledCount(slots) < |slots| && FreeSlot(slots, 0) >= UINT16 ==> FilledCount(slots) >= UINT16
  {
    if |slots| >= UINT16 { NoneBeyond(slots, UINT16, |slots|); }
    var j := NextFree(slots, 0);
    if FilledCount(slots) >= UINT16 && j < UINT16 { AllFilled(slots, UINT16, j); }
    FilledSpan(slots, 0, j);
    FilledMono(slots, j, |slots|);
  }

  /** The offset overflows if and only if there is a short ID and every position
      a prefilled transaction can have is taken. */
  lemma OverflowsExactly(slots: Slots, n: nat)
    requires Low(slots) && n <= |slots| - FilledCount(slots)
    ensures Overflows(slots, n) <==> n > 0 && FilledCount(slots) >= UINT16
  {
    FirstFree(slots);
    forall i | 0 <= i < n ensures FreeSlot(slots, i) - i <= FilledCount(slots) {
      FreeSlotExists(slots, i);
      FilledMono(slots, FreeSlot(slots, i), |slots|);
    }
  }

  lemma MessageOverflows(c: Compact)
    requires PlaceAll(c).Some?
    ensures Overflows(PlaceAll(c).value, |c.shortIds|) <==> c.shortIds != [] && |c.prefilled| >= UINT16
  {
    PlaceAllCounts(c);
    PlaceAllLow(c);
    OverflowsExactly(PlaceAll(c).value, |c.shortIds|);
  }

  /** 65536 prefilled transactions in a row. */
  function FullRow(m: nat, tx: Tx): seq<Prefilled> {
    seq(m, i => Prefilled(0, Some(tx)))
  }

  lemma {:induction false} RowPlaced(c: Compact, i: nat, slots: Slots, tx: Tx)
    requires |c.prefilled| <= UINT16 && c.prefilled == FullRow(|c.prefilled|, tx)
    requires i <= |c.prefilled| && |slots| == |c.shortIds| + |c.prefilled|
    ensures Place(c, i, i - 1, slots).Some?
    decreases |c.prefilled| - i
  {
    if i < |c.prefilled| { RowPlaced(c, i + 1, slots[i := c.prefilled[i].tx], tx); }
  }

  /** One short ID after a full row: the message is well formed and the search
      for a slot never ends. */
  lemma EndlessMessage(id: ShortId, tx: Tx, m: nat)
    requires m == UINT16
    ensures var c := Compact(false, [id], FullRow(m, tx));
      PlaceAll(c).Some? && Overflows(PlaceAll(c).value, 1) && NeverFree(PlaceAll(c).value, 0, 0)
  {
    var c := Compact(false, [id], FullRow(m, tx));
    RowPlaced(c, 0, NoSlots(m + 1), tx);
    MessageOverflows(c);
    PlaceAllCounts(c);
    PlaceAllLow(c);
    FirstFree(PlaceAll(c).value);
  }

  /** The slot looked at after n rounds of the search. */
  function Position(i: nat, offset: nat, n: nat): nat { i + (offset + n) % UINT16 }

  /** However often the offset is incremented, the slot is filled. */
  ghost predicate NeverFree(slots: Slots, i: nat, offset: nat) {
    forall n: nat :: Position(i, offset, n) < |slots| && slots[Position(i, offset, n)].Some?
  }

  /** One more round stays inside the array. */
  lemma SearchOn(slots: Slots, i: nat, offset: nat, rounds: nat)
    requires offset < UINT16 && rounds < UINT16 && i + offset < |slots| && NextFree(slots, i + offset) < |slots|
    requires Position(i, offset, rounds) < |slots| && slots[Position(i, offset, rounds)].Some?
    requires forall k :: i + offset <= k < i + offset + rounds && k < i + UINT16 ==> k < |slots| && slots[k].Some?
    ensures Position(i, offset, rounds + 1) == i + ((offset + rounds) % UINT16 + 1) % UINT16 < |slots|
    ensures forall k :: i + offset <= k < i + offset + rounds + 1 && k < i + UINT16 ==> k < |slots| && slots[k].Some?
  {
    var here := i + offset + rounds;
    if here < i + UINT16 {
      assert Position(i, offset, rounds) == here;
      assert NextFree(slots, i + offset) > here;
    }
  }

  lemma CameBack(slots: Slots, i: nat, offset: nat)
    requires forall n :: 0 <= n < UINT16 ==> Position(i, offset, n) < |slots| && slots[Position(i, offset, n)].Some?
    ensures NeverFree(slots, i, offset)
  {
    forall n: nat ensures Position(i, offset, n) < |slots| && slots[Position(i, offset, n)].Some? {
      assert Position(i, offset, n) == Position(i, offset, n % UINT16);
    }
  }

  lemma SearchStarts(slots: Slots, n: nat, i: nat, offset: nat)
    requires i < n <= |slots| - FilledCount(slots)
    requires i + offset == (if i == 0 then 0 else FreeSlot(slots, i - 1) + 1) <= |slots|
    ensures i + offset < |slots| && NextFree(slots, i + offset) < |slots|
  {
    FreeSlotExists(slots, i);
    assert NextFree(slots, i + offset) == FreeSlot(slots, i);
  }

  /** A full row traps the search for the very first short ID, and without one
      every search ends at the right slot. */
  lemma SearchEnds(slots: Slots, n: nat, i: nat, offset: nat, next: Option<nat>)
    requires Low(slots) && i < n <= |slots| - FilledCount(slots) && (i > 0 ==> !Overflows(slots, n))
    requires i + offset == (if i == 0 then 0 else FreeSlot(slots, i - 1) + 1) <= |slots|
    requires NextFree(slots, i + offset) - i < UINT16 ==> next == Some(NextFree(slots, i + offset) - i)
    requires next.None? <==> NeverFree(slots, i, offset)
    ensures next.None? <==> Overflows(slots, n)
    ensures next.Some? ==> next.value < UINT16 && i + next.value == FreeSlot(slots, i) < |slots|
  {
    FreeSlotExists(slots, i);
    assert NextFree(slots, i + offset) == FreeSlot(slots, i);
    OverflowsExactly(slots, n);
    FirstFree(slots);
    if FreeSlot(slots, i) - i >= UINT16 {
      assert i == 0 && NeverFree(slots, 0, 0);
    }
  }

  // ----- Short IDs and their slots -----

  /** The map after n short IDs; positions are 16-bit numbers. */
  function Ids(c: Compact, slots: Slots, n: nat): map<ShortId, nat>
    requires n <= |c.shortIds|
  {
    if n == 0 then map[] else Ids(c, slots, n - 1)[c.shortIds[n - 1] := FreeSlot(slots, n - 1) % UINT16]
  }

  ghost predicate Distinct(ids: seq<ShortId>, n: nat)
    requires n <= |ids|
  {
    forall i, j :: 0 <= i < j < n ==> ids[i] != ids[j]
  }

  lemma {:induction false} IdsKeys(c: Compact, slots: Slots, n: nat, id: ShortId)
    requires n <= |c.shortIds|
    ensures id in Ids(c, slots, n) <==> exists k :: 0 <= k < n && c.shortIds[k] == id
  {
    if n > 0 { IdsKeys(c, slots, n - 1, id); }
  }

  lemma MapUpdateSize(m: map<ShortId, nat>, k: ShortId, v: nat)
    ensures |m[k := v]| == |m| + if k in m then 0 else 1
  {
    assert m[k := v].Keys == m.Keys + {k};
    assert |m[k := v].Keys| == |m.Keys| + if k in m then 0 else 1;
  }

  /** A map as large as the list means that no short ID collided. */
  lemma {:induction false} IdsCount(c: Compact, slots: Slots, n: nat)
    requires n <= |c.shortIds|
    ensures |Ids(c, slots, n)| <= n
    ensures |Ids(c, slots, n)| == n <==> Distinct(c.shortIds, n)
  {
    if n > 0 {
      IdsCount(c, slots, n - 1);
      var id := c.shortIds[n - 1];
      DistinctStep(c.shortIds, n);
      IdsKeys(c, slots, n - 1, id);
      MapUpdateSize(Ids(c, slots, n - 1), id, FreeSlot(slots, n - 1) % UINT16);
    }
  }

  lemma DistinctStep(ids: seq<ShortId>, n: nat)
    requires 0 < n <= |ids|
    ensures Distinct(ids, n) <==> Distinct(ids, n - 1) && !exists k :: 0 <= k < n - 1 && ids[k] == ids[n - 1]
  {
  }

  /** Then the i-th short ID is mapped to the i-th free slot, modulo 2^16. */
  lemma {:induction false} IdsExact(c: Compact, slots: Slots, n: nat, i: nat)
    requires i < n <= |c.shortIds| && n <= |slots| - FilledCount(slots) && Distinct(c.shortIds, n)
    ensures c.shortIds[i] in Ids(c, slots, n) && FreeSlot(slots, i) < |slots|
    ensures Ids(c, slots, n)[c.shortIds[i]] == FreeSlot(slots, i) % UINT16
  {
    if i == n - 1 {
      FreeSlotExists(slots, i);
    } else {
      IdsExact(c, slots, n - 1, i);
    }
  }

  /** Every short ID is mapped to its own free slot. */
  ghost predicate OwnSlots(c: Compact, slots: Slots) {
    var ids := Ids(c, slots, |c.shortIds|);
    forall i :: 0 <= i < |c.shortIds| ==> c.shortIds[i] in ids && ids[c.shortIds[i]] == FreeSlot(slots, i)
  }

  lemma FreeSlotsDiffer(slots: Slots, n: nat)
    requires n <= |slots| - FilledCount(slots)
    ensures forall i, j :: 0 <= i < j < n ==> FreeSlot(slots, i) < FreeSlot(slots, j)
  {
    forall i, j | 0 <= i < j < n ensures FreeSlot(slots, i) < FreeSlot(slots, j) {
      FreeSlotExists(slots, j);
      FreeSlotsIncrease(slots, i, j);
    }
  }

  lemma {:induction false} LastFree(slots: Slots, n: nat)
    requires 0 < n == |slots| - FilledCount(slots) && slots[|slots| - 1].None?
    ensures FreeSlot(slots, n - 1) == |slots| - 1
  {
    FreeSlotExists(slots, n - 1);
    var j := FreeSlot(slots, n - 1);
    if j < |slots| - 1 {
      FreeBetween(slots, j, |slots|);
    }
  }

  lemma {:induction false} FreeBetween(slots: Slots, i: nat, j: nat)
    requires i <= j <= |slots|
    ensures Filled(slots, j) <= Filled(slots, i) + (j - i)
    ensures forall k :: i <= k < j && slots[k].None? ==> Filled(slots, j) < Filled(slots, i) + (j - i)
    ensures forall k, l :: i <= k < l < j && slots[k].None? && slots[l].None? ==>
      Filled(slots, j) + 1 < Filled(slots, i) + (j - i)
    decreases j
  {
    if i < j { FreeBetween(slots, i, j - 1); }
  }

  /** The free slots are different ones. Without collisions each short ID is
      mapped to its own if and only if the block has at most 65536 transactions. */
  lemma OwnSlotsExactly(c: Compact, slots: Slots)
    requires |slots| == |c.shortIds| + |c.prefilled| && FilledCount(slots) == |c.prefilled| && Low(slots)
    requires c.shortIds != [] && Distinct(c.shortIds, |c.shortIds|)
    ensures OwnSlots(c, slots) <==> |slots| <= UINT16
    ensures forall i, j :: 0 <= i < j < |c.shortIds| ==> FreeSlot(slots, i) < FreeSlot(slots, j)
  {
    var ids, n := Ids(c, slots, |c.shortIds|), |c.shortIds|;
    forall i | 0 <= i < n
      ensures c.shortIds[i] in ids && ids[c.shortIds[i]] == FreeSlot(slots, i) % UINT16 && FreeSlot(slots, i) < |slots|
    {
      IdsExact(c, slots, n, i);
    }
    FreeSlotsDiffer(slots, n);
    if |slots| > UINT16 {
      LastFree(slots, n);
      assert ids[c.shortIds[n - 1]] != FreeSlot(slots, n - 1);
    }
  }

  /** The position stored for the i-th short ID is that of a prefilled
      transaction. */
  ghost predicate Taken(slots: Slots, i: nat) {
    var j := FreeSlot(slots, i) % UINT16;
    j < |slots| && slots[j].Some?
  }

  ghost predicate NoneTaken(slots: Slots, n: nat) {
    forall i :: 0 <= i < n ==> !Taken(slots, i)
  }

  // ----- Matching the pools -----

  datatype Match = Match(slots: Slots, have: seq<bool>, mempool: int, extra: int)

  ghost predicate InRange(ids: map<ShortId, nat>, m: Match) {
    |m.have| == |m.slots| && forall k :: k in ids ==> ids[k] < |m.slots|
  }

  /** The first match fills the slot; a second one empties it for good. */
  function PoolStep(ids: map<ShortId, nat>, id: ShortId, tx: Tx, m: Match): (r: Match)
    requires InRange(ids, m)
    ensures InRange(ids, r) && |r.slots| == |m.slots|
  {
    if id !in ids then m
    else
      var j := ids[id];
      if !m.have[j] then m.(slots := m.slots[j := Some(tx)], have := m.have[j := true], mempool := m.mempool + 1)
      else if m.slots[j].Some? then m.(slots := m.slots[j := None], mempool := m.mempool - 1)
      else m
  }

  /** As PoolStep, but a copy of the same transaction does no harm. The counter
      of extra transactions is a 64-bit number. */
  function ExtraStep(ids: map<ShortId, nat>, id: ShortId, tx: Tx, wtxid: Tx -> TxHash, m: Match): (r: Match)
    requires InRange(ids, m)
    ensures InRange(ids, r) && |r.slots| == |m.slots|
  {
    if id !in ids then m
    else
      var j := ids[id];
      if !m.have[j] then
        m.(slots := m.slots[j := Some(tx)], have := m.have[j := true], mempool := m.mempool + 1,
          extra := (m.extra + 1) % UINT64)
      else if m.slots[j].Some? && wtxid(m.slots[j].value) != wtxid(tx) then
        m.(slots := m.slots[j := None], mempool := m.mempool - 1, extra := (m.extra - 1) % UINT64)
      else m
  }

  /** What every step keeps: `p` prefilled slots and the matched ones are filled,
      and only slots that had a match may be. */
  ghost predicate Matched(ids: map<ShortId, nat>, p: nat, m: Match) {
    && InRange(ids, m)
    && m.mempool + p == FilledCount(m.slots)
    && forall k :: k in ids && m.slots[ids[k]].Some? ==> m.have[ids[k]]
  }

  /** Every filled slot holds the transaction of the block. */
  ghost predicate Genuine(slots: Slots, vtx: seq<Tx>) {
    |slots| == |vtx| && forall j :: 0 <= j < |slots| && slots[j].Some? ==> slots[j].value == vtx[j]
  }

  lemma PoolStepMatched(ids: map<ShortId, nat>, p: nat, id: ShortId, tx: Tx, m: Match)
    requires Matched(ids, p, m)
    ensures Matched(ids, p, PoolStep(ids, id, tx, m))
  {
    if id in ids {
      FilledUpdate(m.slots, ids[id], Some(tx), |m.slots|);
      FilledUpdate(m.slots, ids[id], None, |m.slots|);
    }
  }

  lemma ExtraStepMatched(ids: map<ShortId, nat>, p: nat, id: ShortId, tx: Tx, wtxid: Tx -> TxHash, m: Match)
    requires Matched(ids, p, m)
    ensures Matched(ids, p, ExtraStep(ids, id, tx, wtxid, m))
  {
    if id in ids {
      FilledUpdate(m.slots, ids[id], Some(tx), |m.slots|);
      FilledUpdate(m.slots, ids[id], None, |m.slots|);
    }
  }

  datatype Candidate = Candidate(id: ShortId, tx: Tx)

  /** The mempool is scanned until every short ID has a match. */
  function ScanPool(ids: map<ShortId, nat>, pool: seq<Candidate>, m: Match): (r: Match)
    requires InRange(ids, m)
    ensures InRange(ids, r) && |r.slots| == |m.slots|
    decreases |pool|
  {
    if pool == [] then m
    else
      var next := PoolStep(ids, pool[0].id, pool[0].tx, m);
      if next.mempool == |ids| then next else ScanPool(ids, pool[1..], next)
  }

  function ScanExtra(ids: map<ShortId, nat>, extra: seq<Candidate>, wtxid: Tx -> TxHash, m: Match): (r: Match)
    requires InRange(ids, m)
    ensures InRange(ids, r) && |r.slots| == |m.slots|
    decreases |extra|
  {
    if extra == [] then m
    else
      var next := ExtraStep(ids, extra[0].id, extra[0].tx, wtxid, m);
      if next.mempool == |ids| then next else ScanExtra(ids, extra[1..], wtxid, next)
  }

  lemma {:induction false} ScanPoolMatched(ids: map<ShortId, nat>, p: nat, pool: seq<Candidate>, m: Match)
    requires Matched(ids, p, m)
    ensures Matched(ids, p, ScanPool(ids, pool, m))
    decreases |pool|
  {
    if pool != [] {
      PoolStepMatched(ids, p, pool[0].id, pool[0].tx, m);
      var next := PoolStep(ids, pool[0].id, pool[0].tx, m);
      if next.mempool != |ids| { ScanPoolMatched(ids, p, pool[1..], next); }
    }
  }

  lemma {:induction false} ScanExtraMatched(ids: map<ShortId, nat>, p: nat, extra: seq<Candidate>,
        wtxid: Tx -> TxHash, m: Match)
    requires Matched(ids, p, m)
    ensures Matched(ids, p, ScanExtra(ids, extra, wtxid, m))
    decreases |extra|
  {
    if extra != [] {
      ExtraStepMatched(ids, p, extra[0].id, extra[0].tx, wtxid, m);
      var next := ExtraStep(ids, extra[0].id, extra[0].tx, wtxid, m);
      if next.mempool != |ids| { ScanExtraMatched(ids, p, extra[1..], wtxid, next); }
    }
  }

  ghost predicate AllGenuine(ids: map<ShortId, nat>, pool: seq<Candidate>, vtx: seq<Tx>) {
    forall k :: 0 <= k < |pool| && pool[k].id in ids ==> ids[pool[k].id] < |vtx| && pool[k].tx == vtx[ids[pool[k].id]]
  }

  lemma {:induction false} ScanPoolGenuine(ids: map<ShortId, nat>, pool: seq<Candidate>, m: Match, vtx: seq<Tx>)
    requires InRange(ids, m) && Genuine(m.slots, vtx) && AllGenuine(ids, pool, vtx)
    ensures Genuine(ScanPool(ids, pool, m).slots, vtx)
    decreases |pool|
  {
    if pool != [] {
      var next := PoolStep(ids, pool[0].id, pool[0].tx, m);
      if next.mempool != |ids| { ScanPoolGenuine(ids, pool[1..], next, vtx); }
    }
  }

  lemma {:induction false} ScanExtraGenuine(ids: map<ShortId, nat>, extra: seq<Candidate>, wtxid: Tx -> TxHash,
        m: Match, vtx: seq<Tx>)
    requires InRange(ids, m) && Genuine(m.slots, vtx) && AllGenuine(ids, extra, vtx)
    ensures Genuine(ScanExtra(ids, extra, wtxid, m).slots, vtx)
    decreases |extra|
  {
    if extra != [] {
      var next := ExtraStep(ids, extra[0].id, extra[0].tx, wtxid, m);
      if next.mempool != |ids| { ScanExtraGenuine(ids, extra[1..], wtxid, next, vtx); }
    }
  }

  // ----- InitData -----

  datatype Init = Init(status: Status, slots: Slots, prefilled: nat, mempool: int, extra: int)

  function NotInit(status: Status): Init { Init(status, [], 0, 0, 0) }

  /** The slots that the map names are free ones. */
  lemma {:induction false} IdsInRange(c: Compact, slots: Slots, n: nat, id: ShortId)
    requires n <= |c.shortIds| && n <= |slots| - FilledCount(slots) && id in Ids(c, slots, n)
    ensures Ids(c, slots, n)[id] < |slots|
    ensures NoneTaken(slots, n) ==> slots[Ids(c, slots, n)[id]].None?
  {
    if id == c.shortIds[n - 1] {
      FreeSlotExists(slots, n - 1);
      assert NoneTaken(slots, n) ==> !Taken(slots, n - 1);
    } else {
      IdsInRange(c, slots, n - 1, id);
    }
  }

  function StartMatch(slots: Slots): Match {
    Match(slots, seq(|slots|, i => false), 0, 0)
  }

  lemma StartInRange(c: Compact, slots: Slots)
    requires |slots| == |c.shortIds| + |c.prefilled| && FilledCount(slots) == |c.prefilled|
    ensures InRange(Ids(c, slots, |c.shortIds|), StartMatch(slots))
  {
    var ids := Ids(c, slots, |c.shortIds|);
    forall id | id in ids ensures ids[id] < |slots| {
      IdsInRange(c, slots, |c.shortIds|, id);
    }
  }

  lemma StartMatched(c: Compact, slots: Slots)
    requires |slots| == |c.shortIds| + |c.prefilled| && FilledCount(slots) == |c.prefilled|
    requires NoneTaken(slots, |c.shortIds|)
    ensures Matched(Ids(c, slots, |c.shortIds|), |c.prefilled|, StartMatch(slots))
  {
    var ids := Ids(c, slots, |c.shortIds|);
    forall id | id in ids ensures ids[id] < |slots| && slots[ids[id]].None? {
      IdsInRange(c, slots, |c.shortIds|, id);
    }
  }

  /** The message is checked, the prefilled transactions are placed, and the
      others are looked up in the mempool and among the extra transactions. */
  function InitData(c: Compact, maxCount: nat, crowded: bool, pool: seq<Candidate>, extra: seq<Candidate>,
        wtxid: Tx -> TxHash): Init {
    if c.headerNull || (c.shortIds == [] && c.prefilled == []) || |c.shortIds| + |c.prefilled| > maxCount then
      NotInit(Invalid)
    else
      var placed := PlaceAll(c);
      if placed.None? then NotInit(Invalid)
      else
        PlaceAllCounts(c);
        var slots := placed.value;
        var ids := Ids(c, slots, |c.shortIds|);
        if Overflows(slots, |c.shortIds|) then NotInit(Endless)
        else if crowded || |ids| != |c.shortIds| then NotInit(Failed)
        else
          StartInRange(c, slots);
          var m := ScanExtra(ids, extra, wtxid, ScanPool(ids, pool, StartMatch(slots)));
          Init(Ready, m.slots, |c.prefilled|, m.mempool, m.extra)
  }

  /** InitData does not return if and only if a well-formed message has a short
      ID and 65536 prefilled transactions. */
  lemma EndlessExactly(c: Compact, maxCount: nat, crowded: bool, pool: seq<Candidate>, extra: seq<Candidate>,
                       wtxid: Tx -> TxHash)
    requires !c.headerNull && |c.shortIds| + |c.prefilled| <= maxCount && PlaceAll(c).Some?
    ensures InitData(c, maxCount, crowded, pool, extra, wtxid).status.Endless? <==>
      c.shortIds != [] && |c.prefilled| >= UINT16
  {
    MessageOverflows(c);
  }

  lemma OwnIsFree(c: Compact, slots: Slots)
    requires |slots| == |c.shortIds| + |c.prefilled| <= UINT16 && FilledCount(slots) == |c.prefilled|
    ensures NoneTaken(slots, |c.shortIds|)
  {
    forall i | 0 <= i < |c.shortIds| ensures !Taken(slots, i) { FreeSlotExists(slots, i); }
  }

  /** On success the short IDs are distinct. The i-th one stands for the i-th
      slot without a prefilled transaction if and only if the slots are at most
      65536, and then the count of matches is the number of such slots filled. */
  lemma InitDataCounts(c: Compact, maxCount: nat, crowded: bool, pool: seq<Candidate>, extra: seq<Candidate>,
                       wtxid: Tx -> TxHash)
    ensures var r := InitData(c, maxCount, crowded, pool, extra, wtxid);
      r.status.Ready? ==>
        && PlaceAll(c).Some? && |r.slots| == |c.shortIds| + |c.prefilled|
        && Distinct(c.shortIds, |c.shortIds|)
        && (c.shortIds != [] ==> (OwnSlots(c, PlaceAll(c).value) <==> |r.slots| <= UINT16))
        && (|r.slots| <= UINT16 ==> r.mempool == FilledCount(r.slots) - |c.prefilled|)
  {
    var r := InitData(c, maxCount, crowded, pool, extra, wtxid);
    if r.status.Ready? {
      PlaceAllCounts(c);
      PlaceAllLow(c);
      var slots := PlaceAll(c).value;
      IdsCount(c, slots, |c.shortIds|);
      if c.shortIds != [] { OwnSlotsExactly(c, slots); }
      if |slots| <= UINT16 {
        OwnIsFree(c, slots);
        MatchesCounted(c, maxCount, crowded, pool, extra, wtxid);
      }
    }
  }

  lemma MatchesCounted(c: Compact, maxCount: nat, crowded: bool, pool: seq<Candidate>, extra: seq<Candidate>,
                       wtxid: Tx -> TxHash)
    requires PlaceAll(c).Some? && NoneTaken(PlaceAll(c).value, |c.shortIds|)
    ensures var r := InitData(c, maxCount, crowded, pool, extra, wtxid);
      r.status.Ready? ==> r.mempool == FilledCount(r.slots) - |c.prefilled|
  {
    var r := InitData(c, maxCount, crowded, pool, extra, wtxid);
    if r.status.Ready? {
      PlaceAllCounts(c);
      var slots := PlaceAll(c).value;
      var ids := Ids(c, slots, |c.shortIds|);
      StartMatched(c, slots);
      ScanPoolMatched(ids, |c.prefilled|, pool, StartMatch(slots));
      ScanExtraMatched(ids, |c.prefilled|, extra, wtxid, ScanPool(ids, pool, StartMatch(slots)));
    }
  }

  /** The count of matches is right for a pool. */
  ghost predicate CountRight(c: Compact, maxCount: nat, crowded: bool, pool: seq<Candidate>, wtxid: Tx -> TxHash) {
    var r := InitData(c, maxCount, crowded, pool, [], wtxid);
    r.mempool == FilledCount(r.slots) - |c.prefilled|
  }

  /** Of an accepted message it is right for every pool if and only if no short
      ID is mapped to a prefilled slot. */
  lemma CountsExactly(c: Compact, maxCount: nat, crowded: bool, wtxid: Tx -> TxHash, tx: Tx)
    requires InitData(c, maxCount, crowded, [], [], wtxid).status.Ready?
    ensures NoneTaken(PlaceAll(c).value, |c.shortIds|) <==>
      forall pool :: CountRight(c, maxCount, crowded, pool, wtxid)
  {
    var slots, n := PlaceAll(c).value, |c.shortIds|;
    if NoneTaken(slots, n) {
      forall pool ensures CountRight(c, maxCount, crowded, pool, wtxid) {
        MatchesCounted(c, maxCount, crowded, pool, [], wtxid);
        ReadyAgain(c, maxCount, crowded, pool, wtxid);
      }
    } else {
      var i :| 0 <= i < n && Taken(slots, i);
      TakenMiscounts(c, maxCount, crowded, wtxid, i, tx);
    }
  }

  lemma ReadyAgain(c: Compact, maxCount: nat, crowded: bool, pool: seq<Candidate>, wtxid: Tx -> TxHash)
    requires InitData(c, maxCount, crowded, [], [], wtxid).status.Ready?
    ensures InitData(c, maxCount, crowded, pool, [], wtxid).status.Ready?
  {
  }

  lemma TakenMiscounts(c: Compact, maxCount: nat, crowded: bool, wtxid: Tx -> TxHash, i: nat, tx: Tx)
    requires InitData(c, maxCount, crowded, [], [], wtxid).status.Ready? && i < |c.shortIds|
    requires Taken(PlaceAll(c).value, i)
    ensures !CountRight(c, maxCount, crowded, [Candidate(c.shortIds[i], tx)], wtxid)
  {
    PlaceAllCounts(c);
    var slots := PlaceAll(c).value;
    var ids, id := Ids(c, slots, |c.shortIds|), c.shortIds[i];
    IdsCount(c, slots, |c.shortIds|);
    IdsExact(c, slots, |c.shortIds|, i);
    StartInRange(c, slots);
    var pool := [Candidate(id, tx)];
    var next := PoolStep(ids, id, tx, StartMatch(slots));
    assert pool[1..] == [] && ScanPool(ids, pool, StartMatch(slots)) == next;
    assert next.mempool == 1;
    FilledUpdate(slots, ids[id], Some(tx), |slots|);
  }

  // ----- FillBlock -----

  /** The slots in order; free ones take the missing transactions in order. The
      second result is how many were taken. */
  function Fill(slots: Slots, missing: seq<Tx>, i: nat): Option<(seq<Tx>, nat)>
    requires i <= |slots|
  {
    if i == 0 then Some(([], 0))
    else
      var before := Fill(slots, missing, i - 1);
      if before.None? then None
      else if slots[i - 1].Some? then Some((before.value.0 + [slots[i - 1].value], before.value.1))
      else if |missing| <= before.value.1 then None
      else Some((before.value.0 + [missing[before.value.1]], before.value.1 + 1))
  }

  function FillBlock(slots: Slots, missing: seq<Tx>): Option<seq<Tx>> {
    var r := Fill(slots, missing, |slots|);
    if r.None? || r.value.1 != |missing| then None else Some(r.value.0)
  }

  /** The transactions of the free slots. */
  function MissingOf(slots: Slots, vtx: seq<Tx>, n: nat): seq<Tx>
    requires n <= |slots| == |vtx|
  {
    if n == 0 then [] else MissingOf(slots, vtx, n - 1) + if slots[n - 1].None? then [vtx[n - 1]] else []
  }

  lemma {:induction false} MissingPrefix(slots: Slots, vtx: seq<Tx>, n: nat, m: nat)
    requires n <= m <= |slots| == |vtx|
    ensures MissingOf(slots, vtx, n) <= MissingOf(slots, vtx, m)
    decreases m
  {
    if n < m { MissingPrefix(slots, vtx, n, m - 1); }
  }

  lemma {:induction false} FillGenuine(slots: Slots, vtx: seq<Tx>, missing: seq<Tx>, i: nat)
    requires i <= |slots| && Genuine(slots, vtx) && missing == MissingOf(slots, vtx, |slots|)
    ensures Fill(slots, missing, i) == Some((vtx[..i], |MissingOf(slots, vtx, i)|))
  {
    if i > 0 {
      FillGenuine(slots, vtx, missing, i - 1);
      MissingPrefix(slots, vtx, i, |slots|);
      assert vtx[..i] == vtx[..i - 1] + [vtx[i - 1]];
    }
  }

  /** The block is filled if and only if exactly as many transactions are given
      as slots are free. */
  lemma {:induction false} FillNeeds(slots: Slots, missing: seq<Tx>, i: nat)
    requires i <= |slots|
    ensures Fill(slots, missing, i).Some? <==> i - Filled(slots, i) <= |missing|
    ensures Fill(slots, missing, i).Some? ==> Fill(slots, missing, i).value.1 == i - Filled(slots, i)
  {
    if i > 0 { FillNeeds(slots, missing, i - 1); }
  }

  lemma FillBlockExactly(slots: Slots, missing: seq<Tx>)
    ensures FillBlock(slots, missing).Some? <==> |missing| == |slots| - FilledCount(slots)
  {
    FillNeeds(slots, missing, |slots|);
  }

  // ----- Reconstruction -----

  /** The prefilled transactions sit where the block has them. */
  ghost predicate Describes(c: Compact, vtx: seq<Tx>) {
    PlaceAll(c).Some? ==> Genuine(PlaceAll(c).value, vtx)
  }

  /** With genuine matches and the missing transactions in order, the result is
      the block. */
  lemma Reconstructs(c: Compact, vtx: seq<Tx>, maxCount: nat, crowded: bool, pool: seq<Candidate>,
        extra: seq<Candidate>, wtxid: Tx -> TxHash)
    requires |c.shortIds| + |c.prefilled| == |vtx| && Describes(c, vtx)
    requires PlaceAll(c).Some? ==>
      AllGenuine(Ids(c, PlaceAll(c).value, |c.shortIds|), pool, vtx) &&
        AllGenuine(Ids(c, PlaceAll(c).value, |c.shortIds|), extra, vtx)
    ensures var r := InitData(c, maxCount, crowded, pool, extra, wtxid);
      r.status.Ready? ==>
        |r.slots| == |vtx| && FillBlock(r.slots, MissingOf(r.slots, vtx, |r.slots|)) == Some(vtx)
  {
    var r := InitData(c, maxCount, crowded, pool, extra, wtxid);
    if r.status.Ready? {
      PlaceAllCounts(c);
      var slots := PlaceAll(c).value;
      var ids := Ids(c, slots, |c.shortIds|);
      StartInRange(c, slots);
      ScanPoolGenuine(ids, pool, StartMatch(slots), vtx);
      ScanExtraGenuine(ids, extra, wtxid, ScanPool(ids, pool, StartMatch(slots)), vtx);
      FillGenuine(r.slots, vtx, MissingOf(r.slots, vtx, |r.slots|), |r.slots|);
      assert vtx[..|vtx|] == vtx;
    }
  }

  /** The message for a block: the first transaction is prefilled, the others
      are short IDs. */
  function MakeCompact(vtx: seq<Tx>, shortId: Tx -> ShortId): Compact
    requires vtx != []
  {
    Compact(false, seq(|vtx| - 1, i requires 0 <= i < |vtx| - 1 => shortId(vtx[i + 1])), [Prefilled(0, Some(vtx[0]))])
  }

  /** The message describes its block, and its i-th short ID belongs to slot i + 1. */
  lemma MadeCompactDescribes(vtx: seq<Tx>, shortId: Tx -> ShortId)
    requires vtx != []
    ensures var c := MakeCompact(vtx, shortId);
      && |c.shortIds| + |c.prefilled| == |vtx| && PlaceAll(c).Some? && Describes(c, vtx)
      && forall i :: 0 <= i < |vtx| - 1 ==> FreeSlot(PlaceAll(c).value, i) == i + 1
  {
    var c := MakeCompact(vtx, shortId);
    var slots := NoSlots(|vtx|)[0 := Some(vtx[0])];
    assert PlaceAll(c) == Place(c, 1, 0, slots) == Some(slots);
    forall i | 0 <= i < |vtx| - 1 ensures FreeSlot(slots, i) == i + 1 { SlotsAfterFirst(slots, i); }
  }

  /** Candidates with the short ID of a transaction of the block are that
      transaction. */
  ghost predicate NoImpostor(vtx: seq<Tx>, shortId: Tx -> ShortId, pool: seq<Candidate>) {
    forall k, i :: 0 <= k < |pool| && 1 <= i < |vtx| && pool[k].id == shortId(vtx[i]) ==> pool[k].tx == vtx[i]
  }

  lemma IdOrigin(c: Compact, slots: Slots, n: nat, id: ShortId) returns (i: nat)
    requires n == |c.shortIds| <= |slots| - FilledCount(slots) && |slots| <= UINT16 && Distinct(c.shortIds, n)
    requires id in Ids(c, slots, n)
    ensures i < n && c.shortIds[i] == id && Ids(c, slots, n)[id] == FreeSlot(slots, i)
  {
    IdsKeys(c, slots, n, id);
    i :| 0 <= i < n && c.shortIds[i] == id;
    IdsExact(c, slots, n, i);
  }

  lemma NoImpostorGenuine(vtx: seq<Tx>, shortId: Tx -> ShortId, pool: seq<Candidate>)
    requires vtx != [] && |vtx| <= UINT16 && NoImpostor(vtx, shortId, pool)
    requires var c := MakeCompact(vtx, shortId); Distinct(c.shortIds, |c.shortIds|)
    ensures var c := MakeCompact(vtx, shortId);
      PlaceAll(c).Some? ==> AllGenuine(Ids(c, PlaceAll(c).value, |c.shortIds|), pool, vtx)
  {
    var c := MakeCompact(vtx, shortId);
    MadeCompactDescribes(vtx, shortId);
    PlaceAllCounts(c);
    var slots := PlaceAll(c).value;
    var ids := Ids(c, slots, |c.shortIds|);
    forall k | 0 <= k < |pool| && pool[k].id in ids
      ensures ids[pool[k].id] < |vtx| && pool[k].tx == vtx[ids[pool[k].id]]
    {
      var i := IdOrigin(c, slots, |c.shortIds|, pool[k].id);
      assert FreeSlot(slots, i) == i + 1;
    }
  }

  /** The message made from a block leads back to the block, for every mempool
      without an impostor. */
  lemma MadeCompactReconstructs(vtx: seq<Tx>, shortId: Tx -> ShortId, maxCount: nat, crowded: bool,
                                pool: seq<Candidate>, extra: seq<Candidate>, wtxid: Tx -> TxHash)
    requires vtx != [] && |vtx| <= UINT16 && NoImpostor(vtx, shortId, pool) && NoImpostor(vtx, shortId, extra)
    ensures var r := InitData(MakeCompact(vtx, shortId), maxCount, crowded, pool, extra, wtxid);
      r.status.Ready? ==>
        |r.slots| == |vtx| && FillBlock(r.slots, MissingOf(r.slots, vtx, |r.slots|)) == Some(vtx)
  {
    var c := MakeCompact(vtx, shortId);
    if InitData(c, maxCount, crowded, pool, extra, wtxid).status.Ready? {
      MadeCompactDescribes(vtx, shortId);
      InitDataCounts(c, maxCount, crowded, pool, extra, wtxid);
      NoImpostorGenuine(vtx, shortId, pool);
      NoImpostorGenuine(vtx, shortId, extra);
      Reconstructs(c, vtx, maxCount, crowded, pool, extra, wtxid);
    }
  }

  lemma {:induction false} SlotsAfterFirst(slots: Slots, i: nat)
    requires i + 1 < |slots| && slots[0].Some? && forall k :: 1 <= k < |slots| ==> slots[k].None?
    ensures FreeSlot(slots, i) == i + 1
  {
    assert NextFree(slots, 1) == 1;
    if i > 0 { SlotsAfterFirst(slots, i - 1); }
  }

  // ----- Indexes of requested transactions -----

  /** Every index is sent as its distance from the one before. */
  function Distance(ix: seq<nat>, n: nat): int
    requires n < |ix|
  {
    if n == 0 then ix[0] else ix[n] as int - ix[n - 1] as int - 1
  }

  /** The distances of the first n indexes. */
  function EncodeIndexes(ix: seq<nat>, n: nat): (d: seq<int>)
    requires n <= |ix|
    ensures |d| == n && forall i :: 0 <= i < n ==> d[i] == Distance(ix, i)
  {
    if n == 0 then [] else EncodeIndexes(ix, n - 1) + [Distance(ix, n - 1)]
  }

  /** The 16-bit offset after the indexes read so far. */
  function Offset(ix: seq<nat>): nat {
    if ix == [] then 0 else (ix[|ix| - 1] + 1) % UINT16
  }

  /** The first n indexes read; None if one overflows 16 bits. */
  function DecodeIndexes(d: seq<int>, n: nat): (r: Option<seq<nat>>)
    requires n <= |d|
    ensures r.Some? ==> |r.value| == n && forall i :: 0 <= i < n ==> r.value[i] < UINT16
  {
    if n == 0 then Some([])
    else
      var before := DecodeIndexes(d, n - 1);
      if before.None? || d[n - 1] < 0 || d[n - 1] >= UINT16 || d[n - 1] + Offset(before.value) >= UINT16 then None
      else Some(before.value + [d[n - 1] + Offset(before.value)])
  }

  ghost predicate Increasing(ix: seq<nat>) {
    forall i, j :: 0 <= i < j < |ix| ==> ix[i] < ix[j]
  }

  /** Distance i leads from the offset after the first i indexes to the next. */
  ghost predicate Leads(ix: seq<nat>, d: seq<int>, i: nat)
    requires i < |ix| == |d|
  {
    0 <= d[i] < UINT16 && Offset(ix[..i]) + d[i] == ix[i] < UINT16
  }

  lemma {:induction false} DecodeDistances(ix: seq<nat>, d: seq<int>, n: nat)
    requires n <= |ix| == |d| && forall i :: 0 <= i < |ix| ==> Leads(ix, d, i)
    ensures DecodeIndexes(d, n) == Some(ix[..n])
  {
    if n > 0 {
      DecodeDistances(ix, d, n - 1);
      assert Leads(ix, d, n - 1);
      assert ix[..n] == ix[..n - 1] + [ix[n - 1]];
    }
  }

  lemma DistanceLeads(ix: seq<nat>, d: seq<int>, i: nat)
    requires i < |ix| == |d| && Increasing(ix) && ix[i] < UINT16 && d[i] == Distance(ix, i)
    ensures Leads(ix, d, i)
  {
    if i > 0 { assert ix[i - 1] < ix[i]; }
  }

  /** Increasing 16-bit indexes come back. */
  lemma IndexRoundTrip(ix: seq<nat>)
    requires Increasing(ix) && forall i :: 0 <= i < |ix| ==> ix[i] < UINT16
    ensures DecodeIndexes(EncodeIndexes(ix, |ix|), |ix|) == Some(ix)
  {
    var d := EncodeIndexes(ix, |ix|);
    forall i | 0 <= i < |ix| ensures Leads(ix, d, i) { DistanceLeads(ix, d, i); }
    DecodeDistances(ix, d, |ix|);
    assert ix[..|ix|] == ix;
  }

  /** Decoded indexes increase if and only if none but the last is 65535, where
      the offset wraps. */
  lemma {:induction false} DecodedWraps(d: seq<int>, n: nat)
    requires n <= |d| && DecodeIndexes(d, n).Some?
    ensures var ix := DecodeIndexes(d, n).value;
      Increasing(ix) <==> forall i :: 0 <= i < n - 1 ==> ix[i] != UINT16 - 1
  {
    if n > 1 {
      DecodedWraps(d, n - 1);
      DecodedLast(DecodeIndexes(d, n - 1).value, DecodeIndexes(d, n).value, n - 1);
    }
  }

  /** How far the first n distances reach, each with the index it leads to. */
  function Reach(d: seq<int>, n: nat): int
    requires n <= |d|
  {
    if n == 0 then 0 else Reach(d, n - 1) + d[n - 1] + 1
  }

  lemma {:induction false} DecodedReach(d: seq<int>, n: nat)
    requires 0 < n <= |d| && DecodeIndexes(d, n).Some?
    ensures var ix := DecodeIndexes(d, n).value;
      && (Increasing(ix) ==> ix[n - 1] + 1 == Reach(d, n))
      && (Increasing(ix) <==> Reach(d, n - 1) < UINT16)
  {
    if n > 1 {
      var p, ix := DecodeIndexes(d, n - 1).value, DecodeIndexes(d, n).value;
      DecodedReach(d, n - 1);
      DecodedWraps(d, n);
      DecodedWraps(d, n - 1);
      if Increasing(ix) {
        IncreasingPrefix(p, ix);
        assert ix[n - 2] != UINT16 - 1;
      } else if Increasing(p) {
        assert p[n - 2] == UINT16 - 1;
      } else {
        assert d[n - 2] >= 0;
      }
    }
  }

  /** Decoded indexes increase if and only if the distances before the last one
      reach less than 65536. */
  lemma DecodedIncreasing(d: seq<int>, n: nat)
    requires n <= |d| && DecodeIndexes(d, n).Some?
    ensures Increasing(DecodeIndexes(d, n).value) <==> n == 0 || Reach(d, n - 1) < UINT16
  {
    if n > 0 { DecodedReach(d, n); }
  }

  lemma DecodedLast(p: seq<nat>, ix: seq<nat>, n: nat)
    requires 0 < n == |p| && |ix| == n + 1 && (forall i :: 0 <= i < n ==> ix[i] == p[i] < UINT16)
    requires Increasing(p) <==> forall i :: 0 <= i < n - 1 ==> p[i] != UINT16 - 1
    requires Offset(p) <= ix[n] < UINT16
    ensures Increasing(ix) <==> forall i :: 0 <= i < n ==> ix[i] != UINT16 - 1
  {
    if Increasing(ix) {
      assert ix[n - 1] < ix[n];
      IncreasingPrefix(p, ix);
    } else if forall i :: 0 <= i < n ==> ix[i] != UINT16 - 1 {
      IncreasingExtends(p, ix);
    }
  }

  lemma IncreasingPrefix(p: seq<nat>, ix: seq<nat>)
    requires |p| < |ix| && (forall i :: 0 <= i < |p| ==> ix[i] == p[i]) && Increasing(ix)
    ensures Increasing(p)
  {
  }

  lemma IncreasingExtends(p: seq<nat>, ix: seq<nat>)
    requires 0 < |p| == |ix| - 1 && (forall i :: 0 <= i < |p| ==> ix[i] == p[i]) && Increasing(p) &&
      p[|p| - 1] < ix[|p|]
    ensures Increasing(ix)
  {
    forall i, j | 0 <= i < j < |ix| ensures ix[i] < ix[j] {
      if j == |p| && i < |p| - 1 { assert p[i] < p[|p| - 1]; }
    }
  }

  /** Indexes decoded from the distances 65535 and 0 are not in order. */
  lemma WrappedIndexes(d: seq<int>)
    requires d == [65535, 0]
    ensures DecodeIndexes(d, 2) == Some([65535, 0]) && !Increasing(DecodeIndexes(d, 2).value)
  {
    assert DecodeIndexes(d, 0) == Some([]);
    assert DecodeIndexes(d, 1).Some? && DecodeIndexes(d, 1).value == [65535];
    var r := DecodeIndexes(d, 2).value;
    assert r == [65535, 0];
    assert r[0] >= r[1];
  }

  // ----- The partially downloaded block as an object -----

  class PartiallyDownloadedBlock {
    var txnAvailable: Slots
    var headerNull: bool
    var prefilledCount: nat
    var mempoolCount: int
    var extraCount: int

    constructor ()
      ensures txnAvailable == [] && headerNull
    {
      txnAvailable, headerNull, prefilledCount, mempoolCount, extraCount := [], true, 0, 0, 0;
    }

    /** The loop over the prefilled transactions. */
    method PlacePrefilled(c: Compact) returns (placed: Option<Slots>)
      ensures placed == PlaceAll(c)
    {
      var slots := NoSlots(|c.shortIds| + |c.prefilled|);
      var last := -1;
      var i := 0;
      while i < |c.prefilled|
        invariant 0 <= i <= |c.prefilled| && -1 <= last && |slots| == |c.shortIds| + |c.prefilled|
        invariant Place(c, i, last, slots) == PlaceAll(c)
      {
        if c.prefilled[i].tx.None? { return None; }
        last := last + c.prefilled[i].index + 1;
        if last >= UINT16 || last > |c.shortIds| + i { return None; }
        slots := slots[last := c.prefilled[i].tx];
        i := i + 1;
      }
      placed := Some(slots);
    }

    /** The search for a free slot from position i + offset on, with a 16-bit
        offset. After 65536 rounds it has come back to where it started: None
        stands for a loop that does not end. */
    method SkipFilled(slots: Slots, i: nat, offset: nat) returns (r: Option<nat>)
      requires offset < UINT16 && i + offset < |slots| && NextFree(slots, i + offset) < |slots|
      ensures NextFree(slots, i + offset) - i < UINT16 ==> r == Some(NextFree(slots, i + offset) - i)
      ensures r.None? <==> NeverFree(slots, i, offset)
    {
      var at, rounds := offset, 0;
      while slots[i + at].Some?
        invariant 0 <= rounds < UINT16 && i + at == Position(i, offset, rounds) < |slots|
        invariant forall n :: 0 <= n < rounds ==>
          Position(i, offset, n) < |slots| && slots[Position(i, offset, n)].Some?
        invariant forall k :: i + offset <= k < i + offset + rounds && k < i + UINT16 ==> k < |slots| && slots[k].Some?
        decreases UINT16 - rounds
      {
        SearchOn(slots, i, offset, rounds);
        at, rounds := (at + 1) % UINT16, rounds + 1;
        if rounds == UINT16 {
          CameBack(slots, i, offset);
          return None;
        }
      }
      r := Some(at);
      assert !NeverFree(slots, i, offset);
    }

    /** The free slot of one short ID. */
    method NextOffset(slots: Slots, n: nat, i: nat, offset: nat) returns (next: Option<nat>)
      requires Low(slots) && i < n <= |slots| - FilledCount(slots) && (i > 0 ==> !Overflows(slots, n))
      requires offset < UINT16 && i + offset == (if i == 0 then 0 else FreeSlot(slots, i - 1) + 1) <= |slots|
      ensures next.None? <==> Overflows(slots, n)
      ensures next.Some? ==> next.value < UINT16 && i + next.value == FreeSlot(slots, i) < |slots|
    {
      SearchStarts(slots, n, i, offset);
      next := SkipFilled(slots, i, offset);
      SearchEnds(slots, n, i, offset, next);
    }

    /** The loop over the short IDs never leaves the array; it does not end
        exactly if the offset overflows. */
    method IndexShortIds(c: Compact, slots: Slots) returns (ids: Option<map<ShortId, nat>>)
      requires |slots| == |c.shortIds| + |c.prefilled| && FilledCount(slots) == |c.prefilled| && Low(slots)
      ensures ids.None? <==> Overflows(slots, |c.shortIds|)
      ensures ids.Some? ==> ids.value == Ids(c, slots, |c.shortIds|)
    {
      var found: map<ShortId, nat> := map[];
      var offset, n := 0, |c.shortIds|;
      for i := 0 to n
        invariant 0 <= offset < UINT16 && found == Ids(c, slots, i)
        invariant i + offset == (if i == 0 then 0 else FreeSlot(slots, i - 1) + 1) <= |slots|
        invariant i > 0 ==> !Overflows(slots, n)
      {
        var next := NextOffset(slots, n, i, offset);
        if next.None? { return None; }
        offset := next.value;
        found := found[c.shortIds[i] := (i + offset) % UINT16];
      }
      return Some(found);
    }

    method MatchPool(ids: map<ShortId, nat>, pool: seq<Candidate>, m: Match) returns (r: Match)
      requires InRange(ids, m)
      ensures r == ScanPool(ids, pool, m)
    {
      r := m;
      for i := 0 to |pool|
        invariant InRange(ids, r) && ScanPool(ids, pool[i..], r) == ScanPool(ids, pool, m)
      {
        assert pool[i..][1..] == pool[i + 1..];
        r := PoolStep(ids, pool[i].id, pool[i].tx, r);
        if r.mempool == |ids| { return; }
      }
    }

    method MatchExtra(ids: map<ShortId, nat>, extra: seq<Candidate>, wtxid: Tx -> TxHash, m: Match) returns (r: Match)
      requires InRange(ids, m)
      ensures r == ScanExtra(ids, extra, wtxid, m)
    {
      r := m;
      for i := 0 to |extra|
        invariant InRange(ids, r) && ScanExtra(ids, extra[i..], wtxid, r) == ScanExtra(ids, extra, wtxid, m)
      {
        assert extra[i..][1..] == extra[i + 1..];
        r := ExtraStep(ids, extra[i].id, extra[i].tx, wtxid, r);
        if r.mempool == |ids| { return; }
      }
    }

    method Initialize(c: Compact, maxCount: nat, crowded: bool, pool: seq<Candidate>, extra: seq<Candidate>,
          wtxid: Tx -> TxHash)
      returns (status: Status)
      requires headerNull && txnAvailable == []
      modifies this
      ensures var r := InitData(c, maxCount, crowded, pool, extra, wtxid);
        && status == r.status
        && (status.Ready? ==> !headerNull && txnAvailable == r.slots && prefilledCount == r.prefilled
                              && mempoolCount == r.mempool && extraCount == r.extra)
    {
      if c.headerNull || (c.shortIds == [] && c.prefilled == []) || |c.shortIds| + |c.prefilled| > maxCount {
        return Invalid;
      }
      var placed := PlacePrefilled(c);
      if placed.None? {
        return Invalid;
      }
      PlaceAllCounts(c);
      PlaceAllLow(c);
      var found := IndexShortIds(c, placed.value);
      if found.None? {
        return Endless;
      }
      var ids := found.value;
      if crowded || |ids| != |c.shortIds| {
        return Failed;
      }
      StartInRange(c, placed.value);
      var m := MatchPool(ids, pool, StartMatch(placed.value));
      m := MatchExtra(ids, extra, wtxid, m);
      headerNull, txnAvailable, prefilledCount, mempoolCount, extraCount := false, m.slots, |c.prefilled|, m.mempool,
        m.extra;
      status := Ready;
    }

    /** The object cannot be used again after the slots were read; the check of
        the finished block follows in the source. */
    method Complete(missing: seq<Tx>) returns (block: Option<seq<Tx>>)
      requires !headerNull
      modifies this
      ensures block == FillBlock(old(txnAvailable), missing)
      ensures Fill(old(txnAvailable), missing, |old(txnAvailable)|).Some? ==> headerNull && txnAvailable == []
    {
      var vtx: seq<Tx> := [];
      var taken := 0;
      for i := 0 to |txnAvailable|
        invariant taken >= 0 && txnAvailable == old(txnAvailable)
        invariant Fill(txnAvailable, missing, i) == Some((vtx, taken))
      {
        if txnAvailable[i].None? {
          if |missing| <= taken {
            FillStops(txnAvailable, missing, i + 1, |txnAvailable|);
            return None;
          }
          vtx, taken := vtx + [missing[taken]], taken + 1;
        } else {
          vtx := vtx + [txnAvailable[i].value];
        }
      }
      headerNull, txnAvailable := true, [];
      block := if |missing| != taken then None else Some(vtx);
    }
  }

  lemma {:induction false} FillStops(slots: Slots, missing: seq<Tx>, i: nat, n: nat)
    requires i <= n <= |slots| && Fill(slots, missing, i).None?
    ensures Fill(slots, missing, n).None?
    decreases n
  {
    if i < n { FillStops(slots, missing, i, n - 1); }
  }
}
