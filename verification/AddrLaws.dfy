/**
  What the address manager remembers of an address over whole runs
  (src/addrman.cpp): attempts, failures and successes, and when they make an
  entry terrible.
*/
module AddrLaws {
  import opened AddrTables
  import opened AddrMan

  // ----- Moving entries about changes nothing that is known of them -----

  /** Only the references, the table and the place in the random order may differ. */
  ghost predicate History(was: Info, now: Info) {
    now == was.(nRefCount := now.nRefCount, nRandomPos := now.nRandomPos, fInTried := now.fInTried)
  }

  ghost predicate HistoryKept(s: State, t: State) {
    && t.mapInfo.Keys <= s.mapInfo.Keys
    && forall o :: o in t.mapInfo ==> History(s.mapInfo[o], t.mapInfo[o])
  }

  lemma ClearHistory(h: Hasher, s: State, cell: nat, zero: set<int>, uncounted: int)
    requires InvExcept(h, s, zero, uncounted) && cell < |s.vvNew|
    ensures ClearNew.requires(s, cell) && HistoryKept(s, ClearNew(s, cell))
  {
    ClearNewEffect(h, s, cell, zero, uncounted);
    var t := ClearNew(s, cell);
    forall o | o in t.mapInfo ensures History(s.mapInfo[o], t.mapInfo[o]) {
      assert SameRecord(s.mapInfo[o], t.mapInfo[o]);
    }
  }

  lemma EvictHistory(h: Hasher, s: State, cell: nat, zero: set<int>, uncounted: int)
    requires InvExcept(h, s, zero, uncounted) && cell < |s.vvTried| && s.vvTried[cell] != EMPTY
    ensures HistoryKept(s, Evict(h, s, cell, zero, uncounted))
  {
    var id := s.vvTried[cell];
    DropTriedInv(h, s, cell, zero, uncounted);
    EvictRef(h, s, id, zero, uncounted);
    var dropped := DropTried(s, cell);
    var home := HomeCell(h, s.mapInfo[id]);
    EvictStep(h, dropped, home, id, zero + {id}, uncounted + 1);
    ClearHistory(h, dropped, home, zero + {id}, uncounted + 1);
    assert HistoryKept(s, dropped);
  }

  lemma MakeTriedHistory(h: Hasher, s: State, id: int)
    requires Inv(h, s) && id in s.mapInfo && !s.mapInfo[id].fInTried
    ensures HistoryKept(s, MakeTried(h, s, id))
  {
    StripNewInv(h, s, id, {}, 0);
    var stripped := StripNew(s, id).(nNew := s.nNew - 1);
    Recount(h, StripNew(s, id), stripped, {} + {id}, {id}, 0, 1);
    var cell := TriedSlot(h, s.mapInfo[id].service);
    MakeSpaceInv(h, stripped, cell, id);
    assert HistoryKept(s, stripped);
    var spaced := MakeSpace(h, stripped, cell, id);
    SpaceHistory(h, stripped, cell, id);
    HistoryThen(s, stripped, spaced);
    PutHistory(s, spaced, cell, id);
  }

  lemma SpaceHistory(h: Hasher, s: State, cell: nat, id: int)
    requires InvExcept(h, s, {id}, 1) && cell < |s.vvTried|
    ensures HistoryKept(s, MakeSpace(h, s, cell, id))
  {
    if s.vvTried[cell] != EMPTY { EvictHistory(h, s, cell, {id}, 1); }
  }

  lemma HistoryThen(s: State, t: State, u: State)
    requires HistoryKept(s, t) && HistoryKept(t, u)
    ensures HistoryKept(s, u)
  {
    forall o | o in u.mapInfo ensures History(s.mapInfo[o], u.mapInfo[o]) {
      assert History(s.mapInfo[o], t.mapInfo[o]) && History(t.mapInfo[o], u.mapInfo[o]);
    }
  }

  lemma PutHistory(s: State, t: State, cell: nat, id: int)
    requires HistoryKept(s, t) && cell < |t.vvTried| && id in t.mapInfo
    ensures HistoryKept(s, PutTried(t, cell, id))
  {
    assert History(s.mapInfo[id], t.mapInfo[id]);
  }

  // ----- What one operation records -----

  /** The record of attempts on an entry. */
  ghost predicate SameTrials(was: Info, now: Info) {
    && now.service == was.service && now.nLastTry == was.nLastTry && now.nLastCountAttempt == was.nLastCountAttempt
    && now.nLastSuccess == was.nLastSuccess && now.nAttempts == was.nAttempts
  }

  ghost predicate TrialsKept(s: State, t: State, except: int) {
    forall o :: o in s.mapInfo && o in t.mapInfo && o != except ==> SameTrials(s.mapInfo[o], t.mapInfo[o])
  }

  /** The operation is a success of the entry. */
  predicate Succeeds(op: Op, info: Info) { op.OpGood? && op.service == info.service }

  /** It is a failure of the entry that counts: some address was reached since the
      last one that counted. */
  predicate Fails(op: Op, info: Info, nLastGood: int) {
    op.OpAttempt? && op.service == info.service && op.fCountFailure && info.nLastCountAttempt < nLastGood
  }

  lemma ServiceKnown(h: Hasher, s: State, id: int, service: Service)
    requires Inv(h, s) && id in s.mapInfo
    ensures s.mapInfo[id].service == service <==> Known(s, service) && s.mapAddr[service.addr] == id
  {
  }

  lemma AddTrials(h: Hasher, s: State, a: Announcement)
    requires Inv(h, s)
    ensures TrialsKept(s, Add(h, s, a).0, EMPTY)
  {
    var t := Add(h, s, a).0;
    if a.routable {
      if a.service.addr in s.mapAddr {
        AddKnown(h, s, a);
        OtherTrials(s, t, s.mapAddr[a.service.addr]);
      } else {
        AddUnknown(h, s, a);
        OtherTrials(s, t, s.nIdCount);
      }
    }
  }

  lemma OtherTrials(s: State, t: State, id: int)
    requires OthersKept(s, t, id) && (id in s.mapInfo && id in t.mapInfo ==> SameButNews(s.mapInfo[id], t.mapInfo[id]))
    ensures TrialsKept(s, t, EMPTY)
  {
    forall o | o in s.mapInfo && o in t.mapInfo && o != EMPTY ensures SameTrials(s.mapInfo[o], t.mapInfo[o]) {
      if o != id { assert SameRecord(s.mapInfo[o], t.mapInfo[o]); }
    }
  }

  /** A success sets the counter of failures back and records the time. */
  lemma GoodTrials(h: Hasher, s: State, service: Service, nTime: int, id: int)
    requires Inv(h, s) && nTime > 0 && id in s.mapInfo && id in Good(h, s, service, nTime).mapInfo
    ensures var was, now := s.mapInfo[id], Good(h, s, service, nTime).mapInfo[id];
      if was.service == service
      then now.service == service && now.nAttempts == 0 && now.nLastSuccess == now.nLastTry == nTime
      else SameTrials(was, now)
  {
    ServiceKnown(h, s, id, service);
    if Known(s, service) {
      var e := s.mapAddr[service.addr];
      var s' := s.(nLastGood := nTime);
      var t := s'.(mapInfo := s.mapInfo[e := Succeeded(s.mapInfo[e], nTime)]);
      if !s.mapInfo[e].fInTried {
        assert Inv(h, s');
        StatsInv(h, s', e, Succeeded(s.mapInfo[e], nTime), {}, 0);
        MakeTriedHistory(h, t, e);
        assert History(t.mapInfo[id], MakeTried(h, t, e).mapInfo[id]);
      }
    }
  }

  /** A success of a known address that was new puts it into its tried cell; the
      entry that was there is in the new table again. One that was tried stays
      where it is, and an unknown address changes no table. */
  lemma GoodMoves(h: Hasher, s: State, service: Service, nTime: int)
    requires Inv(h, s) && nTime > 0
    ensures var t := Good(h, s, service, nTime);
      if !Known(s, service) then t == s.(nLastGood := nTime)
      else
        var id, cell := s.mapAddr[service.addr], TriedSlot(h, service);
        && cell < |s.vvTried| && id in t.mapInfo && t.mapInfo[id].fInTried && t.vvTried == s.vvTried[cell := id]
        && (s.mapInfo[id].fInTried ==> t.vvNew == s.vvNew && t.mapInfo.Keys == s.mapInfo.Keys)
        && (s.vvTried[cell] != EMPTY && s.vvTried[cell] != id ==>
             s.vvTried[cell] in t.mapInfo && !t.mapInfo[s.vvTried[cell]].fInTried)
  {
    if Known(s, service) {
      var id, cell, s' := s.mapAddr[service.addr], TriedSlot(h, service), s.(nLastGood := nTime);
      var t := s'.(mapInfo := s.mapInfo[id := Succeeded(s.mapInfo[id], nTime)]);
      if s.mapInfo[id].fInTried {
        assert s.vvTried[cell := id] == s.vvTried;
      } else {
        assert Inv(h, s');
        StatsInv(h, s', id, Succeeded(s.mapInfo[id], nTime), {}, 0);
        TriedMoves(h, t, id);
      }
    }
  }

  lemma TriedMoves(h: Hasher, s: State, id: int)
    requires Inv(h, s) && id in s.mapInfo && !s.mapInfo[id].fInTried && s.mapInfo[id].nLastSuccess != 0
    ensures var t, cell := MakeTried(h, s, id), TriedSlot(h, s.mapInfo[id].service);
      && cell < |s.vvTried| && id in t.mapInfo && t.mapInfo[id].fInTried && t.vvTried == s.vvTried[cell := id]
      && (s.vvTried[cell] != EMPTY ==> s.vvTried[cell] in t.mapInfo && !t.mapInfo[s.vvTried[cell]].fInTried)
  {
    MakeTriedMoves(h, s, id);
    MakeTriedInv(h, s, id);
    MakeTriedHistory(h, s, id);
    var t, cell := MakeTried(h, s, id), TriedSlot(h, s.mapInfo[id].service);
    if s.vvTried[cell] != EMPTY { OutOfPlace(h, s, t, cell, id); }
  }

  /** An entry whose tried cell another one holds is not tried. */
  lemma OutOfPlace(h: Hasher, s: State, t: State, cell: nat, id: int)
    requires Inv(h, s) && Inv(h, t) && HistoryKept(s, t) && cell < |s.vvTried| && t.vvTried == s.vvTried[cell := id]
    requires s.vvTried[cell] != EMPTY && s.vvTried[cell] != id && s.vvTried[cell] in t.mapInfo
    ensures !t.mapInfo[s.vvTried[cell]].fInTried
  {
    var e := s.vvTried[cell];
    assert History(s.mapInfo[e], t.mapInfo[e]);
  }

  /** A connection moves the time of a known entry if it is more than 20 minutes
      later; its services are those that are set; nothing else changes. */
  lemma SeenAndServices(s: State, service: Service, nTime: int, nServices: set<nat>)
    requires Known(s, service)
    ensures var id := s.mapAddr[service.addr];
      var was := s.mapInfo[id];
      && Connected(s, service, nTime).mapInfo ==
           s.mapInfo[id := was.(nTime := if nTime > was.nTime + 1200 then nTime else was.nTime)]
      && SetServices(s, service, nServices).mapInfo == s.mapInfo[id := was.(nServices := nServices)]
      && Connected(s, service, nTime).(mapInfo := s.mapInfo) == s
      && SetServices(s, service, nServices).(mapInfo := s.mapInfo) == s
  {
  }

  /** After round k the id that was at the drawn position is at position k, and
      stays there; no id is lost. */
  lemma {:induction false} ShufflePicks(s: State, picks: seq<nat>, k: nat, n: nat)
    requires RandomOk(s.mapInfo, s.vRandom) && PicksOk(picks, |s.vRandom|) && k < n <= |picks|
    ensures Settled(Shuffle(s, picks, k).vRandom, Shuffle(s, picks, n).vRandom, k, picks[k])
    decreases n
  {
    ShuffleSwaps(s, picks, n - 1);
    if k < n - 1 {
      ShufflePicks(s, picks, k, n - 1);
      StaysSettled(Shuffle(s, picks, k).vRandom, Shuffle(s, picks, n - 1).vRandom, Shuffle(s, picks, n).vRandom, k,
        picks[k], n - 1, picks[n - 1]);
    }
  }

  ghost predicate Settled(v: seq<int>, w: seq<int>, k: nat, pick: nat) {
    |w| == |v| && k <= pick < |v| && w[k] == v[pick] && multiset(w) == multiset(v)
  }

  lemma StaysSettled(u: seq<int>, v: seq<int>, w: seq<int>, k: nat, pick: nat, i: nat, j: nat)
    requires Settled(u, v, k, pick) && Exchanged(v, w, i, j) && k < i
    ensures Settled(u, w, k, pick)
  {
  }

  lemma ShuffleSwaps(s: State, picks: seq<nat>, j: nat)
    requires RandomOk(s.mapInfo, s.vRandom) && PicksOk(picks, |s.vRandom|) && j < |picks|
    ensures Exchanged(Shuffle(s, picks, j).vRandom, Shuffle(s, picks, j + 1).vRandom, j, picks[j])
  {
    ShuffleRandom(s, picks, j);
    SwapsTwo(Shuffle(s, picks, j), j, picks[j]);
  }

  ghost predicate Intact(t: State, n: nat) { RandomOk(t.mapInfo, t.vRandom) && |t.vRandom| == n }

  lemma SwappedIntact(t: State, n: nat, i: nat, j: nat)
    requires Intact(t, n) && i < n && j < n
    ensures Intact(Swapped(t, i, j), n)
  {
    SwapRandomOk(t, i, j);
  }

  lemma ShuffleRandom(s: State, picks: seq<nat>, k: nat)
    requires RandomOk(s.mapInfo, s.vRandom) && PicksOk(picks, |s.vRandom|) && k <= |picks|
    ensures Intact(Shuffle(s, picks, k), |s.vRandom|)
  {
    var n := |s.vRandom|;
    forall t, i | 0 <= i < k && Intact(t, n) ensures Intact(Swapped(t, i, picks[i]), n) {
      SwappedIntact(t, n, i, picks[i]);
    }
    ShuffleKeeps(s, picks, k, (t: State) => Intact(t, n));
  }

  ghost predicate Exchanged(v: seq<int>, w: seq<int>, i: nat, j: nat) {
    |w| == |v| && i <= j < |v| && w == v[i := v[j]][j := v[i]] && multiset(w) == multiset(v)
  }

  lemma SwapsTwo(s: State, i: nat, j: nat)
    requires RandomOk(s.mapInfo, s.vRandom) && i <= j < |s.vRandom|
    ensures Exchanged(s.vRandom, Swapped(s, i, j).vRandom, i, j)
  {
    assert s.vRandom[i] in s.mapInfo && s.vRandom[j] in s.mapInfo;
    var v := s.vRandom;
    assert Swapped(s, i, j).vRandom == v[i := v[j]][j := v[i]];
  }

  lemma ShuffleTrials(h: Hasher, s: State, picks: seq<nat>, k: nat)
    requires k <= |picks|
    ensures TrialsKept(s, Shuffle(s, picks, k), EMPTY)
  {
    forall t: State, i | 0 <= i < k && t.mapInfo.Keys == s.mapInfo.Keys && TrialsKept(s, t, EMPTY)
      ensures Swapped(t, i, picks[i]).mapInfo.Keys == s.mapInfo.Keys && TrialsKept(s, Swapped(t, i, picks[i]), EMPTY)
    {
      SwapTrials(s, t, i, picks[i]);
    }
    ShuffleKeeps(s, picks, k, (t: State) => t.mapInfo.Keys == s.mapInfo.Keys && TrialsKept(s, t, EMPTY));
  }

  lemma SwapTrials(s: State, t: State, i: nat, j: nat)
    requires t.mapInfo.Keys == s.mapInfo.Keys && TrialsKept(s, t, EMPTY)
    ensures Swapped(t, i, j).mapInfo.Keys == s.mapInfo.Keys && TrialsKept(s, Swapped(t, i, j), EMPTY)
  {
  }

  /** What an operation records of an entry: a success sets the counter of failures
      back, a failure that counts adds to it, anything else keeps both. */
  ghost predicate Records(s: State, op: Op, t: State, id: int)
    requires id in s.mapInfo && id in t.mapInfo
  {
    var was, now := s.mapInfo[id], t.mapInfo[id];
    && now.service == was.service
    && (if Succeeds(op, was) then now.nAttempts == 0 && now.nLastSuccess == now.nLastTry == op.nTime
        else now.nLastSuccess == was.nLastSuccess)
    && (Fails(op, was, s.nLastGood) ==>
          now.nAttempts == was.nAttempts + 1 && now.nLastCountAttempt == now.nLastTry == op.nTime)
    && (!Succeeds(op, was) && !Fails(op, was, s.nLastGood) ==> now.nAttempts == was.nAttempts)
    && (if op.OpAttempt? && op.service == was.service then now.nLastTry == op.nTime
        else Succeeds(op, was) || now.nLastTry == was.nLastTry)
  }

  lemma StepTrials(h: Hasher, s: State, op: Op, id: int)
    requires Inv(h, s) && Allowed(s, op) && id in s.mapInfo && id in Step(h, s, op).mapInfo
    ensures Records(s, op, Step(h, s, op), id)
  {
    match op
    case OpAdd(a) => AddTrials(h, s, a);
    case OpGood(service, nTime) => GoodTrials(h, s, service, nTime, id);
    case OpGetAddr(picks) => ShuffleTrials(h, s, picks, |picks|);
    case _ => ServiceKnown(h, s, id, op.service);
  }

  lemma AddLastGood(h: Hasher, s: State, a: Announcement)
    requires Inv(h, s)
    ensures Add(h, s, a).0.nLastGood == s.nLastGood
  {
    if a.routable {
      if a.service.addr in s.mapAddr {
        var id := s.mapAddr[a.service.addr];
        var info := Refreshed(s.mapInfo[id], a);
        assert RefOk(s.mapInfo, s.vvNew, {}, id);
        StatsInv(h, s, id, info, {}, 0);
        var t := s.(mapInfo := s.mapInfo[id := info]);
        if Worthwhile(info, a) {
          WeakenZero(h, t, {}, {id}, 0);
          PlaceLastGood(h, t, id, a.source, a.nNow);
        }
      } else {
        EnterInv(h, s, a);
        PlaceLastGood(h, Entered(s, a), s.nIdCount, a.source, a.nNow);
      }
    }
  }

  lemma PlaceLastGood(h: Hasher, s: State, id: int, source: NetAddr, nNow: int)
    requires InvExcept(h, s, {id}, 0) && id in s.mapInfo && !s.mapInfo[id].fInTried
    ensures Place(h, s, id, source, nNow).nLastGood == s.nLastGood
  {
  }

  lemma MakeTriedLastGood(h: Hasher, s: State, id: int)
    requires Inv(h, s) && id in s.mapInfo && !s.mapInfo[id].fInTried
    ensures MakeTried(h, s, id).nLastGood == s.nLastGood
  {
  }

  /** The time of the last success is that of any address, known or not. */
  lemma LastGoodIs(h: Hasher, s: State, op: Op)
    requires Inv(h, s) && Allowed(s, op)
    ensures Step(h, s, op).nLastGood == if op.OpGood? then op.nTime else s.nLastGood
  {
    match op
    case OpAdd(a) => AddLastGood(h, s, a);
    case OpGood(service, nTime) =>
      if Known(s, service) && !EntryOf(s, service).fInTried {
        var id, s' := s.mapAddr[service.addr], s.(nLastGood := nTime);
        var info := Succeeded(s.mapInfo[id], nTime);
        assert Inv(h, s');
        StatsInv(h, s', id, info, {}, 0);
        MakeTriedLastGood(h, s'.(mapInfo := s.mapInfo[id := info]), id);
      }
    case OpGetAddr(picks) =>
      ShuffleKeeps(s, picks, |picks|, (t: State) => t.nLastGood == s.nLastGood);
    case _ =>
  }

  // ----- Whole runs -----

  ghost predicate Follows(h: Hasher, s: State, op: Op, t: State) {
    Inv(h, s) && Allowed(s, op) && t == Step(h, s, op)
  }

  /** A run of operations, with the states between them. */
  ghost predicate Trace(h: Hasher, states: seq<State>, ops: seq<Op>) {
    |states| == |ops| + 1 && forall k :: 0 <= k < |ops| ==> Follows(h, states[k], ops[k], states[k + 1])
  }

  /** The entry is in the tables all the time. */
  ghost predicate Stays(states: seq<State>, id: int) {
    forall k :: 0 <= k < |states| ==> id in states[k].mapInfo
  }

  /** The failures that count among the first m operations, since the last success. */
  ghost function Failures(states: seq<State>, ops: seq<Op>, id: int, m: nat): nat
    requires |states| == |ops| + 1 && m <= |ops| && Stays(states, id)
  {
    if m == 0 then 0
    else
      var s, op := states[m - 1], ops[m - 1];
      if Succeeds(op, s.mapInfo[id]) then 0
      else Failures(states, ops, id, m - 1) + if Fails(op, s.mapInfo[id], s.nLastGood) then 1 else 0
  }

  /** The time of the last success among them; 0 if there was none. */
  ghost function LastSuccess(states: seq<State>, ops: seq<Op>, id: int, m: nat): int
    requires |states| == |ops| + 1 && m <= |ops| && Stays(states, id)
  {
    if m == 0 then 0
    else if Succeeds(ops[m - 1], states[m - 1].mapInfo[id]) then ops[m - 1].nTime
    else LastSuccess(states, ops, id, m - 1)
  }

  /** The entry has neither failed nor succeeded. */
  ghost predicate Untried(s: State, id: int) {
    id in s.mapInfo && s.mapInfo[id].nAttempts == 0 && s.mapInfo[id].nLastSuccess == 0
  }

  /** Over any run, as long as an entry that was untried stays in the tables: its
      counter is the number of its failures since its last success, and the time
      of that success is recorded. */
  lemma TrialsCounted(h: Hasher, states: seq<State>, ops: seq<Op>, id: int, m: nat)
    requires Trace(h, states, ops) && m <= |ops| && Stays(states, id) && Untried(states[0], id)
    ensures states[m].mapInfo[id].nAttempts == Failures(states, ops, id, m)
    ensures states[m].mapInfo[id].nLastSuccess == LastSuccess(states, ops, id, m)
  {
    forall k | 0 <= k < |ops| ensures Records(states[k], ops[k], states[k + 1], id) {
      assert Follows(h, states[k], ops[k], states[k + 1]);
      StepTrials(h, states[k], ops[k], id);
    }
    RecordsAdd(states, ops, id, m);
  }

  lemma {:induction false} RecordsAdd(states: seq<State>, ops: seq<Op>, id: int, m: nat)
    requires |states| == |ops| + 1 && m <= |ops| && Stays(states, id) && Untried(states[0], id)
    requires forall k :: 0 <= k < |ops| ==> Records(states[k], ops[k], states[k + 1], id)
    ensures states[m].mapInfo[id].nAttempts == Failures(states, ops, id, m)
    ensures states[m].mapInfo[id].nLastSuccess == LastSuccess(states, ops, id, m)
  {
    if m > 0 {
      RecordsAdd(states, ops, id, m - 1);
      assert Records(states[m - 1], ops[m - 1], states[m - 1 + 1], id);
    }
  }

  /** So three failures without any success make an entry terrible, and ten since
      a success more than a week ago, once a minute has passed since the last try;
      fewer than three do not, if it was seen in the last 30 days. */
  lemma TerribleAfter(h: Hasher, states: seq<State>, ops: seq<Op>, id: int, m: nat, nNow: int)
    requires Trace(h, states, ops) && m <= |ops| && Stays(states, id) && Untried(states[0], id)
    ensures var info, failures := states[m].mapInfo[id], Failures(states, ops, id, m);
      var success := LastSuccess(states, ops, id, m);
      && (info.nLastTry < nNow - 60 && success == 0 && failures >= 3 ==> IsTerrible(info, nNow))
      && (info.nLastTry < nNow - 60 && success < nNow - 7 * 24 * 3600 && failures >= 10 ==> IsTerrible(info, nNow))
      && (failures < 3 && 0 < info.nTime && nNow - 30 * 24 * 3600 <= info.nTime <= nNow + 600 ==>
            !IsTerrible(info, nNow))
  {
    TrialsCounted(h, states, ops, id, m);
  }

  /** An address that was added is untried. */
  lemma AddedUntried(h: Hasher, s: State, a: Announcement)
    requires Inv(h, s) && a.routable && a.service.addr !in s.mapAddr && s.nIdCount in Add(h, s, a).0.mapInfo
    ensures Untried(Add(h, s, a).0, s.nIdCount)
  {
    var id, e := s.nIdCount, Entered(s, a);
    EnterInv(h, s, a);
    var cell := CellFor(h, e.mapInfo[id], a.source);
    assert NewCellOk(h, e.mapInfo, e.vvNew, cell);
    NotThere(h, e.mapInfo, e.vvNew, {id}, id, cell);
    if CanInsert(e, cell, id, a.nNow) {
      CellTaken(h, e, cell, id, {id}, 0);
    } else {
      DeleteEffect(e, id);
    }
  }
}
