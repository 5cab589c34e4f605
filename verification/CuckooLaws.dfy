/**
  What an insertion into the cuckoo cache stores and loses (src/cuckoocache.h),
  when ageing happens, and what erasure does.
*/
module CuckooLaws {
  import opened CuckooCache

  // ----- The rounds of an insertion -----

  /** The table and the element in hand before a round of the loop. */
  datatype Round = Round(s: State, e: Element)

  ghost predicate AtPlace(h: Hash, s: State, e: Element)
    requires Shaped(s)
  {
    exists k :: 0 <= k < 8 && s.table[Loc(h, |s.table|, e, k)] == e
  }

  /** None of the eight places of e may be overwritten. */
  ghost predicate Full(h: Hash, s: State, e: Element)
    requires Shaped(s)
  {
    forall k :: 0 <= k < 8 ==> !s.dead[Loc(h, |s.table|, e, k)]
  }

  /** The element in hand is written to slot l. */
  ghost predicate Writes(h: Hash, a: Round, l: nat, t: State) {
    && Shaped(a.s) && l < |a.s.table| && HasPlace(h, |a.s.table|, a.e, l)
    && t.table == a.s.table[l := a.e] && t.dead == a.s.dead[l := false]
  }

  /** All places are kept, and the element at one of them is exchanged. */
  ghost predicate Swaps(h: Hash, a: Round, b: Round) {
    Shaped(a.s) && Full(h, a.s, a.e) && exists l: nat :: Writes(h, a, l, b.s) && b.e == a.s.table[l]
  }

  ghost predicate Rounds(h: Hash, path: seq<Round>) {
    path != [] && forall i :: 0 < i < |path| ==> Swaps(h, path[i - 1], path[i])
  }

  /** The last round finds a free place. */
  ghost predicate Settles(h: Hash, a: Round, t: State) {
    Shaped(a.s) && exists l: nat :: Writes(h, a, l, t) && a.s.dead[l]
  }

  lemma RoundsGrow(h: Hash, a: Round, path: seq<Round>)
    requires Rounds(h, path) && Swaps(h, a, path[0])
    ensures Rounds(h, [a] + path)
  {
    var all := [a] + path;
    forall i | 0 < i < |all| ensures Swaps(h, all[i - 1], all[i]) {
      if i > 1 { assert all[i - 1] == path[i - 2] && all[i] == path[i - 1]; }
    }
  }

  lemma OneRound(h: Hash, s: State, e: Element, last: nat, young: bool)
    requires Shaped(s)
    ensures var l := Loc(h, |s.table|, e, Target(h, s, e, last));
      && l < |s.table| && Writes(h, Round(s, e), l, Put(s, l, e, young))
      && (s.dead[l] <==> !Full(h, s, e))
      && (!s.dead[l] ==> Swaps(h, Round(s, e), Round(Put(s, l, e, young), s.table[l])))
  {
    var k := Target(h, s, e, last);
    var l := Loc(h, |s.table|, e, k);
    assert HasPlace(h, |s.table|, e, l);
    FirstDeadFull(h, s, e);
    assert Writes(h, Round(s, e), l, Put(s, l, e, young));
  }

  lemma FirstDeadFull(h: Hash, s: State, e: Element)
    requires Shaped(s)
    ensures FirstDead(h, s.dead, e, 0) == 8 <==> Full(h, s, e)
  {
  }

  /** The element just put in is not moved again at once, unless two places of the
      one in hand are the same. */
  lemma MovesOn(h: Hash, s: State, e: Element, last: nat)
    requires Shaped(s) && Full(h, s, e)
    requires forall j, k :: 0 <= j < k < 8 ==> Loc(h, |s.table|, e, j) != Loc(h, |s.table|, e, k)
    ensures Loc(h, |s.table|, e, Target(h, s, e, last)) != last
  {
    FirstDeadFull(h, s, e);
    var j, k := IndexOf(h, |s.table|, e, last, 0), Target(h, s, e, last);
    assert j < 8 ==> Loc(h, |s.table|, e, j) != Loc(h, |s.table|, e, k);
  }

  /** The first element to be displaced is the one at the second place. */
  lemma SecondPlaceFirst(h: Hash, s: State, e: Element)
    requires Shaped(s) && Full(h, s, e)
    ensures Target(h, s, e, INVALID) == 1
  {
    FirstDeadFull(h, s, e);
    assert IndexOf(h, |s.table|, e, INVALID, 0) == 8;
  }

  /** An element is given up only after the full number of rounds, in each of which
      all eight places of the element in hand were kept; otherwise the last
      element in hand has found a free place before. */
  lemma {:induction false} ChainRounds(h: Hash, s: State, e: Element, last: nat, young: bool, depth: nat)
    returns (path: seq<Round>)
    requires Shaped(s)
    ensures Rounds(h, path) && path[0] == Round(s, e)
    ensures var r, end := Chain(h, s, e, last, young, depth), path[|path| - 1];
      match r.1
      case Some(x) => |path| == depth + 1 && r.0 == end.s && x == end.e
      case None => |path| <= depth && Settles(h, end, r.0)
    decreases depth
  {
    path := [Round(s, e)];
    if depth > 0 {
      var l := Loc(h, |s.table|, e, Target(h, s, e, last));
      OneRound(h, s, e, last, young);
      if !s.dead[l] {
        var more := ChainRounds(h, Put(s, l, e, young), s.table[l], l, s.epoch[l], depth - 1);
        RoundsGrow(h, path[0], more);
        path := path + more;
      }
    }
  }

  /** What an insertion stores: after ageing, an element that is at one of its
      places is kept there, and one that has a free place gets it. Nothing is
      lost, and the element is found. */
  lemma Stored(h: Hash, s: State, e: Element)
    requires Inv(h, s)
    requires var t := EpochCheck(s); Shaped(t) && (AtPlace(h, t, e) || (!Full(h, t, e) && s.depthLimit >= 1))
    ensures var r := Insert(h, s, e);
      && r.1 == None && Live(r.0) == Live(EpochCheck(s)) + {e} && Contains(h, r.0, e, false).1
  {
    var t, r := EpochCheck(s), Insert(h, s, e);
    EpochCheckInv(h, s);
    InsertInv(h, s, e);
    if FirstMatch(h, t.table, e, 0) == 8 {
      OneRound(h, t, e, INVALID, true);
    }
    assert e in Live(r.0);
    LiveIsFound(h, r.0, e, false);
  }

  /** What it loses, and when: the element is at none of its places, and in
      depthLimit rounds no place was free. */
  lemma LostAfterRounds(h: Hash, s: State, e: Element) returns (path: seq<Round>)
    requires Inv(h, s) && Insert(h, s, e).1.Some?
    ensures var t, r, n := EpochCheck(s), Insert(h, s, e), s.depthLimit;
      && Shaped(t) && !AtPlace(h, t, e) && Rounds(h, path) && path[0] == Round(t, e)
      && |path| == n + 1 && r == (path[n].s, Some(path[n].e))
  {
    var t := EpochCheck(s);
    path := ChainRounds(h, t, e, INVALID, true, t.depthLimit);
  }

  /** So the first insertion after setup is always stored. */
  lemma FirstStored(h: Hash, s: State, newSize: nat, depthLimit: nat, e: Element)
    requires newSize < WORD && depthLimit >= 1
    ensures var r := Insert(h, Setup(s, newSize, depthLimit), e);
      r.1 == None && Live(r.0) == {e} && Contains(h, r.0, e, false).1
  {
    var t := Setup(s, newSize, depthLimit);
    SetupInv(h, s, newSize, depthLimit);
    assert t.dead[Loc(h, |t.table|, e, 0)];
    assert EpochCheck(t).dead == t.dead;
    assert !Full(h, EpochCheck(t), e);
    assert Live(EpochCheck(t)) == {};
    Stored(h, t, e);
  }

  /** Two epochs take nine tenths of the slots, if the size times 45 is a 32-bit
      number. */
  lemma SetupSizes(s: State, newSize: nat, depthLimit: nat)
    requires newSize < WORD
    ensures var t := Setup(s, newSize, depthLimit);
      && |t.table| == Max(2, newSize) && t.depthLimit == depthLimit && t.counter == t.epochSize
      && (2 < |t.table| && 45 * |t.table| < WORD ==>
           100 * t.epochSize <= 45 * |t.table| < 100 * (t.epochSize + 1))
  {
  }

  // ----- Ageing -----

  /** Slots are freed only when the counter has run out and the kept elements of
      the current epoch are as many as an epoch may have. Then all others are
      freed, and those elements become the old epoch. The counter does not run
      out again before the epoch can be full. */
  lemma AgesExactly(h: Hash, s: State)
    requires Inv(h, s)
    ensures var t := EpochCheck(s);
      var due := s.counter == 0 && YoungCount(s) >= s.epochSize;
      && Shaped(t)
      && (forall i :: 0 <= i < |s.table| ==> (t.dead[i] <==> s.dead[i] || (due && !s.epoch[i])))
      && (forall i :: 0 <= i < |s.table| ==> (t.epoch[i] <==> s.epoch[i] && !due))
      && (if s.counter > 0 then t.counter == s.counter - 1
          else t.counter > 0 && t.counter + YoungCount(t) >= s.epochSize)
  {
    if s.counter == 0 && YoungCount(s) >= s.epochSize {
      NoneYoung(EpochCheck(s).dead, EpochCheck(s).epoch, |s.table|);
    }
  }

  // ----- Erasure -----

  /** Apart from the fill value, which is 0, every element of the table is at one
      of its places, and only once. */
  ghost predicate Unique(h: Hash, s: State)
    requires Shaped(s)
  {
    && (forall i :: 0 <= i < |s.table| && s.table[i] != 0 ==> HasPlace(h, |s.table|, s.table[i], i))
    && (forall i, j :: 0 <= i < j < |s.table| && s.table[i] == s.table[j] ==> s.table[i] == 0)
  }

  /** The element in hand is not in the table. */
  ghost predicate InHand(s: State, e: Element) { e == 0 || e !in s.table }

  lemma PutUnique(h: Hash, s: State, l: nat, e: Element, young: bool)
    requires Shaped(s) && l < |s.table| && Unique(h, s) && InHand(s, e) && HasPlace(h, |s.table|, e, l)
    ensures Unique(h, Put(s, l, e, young)) && InHand(Put(s, l, e, young), s.table[l])
  {
  }

  lemma {:induction false} ChainUnique(h: Hash, s: State, e: Element, last: nat, young: bool, depth: nat)
    requires Shaped(s) && Unique(h, s) && InHand(s, e)
    ensures Unique(h, Chain(h, s, e, last, young, depth).0)
    decreases depth
  {
    if depth > 0 {
      var l := Loc(h, |s.table|, e, Target(h, s, e, last));
      assert HasPlace(h, |s.table|, e, l);
      PutUnique(h, s, l, e, young);
      if !s.dead[l] { ChainUnique(h, Put(s, l, e, young), s.table[l], l, s.epoch[l], depth - 1); }
    }
  }

  lemma StepUnique(h: Hash, s: State, op: Op)
    requires Shaped(s) && Unique(h, s)
    ensures Unique(h, Step(h, s, op))
  {
    if op.InsertOp? {
      var t := EpochCheck(s);
      var k := FirstMatch(h, t.table, op.e, 0);
      if k < 8 {
        assert t.table[Loc(h, |t.table|, op.e, k) := op.e] == t.table;
      } else {
        NotAnywhere(h, t, op.e);
        ChainUnique(h, t, op.e, INVALID, true, t.depthLimit);
      }
    }
  }

  lemma NotAnywhere(h: Hash, s: State, e: Element)
    requires Shaped(s) && Unique(h, s) && FirstMatch(h, s.table, e, 0) == 8
    ensures InHand(s, e)
  {
  }

  lemma {:induction false} RunUnique(h: Hash, s: State, ops: seq<Op>)
    requires Shaped(s) && Unique(h, s)
    ensures Unique(h, Run(h, s, ops))
    decreases |ops|
  {
    if ops != [] {
      StepUnique(h, s, ops[0]);
      RunUnique(h, Step(h, s, ops[0]), ops[1..]);
    }
  }

  /** After any run of a new cache: a lookup with erasure that finds the element
      allows its slot, and no other, to be overwritten. The element need not be
      kept from then on, and everything else is as before. */
  lemma EraseReleases(h: Hash, newSize: nat, depthLimit: nat, ops: seq<Op>, s: State, e: Element) returns (l: nat)
    requires newSize < WORD && s == Run(h, NewCache(newSize, depthLimit), ops) && e != 0 && Contains(h, s, e, true).1
    ensures var t := Contains(h, s, e, true).0;
      && l < |s.table| && s.table[l] == e && t == s.(dead := s.dead[l := true])
      && Live(t) == Live(s) - {e}
  {
    RunUnique(h, NewCache(newSize, depthLimit), ops);
    l := Loc(h, |s.table|, e, FirstMatch(h, s.table, e, 0));
    ErasedOne(s, l, e);
  }

  /** A cache that was not used before. */
  function NewCache(newSize: nat, depthLimit: nat): (s: State)
    requires newSize < WORD
    ensures Shaped(s) && forall i :: 0 <= i < |s.table| ==> s.table[i] == 0
  {
    Setup(State([], [], [], 0, 0, 0), newSize, depthLimit)
  }

  lemma ErasedOne(s: State, l: nat, e: Element)
    requires Shaped(s) && l < |s.table| && s.table[l] == e
    requires forall i :: 0 <= i < |s.table| && s.table[i] == e ==> i == l
    ensures Live(s.(dead := s.dead[l := true])) == Live(s) - {e}
  {
    var t := s.(dead := s.dead[l := true]);
    forall x ensures x in Live(t) <==> x in Live(s) - {e} {
      if x in Live(s) && x != e {
        var i :| 0 <= i < |s.table| && !s.dead[i] && s.table[i] == x;
        assert !t.dead[i] && t.table[i] == x;
      }
    }
  }
}
