/**
  The cuckoo cache as an object: each method is proved against the function of
  the same name in CuckooCache.
*/
module CuckooTable {
  import C = CuckooCache

  class Cache {
    const hash: C.Hash
    const collectionFlags: C.BitPackedFlags
    var table: seq<C.Element>
    var size: nat
    var epochFlags: seq<bool>
    var epochHeuristicCounter: nat
    var epochSize: nat
    var depthLimit: nat

    ghost function State(): C.State
      reads this, collectionFlags
    {
      C.State(table, collectionFlags.flags, epochFlags, epochHeuristicCounter, epochSize, depthLimit)
    }

    ghost predicate Valid()
      reads this, collectionFlags, collectionFlags.mem
    {
      collectionFlags.Valid() && size == |table|
    }

    /** Set up: there are at least two slots. */
    ghost predicate Ready()
      reads this, collectionFlags, collectionFlags.mem
    {
      Valid() && C.Shaped(State())
    }

    constructor (hash: C.Hash)
      ensures Valid() && this.hash == hash && table == [] && fresh(collectionFlags) && fresh(collectionFlags.mem)
    {
      this.hash := hash;
      collectionFlags := new C.BitPackedFlags(0);
      table, size, epochFlags, epochHeuristicCounter, epochSize, depthLimit := [], 0, [], 0, 0, 0;
    }

    method Setup(newSize: nat, logSize: nat) returns (n: nat)
      requires Valid() && newSize < C.WORD
      modifies this, collectionFlags
      ensures Ready() && State() == C.Setup(old(State()), newSize, logSize)
      ensures n == size && fresh(collectionFlags.mem)
    {
      depthLimit := logSize;
      size := if newSize < 2 then 2 else newSize;
      table := C.Resized(table, size, 0);
      collectionFlags.Setup(size);
      epochFlags := C.Resized(epochFlags, size, false);
      epochSize := if (45 * size) % C.WORD / 100 < 1 then 1 else (45 * size) % C.WORD / 100;
      epochHeuristicCounter := epochSize;
      n := size;
      assert collectionFlags.flags == C.Setup(old(State()), newSize, logSize).dead;
    }

    method ComputeHashes(e: C.Element) returns (locs: seq<nat>)
      requires Ready()
      ensures |locs| == 8 && forall k :: 0 <= k < 8 ==> locs[k] == C.Loc(hash, size, e, k)
    {
      locs := [C.Loc(hash, size, e, 0), C.Loc(hash, size, e, 1), C.Loc(hash, size, e, 2), C.Loc(hash, size, e, 3),
               C.Loc(hash, size, e, 4), C.Loc(hash, size, e, 5), C.Loc(hash, size, e, 6), C.Loc(hash, size, e, 7)];
    }

    method CountYoung() returns (n: nat)
      requires Ready()
      ensures n == C.YoungCount(State())
    {
      n := 0;
      for i := 0 to size
        invariant n == C.Young(collectionFlags.flags, epochFlags, i)
      {
        var collected := collectionFlags.BitIsSet(i);
        n := n + if epochFlags[i] && !collected then 1 else 0;
      }
    }

    /** Every slot of the old epoch may be overwritten; the rest is old now. */
    method StartEpoch()
      requires Ready()
      modifies this, collectionFlags, collectionFlags.mem
      ensures Ready() && collectionFlags.mem == old(collectionFlags.mem)
      ensures State() == old(State()).(dead := C.Aged(old(collectionFlags.flags), old(epochFlags)),
                                       epoch := seq(old(size), i => false))
    {
      ghost var was := State();
      for i := 0 to size
        invariant Ready() && collectionFlags.mem == old(collectionFlags.mem)
        invariant State() == was.(dead := collectionFlags.flags, epoch := epochFlags)
        invariant forall j :: 0 <= j < i ==>
          collectionFlags.flags[j] == (was.dead[j] || !was.epoch[j]) && !epochFlags[j]
        invariant forall j :: i <= j < size ==> collectionFlags.flags[j] == was.dead[j] && epochFlags[j] == was.epoch[j]
      {
        if epochFlags[i] {
          epochFlags := epochFlags[i := false];
        } else {
          collectionFlags.BitSet(i);
        }
      }
      assert collectionFlags.flags == C.Aged(was.dead, was.epoch);
      assert epochFlags == seq(old(size), i => false);
    }

    method EpochCheck()
      requires Ready()
      modifies this, collectionFlags, collectionFlags.mem
      ensures Ready() && collectionFlags.mem == old(collectionFlags.mem)
      ensures State() == C.EpochCheck(old(State()))
    {
      if epochHeuristicCounter != 0 {
        epochHeuristicCounter := epochHeuristicCounter - 1;
        return;
      }
      var epochUnusedCount := CountYoung();
      if epochUnusedCount >= epochSize {
        StartEpoch();
        epochHeuristicCounter := epochSize;
      } else {
        epochHeuristicCounter := C.Max(1, C.Max(epochSize / 16, epochSize - epochUnusedCount));
      }
    }

    method Place(l: nat, e: C.Element, young: bool)
      requires Ready() && l < size
      modifies this, collectionFlags, collectionFlags.mem
      ensures Ready() && collectionFlags.mem == old(collectionFlags.mem)
      ensures State() == C.Put(old(State()), l, e, young)
    {
      table := table[l := e];
      collectionFlags.BitUnset(l);
      epochFlags := epochFlags[l := young];
    }

    method FindMatch(locs: seq<nat>, e: C.Element) returns (k: nat)
      requires Ready() && |locs| == 8 && forall j :: 0 <= j < 8 ==> locs[j] == C.Loc(hash, size, e, j)
      ensures k == C.FirstMatch(hash, table, e, 0)
    {
      k := 0;
      while k < 8 && table[locs[k]] != e
        invariant k <= 8 && C.FirstMatch(hash, table, e, 0) == C.FirstMatch(hash, table, e, k)
      {
        k := k + 1;
      }
    }

    method FindDead(locs: seq<nat>, e: C.Element) returns (k: nat)
      requires Ready() && |locs| == 8 && forall j :: 0 <= j < 8 ==> locs[j] == C.Loc(hash, size, e, j)
      ensures k == C.FirstDead(hash, collectionFlags.flags, e, 0)
    {
      k := 0;
      while k < 8
        invariant k <= 8 && C.FirstDead(hash, collectionFlags.flags, e, 0) ==
          C.FirstDead(hash, collectionFlags.flags, e, k)
      {
        var collected := collectionFlags.BitIsSet(locs[k]);
        if collected { return; }
        k := k + 1;
      }
    }

    method FindLast(locs: seq<nat>, e: C.Element, last: nat) returns (k: nat)
      requires Ready() && |locs| == 8 && forall j :: 0 <= j < 8 ==> locs[j] == C.Loc(hash, size, e, j)
      ensures k == C.IndexOf(hash, size, e, last, 0)
    {
      k := 0;
      while k < 8 && locs[k] != last
        invariant k <= 8 && C.IndexOf(hash, size, e, last, 0) == C.IndexOf(hash, size, e, last, k)
      {
        k := k + 1;
      }
    }

    /** The slot that receives e in this round. */
    method Choose(e: C.Element, last: nat) returns (l: nat)
      requires Ready()
      ensures l == C.Loc(hash, size, e, C.Target(hash, State(), e, last))
    {
      var locs := ComputeHashes(e);
      var k := FindDead(locs, e);
      if k == 8 {
        var index := FindLast(locs, e, last);
        k := (1 + index) % 8;
      }
      l := locs[k];
    }

    /** One round of the displacement loop. */
    method Displace(e: C.Element, last: nat, young: bool, ghost depth: nat)
      returns (done: bool, e': C.Element, last': nat, young': bool)
      requires Ready() && depth > 0
      modifies this, collectionFlags, collectionFlags.mem
      ensures Ready() && collectionFlags.mem == old(collectionFlags.mem)
      ensures depthLimit == old(depthLimit)
      ensures C.Chain(hash, old(State()), e, last, young, depth) ==
        if done then (State(), C.None) else C.Chain(hash, State(), e', last', young', depth - 1)
    {
      last' := Choose(e, last);
      done := collectionFlags.BitIsSet(last');
      e', young' := table[last'], epochFlags[last'];
      Place(last', e, young);
    }

    method Chase(x: C.Element) returns (ghost lost: C.Option<C.Element>)
      requires Ready()
      modifies this, collectionFlags, collectionFlags.mem
      ensures Ready() && collectionFlags.mem == old(collectionFlags.mem)
      ensures (State(), lost) == C.Chain(hash, old(State()), x, C.INVALID, true, old(depthLimit))
    {
      var e: nat, last: nat, young := x, C.INVALID, true;
      var depth := 0;
      while depth < depthLimit
        invariant 0 <= depth <= depthLimit
        invariant Ready() && collectionFlags.mem == old(collectionFlags.mem)
        invariant C.Chain(hash, State(), e, last, young, depthLimit - depth) ==
                  C.Chain(hash, old(State()), x, C.INVALID, true, old(depthLimit))
      {
        var done;
        done, e, last, young := Displace(e, last, young, depthLimit - depth);
        if done { return C.None; }
        depth := depth + 1;
      }
      return C.Some(e);
    }

    method Insert(e: C.Element) returns (ghost lost: C.Option<C.Element>)
      requires Ready()
      modifies this, collectionFlags, collectionFlags.mem
      ensures Ready() && collectionFlags.mem == old(collectionFlags.mem)
      ensures (State(), lost) == C.Insert(hash, old(State()), e)
    {
      EpochCheck();
      var locs := ComputeHashes(e);
      var k := FindMatch(locs, e);
      if k < 8 {
        assert table[locs[k] := e] == table;
        collectionFlags.BitUnset(locs[k]);
        epochFlags := epochFlags[locs[k] := true];
        return C.None;
      }
      lost := Chase(e);
    }

    method Contains(e: C.Element, erase: bool) returns (found: bool)
      requires Ready()
      modifies collectionFlags, collectionFlags.mem
      ensures Ready() && collectionFlags.mem == old(collectionFlags.mem)
      ensures (State(), found) == C.Contains(hash, old(State()), e, erase)
    {
      var locs := ComputeHashes(e);
      var k := FindMatch(locs, e);
      found := k < 8;
      if found && erase {
        collectionFlags.BitSet(locs[k]);
      }
    }
  }
}
