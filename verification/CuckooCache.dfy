/**
  The cuckoo cache (src/cuckoocache.h): a fixed table in which every element has
  eight possible places, with erasure by flags that are read again only on the
  next insertion, and ageing by two epochs.

  The eight hash functions are uninterpreted. The depth limit, a rounded
  logarithm in the source, is a parameter: nothing below depends on its value.
*/
module CuckooCache {
  import Arithmetic

  type Element = nat
  type Hash = (nat, Element) -> nat

  const WORD := 0x1_0000_0000
  const INVALID := 0xFFFF_FFFF

  datatype Option<T> = None | Some(value: T)

  // ----- Bit-packed flags -----

  /** 1 << k for an eight-bit word. */
  function Mask(k: nat): bv8
    requires k < 8
  {
    if k == 0 then 1 else if k == 1 then 2 else if k == 2 then 4 else if k == 3 then 8
    else if k == 4 then 16 else if k == 5 then 32 else if k == 6 then 64 else 128
  }

  predicate Bit(m: bv8, k: nat)
    requires k < 8
  {
    Mask(k) & m != 0
  }

  lemma SetBit(m: bv8, k: nat, j: nat)
    requires k < 8 && j < 8
    ensures Bit(m | Mask(k), j) == (j == k || Bit(m, j))
  {
  }

  lemma UnsetBit(m: bv8, k: nat, j: nat)
    requires k < 8 && j < 8
    ensures Bit(m & !Mask(k), j) == (j != k && Bit(m, j))
  {
  }

  lemma FullWord(j: nat)
    requires j < 8
    ensures Bit(0xFF, j)
  {
  }

  predicate IsSet(mem: seq<bv8>, s: nat)
    requires s < 8 * |mem|
  {
    Bit(mem[s / 8], s % 8)
  }

  class BitPackedFlags {
    var mem: array<bv8>
    ghost var flags: seq<bool>

    /** The packed words are the sequence of flags. */
    ghost predicate Valid()
      reads this, mem
    {
      && |flags| <= 8 * mem.Length
      && forall s :: 0 <= s < |flags| ==> flags[s] == IsSet(mem[..], s)
    }

    constructor (size: nat)
      ensures Valid() && fresh(mem)
      ensures |flags| == size && forall s :: 0 <= s < size ==> flags[s]
    {
      var words := (size + 7) / 8;
      mem := new bv8[words];
      flags := seq(size, i => true);
      new;
      for i := 0 to words
        invariant mem.Length == words && fresh(mem)
        invariant flags == seq(size, i => true)
        invariant forall k :: 0 <= k < i ==> mem[k] == 0xFF
      {
        mem[i] := 0xFF;
      }
      forall s | 0 <= s < size ensures IsSet(mem[..], s) {
        FullWord(s % 8);
      }
    }

    method Setup(b: nat)
      requires Valid()
      modifies this
      ensures Valid() && fresh(mem)
      ensures |flags| == b && forall s :: 0 <= s < b ==> flags[s]
    {
      var d := new BitPackedFlags(b);
      mem, flags := d.mem, d.flags;
    }

    method BitSet(s: nat)
      requires Valid() && s < |flags|
      modifies this, mem
      ensures Valid() && mem == old(mem) && flags == old(flags)[s := true]
    {
      forall j | 0 <= j < 8 ensures Bit(mem[s / 8] | Mask(s % 8), j) == (j == s % 8 || Bit(mem[s / 8], j)) {
        SetBit(mem[s / 8], s % 8, j);
      }
      mem[s / 8] := mem[s / 8] | Mask(s % 8);
      flags := flags[s := true];
    }

    method BitUnset(s: nat)
      requires Valid() && s < |flags|
      modifies this, mem
      ensures Valid() && mem == old(mem) && flags == old(flags)[s := false]
    {
      forall j | 0 <= j < 8 ensures Bit(mem[s / 8] & !Mask(s % 8), j) == (j != s % 8 && Bit(mem[s / 8], j)) {
        UnsetBit(mem[s / 8], s % 8, j);
      }
      mem[s / 8] := mem[s / 8] & !Mask(s % 8);
      flags := flags[s := false];
    }

    method BitIsSet(s: nat) returns (r: bool)
      requires Valid() && s < |flags|
      ensures r == flags[s]
    {
      r := Mask(s % 8) & mem[s / 8] != 0;
    }
  }

  // ----- The table as a value -----

  /** `dead` are the collection flags: a set flag allows the slot to be
      overwritten. `epoch` marks the slots of the current epoch. */
  datatype State = State(
    table: seq<Element>, dead: seq<bool>, epoch: seq<bool>, counter: nat, epochSize: nat, depthLimit: nat)

  ghost predicate Shaped(s: State) {
    2 <= |s.table| == |s.dead| == |s.epoch| < WORD
  }

  /** compute_hashes: the k-th of the eight places of an element. */
  function Loc(h: Hash, size: nat, e: Element, k: nat): (l: nat)
    requires 0 < size < WORD
    ensures l < size
  {
    LocIs(h(k, e) % WORD, size);
    Arithmetic.Quot(Arithmetic.Times(h(k, e) % WORD, size), WORD)
  }

  /** A place is the high word of the product of hash and size. */
  lemma LocIs(x: nat, size: nat)
    requires x < WORD && size > 0
    ensures 0 <= x * size == Arithmetic.Times(x, size)
    ensures Arithmetic.Quot(Arithmetic.Times(x, size), WORD) == x * size / WORD < size
  {
    Arithmetic.MulMono(0, x, size);
    Arithmetic.MulMono(x, WORD - 1, size);
    assert (WORD - 1) * size == WORD * size - size;
    Arithmetic.TimesIs(x, size);
    Arithmetic.QuotIs(x * size, WORD);
  }

  ghost predicate HasPlace(h: Hash, size: nat, e: Element, i: nat)
    requires 0 < size < WORD
  {
    exists k :: 0 <= k < 8 && Loc(h, size, e, k) == i
  }

  /** The elements that must not be forgotten. */
  ghost function Live(s: State): set<Element>
    requires Shaped(s)
  {
    set i | 0 <= i < |s.table| && !s.dead[i] :: s.table[i]
  }

  /** Every kept element is at one of its own places. */
  ghost predicate Placed(h: Hash, s: State)
    requires Shaped(s)
  {
    forall i :: 0 <= i < |s.table| && !s.dead[i] ==> HasPlace(h, |s.table|, s.table[i], i)
  }

  /** The number of kept elements of the current epoch in the first n slots. */
  function Young(dead: seq<bool>, epoch: seq<bool>, n: nat): nat
    requires n <= |dead| == |epoch|
  {
    if n == 0 then 0 else Young(dead, epoch, n - 1) + if epoch[n - 1] && !dead[n - 1] then 1 else 0
  }

  function YoungCount(s: State): nat
    requires Shaped(s)
  {
    Young(s.dead, s.epoch, |s.table|)
  }

  /** The bound on the current epoch that the heuristic counter enforces. */
  function YoungBound(epochSize: nat): nat {
    epochSize + Max(1, epochSize / 16)
  }

  function Max(a: nat, b: nat): nat { if a < b then b else a }

  ghost predicate Inv(h: Hash, s: State) {
    && Shaped(s) && Placed(h, s)
    && s.epochSize >= 1
    && YoungCount(s) + s.counter <= YoungBound(s.epochSize)
  }

  // ----- Writing one slot -----

  function Put(s: State, l: nat, e: Element, young: bool): State
    requires Shaped(s) && l < |s.table|
  {
    s.(table := s.table[l := e], dead := s.dead[l := false], epoch := s.epoch[l := young])
  }

  function One(b: bool): nat { if b then 1 else 0 }

  lemma {:induction false} YoungFrame(dead: seq<bool>, epoch: seq<bool>, dead': seq<bool>, epoch': seq<bool>, n: nat)
    requires n <= |dead| == |epoch| && |dead'| == |dead| && |epoch'| == |epoch|
    requires forall i :: 0 <= i < n ==> (epoch[i] && !dead[i]) == (epoch'[i] && !dead'[i])
    ensures Young(dead, epoch, n) == Young(dead', epoch', n)
  {
    if n > 0 { YoungFrame(dead, epoch, dead', epoch', n - 1); }
  }

  lemma {:induction false} YoungUpdate(dead: seq<bool>, epoch: seq<bool>, l: nat, d: bool, young: bool, n: nat)
    requires l < n <= |dead| == |epoch|
    ensures Young(dead[l := d], epoch[l := young], n) ==
            Young(dead, epoch, n) - One(epoch[l] && !dead[l]) + One(young && !d)
  {
    if l == n - 1 {
      YoungFrame(dead, epoch, dead[l := d], epoch[l := young], n - 1);
    } else {
      YoungUpdate(dead, epoch, l, d, young, n - 1);
    }
  }

  lemma PutCounts(s: State, l: nat, e: Element, young: bool)
    requires Shaped(s) && l < |s.table|
    ensures YoungCount(Put(s, l, e, young)) == YoungCount(s) - One(s.epoch[l] && !s.dead[l]) + One(young)
  {
    YoungUpdate(s.dead, s.epoch, l, false, young, |s.table|);
  }

  lemma PutPlaced(h: Hash, s: State, l: nat, e: Element, young: bool)
    requires Shaped(s) && Placed(h, s) && l < |s.table| && HasPlace(h, |s.table|, e, l)
    ensures Placed(h, Put(s, l, e, young))
  {
  }

  lemma PutLive(s: State, l: nat, e: Element, young: bool, x: Element)
    requires Shaped(s) && l < |s.table|
    ensures x in Live(Put(s, l, e, young)) ==> x in Live(s) || x == e
    ensures x in Live(s) ==> x in Live(Put(s, l, e, young)) || (!s.dead[l] && x == s.table[l])
    ensures e in Live(Put(s, l, e, young))
  {
    var t := Put(s, l, e, young);
    assert !t.dead[l] && t.table[l] == e;
    if x in Live(s) {
      var i :| 0 <= i < |s.table| && !s.dead[i] && s.table[i] == x;
      assert i != l ==> !t.dead[i] && t.table[i] == x;
    }
  }

  /** Writing a kept slot trades the element that was there for the new one. */
  lemma PutSwaps(s: State, l: nat, e: Element, young: bool)
    requires Shaped(s) && l < |s.table| && !s.dead[l]
    ensures Live(Put(s, l, e, young)) + {s.table[l]} == Live(s) + {e}
  {
    forall x ensures x in Live(Put(s, l, e, young)) + {s.table[l]} <==> x in Live(s) + {e} {
      PutLive(s, l, e, young, x);
    }
  }

  lemma PutAdds(s: State, l: nat, e: Element, young: bool)
    requires Shaped(s) && l < |s.table| && (s.dead[l] || s.table[l] == e)
    ensures Live(Put(s, l, e, young)) == Live(s) + {e}
  {
    forall x ensures x in Live(Put(s, l, e, young)) <==> x in Live(s) + {e} {
      PutLive(s, l, e, young, x);
    }
  }

  // ----- Ageing -----

  function Aged(dead: seq<bool>, epoch: seq<bool>): (r: seq<bool>)
    requires |dead| == |epoch|
  {
    seq(|dead|, i requires 0 <= i < |dead| => dead[i] || !epoch[i])
  }

  /** epoch_check. */
  function EpochCheck(s: State): State
    requires Shaped(s)
  {
    if s.counter != 0 then s.(counter := s.counter - 1)
    else if YoungCount(s) >= s.epochSize then
      s.(dead := Aged(s.dead, s.epoch), epoch := seq(|s.epoch|, i => false), counter := s.epochSize)
    else s.(counter := Max(1, Max(s.epochSize / 16, s.epochSize - YoungCount(s))))
  }

  lemma {:induction false} NoneYoung(dead: seq<bool>, epoch: seq<bool>, n: nat)
    requires n <= |dead| == |epoch| && forall i :: 0 <= i < n ==> !epoch[i]
    ensures Young(dead, epoch, n) == 0
  {
    if n > 0 { NoneYoung(dead, epoch, n - 1); }
  }

  /** Ageing leaves room for one more element of the new epoch, moves nothing,
      and forgets only elements of the old epoch. */
  lemma EpochCheckInv(h: Hash, s: State)
    requires Inv(h, s)
    ensures var t := EpochCheck(s);
      && Shaped(t) && Placed(h, t) && t.table == s.table && t.epochSize == s.epochSize && t.depthLimit == s.depthLimit
      && YoungCount(t) + t.counter + 1 <= YoungBound(s.epochSize)
      && (forall i :: 0 <= i < |s.table| && t.dead[i] ==> s.dead[i] || !s.epoch[i])
      && (forall i :: 0 <= i < |s.table| && s.dead[i] ==> t.dead[i])
  {
    if s.counter == 0 && YoungCount(s) >= s.epochSize {
      NoneYoung(EpochCheck(s).dead, EpochCheck(s).epoch, |s.table|);
    }
  }

  // ----- Insertion -----

  /** The first place, from the k-th on, that holds e; 8 if none does. */
  function FirstMatch(h: Hash, table: seq<Element>, e: Element, k: nat): (r: nat)
    requires k <= 8 && 0 < |table| < WORD
    ensures k <= r <= 8
    ensures r < 8 ==> table[Loc(h, |table|, e, r)] == e
    ensures forall j :: k <= j < r ==> table[Loc(h, |table|, e, j)] != e
    decreases e, 8 - k
  {
    if k == 8 || table[Loc(h, |table|, e, k)] == e then k else FirstMatch(h, table, e, k + 1)
  }

  /** The first place of e, from the k-th on, that may be overwritten. */
  function FirstDead(h: Hash, dead: seq<bool>, e: Element, k: nat): (r: nat)
    requires k <= 8 && 0 < |dead| < WORD
    ensures k <= r <= 8
    ensures r < 8 ==> dead[Loc(h, |dead|, e, r)]
    ensures forall j :: k <= j < r ==> !dead[Loc(h, |dead|, e, j)]
    decreases e, 8 - k
  {
    if k == 8 || dead[Loc(h, |dead|, e, k)] then k else FirstDead(h, dead, e, k + 1)
  }

  /** Which place of e, from the k-th on, slot l is; 8 if it is none. */
  function IndexOf(h: Hash, size: nat, e: Element, l: nat, k: nat): (r: nat)
    requires k <= 8 && 0 < size < WORD
    ensures k <= r <= 8
    ensures r < 8 ==> Loc(h, size, e, r) == l
    ensures forall j :: k <= j < r ==> Loc(h, size, e, j) != l
    decreases e, 8 - k
  {
    if k == 8 || Loc(h, size, e, k) == l then k else IndexOf(h, size, e, l, k + 1)
  }

  /** Which place of e receives it: the first free one, or else the one after
      the place last written (the second one at first). */
  function Target(h: Hash, s: State, e: Element, last: nat): (k: nat)
    requires Shaped(s)
    ensures k < 8
    ensures s.dead[Loc(h, |s.table|, e, k)] <==> FirstDead(h, s.dead, e, 0) < 8
  {
    var k := FirstDead(h, s.dead, e, 0);
    if k < 8 then k else (1 + IndexOf(h, |s.table|, e, last, 0)) % 8
  }

  /** The chain of displacements, with the element it finally drops. */
  function Chain(h: Hash, s: State, e: Element, last: nat, young: bool, depth: nat): (r: (State, Option<Element>))
    requires Shaped(s)
    ensures Shaped(r.0) && |r.0.table| == |s.table| && r.0.epochSize == s.epochSize
    decreases depth
  {
    if depth == 0 then (s, Some(e))
    else
      var l := Loc(h, |s.table|, e, Target(h, s, e, last));
      if s.dead[l] then (Put(s, l, e, young), None)
      else Chain(h, Put(s, l, e, young), s.table[l], l, s.epoch[l], depth - 1)
  }

  function Insert(h: Hash, s: State, e: Element): (r: (State, Option<Element>))
    requires Shaped(s)
    ensures Shaped(r.0) && r.0.epochSize == s.epochSize
  {
    var t := EpochCheck(s);
    var k := FirstMatch(h, t.table, e, 0);
    if k < 8 then (Put(t, Loc(h, |t.table|, e, k), e, true), None)
    else Chain(h, t, e, INVALID, true, t.depthLimit)
  }

  function Lost(r: (State, Option<Element>)): set<Element> {
    match r.1 case None => {} case Some(x) => {x}
  }

  lemma {:induction false} ChainPlaced(h: Hash, s: State, e: Element, last: nat, young: bool, depth: nat)
    requires Shaped(s) && Placed(h, s)
    ensures var t := Chain(h, s, e, last, young, depth).0;
      && Shaped(t) && Placed(h, t) && t.counter == s.counter && t.epochSize == s.epochSize
    decreases depth
  {
    if depth > 0 {
      var l := Loc(h, |s.table|, e, Target(h, s, e, last));
      PutPlaced(h, s, l, e, young);
      if !s.dead[l] {
        ChainPlaced(h, Put(s, l, e, young), s.table[l], l, s.epoch[l], depth - 1);
      }
    }
  }

  lemma PutConserves(s: State, l: nat, e: Element, young: bool, x: Element)
    requires Shaped(s) && l < |s.table|
    ensures s.dead[l] ==> (x in Live(Put(s, l, e, young)) <==> x in Live(s) || x == e)
    ensures !s.dead[l] ==> (x in Live(Put(s, l, e, young)) || x == s.table[l] <==> x in Live(s) || x == e)
  {
    if s.dead[l] { PutAdds(s, l, e, young); } else { PutSwaps(s, l, e, young); }
  }

  lemma {:induction false} ChainConservesOne(h: Hash, s: State, e: Element, last: nat, young: bool, depth: nat,
        x: Element)
    requires Shaped(s)
    ensures var r := Chain(h, s, e, last, young, depth);
      x in Live(r.0) || r.1 == Some(x) <==> x in Live(s) || x == e
    decreases depth
  {
    if depth > 0 {
      var l := Loc(h, |s.table|, e, Target(h, s, e, last));
      PutConserves(s, l, e, young, x);
      if !s.dead[l] {
        ChainConservesOne(h, Put(s, l, e, young), s.table[l], l, s.epoch[l], depth - 1, x);
      }
    }
  }

  /** Displacing elements conserves them: those kept, and the one that is
      dropped, are those kept before and the new one. */
  lemma ChainConserves(h: Hash, s: State, e: Element, last: nat, young: bool, depth: nat)
    requires Shaped(s)
    ensures var r := Chain(h, s, e, last, young, depth);
      Live(r.0) + Lost(r) == Live(s) + {e}
  {
    var r := Chain(h, s, e, last, young, depth);
    forall x ensures x in Live(r.0) + Lost(r) <==> x in Live(s) + {e} {
      ChainConservesOne(h, s, e, last, young, depth, x);
    }
  }

  lemma {:induction false} ChainCounts(h: Hash, s: State, e: Element, last: nat, young: bool, depth: nat)
    requires Shaped(s)
    ensures var r := Chain(h, s, e, last, young, depth);
      YoungCount(r.0) <= YoungCount(s) + One(young)
    decreases depth
  {
    if depth > 0 {
      var l := Loc(h, |s.table|, e, Target(h, s, e, last));
      PutCounts(s, l, e, young);
      if !s.dead[l] {
        ChainCounts(h, Put(s, l, e, young), s.table[l], l, s.epoch[l], depth - 1);
      }
    }
  }

  /** Insertion, apart from ageing, loses at most one of the kept elements and
      the new one; every kept element stays at one of its places. */
  lemma InsertInv(h: Hash, s: State, e: Element)
    requires Inv(h, s)
    ensures var r := Insert(h, s, e);
      && Inv(h, r.0)
      && Live(r.0) + Lost(r) == Live(EpochCheck(s)) + {e}
  {
    EpochCheckInv(h, s);
    var t := EpochCheck(s);
    var k := FirstMatch(h, t.table, e, 0);
    if k < 8 {
      PutAdds(t, Loc(h, |t.table|, e, k), e, true);
      PutCounts(t, Loc(h, |t.table|, e, k), e, true);
      PutPlaced(h, t, Loc(h, |t.table|, e, k), e, true);
    } else {
      ChainPlaced(h, t, e, INVALID, true, t.depthLimit);
      ChainConserves(h, t, e, INVALID, true, t.depthLimit);
      ChainCounts(h, t, e, INVALID, true, t.depthLimit);
    }
  }

  /** What ageing forgets was kept in the old epoch only. */
  lemma AgeingForgets(h: Hash, s: State, e: Element)
    requires Inv(h, s)
    ensures Live(EpochCheck(s)) <= Live(s)
    ensures e in Live(s) && e !in Live(EpochCheck(s)) ==>
      forall i :: 0 <= i < |s.table| && !s.dead[i] && s.table[i] == e ==> !s.epoch[i]
  {
    EpochCheckInv(h, s);
    var t := EpochCheck(s);
    forall i | 0 <= i < |s.table| && !s.dead[i] && s.epoch[i] ensures s.table[i] in Live(t) {
      assert !t.dead[i];
    }
  }

  // ----- Lookup -----

  /** contains: whether e is at one of its places, and the table after it. */
  function Contains(h: Hash, s: State, e: Element, erase: bool): (r: (State, bool))
    requires Shaped(s)
    ensures Shaped(r.0)
  {
    var k := FirstMatch(h, s.table, e, 0);
    if k == 8 then (s, false)
    else if erase then (s.(dead := s.dead[Loc(h, |s.table|, e, k) := true]), true)
    else (s, true)
  }

  /** A kept element is always found. */
  lemma LiveIsFound(h: Hash, s: State, e: Element, erase: bool)
    requires Inv(h, s) && e in Live(s)
    ensures Contains(h, s, e, erase).1
  {
    var i :| 0 <= i < |s.table| && !s.dead[i] && s.table[i] == e;
    var j :| 0 <= j < 8 && Loc(h, |s.table|, e, j) == i;
  }

  /** Erasing forgets nothing but the erased element. */
  lemma ContainsInv(h: Hash, s: State, e: Element, erase: bool)
    requires Inv(h, s)
    ensures var t := Contains(h, s, e, erase).0;
      && Inv(h, t)
      && Live(s) - {e} <= Live(t) <= Live(s)
      && (!erase ==> t == s)
  {
    var k := FirstMatch(h, s.table, e, 0);
    if k < 8 && erase {
      var l := Loc(h, |s.table|, e, k);
      var t := s.(dead := s.dead[l := true]);
      YoungUpdate(s.dead, s.epoch, l, true, s.epoch[l], |s.table|);
      assert s.epoch[l := s.epoch[l]] == s.epoch;
      forall x | x in Live(s) && x != e ensures x in Live(t) {
        var i :| 0 <= i < |s.table| && !s.dead[i] && s.table[i] == x;
        assert !t.dead[i] && t.table[i] == x;
      }
    }
  }

  // ----- Ageing spares an element for a whole epoch -----

  /** x is kept, and ageing cannot forget it during the next n insertions. */
  ghost predicate Kept(s: State, x: Element, n: nat)
    requires Shaped(s)
  {
    exists i :: 0 <= i < |s.table| && !s.dead[i] && s.table[i] == x && (s.epoch[i] || s.counter >= n)
  }

  lemma KeptIsLive(s: State, x: Element, n: nat)
    requires Shaped(s) && Kept(s, x, n)
    ensures x in Live(s)
  {
  }

  lemma EpochCheckKeeps(s: State, x: Element, n: nat)
    requires Shaped(s) && 1 <= n <= s.epochSize + 1 && Kept(s, x, n)
    ensures Shaped(EpochCheck(s)) && Kept(EpochCheck(s), x, n - 1)
  {
    var i :| 0 <= i < |s.table| && !s.dead[i] && s.table[i] == x && (s.epoch[i] || s.counter >= n);
    var t := EpochCheck(s);
    assert !t.dead[i] && t.table[i] == x;
  }

  lemma PutKeeps(s: State, l: nat, e: Element, young: bool, x: Element, n: nat)
    requires Shaped(s) && l < |s.table|
    ensures x == e && (young || s.counter >= n) ==> Kept(Put(s, l, e, young), x, n)
    ensures Kept(s, x, n) ==>
      Kept(Put(s, l, e, young), x, n) || (!s.dead[l] && x == s.table[l] && (s.epoch[l] || s.counter >= n))
  {
    var t := Put(s, l, e, young);
    assert !t.dead[l] && t.table[l] == e && t.epoch[l] == young;
    if Kept(s, x, n) {
      var i :| 0 <= i < |s.table| && !s.dead[i] && s.table[i] == x && (s.epoch[i] || s.counter >= n);
      assert i != l ==> !t.dead[i] && t.table[i] == x && t.epoch[i] == s.epoch[i];
    }
  }

  /** A displaced element takes its epoch along. */
  lemma {:induction false} ChainKeeps(h: Hash, s: State, e: Element, last: nat, young: bool, depth: nat, x: Element,
        n: nat)
    requires Shaped(s)
    requires Kept(s, x, n) || (x == e && (young || s.counter >= n))
    ensures var r := Chain(h, s, e, last, young, depth);
      r.1 == Some(x) || Kept(r.0, x, n)
    decreases depth
  {
    if depth > 0 {
      var l := Loc(h, |s.table|, e, Target(h, s, e, last));
      PutKeeps(s, l, e, young, x, n);
      if !s.dead[l] { ChainKeeps(h, Put(s, l, e, young), s.table[l], l, s.epoch[l], depth - 1, x, n); }
    }
  }

  /** The element inserted is of the current epoch unless it is the one dropped. */
  lemma InsertKeeps(h: Hash, s: State, e: Element, x: Element, n: nat)
    requires Shaped(s) && 1 <= n <= s.epochSize + 1
    requires x == e || Kept(s, x, n)
    ensures var r := Insert(h, s, e);
      r.1 == Some(x) || Kept(r.0, x, n - 1)
  {
    if x != e { EpochCheckKeeps(s, x, n); }
    var t := EpochCheck(s);
    var k := FirstMatch(h, t.table, e, 0);
    if k < 8 {
      PutKeeps(t, Loc(h, |t.table|, e, k), e, true, x, n - 1);
    } else {
      ChainKeeps(h, t, e, INVALID, true, t.depthLimit, x, n - 1);
    }
  }

  lemma ContainsKeeps(h: Hash, s: State, e: Element, erase: bool, x: Element, n: nat)
    requires Shaped(s) && Kept(s, x, n) && (x != e || !erase)
    ensures Shaped(Contains(h, s, e, erase).0) && Kept(Contains(h, s, e, erase).0, x, n)
  {
    var i :| 0 <= i < |s.table| && !s.dead[i] && s.table[i] == x && (s.epoch[i] || s.counter >= n);
    var t := Contains(h, s, e, erase).0;
    assert !t.dead[i] && t.table[i] == x && t.epoch[i] == s.epoch[i];
  }

  // ----- Whole runs -----

  datatype Op = InsertOp(e: Element) | ContainsOp(e: Element, erase: bool)

  function Step(h: Hash, s: State, op: Op): (t: State)
    requires Shaped(s)
    ensures Shaped(t) && t.epochSize == s.epochSize
  {
    match op
    case InsertOp(e) => Insert(h, s, e).0
    case ContainsOp(e, erase) => Contains(h, s, e, erase).0
  }

  /** What a step gives up other than by ageing. */
  function Dropped(h: Hash, s: State, op: Op): set<Element>
    requires Shaped(s)
  {
    match op
    case InsertOp(e) => Lost(Insert(h, s, e))
    case ContainsOp(e, erase) => if erase then {e} else {}
  }

  function Run(h: Hash, s: State, ops: seq<Op>): (t: State)
    requires Shaped(s)
    ensures Shaped(t) && t.epochSize == s.epochSize
    decreases |ops|
  {
    if ops == [] then s else Run(h, Step(h, s, ops[0]), ops[1..])
  }

  function RunDropped(h: Hash, s: State, ops: seq<Op>): set<Element>
    requires Shaped(s)
    decreases |ops|
  {
    if ops == [] then {} else Dropped(h, s, ops[0]) + RunDropped(h, Step(h, s, ops[0]), ops[1..])
  }

  function Inserts(ops: seq<Op>): nat
    decreases |ops|
  {
    if ops == [] then 0 else One(ops[0].InsertOp?) + Inserts(ops[1..])
  }

  lemma StepInv(h: Hash, s: State, op: Op)
    requires Inv(h, s)
    ensures Inv(h, Step(h, s, op))
  {
    match op
    case InsertOp(e) => InsertInv(h, s, e);
    case ContainsOp(e, erase) => ContainsInv(h, s, e, erase);
  }

  /** Over any run every kept element stays at one of its places and the kept
      elements of the current epoch stay within the bound. */
  lemma {:induction false} RunInv(h: Hash, s: State, ops: seq<Op>)
    requires Inv(h, s)
    ensures Inv(h, Run(h, s, ops))
    ensures YoungCount(Run(h, s, ops)) <= YoungBound(s.epochSize)
    decreases |ops|
  {
    if ops != [] {
      StepInv(h, s, ops[0]);
      RunInv(h, Step(h, s, ops[0]), ops[1..]);
    }
  }

  // ----- Setup -----

  function Resized<T>(xs: seq<T>, n: nat, fill: T): seq<T> {
    if n <= |xs| then xs[..n] else xs + seq(n - |xs|, i => fill)
  }

  /** setup: old contents stay in the table, but every slot may be overwritten. */
  function Setup(s: State, newSize: nat, depthLimit: nat): State {
    var size := Max(2, newSize);
    var epochSize := Max(1, (45 * size) % WORD / 100);
    State(Resized(s.table, size, 0), seq(size, i => true), Resized(s.epoch, size, false), epochSize, epochSize,
      depthLimit)
  }

  lemma SetupInv(h: Hash, s: State, newSize: nat, depthLimit: nat)
    requires newSize < WORD
    ensures Inv(h, Setup(s, newSize, depthLimit)) && Live(Setup(s, newSize, depthLimit)) == {}
  {
    var t := Setup(s, newSize, depthLimit);
    YoungFrame(t.dead, t.epoch, t.dead, seq(|t.dead|, i => false), |t.dead|);
    NoneYoung(t.dead, seq(|t.dead|, i => false), |t.dead|);
  }

  // ----- Nothing is found that was not inserted -----

  lemma {:induction false} ChainHolds(h: Hash, s: State, e: Element, last: nat, young: bool, depth: nat, x: Element)
    requires Shaped(s)
    ensures x in Chain(h, s, e, last, young, depth).0.table ==> x in s.table || x == e
    decreases depth
  {
    if depth > 0 {
      var l := Loc(h, |s.table|, e, Target(h, s, e, last));
      if !s.dead[l] { ChainHolds(h, Put(s, l, e, young), s.table[l], l, s.epoch[l], depth - 1, x); }
    }
  }

  lemma StepHolds(h: Hash, s: State, op: Op, x: Element)
    requires Shaped(s)
    ensures x in Step(h, s, op).table ==> x in s.table || op == InsertOp(x)
  {
    if op.InsertOp? {
      ChainHolds(h, EpochCheck(s), op.e, INVALID, true, s.depthLimit, x);
    }
  }

  lemma {:induction false} RunHolds(h: Hash, s: State, ops: seq<Op>, x: Element)
    requires Shaped(s)
    ensures x in Run(h, s, ops).table ==> x in s.table || InsertOp(x) in ops
    decreases |ops|
  {
    if ops != [] {
      StepHolds(h, s, ops[0], x);
      RunHolds(h, Step(h, s, ops[0]), ops[1..], x);
    }
  }

  /** No false positives: after any run from setup only an element inserted in
      the run is found, or one the table held before setup (none in a new
      cache), or the value that fills new slots. */
  lemma FoundWasInserted(h: Hash, s: State, newSize: nat, depthLimit: nat, ops: seq<Op>, x: Element, erase: bool)
    requires newSize < WORD
    ensures Contains(h, Run(h, Setup(s, newSize, depthLimit), ops), x, erase).1 ==>
              InsertOp(x) in ops || x in s.table || x == 0
  {
    RunHolds(h, Setup(s, newSize, depthLimit), ops, x);
  }

  lemma {:induction false} LookupsKeep(h: Hash, s: State, ops: seq<Op>)
    requires Shaped(s) && Inserts(ops) == 0
    ensures Run(h, s, ops).table == s.table
    decreases |ops|
  {
    if ops != [] { LookupsKeep(h, Step(h, s, ops[0]), ops[1..]); }
  }

  /** Garbage is collected only when an insertion needs its space: lookups, with
      erasure or without, change no answer. */
  lemma LookupsAgree(h: Hash, s: State, ops: seq<Op>, x: Element, erase: bool)
    requires Shaped(s) && Inserts(ops) == 0
    ensures Contains(h, Run(h, s, ops), x, erase).1 == Contains(h, s, x, erase).1
  {
    LookupsKeep(h, s, ops);
  }

  // ----- Ageing over whole runs -----

  lemma StepKeeps(h: Hash, s: State, op: Op, x: Element, n: nat)
    requires Shaped(s) && Kept(s, x, n) && (op.InsertOp? ==> 1 <= n <= s.epochSize + 1)
    ensures x in Dropped(h, s, op) || Kept(Step(h, s, op), x, n - One(op.InsertOp?))
  {
    match op
    case InsertOp(e) => InsertKeeps(h, s, e, x, n);
    case ContainsOp(e, erase) => if x != e || !erase { ContainsKeeps(h, s, e, erase, x, n); }
  }

  /** An element of the current epoch is found after any run with at most
      epochSize + 1 insertions in which it was neither displaced out of the
      table nor erased: ageing alone cannot forget it so soon. */
  lemma {:induction false} AgeingSpares(h: Hash, s: State, ops: seq<Op>, x: Element)
    requires Inv(h, s) && Kept(s, x, Inserts(ops)) && Inserts(ops) <= s.epochSize + 1
    requires x !in RunDropped(h, s, ops)
    ensures x in Live(Run(h, s, ops)) && Contains(h, Run(h, s, ops), x, false).1
    decreases |ops|
  {
    if ops == [] {
      KeptIsLive(s, x, 0);
      LiveIsFound(h, s, x, false);
    } else {
      StepInv(h, s, ops[0]);
      StepKeeps(h, s, ops[0], x, Inserts(ops));
      AgeingSpares(h, Step(h, s, ops[0]), ops[1..], x);
    }
  }
}
