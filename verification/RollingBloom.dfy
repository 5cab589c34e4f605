/**
  The rolling Bloom filter (src/bloom.cpp:217-313). First the filter as a
  sequence of cells that hold the generation of their last use, 1 to 3, or 0;
  then the bit-packed words that implement it.

  A key is the sequence of cells its hashes select.
*/
module RollingBloom {
  import opened Arithmetic

  type Key = seq<nat>

  datatype Filter = Filter(cells: seq<nat>, perGeneration: nat, thisGeneration: nat, generation: nat)

  // ----- Insertion and lookup on cells -----

  function Wipe(cells: seq<nat>, generation: nat): (r: seq<nat>)
    ensures |r| == |cells| && forall i :: 0 <= i < |r| ==> r[i] == if cells[i] == generation then 0 else cells[i]
  {
    seq(|cells|, i requires 0 <= i < |cells| => if cells[i] == generation then 0 else cells[i])
  }

  function Mark(cells: seq<nat>, key: Key, generation: nat): (r: seq<nat>)
    requires forall k :: 0 <= k < |key| ==> key[k] < |cells|
    ensures |r| == |cells| && forall i :: 0 <= i < |r| ==> r[i] == if i in key then generation else cells[i]
  {
    if key == [] then cells
    else
      var n := |key| - 1;
      assert key == key[..n] + [key[n]];
      Mark(cells, key[..n], generation)[key[n] := generation]
  }

  function Advance(f: Filter): Filter {
    if f.thisGeneration == f.perGeneration then
      var g := if f.generation == 3 then 1 else f.generation + 1;
      f.(thisGeneration := 0, generation := g, cells := Wipe(f.cells, g))
    else f
  }

  function Insert(f: Filter, key: Key): (r: Filter)
    requires forall k :: 0 <= k < |key| ==> key[k] < |f.cells|
    ensures |r.cells| == |f.cells| && r.perGeneration == f.perGeneration
  {
    var a := Advance(f);
    a.(thisGeneration := a.thisGeneration + 1, cells := Mark(a.cells, key, a.generation))
  }

  predicate Contains(f: Filter, key: Key)
    requires forall k :: 0 <= k < |key| ==> key[k] < |f.cells|
  {
    forall k :: 0 <= k < |key| ==> f.cells[key[k]] != 0
  }

  function Empty(size: nat, perGeneration: nat): Filter {
    Filter(seq(size, i => 0), perGeneration, 0, 1)
  }

  predicate Fit(keys: seq<Key>, size: nat) {
    forall j, k :: 0 <= j < |keys| && 0 <= k < |keys[j]| ==> keys[j][k] < size
  }

  /** The filter after inserting the keys in order. */
  function Run(size: nat, p: nat, keys: seq<Key>): (f: Filter)
    requires Fit(keys, size)
    ensures |f.cells| == size && f.perGeneration == p
  {
    if keys == [] then Empty(size, p) else Insert(Run(size, p, keys[..|keys| - 1]), keys[|keys| - 1])
  }

  // ----- Epochs: the j-th insertion belongs to epoch j / p -----

  /** The epoch in which a cell was last used; -1 if never. */
  function Last(keys: seq<Key>, p: nat, i: nat): (e: int)
    requires p > 0
    ensures -1 <= e
  {
    if keys == [] then -1
    else
      var n := |keys| - 1;
      if i in keys[n] then Quot(n, p) else Last(keys[..n], p, i)
  }

  /** The current epoch after n insertions. */
  function Epoch(n: nat, p: nat): nat
    requires p > 0
  {
    if n == 0 then 0 else Quot(n - 1, p)
  }

  /** What a cell last used in epoch e holds during epoch c. */
  function Label(e: int, c: nat): nat {
    if e >= 0 && e > c - 3 then e % 3 + 1 else 0
  }

  ghost predicate Tracks(f: Filter, keys: seq<Key>, p: nat)
    requires p > 0
  {
    var c := Epoch(|keys|, p);
    && f.perGeneration == p
    && f.generation == c % 3 + 1
    && f.thisGeneration == |keys| - Times(c, p) <= p
    && forall i :: 0 <= i < |f.cells| ==> f.cells[i] == Label(Last(keys, p, i), c)
  }

  lemma {:induction false} LastBound(keys: seq<Key>, p: nat, i: nat)
    requires p > 0
    ensures Last(keys, p, i) <= Epoch(|keys|, p)
  {
    if keys != [] {
      var n := |keys| - 1;
      LastBound(keys[..n], p, i);
      if n > 0 { QuotMonotone(n - 1, n, p); }
    }
  }

  /** The epoch moves on exactly when the generation is full. */
  lemma EpochStep(n: nat, p: nat)
    requires p > 0
    ensures var c := Epoch(n, p);
      && (n - Times(c, p) == p ==> Epoch(n + 1, p) == c + 1 && Times(c + 1, p) == n)
      && (n - Times(c, p) < p && n >= Times(c, p) ==> Epoch(n + 1, p) == c)
  {
    var c := Epoch(n, p);
    if n - Times(c, p) == p {
      QuotMultiple(c + 1, 0, p);
    } else if 0 <= n - Times(c, p) < p {
      QuotMultiple(c, n - Times(c, p), p);
    }
  }

  lemma EpochRange(n: nat, p: nat)
    requires p > 0
    ensures 0 <= n - Times(Epoch(n, p), p) <= p
    ensures n > 0 ==> 1 <= n - Times(Epoch(n, p), p)
  {
    if n > 0 { QuotMod(n - 1, p); }
  }

  lemma AdvanceTracks(f: Filter, keys: seq<Key>, p: nat)
    requires p > 0 && Tracks(f, keys, p)
    ensures var a := Advance(f); var c := Epoch(|keys| + 1, p);
      && a.perGeneration == p && |a.cells| == |f.cells| && a.generation == c % 3 + 1
      && a.thisGeneration == |keys| - Times(c, p)
      && forall i :: 0 <= i < |a.cells| ==> a.cells[i] == Label(Last(keys, p, i), c)
  {
    EpochStep(|keys|, p);
    EpochRange(|keys|, p);
    forall i | 0 <= i < |f.cells| ensures Advance(f).cells[i] == Label(Last(keys, p, i), Epoch(|keys| + 1, p)) {
      LastBound(keys, p, i);
    }
  }

  /** Every cell holds the generation of its last use, until that is three
      epochs ago. */
  lemma {:induction false} RunTracks(size: nat, p: nat, keys: seq<Key>)
    requires p > 0 && Fit(keys, size)
    ensures Tracks(Run(size, p, keys), keys, p)
  {
    if keys == [] {
      TimesIs(0, p);
    } else {
      var n := |keys| - 1;
      var f := Run(size, p, keys[..n]);
      RunTracks(size, p, keys[..n]);
      AdvanceTracks(f, keys[..n], p);
      EpochRange(n + 1, p);
    }
  }

  lemma {:induction false} LastAtLeast(keys: seq<Key>, p: nat, j: nat, i: nat)
    requires p > 0 && j < |keys| && i in keys[j]
    ensures Last(keys, p, i) >= Quot(j, p)
  {
    var n := |keys| - 1;
    if i in keys[n] {
      QuotMonotone(j, n, p);
    } else {
      LastAtLeast(keys[..n], p, j, i);
    }
  }

  /** A key inserted in one of the last three epochs is contained. */
  lemma RecentContained(size: nat, p: nat, keys: seq<Key>, j: nat)
    requires p > 0 && Fit(keys, size) && j < |keys| && Quot(j, p) + 2 >= Epoch(|keys|, p)
    ensures Contains(Run(size, p, keys), keys[j])
  {
    RunTracks(size, p, keys);
    forall k | 0 <= k < |keys[j]| ensures Run(size, p, keys).cells[keys[j][k]] != 0 {
      LastAtLeast(keys, p, j, keys[j][k]);
      LastBound(keys, p, keys[j][k]);
    }
  }

  lemma EpochDistance(n: nat, p: nat, j: nat)
    requires p > 0 && j < n <= j + 2 * p + 1
    ensures Quot(j, p) + 2 >= Epoch(n, p)
  {
    var a, b := Quot(j, p), Quot(n - 1, p);
    QuotMod(j, p);
    QuotMod(n - 1, p);
    if b > a + 2 {
      TimesMono(a + 3, b, p);
      TimesAdds(a, 3, p);
      TimesIs(3, p);
    }
  }

  /** A filter made for N keys contains every one of the last N keys inserted. */
  lemma Window(size: nat, N: nat, keys: seq<Key>, j: nat)
    requires N > 0 && Fit(keys, size) && j < |keys| <= j + N
    ensures Contains(Run(size, (N + 1) / 2, keys), keys[j])
  {
    var p := (N + 1) / 2;
    EpochDistance(|keys|, p, j);
    RecentContained(size, p, keys, j);
  }

  /** Exactly when a key is reported: every one of its cells was used in one of
      the last three epochs. */
  lemma ContainedExactly(size: nat, p: nat, keys: seq<Key>, key: Key)
    requires p > 0 && Fit(keys, size) && forall k :: 0 <= k < |key| ==> key[k] < size
    ensures Contains(Run(size, p, keys), key) <==>
      forall k :: 0 <= k < |key| ==> Last(keys, p, key[k]) >= 0 && Last(keys, p, key[k]) + 2 >= Epoch(|keys|, p)
  {
    RunTracks(size, p, keys);
    var f, c := Run(size, p, keys), Epoch(|keys|, p);
    forall k | 0 <= k < |key|
      ensures f.cells[key[k]] != 0 <==> Last(keys, p, key[k]) >= 0 && Last(keys, p, key[k]) + 2 >= c
    {
      assert f.cells[key[k]] == Label(Last(keys, p, key[k]), c);
    }
  }

  // ----- Two words hold 64 cells -----

  const WORD_BITS := 64

  const ALL_ONES: nat := 0xFFFF_FFFF_FFFF_FFFF

  lemma PowTower(e: nat)
    requires 63 < e < 65
    ensures Pow2(e) == ALL_ONES + 1
  {
    PowShift8(e - 64);
    PowShift8(e - 56);
    PowShift8(e - 48);
    PowShift8(e - 40);
    PowShift8(e - 32);
    PowShift8(e - 24);
    PowShift8(e - 16);
    PowShift8(e - 8);
  }

  lemma PowShift8(e: nat)
    ensures Pow2(e + 8) == 256 * Pow2(e)
  {
    assert Pow2(e + 4) == 16 * Pow2(e) by { assert Pow2(e + 2) == 4 * Pow2(e); }
    assert Pow2(e + 8) == 16 * Pow2(e + 4) by { assert Pow2(e + 6) == 4 * Pow2(e + 4); }
  }

  lemma OnesAt(k: nat)
    requires k < WORD_BITS
    ensures Bit(ALL_ONES, k)
  {
    PowTower(WORD_BITS);
    OnesBit(WORD_BITS, k);
  }

  function Cell(p1: nat, p2: nat, k: nat): nat {
    (if Bit(p1, k) then 1 else 0) + (if Bit(p2, k) then 2 else 0)
  }

  /** 0 - (uint64_t) b: no bit or every bit. */
  function MaskOf(b: bool): nat { if b then ALL_ONES else 0 }

  function WipeMask(p1: nat, p2: nat, generation: nat): nat {
    Or(Xor(p1, MaskOf(generation % 2 == 1)), Xor(p2, MaskOf(generation / 2 == 1)))
  }

  /** The mask clears exactly the cells of the generation. */
  lemma WipeCell(p1: nat, p2: nat, generation: nat, k: nat)
    requires 1 <= generation <= 3 && k < WORD_BITS
    ensures var mask := WipeMask(p1, p2, generation);
      Cell(And(p1, mask), And(p2, mask), k) == if Cell(p1, p2, k) == generation then 0 else Cell(p1, p2, k)
  {
    var m1, m2 := MaskOf(generation % 2 == 1), MaskOf(generation / 2 == 1);
    var mask := WipeMask(p1, p2, generation);
    OnesAt(k);
    ZeroBit(k);
    XorBit(p1, m1, k);
    XorBit(p2, m2, k);
    OrBits(Xor(p1, m1), Xor(p2, m2), k);
    AndBit(p1, mask, k);
    AndBit(p2, mask, k);
  }

  /** (x & ~(1 << bit)) | (b << bit). */
  function PutBit(x: nat, bit: nat, b: bool): nat {
    Or(And(x, Xor(ALL_ONES, Pow2(bit))), if b then Pow2(bit) else 0)
  }

  lemma PutBitIs(x: nat, bit: nat, b: bool, k: nat)
    requires bit < WORD_BITS && k < WORD_BITS
    ensures Bit(PutBit(x, bit, b), k) == if k == bit then b else Bit(x, k)
  {
    var clear := Xor(ALL_ONES, Pow2(bit));
    OnesAt(k);
    PowBit(bit, k);
    ZeroBit(k);
    XorBit(ALL_ONES, Pow2(bit), k);
    AndBit(x, clear, k);
    OrBits(And(x, clear), if b then Pow2(bit) else 0, k);
  }

  function CellAt(words: seq<nat>, i: nat): nat
    requires 2 * (i / WORD_BITS) + 1 < |words|
  {
    Cell(words[2 * (i / WORD_BITS)], words[2 * (i / WORD_BITS) + 1], i % WORD_BITS)
  }

  function Cells(words: seq<nat>): (cells: seq<nat>)
    ensures |cells| == |words| / 2 * WORD_BITS
    ensures forall i :: 0 <= i < |cells| ==> cells[i] == CellAt(words, i)
  {
    seq(|words| / 2 * WORD_BITS, i requires 0 <= i < |words| / 2 * WORD_BITS => CellAt(words, i))
  }

  // ----- The filter as an object -----

  type Bytes = seq<nat>
  type Hash = (nat, nat, Bytes) -> nat

  /** The cell that a hash value selects among the cells of `size` words. */
  function Select(h: nat, size: nat): nat
    requires size > 0
  {
    ((h / WORD_BITS) % size) / 2 * WORD_BITS + h % WORD_BITS
  }

  function Positions(hash: Hash, tweak: nat, n: nat, size: nat, vKey: Bytes): (key: Key)
    requires size > 0 && size % 2 == 0
    ensures |key| == n && forall k :: 0 <= k < n ==>
      key[k] < size / 2 * WORD_BITS && key[k] == Select(hash(k, tweak, vKey), size)
  {
    if n == 0 then [] else Positions(hash, tweak, n - 1, size, vKey) + [Select(hash(n - 1, tweak, vKey), size)]
  }

  /** The selected cell is held by an even word and the one after it. */
  lemma SelectedCell(words: seq<nat>, h: nat, first: nat)
    requires |words| > 0 && |words| % 2 == 0 && first == (h / WORD_BITS) % |words| / 2 * 2
    ensures first + 1 < |words| && Select(h, |words|) < |words| / 2 * WORD_BITS
    ensures Select(h, |words|) / WORD_BITS * 2 == first && Select(h, |words|) % WORD_BITS == h % WORD_BITS
    ensures Cells(words)[Select(h, |words|)] == Cell(words[first], words[first + 1], h % WORD_BITS)
  {
    var pos := (h / WORD_BITS) % |words|;
    Pair(pos / 2, h % WORD_BITS);
  }

  lemma Pair(q: nat, r: nat)
    requires r < WORD_BITS
    ensures (q * WORD_BITS + r) / WORD_BITS == q && (q * WORD_BITS + r) % WORD_BITS == r
  {
  }

  /** Writing one bit in each of the two words writes one cell. */
  lemma WriteCell(was: seq<nat>, now: seq<nat>, h: nat, first: nat, g: nat)
    requires |was| == |now| > 0 && |was| % 2 == 0 && first == (h / WORD_BITS) % |was| / 2 * 2 && 1 <= g <= 3
    requires first + 1 < |was|
    requires now == was[first := PutBit(was[first], h % WORD_BITS, g % 2 == 1)]
                       [first + 1 := PutBit(was[first + 1], h % WORD_BITS, g / 2 == 1)]
    ensures Select(h, |was|) < |Cells(was)| && Cells(now) == Cells(was)[Select(h, |was|) := g]
  {
    SelectedCell(was, h, first);
    var c := Select(h, |was|);
    forall i | 0 <= i < |Cells(was)| ensures Cells(now)[i] == if i == c then g else Cells(was)[i] {
      var k := i % WORD_BITS;
      if 2 * (i / WORD_BITS) == first {
        PutBitIs(was[first], h % WORD_BITS, g % 2 == 1, k);
        PutBitIs(was[first + 1], h % WORD_BITS, g / 2 == 1, k);
      }
    }
  }

  class RollingBloomFilter {
    const hash: Hash
    var data: array<nat>
    var nEntriesPerGeneration: nat
    var nEntriesThisGeneration: nat
    var nGeneration: nat
    var nTweak: nat
    var nHashFuncs: nat

    ghost predicate Valid()
      reads this
    {
      data.Length > 0 && data.Length % 2 == 0 && 1 <= nGeneration <= 3
    }

    ghost function State(): Filter
      reads this, data
    {
      Filter(Cells(data[..]), nEntriesPerGeneration, nEntriesThisGeneration, nGeneration)
    }

    /** The numbers of hash functions and of bits come from floating-point
        formulas. */
    constructor (hash: Hash, nElements: nat, nHashFuncs: nat, nFilterBits: nat, tweak: nat)
      requires nFilterBits > 0
      ensures Valid() && fresh(data) && this.hash == hash && this.nHashFuncs == nHashFuncs && nTweak == tweak
      ensures State() == Empty(data.Length / 2 * WORD_BITS, (nElements + 1) / 2)
    {
      this.hash := hash;
      this.nHashFuncs := nHashFuncs;
      nEntriesPerGeneration := (nElements + 1) / 2;
      data := new nat[(nFilterBits + 63) / 64 * 2];
      nEntriesThisGeneration, nGeneration, nTweak := 0, 1, tweak;
      new;
      Reset(tweak);
    }

    method Reset(tweak: nat)
      requires data.Length > 0 && data.Length % 2 == 0
      modifies this`nTweak, this`nEntriesThisGeneration, this`nGeneration, data
      ensures Valid() && nTweak == tweak
      ensures State() == Empty(data.Length / 2 * WORD_BITS, nEntriesPerGeneration)
    {
      nTweak, nEntriesThisGeneration, nGeneration := tweak, 0, 1;
      for i := 0 to data.Length
        invariant forall j :: 0 <= j < i ==> data[j] == 0
        modifies data
      {
        data[i] := 0;
      }
      forall i | 0 <= i < data.Length / 2 * WORD_BITS ensures CellAt(data[..], i) == 0 {
        ZeroBit(i % WORD_BITS);
      }
      assert Cells(data[..]) == Empty(data.Length / 2 * WORD_BITS, nEntriesPerGeneration).cells;
    }

    method WipeGeneration()
      requires Valid()
      modifies data
      ensures Cells(data[..]) == Wipe(Cells(old(data[..])), nGeneration)
    {
      ghost var was := data[..];
      var p := 0;
      while p < data.Length
        invariant 0 <= p <= data.Length && p % 2 == 0
        invariant forall j :: p <= j < data.Length ==> data[j] == was[j]
        invariant forall i :: 0 <= i < p / 2 * WORD_BITS ==>
          CellAt(data[..], i) == if CellAt(was, i) == nGeneration then 0 else CellAt(was, i)
      {
        var p1, p2 := data[p], data[p + 1];
        var mask := WipeMask(p1, p2, nGeneration);
        forall k | 0 <= k < WORD_BITS
          ensures Cell(And(p1, mask), And(p2, mask), k) == if Cell(p1, p2, k) == nGeneration then 0 else Cell(p1, p2, k)
        {
          WipeCell(p1, p2, nGeneration, k);
        }
        data[p] := And(p1, mask);
        data[p + 1] := And(p2, mask);
        p := p + 2;
      }
      assert Cells(data[..]) == Wipe(Cells(was), nGeneration);
    }

    /** Writes the generation into the cell that h selects. */
    method SetCell(h: nat)
      requires Valid()
      modifies data
      ensures Select(h, data.Length) < |Cells(old(data[..]))|
      ensures Cells(data[..]) == Cells(old(data[..]))[Select(h, data.Length) := nGeneration]
    {
      var bit := h % WORD_BITS;
      var first := (h / WORD_BITS) % data.Length / 2 * 2;
      SelectedCell(data[..], h, first);
      ghost var was := data[..];
      data[first] := PutBit(data[first], bit, nGeneration % 2 == 1);
      data[first + 1] := PutBit(data[first + 1], bit, nGeneration / 2 == 1);
      WriteCell(was, data[..], h, first, nGeneration);
    }

    /** Starts the next generation when this one is full. */
    method AdvanceGeneration()
      requires Valid()
      modifies this`nEntriesThisGeneration, this`nGeneration, data
      ensures Valid() && State() == Advance(old(State()))
    {
      if nEntriesThisGeneration == nEntriesPerGeneration {
        nEntriesThisGeneration := 0;
        nGeneration := nGeneration + 1;
        if nGeneration == 4 {
          nGeneration := 1;
        }
        WipeGeneration();
      }
    }

    method MarkCells(vKey: Bytes)
      requires Valid()
      modifies data
      ensures Cells(data[..]) ==
        Mark(Cells(old(data[..])), Positions(hash, nTweak, nHashFuncs, data.Length, vKey), nGeneration)
    {
      ghost var cells := Cells(data[..]);
      for n := 0 to nHashFuncs
        invariant Cells(data[..]) == Mark(cells, Positions(hash, nTweak, n, data.Length, vKey), nGeneration)
      {
        SetCell(hash(n, nTweak, vKey));
        ghost var key := Positions(hash, nTweak, n + 1, data.Length, vKey);
        assert key[..n] == Positions(hash, nTweak, n, data.Length, vKey);
      }
    }

    method InsertKey(vKey: Bytes)
      requires Valid()
      modifies this`nEntriesThisGeneration, this`nGeneration, data
      ensures Valid()
      ensures State() == Insert(old(State()), Positions(hash, nTweak, nHashFuncs, data.Length, vKey))
    {
      AdvanceGeneration();
      nEntriesThisGeneration := nEntriesThisGeneration + 1;
      MarkCells(vKey);
    }

    method ContainsKey(vKey: Bytes) returns (r: bool)
      requires Valid()
      ensures r == Contains(State(), Positions(hash, nTweak, nHashFuncs, data.Length, vKey))
    {
      ghost var key := Positions(hash, nTweak, nHashFuncs, data.Length, vKey);
      for n := 0 to nHashFuncs
        invariant forall k :: 0 <= k < n ==> Cells(data[..])[key[k]] != 0
      {
        var h := hash(n, nTweak, vKey);
        var bit := h % WORD_BITS;
        var first := (h / WORD_BITS) % data.Length / 2 * 2;
        SelectedCell(data[..], h, first);
        OrBits(data[first], data[first + 1], bit);
        if !Bit(Or(data[first], data[first + 1]), bit) {
          return false;
        }
      }
      return true;
    }
  }
}
