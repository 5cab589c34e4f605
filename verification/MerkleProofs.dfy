/**
  Which partial merkle trees are accepted (src/merkleblock.cpp): exactly those
  that a walk over the tree of the block writes, in which no node with two
  equal children is opened, and nothing is left over but padding.
*/
module MerkleProofs {
  import opened PartialMerkle

  /** A walk over the nodes: at a shut node its hash is written, and at a leaf
      whether it is matched; other nodes are opened. */
  datatype Walk = Shut(matched: bool) | Both(left: Walk, right: Walk) | One(left: Walk)

  predicate Fits(w: Walk, n: nat, height: nat, pos: nat)
    decreases w
  {
    match w
    case Shut(matched) => height == 0 || !matched
    case Both(left, right) =>
      height > 0 && Exists(n, height - 1, 2 * pos + 1) && Fits(left, n, height - 1, 2 * pos) &&
        Fits(right, n, height - 1, 2 * pos + 1)
    case One(left) => height > 0 && !Exists(n, height - 1, 2 * pos + 1) && Fits(left, n, height - 1, 2 * pos)
  }

  /** What the walk writes. */
  function Written(pair: (Hash, Hash) -> Hash, txids: seq<Hash>, w: Walk, height: nat, pos: nat): Encoding
    requires Exists(|txids|, height, pos) && Fits(w, |txids|, height, pos)
    decreases w
  {
    match w
    case Shut(matched) => Encoding([matched], [CalcHash(pair, txids, height, pos)])
    case Both(left, right) =>
      Children(|txids|, height, pos);
      var a, b := Written(pair, txids, left, height - 1, 2 * pos), Written(pair, txids, right, height - 1, 2 * pos + 1);
      Encoding([true] + (a.bits + b.bits), a.hashes + b.hashes)
    case One(left) =>
      Children(|txids|, height, pos);
      var a := Written(pair, txids, left, height - 1, 2 * pos);
      Encoding([true] + a.bits, a.hashes)
  }

  /** The matched leaves, in order. */
  function Marked(txids: seq<Hash>, w: Walk, height: nat, pos: nat): seq<Found>
    requires Exists(|txids|, height, pos) && Fits(w, |txids|, height, pos)
    decreases w
  {
    match w
    case Shut(matched) => if height == 0 && matched then [Found(pos, txids[pos])] else []
    case Both(left, right) =>
      Children(|txids|, height, pos);
      Marked(txids, left, height - 1, 2 * pos) + Marked(txids, right, height - 1, 2 * pos + 1)
    case One(left) =>
      Children(|txids|, height, pos);
      Marked(txids, left, height - 1, 2 * pos)
  }

  /** No opened node has two equal children. */
  predicate Differ(pair: (Hash, Hash) -> Hash, txids: seq<Hash>, w: Walk, height: nat, pos: nat)
    requires Exists(|txids|, height, pos) && Fits(w, |txids|, height, pos)
    decreases w
  {
    match w
    case Shut(_) => true
    case Both(left, right) =>
      Children(|txids|, height, pos);
      && CalcHash(pair, txids, height - 1, 2 * pos) != CalcHash(pair, txids, height - 1, 2 * pos + 1)
      && Differ(pair, txids, left, height - 1, 2 * pos) && Differ(pair, txids, right, height - 1, 2 * pos + 1)
    case One(left) =>
      Children(|txids|, height, pos);
      Differ(pair, txids, left, height - 1, 2 * pos)
  }

  /** The encoding stands at a position of another one. */
  ghost predicate At(e: Encoding, part: Encoding, bits: nat, hashes: nat) {
    There(e.bits, part.bits, bits) && There(e.hashes, part.hashes, hashes)
  }

  /** u stands at position i of s. */
  ghost predicate There<T>(s: seq<T>, u: seq<T>, i: nat) {
    i + |u| <= |s| && s[i..i + |u|] == u
  }

  lemma ThereParts<T>(s: seq<T>, u: seq<T>, v: seq<T>, i: nat)
    ensures There(s, u + v, i) <==> There(s, u, i) && There(s, v, i + |u|)
  {
    if i + |u| + |v| <= |s| {
      assert s[i..i + |u + v|] == s[i..i + |u|] + s[i + |u|..i + |u| + |v|];
      assert There(s, u + v, i) ==> u == (u + v)[..|u|] && v == (u + v)[|u|..];
    }
  }

  lemma Single<T>(s: seq<T>, i: nat)
    requires i < |s|
    ensures s[i..i + 1] == [s[i]]
  {
  }

  lemma AtParts(e: Encoding, a: Encoding, b: Encoding, bits: nat, hashes: nat)
    ensures At(e, Encoding([true] + (a.bits + b.bits), a.hashes + b.hashes), bits, hashes) <==>
      && bits < |e.bits| && e.bits[bits] && At(e, a, bits + 1, hashes)
      && At(e, b, bits + 1 + |a.bits|, hashes + |a.hashes|)
  {
    ThereParts(e.bits, [true], a.bits + b.bits, bits);
    ThereParts(e.bits, a.bits, b.bits, bits + 1);
    ThereParts(e.hashes, a.hashes, b.hashes, hashes);
    ThereOne(e.bits, true, bits);
  }

  lemma ThereOne<T>(s: seq<T>, x: T, i: nat)
    ensures There(s, [x], i) <==> i < |s| && s[i] == x
  {
    if i < |s| { Single(s, i); }
  }

  lemma OpensBoth(pair: (Hash, Hash) -> Hash, txids: seq<Hash>, l: Walk, r: Walk, height: nat, pos: nat)
    requires Exists(|txids|, height, pos) && Fits(Both(l, r), |txids|, height, pos)
    ensures Exists(|txids|, height - 1, 2 * pos)
    ensures var w, a, b := Both(l, r), Written(pair, txids, l, height - 1, 2 * pos),
                           Written(pair, txids, r, height - 1, 2 * pos + 1);
      var x, y := CalcHash(pair, txids, height - 1, 2 * pos), CalcHash(pair, txids, height - 1, 2 * pos + 1);
      && Written(pair, txids, w, height, pos) == Encoding([true] + (a.bits + b.bits), a.hashes + b.hashes)
      && CalcHash(pair, txids, height, pos) == pair(x, y)
      && Marked(txids, w, height, pos) ==
           Marked(txids, l, height - 1, 2 * pos) + Marked(txids, r, height - 1, 2 * pos + 1)
      && (Differ(pair, txids, w, height, pos) <==>
           x != y && Differ(pair, txids, l, height - 1, 2 * pos) && Differ(pair, txids, r, height - 1, 2 * pos + 1))
  {
    Children(|txids|, height, pos);
  }

  lemma OpensOne(pair: (Hash, Hash) -> Hash, txids: seq<Hash>, l: Walk, height: nat, pos: nat)
    requires Exists(|txids|, height, pos) && Fits(One(l), |txids|, height, pos)
    ensures Exists(|txids|, height - 1, 2 * pos)
    ensures var w, a := One(l), Written(pair, txids, l, height - 1, 2 * pos);
      var x := CalcHash(pair, txids, height - 1, 2 * pos);
      && Written(pair, txids, w, height, pos) == Encoding([true] + (a.bits + []), a.hashes + [])
      && CalcHash(pair, txids, height, pos) == pair(x, x)
      && Marked(txids, w, height, pos) == Marked(txids, l, height - 1, 2 * pos)
      && (Differ(pair, txids, w, height, pos) <==> Differ(pair, txids, l, height - 1, 2 * pos))
  {
    Children(|txids|, height, pos);
    var a := Written(pair, txids, l, height - 1, 2 * pos);
    assert a.bits + [] == a.bits && a.hashes + [] == a.hashes;
  }

  lemma ReadsBoth(pair: (Hash, Hash) -> Hash, n: nat, e: Encoding, height: nat, pos: nat, bits: nat, hashes: nat,
        x: Decoding, y: Decoding)
    requires bits < |e.bits| && e.bits[bits] && height > 0 && Exists(n, height - 1, 2 * pos + 1)
    requires x == Extract(pair, n, e, height - 1, 2 * pos, bits + 1, hashes)
    requires y == Extract(pair, n, e, height - 1, 2 * pos + 1, x.bitsUsed, x.hashUsed)
    ensures Extract(pair, n, e, height, pos, bits, hashes) ==
      Decoding(pair(x.hash, y.hash), y.bitsUsed, y.hashUsed, x.found + y.found, x.bad || y.bad || y.hash == x.hash)
  {
  }

  lemma ReadsOne(pair: (Hash, Hash) -> Hash, n: nat, e: Encoding, height: nat, pos: nat, bits: nat, hashes: nat,
        x: Decoding)
    requires bits < |e.bits| && e.bits[bits] && height > 0 && !Exists(n, height - 1, 2 * pos + 1)
    requires x == Extract(pair, n, e, height - 1, 2 * pos, bits + 1, hashes)
    ensures Extract(pair, n, e, height, pos, bits, hashes) == x.(hash := pair(x.hash, x.hash))
  {
  }

  /** What is read where a walk wrote: the hash of the node and the matched leaves.
      Exactly what was written is used, and it is bad if and only if an opened
      node has equal children. */
  ghost function Reading(pair: (Hash, Hash) -> Hash, txids: seq<Hash>, w: Walk, height: nat, pos: nat, bits: nat,
        hashes: nat): Decoding
    requires Exists(|txids|, height, pos) && Fits(w, |txids|, height, pos)
  {
    var part := Written(pair, txids, w, height, pos);
    Decoding(CalcHash(pair, txids, height, pos), bits + |part.bits|, hashes + |part.hashes|,
             Marked(txids, w, height, pos), !Differ(pair, txids, w, height, pos))
  }

  lemma {:induction false} ReadWritten(pair: (Hash, Hash) -> Hash, txids: seq<Hash>, w: Walk, e: Encoding, height: nat,
        pos: nat, bits: nat, hashes: nat)
    requires Exists(|txids|, height, pos) && Fits(w, |txids|, height, pos)
    requires At(e, Written(pair, txids, w, height, pos), bits, hashes)
    ensures Extract(pair, |txids|, e, height, pos, bits, hashes) ==
      Reading(pair, txids, w, height, pos, bits, hashes)
    decreases w, 1
  {
    match w
    case Shut(matched) => ReadShut(pair, txids, matched, e, height, pos, bits, hashes);
    case Both(l, r) => ReadBoth(pair, txids, w, l, r, e, height, pos, bits, hashes);
    case One(l) =>
      OneParts(pair, txids, l, e, height, pos, bits, hashes);
      ReadWritten(pair, txids, l, e, height - 1, 2 * pos, bits + 1, hashes);
      OneRead(pair, txids, l, e, height, pos, bits, hashes);
  }

  lemma {:induction false} ReadBoth(pair: (Hash, Hash) -> Hash, txids: seq<Hash>, w: Walk, l: Walk, r: Walk,
        e: Encoding, height: nat, pos: nat, bits: nat, hashes: nat)
    requires Exists(|txids|, height, pos) && Fits(w, |txids|, height, pos) && w == Both(l, r)
    requires At(e, Written(pair, txids, w, height, pos), bits, hashes)
    ensures Extract(pair, |txids|, e, height, pos, bits, hashes) ==
      Reading(pair, txids, w, height, pos, bits, hashes)
    decreases w, 0
  {
    var b, h := BothParts(pair, txids, l, r, e, height, pos, bits, hashes);
    ReadWritten(pair, txids, l, e, height - 1, 2 * pos, bits + 1, hashes);
    ReadWritten(pair, txids, r, e, height - 1, 2 * pos + 1, b, h);
    BothRead(pair, txids, l, r, e, height, pos, bits, hashes, b, h);
  }

  lemma BothParts(pair: (Hash, Hash) -> Hash, txids: seq<Hash>, l: Walk, r: Walk, e: Encoding, height: nat, pos: nat,
        bits: nat, hashes: nat)
    returns (b: nat, h: nat)
    requires Exists(|txids|, height, pos) && Fits(Both(l, r), |txids|, height, pos)
    requires At(e, Written(pair, txids, Both(l, r), height, pos), bits, hashes)
    ensures Exists(|txids|, height - 1, 2 * pos) && bits < |e.bits| && e.bits[bits]
    ensures Ends(pair, txids, l, height - 1, 2 * pos, bits + 1, hashes) == (b, h)
    ensures At(e, Written(pair, txids, l, height - 1, 2 * pos), bits + 1, hashes)
    ensures At(e, Written(pair, txids, r, height - 1, 2 * pos + 1), b, h)
  {
    OpensBoth(pair, txids, l, r, height, pos);
    var end := Ends(pair, txids, l, height - 1, 2 * pos, bits + 1, hashes);
    b, h := end.0, end.1;
    AtParts(e, Written(pair, txids, l, height - 1, 2 * pos), Written(pair, txids, r, height - 1, 2 * pos + 1), bits,
      hashes);
  }

  /** Where the part that a walk wrote ends. */
  ghost function Ends(pair: (Hash, Hash) -> Hash, txids: seq<Hash>, w: Walk, height: nat, pos: nat, bits: nat,
        hashes: nat): (nat, nat)
    requires Exists(|txids|, height, pos) && Fits(w, |txids|, height, pos)
  {
    var part := Written(pair, txids, w, height, pos);
    (bits + |part.bits|, hashes + |part.hashes|)
  }

  lemma OneParts(pair: (Hash, Hash) -> Hash, txids: seq<Hash>, l: Walk, e: Encoding, height: nat, pos: nat, bits: nat,
        hashes: nat)
    requires Exists(|txids|, height, pos) && Fits(One(l), |txids|, height, pos)
    requires At(e, Written(pair, txids, One(l), height, pos), bits, hashes)
    ensures Exists(|txids|, height - 1, 2 * pos) && bits < |e.bits| && e.bits[bits]
    ensures At(e, Written(pair, txids, l, height - 1, 2 * pos), bits + 1, hashes)
  {
    OpensOne(pair, txids, l, height, pos);
    AtParts(e, Written(pair, txids, l, height - 1, 2 * pos), Encoding([], []), bits, hashes);
  }

  lemma OneRead(pair: (Hash, Hash) -> Hash, txids: seq<Hash>, l: Walk, e: Encoding, height: nat, pos: nat, bits: nat,
        hashes: nat)
    requires Exists(|txids|, height, pos) && Fits(One(l), |txids|, height, pos) && Exists(|txids|, height - 1, 2 * pos)
    requires bits < |e.bits| && e.bits[bits] && Extract(pair, |txids|, e, height - 1, 2 * pos, bits + 1, hashes) ==
      Reading(pair, txids, l, height - 1, 2 * pos, bits + 1, hashes)
    ensures Extract(pair, |txids|, e, height, pos, bits, hashes) ==
      Reading(pair, txids, One(l), height, pos, bits, hashes)
  {
    OpensOne(pair, txids, l, height, pos);
    ReadsOne(pair, |txids|, e, height, pos, bits, hashes,
      Extract(pair, |txids|, e, height - 1, 2 * pos, bits + 1, hashes));
  }

  lemma ReadShut(pair: (Hash, Hash) -> Hash, txids: seq<Hash>, matched: bool, e: Encoding, height: nat, pos: nat,
        bits: nat, hashes: nat)
    requires Exists(|txids|, height, pos) && (height == 0 || !matched)
    requires At(e, Encoding([matched], [CalcHash(pair, txids, height, pos)]), bits, hashes)
    ensures Extract(pair, |txids|, e, height, pos, bits, hashes) ==
      Reading(pair, txids, Shut(matched), height, pos, bits, hashes)
  {
    assert e.bits[bits] == e.bits[bits..bits + 1][0] && e.hashes[hashes] == e.hashes[hashes..hashes + 1][0];
  }

  lemma BothRead(pair: (Hash, Hash) -> Hash, txids: seq<Hash>, l: Walk, r: Walk, e: Encoding, height: nat, pos: nat,
        bits: nat, hashes: nat, b: nat, h: nat)
    requires Exists(|txids|, height, pos) && Fits(Both(l, r), |txids|, height, pos)
    requires Exists(|txids|, height - 1, 2 * pos)
    requires bits < |e.bits| && e.bits[bits] && Ends(pair, txids, l, height - 1, 2 * pos, bits + 1, hashes) == (b, h)
    requires Extract(pair, |txids|, e, height - 1, 2 * pos, bits + 1, hashes) ==
      Reading(pair, txids, l, height - 1, 2 * pos, bits + 1, hashes)
    requires Extract(pair, |txids|, e, height - 1, 2 * pos + 1, b, h) ==
      Reading(pair, txids, r, height - 1, 2 * pos + 1, b, h)
    ensures Extract(pair, |txids|, e, height, pos, bits, hashes) ==
      Reading(pair, txids, Both(l, r), height, pos, bits, hashes)
  {
    OpensBoth(pair, txids, l, r, height, pos);
    var n := |txids|;
    var x := Extract(pair, n, e, height - 1, 2 * pos, bits + 1, hashes);
    ReadsBoth(pair, n, e, height, pos, bits, hashes, x, Extract(pair, n, e, height - 1, 2 * pos + 1, b, h));
  }

  /** Whatever is read without fault and has the hash of the node was written by a
      walk. */
  lemma {:induction false} ReadIsWritten(split: Hash -> (Hash, Hash), pair: (Hash, Hash) -> Hash, txids: seq<Hash>,
        e: Encoding, height: nat, pos: nat, bits: nat, hashes: nat)
    returns (w: Walk)
    requires Inverts(split, pair) && Exists(|txids|, height, pos)
    requires Faultless(pair, txids, e, height, pos, bits, hashes)
    ensures Fits(w, |txids|, height, pos) && At(e, Written(pair, txids, w, height, pos), bits, hashes)
    decreases height, 1
  {
    assert bits < |e.bits|;
    if height == 0 || !e.bits[bits] {
      w := Shut(e.bits[bits]);
      Single(e.bits, bits);
      Single(e.hashes, hashes);
    } else {
      Children(|txids|, height, pos);
      if Exists(|txids|, height - 1, 2 * pos + 1) {
        w := BothWritten(split, pair, txids, e, height, pos, bits, hashes);
      } else {
        w := OneWritten(split, pair, txids, e, height, pos, bits, hashes);
      }
    }
  }

  ghost predicate Faultless(pair: (Hash, Hash) -> Hash, txids: seq<Hash>, e: Encoding, height: nat, pos: nat, bits: nat,
        hashes: nat)
    requires Exists(|txids|, height, pos)
  {
    var d := Extract(pair, |txids|, e, height, pos, bits, hashes);
    !d.bad && d.hash == CalcHash(pair, txids, height, pos)
  }

  lemma BothWritten(split: Hash -> (Hash, Hash), pair: (Hash, Hash) -> Hash, txids: seq<Hash>, e: Encoding, height: nat,
        pos: nat, bits: nat, hashes: nat)
    returns (w: Walk)
    requires Inverts(split, pair) && height > 0 && Exists(|txids|, height, pos) && Exists(|txids|, height - 1, 2 * pos)
    requires Exists(|txids|, height - 1, 2 * pos + 1) && bits < |e.bits| && e.bits[bits]
    requires Faultless(pair, txids, e, height, pos, bits, hashes)
    ensures Fits(w, |txids|, height, pos) && At(e, Written(pair, txids, w, height, pos), bits, hashes)
    decreases height, 0
  {
    var x := BothFaultless(split, pair, txids, e, height, pos, bits, hashes);
    var l := ReadIsWritten(split, pair, txids, e, height - 1, 2 * pos, bits + 1, hashes);
    var r := ReadIsWritten(split, pair, txids, e, height - 1, 2 * pos + 1, x.bitsUsed, x.hashUsed);
    w := Both(l, r);
    ReadWritten(pair, txids, l, e, height - 1, 2 * pos, bits + 1, hashes);
    JoinBoth(pair, txids, l, r, e, height, pos, bits, hashes, x.bitsUsed, x.hashUsed);
  }

  lemma OneWritten(split: Hash -> (Hash, Hash), pair: (Hash, Hash) -> Hash, txids: seq<Hash>, e: Encoding, height: nat,
        pos: nat, bits: nat, hashes: nat)
    returns (w: Walk)
    requires Inverts(split, pair) && height > 0 && Exists(|txids|, height, pos) && Exists(|txids|, height - 1, 2 * pos)
    requires !Exists(|txids|, height - 1, 2 * pos + 1) && bits < |e.bits| && e.bits[bits]
    requires Faultless(pair, txids, e, height, pos, bits, hashes)
    ensures Fits(w, |txids|, height, pos) && At(e, Written(pair, txids, w, height, pos), bits, hashes)
    decreases height, 0
  {
    var x := Extract(pair, |txids|, e, height - 1, 2 * pos, bits + 1, hashes);
    ReadsOne(pair, |txids|, e, height, pos, bits, hashes, x);
    SplitOne(split, pair, txids, height, pos, x.hash);
    var l := ReadIsWritten(split, pair, txids, e, height - 1, 2 * pos, bits + 1, hashes);
    w := One(l);
    OpensOne(pair, txids, l, height, pos);
    AtParts(e, Written(pair, txids, l, height - 1, 2 * pos), Encoding([], []), bits, hashes);
  }

  lemma BothFaultless(split: Hash -> (Hash, Hash), pair: (Hash, Hash) -> Hash, txids: seq<Hash>, e: Encoding,
        height: nat, pos: nat, bits: nat, hashes: nat)
    returns (x: Decoding)
    requires Inverts(split, pair) && height > 0 && Exists(|txids|, height, pos) && Exists(|txids|, height - 1, 2 * pos)
    requires Exists(|txids|, height - 1, 2 * pos + 1) && bits < |e.bits| && e.bits[bits]
    requires Faultless(pair, txids, e, height, pos, bits, hashes)
    ensures x == Extract(pair, |txids|, e, height - 1, 2 * pos, bits + 1, hashes)
    ensures Faultless(pair, txids, e, height - 1, 2 * pos, bits + 1, hashes)
    ensures Faultless(pair, txids, e, height - 1, 2 * pos + 1, x.bitsUsed, x.hashUsed)
  {
    x := Extract(pair, |txids|, e, height - 1, 2 * pos, bits + 1, hashes);
    var y := Extract(pair, |txids|, e, height - 1, 2 * pos + 1, x.bitsUsed, x.hashUsed);
    ReadsBoth(pair, |txids|, e, height, pos, bits, hashes, x, y);
    SplitBoth(split, pair, txids, height, pos, x.hash, y.hash);
  }

  lemma SplitBoth(split: Hash -> (Hash, Hash), pair: (Hash, Hash) -> Hash, txids: seq<Hash>, height: nat, pos: nat,
        x: Hash, y: Hash)
    requires Inverts(split, pair) && height > 0 && Exists(|txids|, height, pos) && Exists(|txids|, height - 1, 2 * pos)
    requires Exists(|txids|, height - 1, 2 * pos + 1) && pair(x, y) == CalcHash(pair, txids, height, pos)
    ensures x == CalcHash(pair, txids, height - 1, 2 * pos) && y == CalcHash(pair, txids, height - 1, 2 * pos + 1)
  {
    assert split(pair(x, y)) == (x, y);
  }

  lemma SplitOne(split: Hash -> (Hash, Hash), pair: (Hash, Hash) -> Hash, txids: seq<Hash>, height: nat, pos: nat,
        x: Hash)
    requires Inverts(split, pair) && height > 0 && Exists(|txids|, height, pos) && Exists(|txids|, height - 1, 2 * pos)
    requires !Exists(|txids|, height - 1, 2 * pos + 1) && pair(x, x) == CalcHash(pair, txids, height, pos)
    ensures x == CalcHash(pair, txids, height - 1, 2 * pos)
  {
    assert split(pair(x, x)) == (x, x);
  }

  lemma JoinBoth(pair: (Hash, Hash) -> Hash, txids: seq<Hash>, l: Walk, r: Walk, e: Encoding, height: nat, pos: nat,
        bits: nat, hashes: nat, b: nat, h: nat)
    requires Exists(|txids|, height, pos) && Fits(Both(l, r), |txids|, height, pos)
    requires Exists(|txids|, height - 1, 2 * pos)
    requires bits < |e.bits| && e.bits[bits] && Ends(pair, txids, l, height - 1, 2 * pos, bits + 1, hashes) == (b, h)
    requires At(e, Written(pair, txids, l, height - 1, 2 * pos), bits + 1, hashes)
    requires At(e, Written(pair, txids, r, height - 1, 2 * pos + 1), b, h)
    ensures At(e, Written(pair, txids, Both(l, r), height, pos), bits, hashes)
  {
    OpensBoth(pair, txids, l, r, height, pos);
    AtParts(e, Written(pair, txids, l, height - 1, 2 * pos), Written(pair, txids, r, height - 1, 2 * pos + 1), bits,
      hashes);
  }

  // ----- The whole tree -----

  lemma {:induction false} WrittenSize(pair: (Hash, Hash) -> Hash, txids: seq<Hash>, w: Walk, height: nat, pos: nat)
    requires Exists(|txids|, height, pos) && Fits(w, |txids|, height, pos)
    ensures var part := Written(pair, txids, w, height, pos);
      0 < |part.hashes| <= |part.bits| && |part.hashes| <= Past(|txids|, height, pos) - First(height, pos)
    decreases w
  {
    match w
    case Shut(_) => FirstMono(height, pos, pos + 1);
    case Both(l, r) =>
      OpensBoth(pair, txids, l, r, height, pos);
      Children(|txids|, height, pos);
      WrittenSize(pair, txids, l, height - 1, 2 * pos);
      WrittenSize(pair, txids, r, height - 1, 2 * pos + 1);
    case One(l) =>
      OpensOne(pair, txids, l, height, pos);
      Children(|txids|, height, pos);
      WrittenSize(pair, txids, l, height - 1, 2 * pos);
  }

  /** The walk starts at the root. */
  ghost predicate Whole(w: Walk, n: nat) {
    n > 0 && Exists(n, TreeHeight(n), 0) && Fits(w, n, TreeHeight(n), 0)
  }

  /** The encoding is what the walk writes and at most a started byte of padding. */
  ghost predicate WrittenBy(pair: (Hash, Hash) -> Hash, txids: seq<Hash>, e: Encoding, w: Walk)
    requires Whole(w, |txids|)
  {
    var part := Written(pair, txids, w, TreeHeight(|txids|), 0);
    && e.hashes == part.hashes && part.bits <= e.bits && (|part.bits| + 7) / 8 == (|e.bits| + 7) / 8
  }

  /** The walk opens no node with equal children. */
  ghost predicate Honest(pair: (Hash, Hash) -> Hash, txids: seq<Hash>, w: Walk)
    requires Whole(w, |txids|)
  {
    Differ(pair, txids, w, TreeHeight(|txids|), 0)
  }

  /** For any bits and hashes: the extraction gives the root of the block if and
      only if they are written by a walk that opens no node with equal children;
      then it gives the leaves that the walk marks. */
  lemma AcceptedExactly(pair: (Hash, Hash) -> Hash, txids: seq<Hash>, e: Encoding)
    requires Injective(pair) && 0 < |txids| <= MAX_TRANSACTIONS && MerkleRoot(pair, txids) != NULL_HASH
    ensures ExtractTree(pair, |txids|, e).root == MerkleRoot(pair, txids) <==>
      exists w :: Whole(w, |txids|) && WrittenBy(pair, txids, e, w) && Honest(pair, txids, w)
  {
    if ExtractTree(pair, |txids|, e).root == MerkleRoot(pair, txids) {
      var w := WalkOf(pair, txids, e);
    }
    if exists w :: Whole(w, |txids|) && WrittenBy(pair, txids, e, w) && Honest(pair, txids, w) {
      var w :| Whole(w, |txids|) && WrittenBy(pair, txids, e, w) && Honest(pair, txids, w);
      WalkAccepted(pair, txids, e, w);
    }
  }

  lemma WalkAccepted(pair: (Hash, Hash) -> Hash, txids: seq<Hash>, e: Encoding, w: Walk)
    requires 0 < |txids| <= MAX_TRANSACTIONS
    requires Whole(w, |txids|) && WrittenBy(pair, txids, e, w) && Honest(pair, txids, w)
    ensures ExtractTree(pair, |txids|, e) ==
      Extracted(MerkleRoot(pair, txids), Marked(txids, w, TreeHeight(|txids|), 0))
  {
    var n, height := |txids|, TreeHeight(|txids|);
    var part := Written(pair, txids, w, height, 0);
    FirstIsShift(height, 0);
    WrittenSize(pair, txids, w, height, 0);
    assert e.bits[0..|part.bits|] == part.bits && e.hashes[0..|part.hashes|] == part.hashes;
    ReadWritten(pair, txids, w, e, height, 0, 0, 0);
  }

  lemma WalkOf(pair: (Hash, Hash) -> Hash, txids: seq<Hash>, e: Encoding) returns (w: Walk)
    requires Injective(pair) && 0 < |txids| <= MAX_TRANSACTIONS && MerkleRoot(pair, txids) != NULL_HASH
    requires ExtractTree(pair, |txids|, e).root == MerkleRoot(pair, txids)
    ensures Whole(w, |txids|) && WrittenBy(pair, txids, e, w) && Honest(pair, txids, w)
  {
    var n, height := |txids|, TreeHeight(|txids|);
    FirstIsShift(height, 0);
    var split := InverseExists(pair);
    w := ReadIsWritten(split, pair, txids, e, height, 0, 0, 0);
    ReadWritten(pair, txids, w, e, height, 0, 0, 0);
    var part := Written(pair, txids, w, height, 0);
    assert e.bits[0..|part.bits|] == part.bits && e.hashes[0..|part.hashes|] == e.hashes;
  }
}
