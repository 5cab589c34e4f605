/**
  Partial Merkle trees (src/merkleblock.cpp, src/merkleblock.h; BIP 37, sections
  "Partial Merkle branch format" and "Parsing a partial merkle tree object").

  Hashes are numbers and the pair hash is a parameter. Authentication and the
  round trip assume it injective, which is what a collision-free hash stands for.
*/
module PartialMerkle {

  import opened Arithmetic

  type Hash = int

  const NULL_HASH: Hash := 0

  /** GetMaxBlockWeight() / MIN_TRANSACTION_WEIGHT */
  const MAX_TRANSACTIONS := 8000000 / (4 * 60)

  ghost predicate Injective(pair: (Hash, Hash) -> Hash) {
    forall a, b, c, d :: pair(a, b) == pair(c, d) ==> a == c && b == d
  }

  /** The same, by an inverse. */
  ghost predicate Inverts(split: Hash -> (Hash, Hash), pair: (Hash, Hash) -> Hash) {
    forall a, b :: split(pair(a, b)) == (a, b)
  }

  ghost predicate PairOf(pair: (Hash, Hash) -> Hash, h: Hash, ab: (Hash, Hash)) {
    pair(ab.0, ab.1) == h
  }

  ghost function Split(pair: (Hash, Hash) -> Hash, h: Hash): (Hash, Hash) {
    if exists ab :: PairOf(pair, h, ab) then
      var ab :| PairOf(pair, h, ab);
      ab
    else (h, h)
  }

  lemma InverseExists(pair: (Hash, Hash) -> Hash) returns (split: Hash -> (Hash, Hash))
    requires Injective(pair)
    ensures Inverts(split, pair)
  {
    split := h => Split(pair, h);
    forall a, b ensures split(pair(a, b)) == (a, b) {
      assert PairOf(pair, pair(a, b), (a, b));
      var (x, y) := Split(pair, pair(a, b));
      assert PairOf(pair, pair(a, b), (x, y));
      assert pair(x, y) == pair(a, b);
    }
  }

  ghost predicate Distinct(txids: seq<Hash>) {
    forall i, j :: 0 <= i < j < |txids| ==> txids[i] != txids[j]
  }

  // ----- Shape of the tree -----

  /** CalcTreeWidth: the number of nodes at a height. */
  function Width(n: nat, height: nat): int {
    (n + Pow2(height) - 1) / Pow2(height)
  }

  /** The first leaf below node (height, pos). */
  function First(height: nat, pos: nat): nat
    decreases height
  {
    if height == 0 then pos else First(height - 1, 2 * pos)
  }

  /** Node `pos` exists at a height when its first leaf does. */
  predicate Exists(n: nat, height: nat, pos: nat) {
    First(height, pos) < n
  }

  /** The leaves below node (height, pos) are First .. Past. */
  function Past(n: nat, height: nat, pos: nat): nat {
    if First(height, pos + 1) < n then First(height, pos + 1) else n
  }

  lemma {:induction false} FirstIsShift(height: nat, pos: nat)
    ensures First(height, pos) == pos * Pow2(height)
    decreases height
  {
    if height > 0 {
      FirstIsShift(height - 1, 2 * pos);
      assert (2 * pos) * Pow2(height - 1) == pos * (2 * Pow2(height - 1));
    }
  }

  lemma {:induction false} FirstMono(height: nat, p: nat, q: nat)
    requires p < q
    ensures First(height, p) < First(height, q)
    decreases height
  {
    if height > 0 { FirstMono(height - 1, 2 * p, 2 * q); }
  }

  lemma WidthIsExists(n: nat, height: nat, pos: nat)
    ensures pos < Width(n, height) <==> Exists(n, height, pos)
  {
    CeilDiv(n, Pow2(height), pos);
    FirstIsShift(height, pos);
  }

  /** A node's leaves are its left child's followed by its right child's. */
  lemma Children(n: nat, height: nat, pos: nat)
    requires height > 0
    ensures First(height, pos) < First(height - 1, 2 * pos + 1) < First(height, pos + 1)
    ensures Exists(n, height - 1, 2 * pos + 1) ==>
              Past(n, height - 1, 2 * pos) == First(height - 1, 2 * pos + 1) &&
                Past(n, height - 1, 2 * pos + 1) == Past(n, height, pos)
    ensures !Exists(n, height - 1, 2 * pos + 1) ==> Past(n, height - 1, 2 * pos) == Past(n, height, pos)
    ensures Exists(n, height, pos) <==> Exists(n, height - 1, 2 * pos)
  {
    FirstMono(height - 1, 2 * pos, 2 * pos + 1);
    FirstMono(height - 1, 2 * pos + 1, 2 * pos + 2);
  }

  // ----- Hashing, encoding, decoding as functions -----

  function CalcHash(pair: (Hash, Hash) -> Hash, txids: seq<Hash>, height: nat, pos: nat): Hash
    requires Exists(|txids|, height, pos)
    decreases height
  {
    if height == 0 then txids[pos]
    else
      Children(|txids|, height, pos);
      var left := CalcHash(pair, txids, height - 1, 2 * pos);
      var right := if Exists(|txids|, height - 1, 2 * pos + 1) then
        CalcHash(pair, txids, height - 1, 2 * pos + 1) else left;
      pair(left, right)
  }

  predicate AnyMatch(matched: seq<bool>, lo: nat, hi: nat)
    requires hi <= |matched|
  {
    exists i :: lo <= i < hi && matched[i]
  }

  datatype Encoding = Encoding(bits: seq<bool>, hashes: seq<Hash>)

  function Build(pair: (Hash, Hash) -> Hash, txids: seq<Hash>, matched: seq<bool>, height: nat, pos: nat): Encoding
    requires |txids| == |matched| && Exists(|txids|, height, pos)
    decreases height, 1
  {
    var parent := AnyMatch(matched, First(height, pos), Past(|txids|, height, pos));
    if height == 0 || !parent then Encoding([parent], [CalcHash(pair, txids, height, pos)])
    else
      var below := BuildBelow(pair, txids, matched, height, pos);
      Encoding([parent] + below.bits, below.hashes)
  }

  function BuildBelow(pair: (Hash, Hash) -> Hash, txids: seq<Hash>, matched: seq<bool>, height: nat, pos: nat): Encoding
    requires |txids| == |matched| && Exists(|txids|, height, pos) && height > 0
    decreases height, 0
  {
    Children(|txids|, height, pos);
    var left := Build(pair, txids, matched, height - 1, 2 * pos);
    if Exists(|txids|, height - 1, 2 * pos + 1) then
      var right := Build(pair, txids, matched, height - 1, 2 * pos + 1);
      Encoding(left.bits + right.bits, left.hashes + right.hashes)
    else left
  }

  datatype Found = Found(index: nat, txid: Hash)

  datatype Decoding = Decoding(hash: Hash, bitsUsed: nat, hashUsed: nat, found: seq<Found>, bad: bool)

  function Extract(pair: (Hash, Hash) -> Hash, n: nat, e: Encoding, height: nat, pos: nat, bitsUsed: nat,
        hashUsed: nat): Decoding
    decreases height
  {
    if bitsUsed >= |e.bits| then Decoding(NULL_HASH, bitsUsed, hashUsed, [], true)
    else
      var parent := e.bits[bitsUsed];
      if height == 0 || !parent then
        if hashUsed >= |e.hashes| then Decoding(NULL_HASH, bitsUsed + 1, hashUsed, [], true)
        else
          var hash := e.hashes[hashUsed];
          Decoding(hash, bitsUsed + 1, hashUsed + 1, if height == 0 && parent then [Found(pos, hash)] else [], false)
      else
        var left := Extract(pair, n, e, height - 1, 2 * pos, bitsUsed + 1, hashUsed);
        if Exists(n, height - 1, 2 * pos + 1) then
          var right := Extract(pair, n, e, height - 1, 2 * pos + 1, left.bitsUsed, left.hashUsed);
          Decoding(pair(left.hash, right.hash), right.bitsUsed, right.hashUsed, left.found + right.found,
                   left.bad || right.bad || right.hash == left.hash)
        else left.(hash := pair(left.hash, left.hash))
  }

  // ----- The whole tree -----

  function HeightFrom(n: nat, height: nat): nat
    decreases n - height
  {
    WidthIsExists(n, height, 1);
    FirstIsShift(height, 1);
    if Width(n, height) > 1 then HeightFrom(n, height + 1) else height
  }

  /** The first height with a single node. */
  function TreeHeight(n: nat): nat { HeightFrom(n, 0) }

  lemma {:induction false} TopCoversAll(n: nat, height: nat)
    ensures First(HeightFrom(n, height), 1) >= n
    decreases n - height
  {
    WidthIsExists(n, height, 1);
    FirstIsShift(height, 1);
    if Width(n, height) > 1 { TopCoversAll(n, height + 1); }
  }

  function BuildTree(pair: (Hash, Hash) -> Hash, txids: seq<Hash>, matched: seq<bool>): Encoding
    requires 0 < |txids| == |matched|
  {
    FirstIsShift(TreeHeight(|txids|), 0);
    Build(pair, txids, matched, TreeHeight(|txids|), 0)
  }

  function MerkleRoot(pair: (Hash, Hash) -> Hash, txids: seq<Hash>): Hash
    requires 0 < |txids|
  {
    FirstIsShift(TreeHeight(|txids|), 0);
    CalcHash(pair, txids, TreeHeight(|txids|), 0)
  }

  datatype Extracted = Extracted(root: Hash, found: seq<Found>)

  function Indexes(found: seq<Found>): seq<nat> {
    seq(|found|, i requires 0 <= i < |found| => found[i].index)
  }

  /** The checks that guard the result; on failure the root is null. What was
      matched up to that point is still reported. */
  function ExtractTree(pair: (Hash, Hash) -> Hash, n: nat, e: Encoding): Extracted {
    if n == 0 || n > MAX_TRANSACTIONS || |e.hashes| > n || |e.bits| < |e.hashes| then Extracted(NULL_HASH, [])
    else
      var d := Extract(pair, n, e, TreeHeight(n), 0, 0, 0);
      if d.bad || (d.bitsUsed + 7) / 8 != (|e.bits| + 7) / 8 || d.hashUsed != |e.hashes| then
        Extracted(NULL_HASH, d.found)
      else Extracted(d.hash, d.found)
  }

  // ----- Soundness: a matching root authenticates every match -----

  ghost predicate Genuine(found: seq<Found>, txids: seq<Hash>, lo: nat, hi: nat) {
    && (forall k :: 0 <= k < |found| ==> lo <= found[k].index < hi <= |txids| && found[k].txid == txids[found[k].index])
    && (forall k, m :: 0 <= k < m < |found| ==> found[k].index < found[m].index)
  }

  lemma GenuineJoin(a: seq<Found>, b: seq<Found>, txids: seq<Hash>, lo: nat, mid: nat, hi: nat)
    requires Genuine(a, txids, lo, mid) && Genuine(b, txids, mid, hi) && lo <= mid <= hi <= |txids|
    ensures Genuine(a + b, txids, lo, hi)
  {
  }

  lemma {:induction false} ExtractSound(split: Hash -> (Hash, Hash), pair: (Hash, Hash) -> Hash, txids: seq<Hash>,
        e: Encoding,
                                        height: nat, pos: nat, bitsUsed: nat, hashUsed: nat)
    requires Inverts(split, pair) && Exists(|txids|, height, pos)
    ensures var d := Extract(pair, |txids|, e, height, pos, bitsUsed, hashUsed);
            !d.bad && d.hash == CalcHash(pair, txids, height, pos) ==>
              Genuine(d.found, txids, First(height, pos), Past(|txids|, height, pos))
    decreases height
  {
    var n := |txids|;
    var d := Extract(pair, n, e, height, pos, bitsUsed, hashUsed);
    if !d.bad && height > 0 && e.bits[bitsUsed] {
      Children(|txids|, height, pos);
      ExtractSound(split, pair, txids, e, height - 1, 2 * pos, bitsUsed + 1, hashUsed);
      var left := Extract(pair, n, e, height - 1, 2 * pos, bitsUsed + 1, hashUsed);
      if Exists(n, height - 1, 2 * pos + 1) {
        ExtractSound(split, pair, txids, e, height - 1, 2 * pos + 1, left.bitsUsed, left.hashUsed);
        var right := Extract(pair, n, e, height - 1, 2 * pos + 1, left.bitsUsed, left.hashUsed);
        if d.hash == CalcHash(pair, txids, height, pos) {
          GenuineJoin(left.found, right.found, txids, First(height, pos), First(height - 1, 2 * pos + 1),
            Past(n, height, pos));
        }
      }
    }
  }

  /** For arbitrary bits and hashes: if the extraction returns the block's real
      root (and that root is not the null hash that signals failure), every
      reported pair is the block's txid at that index, in increasing order. */
  lemma Soundness(pair: (Hash, Hash) -> Hash, txids: seq<Hash>, e: Encoding)
    requires Injective(pair) && 0 < |txids| && MerkleRoot(pair, txids) != NULL_HASH
    ensures var x := ExtractTree(pair, |txids|, e);
            x.root == MerkleRoot(pair, txids) ==> Genuine(x.found, txids, 0, |txids|)
  {
    FirstIsShift(TreeHeight(|txids|), 0);
    TopCoversAll(|txids|, 0);
    var split := InverseExists(pair);
    ExtractSound(split, pair, txids, e, TreeHeight(|txids|), 0, 0, 0);
  }

  // ----- Round trip -----

  function Expected(txids: seq<Hash>, matched: seq<bool>, lo: nat, hi: nat): seq<Found>
    requires lo <= hi <= |txids| == |matched|
    decreases hi - lo
  {
    if lo == hi then []
    else (if matched[lo] then [Found(lo, txids[lo])] else []) + Expected(txids, matched, lo + 1, hi)
  }

  lemma {:induction false} ExpectedJoin(txids: seq<Hash>, matched: seq<bool>, lo: nat, mid: nat, hi: nat)
    requires lo <= mid <= hi <= |txids| == |matched|
    ensures Expected(txids, matched, lo, hi) == Expected(txids, matched, lo, mid) + Expected(txids, matched, mid, hi)
    decreases mid - lo
  {
    if lo < mid {
      ExpectedJoin(txids, matched, lo + 1, mid, hi);
    }
  }

  lemma {:induction false} ExpectedNone(txids: seq<Hash>, matched: seq<bool>, lo: nat, hi: nat)
    requires lo <= hi <= |txids| == |matched|
    ensures AnyMatch(matched, lo, hi) <==> |Expected(txids, matched, lo, hi)| > 0
    decreases hi - lo
  {
    if lo < hi { ExpectedNone(txids, matched, lo + 1, hi); }
  }

  /** What ExtractMatches must report, said directly. */
  lemma {:induction false} ExpectedMeaning(txids: seq<Hash>, matched: seq<bool>, lo: nat, hi: nat)
    requires lo <= hi <= |txids| == |matched|
    ensures Genuine(Expected(txids, matched, lo, hi), txids, lo, hi)
    ensures forall i :: lo <= i < hi ==> (matched[i] <==> Found(i, txids[i]) in Expected(txids, matched, lo, hi))
    decreases hi - lo
  {
    if lo < hi {
      ExpectedMeaning(txids, matched, lo + 1, hi);
      var rest := Expected(txids, matched, lo + 1, hi);
      var x := Expected(txids, matched, lo, hi);
      assert x == (if matched[lo] then [Found(lo, txids[lo])] else []) + rest;
      forall i | lo <= i < hi ensures matched[i] <==> Found(i, txids[i]) in x {
        assert Found(lo, txids[lo]) !in rest;
      }
    }
  }

  /** Two nodes of one height hash differently, because their first leaves do. */
  lemma {:induction false} SiblingsDiffer(split: Hash -> (Hash, Hash), pair: (Hash, Hash) -> Hash, txids: seq<Hash>,
        height: nat, p: nat, q: nat)
    requires Inverts(split, pair) && Distinct(txids) && p < q
    requires Exists(|txids|, height, p) && Exists(|txids|, height, q)
    ensures CalcHash(pair, txids, height, p) != CalcHash(pair, txids, height, q)
    decreases height
  {
    if height > 0 {
      Children(|txids|, height, p);
      Children(|txids|, height, q);
      SiblingsDiffer(split, pair, txids, height - 1, 2 * p, 2 * q);
    }
  }

  ghost predicate At<T>(whole: seq<T>, at: nat, part: seq<T>) {
    && at + |part| <= |whole|
    && forall k :: 0 <= k < |part| ==> whole[at + k] == part[k]
  }

  lemma AtSplit<T>(whole: seq<T>, at: nat, a: seq<T>, b: seq<T>)
    requires At(whole, at, a + b)
    ensures At(whole, at, a) && At(whole, at + |a|, b)
  {
    forall k | 0 <= k < |a| ensures whole[at + k] == a[k] {
      assert (a + b)[k] == a[k];
    }
    forall k | 0 <= k < |b| ensures whole[at + |a| + k] == b[k] {
      assert whole[at + (|a| + k)] == (a + b)[|a| + k];
    }
  }

  /** The encoding of node (height, pos) stands in `e` at the given cursors. */
  ghost predicate Placed(b: Encoding, e: Encoding, bitsUsed: nat, hashUsed: nat) {
    At(e.bits, bitsUsed, b.bits) && At(e.hashes, hashUsed, b.hashes)
  }

  /** Decoding at those cursors gives the node's own hash, exactly its matches,
      and moves the cursors past it. */
  ghost predicate Decodes(pair: (Hash, Hash) -> Hash, txids: seq<Hash>, matched: seq<bool>, e: Encoding,
                          height: nat, pos: nat, bitsUsed: nat, hashUsed: nat)
    requires |txids| == |matched| && Exists(|txids|, height, pos)
  {
    var b := Build(pair, txids, matched, height, pos);
    var lo, hi := First(height, pos), Past(|txids|, height, pos);
    lo <= hi &&
    Extract(pair, |txids|, e, height, pos, bitsUsed, hashUsed) ==
      Decoding(CalcHash(pair, txids, height, pos), bitsUsed + |b.bits|, hashUsed + |b.hashes|,
        Expected(txids, matched, lo, hi), false)
  }

  lemma {:induction false} ExtractBuild(split: Hash -> (Hash, Hash), pair: (Hash, Hash) -> Hash, txids: seq<Hash>,
        matched: seq<bool>, e: Encoding,
                                        height: nat, pos: nat, bitsUsed: nat, hashUsed: nat)
    requires Inverts(split, pair) && Distinct(txids) && |txids| == |matched| && Exists(|txids|, height, pos)
    requires Placed(Build(pair, txids, matched, height, pos), e, bitsUsed, hashUsed)
    ensures Decodes(pair, txids, matched, e, height, pos, bitsUsed, hashUsed)
    decreases height
  {
    var n := |txids|;
    FirstMono(height, pos, pos + 1);
    var lo, hi := First(height, pos), Past(n, height, pos);
    var b := Build(pair, txids, matched, height, pos);
    assert b.bits[0] == AnyMatch(matched, lo, hi);
    assert e.bits[bitsUsed + 0] == b.bits[0];
    if height == 0 || !AnyMatch(matched, lo, hi) {
      ExtractLeaf(pair, txids, matched, e, height, pos, bitsUsed, hashUsed);
    } else {
      Children(n, height, pos);
      var l := Build(pair, txids, matched, height - 1, 2 * pos);
      var below := BuildBelow(pair, txids, matched, height, pos);
      assert b == Encoding([true] + below.bits, below.hashes);
      if Exists(n, height - 1, 2 * pos + 1) {
        var r := Build(pair, txids, matched, height - 1, 2 * pos + 1);
        PlacedBoth(b, l, r, e, bitsUsed, hashUsed);
        ExtractBoth(split, pair, txids, matched, e, height, pos, bitsUsed, hashUsed);
      } else {
        PlacedLeft(b, l, e, bitsUsed, hashUsed);
        ExtractBuild(split, pair, txids, matched, e, height - 1, 2 * pos, bitsUsed + 1, hashUsed);
      }
    }
  }

  lemma ExtractLeaf(pair: (Hash, Hash) -> Hash, txids: seq<Hash>, matched: seq<bool>, e: Encoding,
                    height: nat, pos: nat, bitsUsed: nat, hashUsed: nat)
    requires |txids| == |matched| && Exists(|txids|, height, pos)
    requires height == 0 || !AnyMatch(matched, First(height, pos), Past(|txids|, height, pos))
    requires Placed(Build(pair, txids, matched, height, pos), e, bitsUsed, hashUsed)
    ensures Decodes(pair, txids, matched, e, height, pos, bitsUsed, hashUsed)
  {
    if height == 0 {
      ExtractTxid(pair, txids, matched, e, height, pos, bitsUsed, hashUsed);
    } else {
      ExtractPruned(pair, txids, matched, e, height, pos, bitsUsed, hashUsed);
    }
  }

  lemma ExtractTxid(pair: (Hash, Hash) -> Hash, txids: seq<Hash>, matched: seq<bool>, e: Encoding,
                    height: nat, pos: nat, bitsUsed: nat, hashUsed: nat)
    requires |txids| == |matched| && Exists(|txids|, height, pos) && height == 0
    requires Placed(Build(pair, txids, matched, height, pos), e, bitsUsed, hashUsed)
    ensures Decodes(pair, txids, matched, e, height, pos, bitsUsed, hashUsed)
  {
    FirstMono(height, pos, pos + 1);
    var b := Build(pair, txids, matched, height, pos);
    assert e.bits[bitsUsed + 0] == b.bits[0] && e.hashes[hashUsed + 0] == b.hashes[0];
    assert Expected(txids, matched, pos, pos + 1) == if matched[pos] then [Found(pos, txids[pos])] else [];
  }

  lemma ExtractPruned(pair: (Hash, Hash) -> Hash, txids: seq<Hash>, matched: seq<bool>, e: Encoding,
                      height: nat, pos: nat, bitsUsed: nat, hashUsed: nat)
    requires |txids| == |matched| && Exists(|txids|, height, pos) && height > 0
    requires !AnyMatch(matched, First(height, pos), Past(|txids|, height, pos))
    requires Placed(Build(pair, txids, matched, height, pos), e, bitsUsed, hashUsed)
    ensures Decodes(pair, txids, matched, e, height, pos, bitsUsed, hashUsed)
  {
    FirstMono(height, pos, pos + 1);
    ExpectedNone(txids, matched, First(height, pos), Past(|txids|, height, pos));
    var b := Build(pair, txids, matched, height, pos);
    assert e.bits[bitsUsed + 0] == b.bits[0] && e.hashes[hashUsed + 0] == b.hashes[0];
  }

  lemma PlacedLeft(b: Encoding, l: Encoding, e: Encoding, bitsUsed: nat, hashUsed: nat)
    requires b.bits == [true] + l.bits && b.hashes == l.hashes
    requires Placed(b, e, bitsUsed, hashUsed)
    ensures Placed(l, e, bitsUsed + 1, hashUsed)
  {
    AtSplit(e.bits, bitsUsed, [true], l.bits);
  }

  lemma PlacedBoth(b: Encoding, l: Encoding, r: Encoding, e: Encoding, bitsUsed: nat, hashUsed: nat)
    requires b.bits == [true] + (l.bits + r.bits) && b.hashes == l.hashes + r.hashes
    requires Placed(b, e, bitsUsed, hashUsed)
    ensures Placed(l, e, bitsUsed + 1, hashUsed)
    ensures Placed(r, e, bitsUsed + 1 + |l.bits|, hashUsed + |l.hashes|)
  {
    AtSplit(e.bits, bitsUsed, [true], l.bits + r.bits);
    AtSplit(e.bits, bitsUsed + 1, l.bits, r.bits);
    AtSplit(e.hashes, hashUsed, l.hashes, r.hashes);
  }

  lemma {:induction false} ExtractBoth(split: Hash -> (Hash, Hash), pair: (Hash, Hash) -> Hash, txids: seq<Hash>,
        matched: seq<bool>, e: Encoding,
                                       height: nat, pos: nat, bitsUsed: nat, hashUsed: nat)
    requires Inverts(split, pair) && Distinct(txids) && |txids| == |matched| && Exists(|txids|, height, pos)
    requires height > 0 && AnyMatch(matched, First(height, pos), Past(|txids|, height, pos))
    requires bitsUsed < |e.bits| && e.bits[bitsUsed]
    requires Exists(|txids|, height - 1, 2 * pos) && Exists(|txids|, height - 1, 2 * pos + 1)
    requires Placed(Build(pair, txids, matched, height - 1, 2 * pos), e, bitsUsed + 1, hashUsed)
    requires var l := Build(pair, txids, matched, height - 1, 2 * pos);
             Placed(Build(pair, txids, matched, height - 1, 2 * pos + 1), e, bitsUsed + 1 + |l.bits|,
               hashUsed + |l.hashes|)
    ensures Decodes(pair, txids, matched, e, height, pos, bitsUsed, hashUsed)
    decreases height, 0
  {
    var l := Build(pair, txids, matched, height - 1, 2 * pos);
    ExtractBuild(split, pair, txids, matched, e, height - 1, 2 * pos, bitsUsed + 1, hashUsed);
    ExtractBuild(split, pair, txids, matched, e, height - 1, 2 * pos + 1, bitsUsed + 1 + |l.bits|,
      hashUsed + |l.hashes|);
    DecodesBoth(split, pair, txids, matched, e, height, pos, bitsUsed, hashUsed);
  }

  lemma DecodesBoth(split: Hash -> (Hash, Hash), pair: (Hash, Hash) -> Hash, txids: seq<Hash>, matched: seq<bool>,
        e: Encoding,
                    height: nat, pos: nat, bitsUsed: nat, hashUsed: nat)
    requires Inverts(split, pair) && Distinct(txids) && |txids| == |matched| && Exists(|txids|, height, pos)
    requires height > 0 && AnyMatch(matched, First(height, pos), Past(|txids|, height, pos))
    requires bitsUsed < |e.bits| && e.bits[bitsUsed]
    requires Exists(|txids|, height - 1, 2 * pos) && Exists(|txids|, height - 1, 2 * pos + 1)
    requires Decodes(pair, txids, matched, e, height - 1, 2 * pos, bitsUsed + 1, hashUsed)
    requires var l := Build(pair, txids, matched, height - 1, 2 * pos);
             Decodes(pair, txids, matched, e, height - 1, 2 * pos + 1, bitsUsed + 1 + |l.bits|, hashUsed + |l.hashes|)
    ensures Decodes(pair, txids, matched, e, height, pos, bitsUsed, hashUsed)
  {
    Children(|txids|, height, pos);
    SiblingsDiffer(split, pair, txids, height - 1, 2 * pos, 2 * pos + 1);
    ExpectedJoin(txids, matched, First(height, pos), First(height - 1, 2 * pos + 1), Past(|txids|, height, pos));
  }

  /** The size guarantees on a partial tree: at most one hash per leaf, at most
      1 + matches * height hashes, and at least one bit per hash. */
  lemma {:induction false} BuildSize(pair: (Hash, Hash) -> Hash, txids: seq<Hash>, matched: seq<bool>, height: nat,
        pos: nat)
    requires |txids| == |matched| && Exists(|txids|, height, pos)
    ensures First(height, pos) < Past(|txids|, height, pos)
    ensures var b := Build(pair, txids, matched, height, pos);
            var lo, hi := First(height, pos), Past(|txids|, height, pos);
            && 1 <= |b.hashes| <= hi - lo
            && |b.hashes| <= |b.bits|
            && |b.hashes| <= 1 + |Expected(txids, matched, lo, hi)| * height
    decreases height
  {
    var n := |txids|;
    var lo, hi := First(height, pos), Past(n, height, pos);
    FirstMono(height, pos, pos + 1);
    ExpectedNone(txids, matched, lo, hi);
    var m := |Expected(txids, matched, lo, hi)|;
    if height == 0 || !AnyMatch(matched, lo, hi) {
      MulNonNegative(m, height);
    } else {
      Children(n, height, pos);
      BuildSize(pair, txids, matched, height - 1, 2 * pos);
      var mid := First(height - 1, 2 * pos + 1);
      if Exists(n, height - 1, 2 * pos + 1) {
        BuildSize(pair, txids, matched, height - 1, 2 * pos + 1);
        ExpectedJoin(txids, matched, lo, mid, hi);
        SizeStep(|Expected(txids, matched, lo, mid)|, |Expected(txids, matched, mid, hi)|, height);
      } else {
        SizeStep(m, 0, height);
      }
    }
  }

  /** The inner nodes below (height, pos) that are traversed and have an only
      child. */
  function Singles(n: nat, matched: seq<bool>, height: nat, pos: nat): nat
    requires |matched| == n && Exists(n, height, pos)
    decreases height
  {
    if height == 0 || !AnyMatch(matched, First(height, pos), Past(n, height, pos)) then 0
    else
      Children(n, height, pos);
      Singles(n, matched, height - 1, 2 * pos) +
      if Exists(n, height - 1, 2 * pos + 1) then Singles(n, matched, height - 1, 2 * pos + 1) else 1
  }

  /** Every traversed node has a bit and every leaf a hash: without only children
      there is one leaf more than inner nodes. */
  lemma {:induction false} BitsCount(pair: (Hash, Hash) -> Hash, txids: seq<Hash>, matched: seq<bool>, height: nat,
        pos: nat)
    requires |txids| == |matched| && Exists(|txids|, height, pos)
    ensures var b := Build(pair, txids, matched, height, pos);
      |b.bits| + 1 == 2 * |b.hashes| + Singles(|txids|, matched, height, pos)
    decreases height
  {
    if height > 0 && AnyMatch(matched, First(height, pos), Past(|txids|, height, pos)) {
      Children(|txids|, height, pos);
      BitsCount(pair, txids, matched, height - 1, 2 * pos);
      if Exists(|txids|, height - 1, 2 * pos + 1) { BitsCount(pair, txids, matched, height - 1, 2 * pos + 1); }
    }
  }

  /** The last node of a level has no sibling and a match below it. */
  predicate Lonely(n: nat, matched: seq<bool>, height: nat)
    requires |matched| == n
  {
    var last := Width(n, height) - 1;
    last >= 0 && last % 2 == 0 && AnyMatch(matched, First(height, last), n)
  }

  /** The last node of its level. */
  predicate AtEdge(n: nat, height: nat, pos: nat) {
    Exists(n, height, pos) && !Exists(n, height, pos + 1)
  }

  lemma EdgeWidth(n: nat, height: nat, pos: nat)
    requires AtEdge(n, height, pos)
    ensures Width(n, height) == pos + 1 && Past(n, height, pos) == n
  {
    WidthIsExists(n, height, pos);
    WidthIsExists(n, height, pos + 1);
  }

  /** A full subtree has no only child. */
  lemma {:induction false} FullSubtree(n: nat, matched: seq<bool>, height: nat, pos: nat)
    requires |matched| == n && Exists(n, height, pos) && First(height, pos + 1) <= n
    ensures Singles(n, matched, height, pos) == 0
    decreases height
  {
    if height > 0 {
      Children(n, height, pos);
      FullSubtree(n, matched, height - 1, 2 * pos);
      FullSubtree(n, matched, height - 1, 2 * pos + 1);
    }
  }

  /** Below the edge, the last nodes of the lower levels. */
  lemma {:induction false} EdgeBelow(n: nat, height: nat, pos: nat, h: nat)
    requires AtEdge(n, height, pos) && h <= height
    ensures Width(n, h) > 0 && First(h, Width(n, h) - 1) >= First(height, pos)
    decreases height
  {
    EdgeWidth(n, height, pos);
    if h < height {
      Children(n, height, pos);
      EdgeBelow(n, height - 1, if Exists(n, height - 1, 2 * pos + 1) then 2 * pos + 1 else 2 * pos, h);
    }
  }

  ghost predicate NoneLonely(n: nat, matched: seq<bool>, height: nat)
    requires |matched| == n
  {
    forall h :: 0 <= h < height ==> !Lonely(n, matched, h)
  }

  /** The last of two children is not alone, and the other is full. */
  lemma EdgePair(n: nat, matched: seq<bool>, height: nat, pos: nat)
    requires |matched| == n && height > 0 && AtEdge(n, height, pos) && Exists(n, height - 1, 2 * pos + 1)
    requires AnyMatch(matched, First(height, pos), n)
    ensures AtEdge(n, height - 1, 2 * pos + 1) && !Lonely(n, matched, height - 1)
    ensures Singles(n, matched, height, pos) == Singles(n, matched, height - 1, 2 * pos + 1)
  {
    EdgeWidth(n, height, pos);
    Children(n, height, pos);
    EdgeWidth(n, height - 1, 2 * pos + 1);
    FullSubtree(n, matched, height - 1, 2 * pos);
  }

  lemma EdgeAlone(n: nat, matched: seq<bool>, height: nat, pos: nat)
    requires |matched| == n && height > 0 && AtEdge(n, height, pos) && !Exists(n, height - 1, 2 * pos + 1)
    requires AnyMatch(matched, First(height, pos), n)
    ensures Lonely(n, matched, height - 1) && Singles(n, matched, height, pos) > 0
  {
    EdgeWidth(n, height, pos);
    Children(n, height, pos);
    EdgeWidth(n, height - 1, 2 * pos);
  }

  lemma {:induction false} EdgeSingles(n: nat, matched: seq<bool>, height: nat, pos: nat)
    requires |matched| == n && AtEdge(n, height, pos)
    ensures Singles(n, matched, height, pos) == 0 <==> NoneLonely(n, matched, height)
    decreases height
  {
    EdgeWidth(n, height, pos);
    if !AnyMatch(matched, First(height, pos), n) {
      forall h | 0 <= h < height ensures !Lonely(n, matched, h) { EdgeBelow(n, height, pos, h); }
    } else if height > 0 {
      if Exists(n, height - 1, 2 * pos + 1) {
        EdgePair(n, matched, height, pos);
        EdgeSingles(n, matched, height - 1, 2 * pos + 1);
      } else {
        EdgeAlone(n, matched, height, pos);
      }
    }
  }

  /** At most twice as many bits as hashes, less one, are written if and only if
      no level has an odd width with a match below its last node. */
  lemma BitsExactly(pair: (Hash, Hash) -> Hash, txids: seq<Hash>, matched: seq<bool>)
    requires 0 < |txids| == |matched|
    ensures var b := BuildTree(pair, txids, matched);
      |b.bits| <= 2 * |b.hashes| - 1 <==> NoneLonely(|txids|, matched, TreeHeight(|txids|))
  {
    var n, height := |txids|, TreeHeight(|txids|);
    TopCoversAll(n, 0);
    FirstIsShift(height, 0);
    BitsCount(pair, txids, matched, height, 0);
    EdgeSingles(n, matched, height, 0);
  }

  /** Of five transactions only the last one: more bits than the remark allows. */
  lemma BitsExceed(pair: (Hash, Hash) -> Hash, txids: seq<Hash>, matched: seq<bool>)
    requires |txids| == 5 && matched == [false, false, false, false, true]
    ensures var b := BuildTree(pair, txids, matched); |b.bits| > 2 * |b.hashes| - 1
  {
    BitsExactly(pair, txids, matched);
    assert Width(5, 0) == 5 && TreeHeight(5) > 0;
    assert matched[4] && Lonely(5, matched, 0);
  }

  lemma SizeStep(ml: nat, mr: nat, height: nat)
    requires height > 0
    ensures (ml + mr) * height == ml * (height - 1) + mr * (height - 1) + ml + mr
  {
  }

  /** Build, then extract from any stream that starts with the built bits and
      pads them to a full byte: the full root and exactly the matches. */
  lemma RoundTripPadded(pair: (Hash, Hash) -> Hash, txids: seq<Hash>, matched: seq<bool>, padding: seq<bool>)
    requires Injective(pair) && Distinct(txids) && 0 < |txids| == |matched| <= MAX_TRANSACTIONS
    requires var b := BuildTree(pair, txids, matched); (|b.bits| + 7) / 8 == (|b.bits| + |padding| + 7) / 8
    ensures var b := BuildTree(pair, txids, matched);
            ExtractTree(pair, |txids|, Encoding(b.bits + padding, b.hashes)) ==
            Extracted(MerkleRoot(pair, txids), Expected(txids, matched, 0, |txids|))
  {
    var n, height := |txids|, TreeHeight(|txids|);
    var b := BuildTree(pair, txids, matched);
    var e := Encoding(b.bits + padding, b.hashes);
    TopCoversAll(n, 0);
    FirstIsShift(height, 0);
    BuildSize(pair, txids, matched, height, 0);
    var split := InverseExists(pair);
    ExtractBuild(split, pair, txids, matched, e, height, 0, 0, 0);
  }

  // ----- Packing bits into bytes -----

  function Mask(i: nat): bv8
    requires i < 8
  {
    (1 as bv8) << i
  }

  predicate TestBit(b: bv8, i: nat)
    requires i < 8
  {
    (b & Mask(i)) != 0
  }

  /** The byte after `|= bit << i`. */
  function Stored(b: bv8, i: nat, bit: bool): bv8
    requires i < 8
  {
    b | (if bit then Mask(i) else 0)
  }

  lemma StoreBit(b: bv8, i: nat, bit: bool, j: nat)
    requires i < 8 && j < 8
    ensures TestBit(Stored(b, i, bit), j) <==> TestBit(b, j) || (bit && i == j)
  {
    MaskValue(i);
    MaskValue(j);
  }

  lemma MaskValue(i: nat)
    requires i < 8
    ensures Mask(i) == [1, 2, 4, 8, 16, 32, 64, 128][i]
  {
  }

  function Unpacked(bytes: seq<bv8>): seq<bool> {
    seq(|bytes| * 8, p requires 0 <= p < |bytes| * 8 => TestBit(bytes[p / 8], p % 8))
  }

  ghost predicate PacksTo(bits: seq<bool>, bytes: seq<bv8>, done: nat)
    requires done <= |bits|
  {
    && |bytes| == (|bits| + 7) / 8
    && forall p :: 0 <= p < |bytes| * 8 ==> TestBit(bytes[p / 8], p % 8) == (p < done && bits[p])
  }

  method Pack(bits: seq<bool>) returns (bytes: seq<bv8>)
    ensures |bytes| == (|bits| + 7) / 8
    ensures |bits| <= |bytes| * 8 && Unpacked(bytes) == bits + seq(|bytes| * 8 - |bits|, _ => false)
  {
    var vBytes := new bv8[(|bits| + 7) / 8](_ => 0);
    for p := 0 to |bits|
      invariant PacksTo(bits, vBytes[..], p)
    {
      ghost var before := vBytes[..];
      vBytes[p / 8] := Stored(vBytes[p / 8], p % 8, bits[p]);
      PackStep(bits, before, vBytes[..], p);
    }
    bytes := vBytes[..];
  }

  lemma PackStep(bits: seq<bool>, before: seq<bv8>, after: seq<bv8>, p: nat)
    requires p < |bits| && PacksTo(bits, before, p)
    requires after == before[p / 8 := Stored(before[p / 8], p % 8, bits[p])]
    ensures PacksTo(bits, after, p + 1)
  {
    forall q | 0 <= q < |after| * 8 ensures TestBit(after[q / 8], q % 8) == (q < p + 1 && bits[q]) {
      assert TestBit(before[q / 8], q % 8) == (q < p && bits[q]);
      if q / 8 == p / 8 {
        StoreBit(before[p / 8], p % 8, bits[p], q % 8);
        assert q % 8 == p % 8 ==> q == p;
      }
    }
  }

  method Unpack(bytes: seq<bv8>) returns (bits: seq<bool>)
    ensures bits == Unpacked(bytes)
  {
    var vBits := new bool[|bytes| * 8](_ => false);
    for p := 0 to vBits.Length
      invariant forall q :: 0 <= q < p ==> vBits[q] == TestBit(bytes[q / 8], q % 8)
    {
      vBits[p] := TestBit(bytes[p / 8], p % 8);
    }
    bits := vBits[..];
  }

  // ----- The class -----

  class PartialMerkleTree {
    const pair: (Hash, Hash) -> Hash
    var nTransactions: nat
    var vBits: seq<bool>
    var vHash: seq<Hash>
    var fBad: bool

    constructor (pair: (Hash, Hash) -> Hash, txids: seq<Hash>, matched: seq<bool>)
      requires 0 < |txids| == |matched|
      ensures this.pair == pair && nTransactions == |txids| && !fBad
      ensures Encoding(vBits, vHash) == BuildTree(pair, txids, matched)
    {
      this.pair := pair;
      nTransactions := |txids|;
      vBits := [];
      vHash := [];
      fBad := false;
      new;
      var nHeight := ComputeHeight();
      FirstIsShift(nHeight, 0);
      TraverseAndBuild(nHeight, 0, txids, matched);
    }

    /** A tree as read from the wire. */
    constructor FromWire(pair: (Hash, Hash) -> Hash, nTransactions: nat, hashes: seq<Hash>, bytes: seq<bv8>)
      ensures this.pair == pair && this.nTransactions == nTransactions && !fBad
      ensures vHash == hashes && vBits == Unpacked(bytes)
    {
      this.pair := pair;
      this.nTransactions := nTransactions;
      vHash := hashes;
      fBad := false;
      new;
      var bits := Unpack(bytes);
      vBits := bits;
    }

    method ComputeHeight() returns (nHeight: nat)
      ensures nHeight == TreeHeight(nTransactions)
    {
      nHeight := 0;
      while Width(nTransactions, nHeight) > 1
        invariant TreeHeight(nTransactions) == HeightFrom(nTransactions, nHeight)
        decreases nTransactions - nHeight
      {
        WidthIsExists(nTransactions, nHeight, 1);
        FirstIsShift(nHeight, 1);
        nHeight := nHeight + 1;
      }
    }

    method ParentOfMatch(height: nat, pos: nat, matched: seq<bool>) returns (fParentOfMatch: bool)
      requires nTransactions == |matched| && Exists(nTransactions, height, pos)
      ensures fParentOfMatch == AnyMatch(matched, First(height, pos), Past(nTransactions, height, pos))
    {
      FirstMono(height, pos, pos + 1);
      fParentOfMatch := false;
      var p := First(height, pos);
      while p < First(height, pos + 1) && p < nTransactions
        invariant First(height, pos) <= p <= Past(nTransactions, height, pos) <= nTransactions
        invariant fParentOfMatch == AnyMatch(matched, First(height, pos), p)
      {
        fParentOfMatch := fParentOfMatch || matched[p];
        p := p + 1;
      }
    }

    method TraverseAndBuild(height: nat, pos: nat, txids: seq<Hash>, matched: seq<bool>)
      requires nTransactions == |txids| == |matched| && Exists(|txids|, height, pos)
      modifies this`vBits, this`vHash
      ensures var b := Build(pair, txids, matched, height, pos);
              vBits == old(vBits) + b.bits && vHash == old(vHash) + b.hashes
      decreases height
    {
      var fParentOfMatch := ParentOfMatch(height, pos, matched);
      vBits := vBits + [fParentOfMatch];
      if height == 0 || !fParentOfMatch {
        vHash := vHash + [CalcHash(pair, txids, height, pos)];
      } else {
        BuildChildren(height, pos, txids, matched);
      }
    }

    method BuildChildren(height: nat, pos: nat, txids: seq<Hash>, matched: seq<bool>)
      requires nTransactions == |txids| == |matched| && Exists(|txids|, height, pos)
      requires height > 0
      modifies this`vBits, this`vHash
      ensures var b := BuildBelow(pair, txids, matched, height, pos);
              vBits == old(vBits) + b.bits && vHash == old(vHash) + b.hashes
      decreases height, 0
    {
      Children(|txids|, height, pos);
      WidthIsExists(nTransactions, height - 1, 2 * pos + 1);
      ghost var l := Build(pair, txids, matched, height - 1, 2 * pos);
      TraverseAndBuild(height - 1, 2 * pos, txids, matched);
      if 2 * pos + 1 < Width(nTransactions, height - 1) {
        ghost var r := Build(pair, txids, matched, height - 1, 2 * pos + 1);
        TraverseAndBuild(height - 1, 2 * pos + 1, txids, matched);
        assert vBits == old(vBits) + (l.bits + r.bits) && vHash == old(vHash) + (l.hashes + r.hashes);
      }
    }

    /** vMatch and vnIndex are appended to; fBad is only ever set. */
    method TraverseAndExtract(height: nat, pos: nat, nBitsUsed: nat, nHashUsed: nat, found: seq<Found>)
      returns (hash: Hash, bits: nat, hashes: nat, found': seq<Found>)
      modifies this`fBad
      ensures var d := Extract(pair, nTransactions, Encoding(vBits, vHash), height, pos, nBitsUsed, nHashUsed);
              && hash == d.hash && bits == d.bitsUsed && hashes == d.hashUsed
              && found' == found + d.found && fBad == (old(fBad) || d.bad)
      decreases height
    {
      bits, hashes, found' := nBitsUsed, nHashUsed, found;
      if bits >= |vBits| {
        fBad := true;
        return NULL_HASH, bits, hashes, found';
      }
      var fParentOfMatch := vBits[bits];
      bits := bits + 1;
      if height == 0 || !fParentOfMatch {
        if hashes >= |vHash| {
          fBad := true;
          return NULL_HASH, bits, hashes, found';
        }
        hash := vHash[hashes];
        hashes := hashes + 1;
        if height == 0 && fParentOfMatch {
          found' := found' + [Found(pos, hash)];
        }
      } else {
        hash, bits, hashes, found' := ExtractChildren(height, pos, bits, hashes, found');
      }
    }

    method ExtractChildren(height: nat, pos: nat, nBitsUsed: nat, nHashUsed: nat, found: seq<Found>)
      returns (hash: Hash, bits: nat, hashes: nat, found': seq<Found>)
      requires 0 < nBitsUsed <= |vBits| && vBits[nBitsUsed - 1] && height > 0
      modifies this`fBad
      ensures var d := Extract(pair, nTransactions, Encoding(vBits, vHash), height, pos, nBitsUsed - 1, nHashUsed);
              && hash == d.hash && bits == d.bitsUsed && hashes == d.hashUsed
              && found' == found + d.found && fBad == (old(fBad) || d.bad)
      decreases height, 0
    {
      var left, right;
      ghost var e := Encoding(vBits, vHash);
      ghost var l := Extract(pair, nTransactions, e, height - 1, 2 * pos, nBitsUsed, nHashUsed);
      left, bits, hashes, found' := TraverseAndExtract(height - 1, 2 * pos, nBitsUsed, nHashUsed, found);
      WidthIsExists(nTransactions, height - 1, 2 * pos + 1);
      if 2 * pos + 1 < Width(nTransactions, height - 1) {
        ghost var r := Extract(pair, nTransactions, e, height - 1, 2 * pos + 1, bits, hashes);
        right, bits, hashes, found' := TraverseAndExtract(height - 1, 2 * pos + 1, bits, hashes, found');
        assert found' == found + (l.found + r.found);
        if right == left {
          fBad := true;
        }
      } else {
        right := left;
      }
      hash := pair(left, right);
    }

    /** A tree that already failed once keeps failing. The list of matches starts
        empty; the caller's list of indexes is only added to. */
    method ExtractMatches(vnIndex: seq<nat>) returns (root: Hash, found: seq<Found>, indexes: seq<nat>)
      modifies this`fBad
      ensures var x := ExtractTree(pair, nTransactions, Encoding(vBits, vHash));
              && found == x.found && root == (if old(fBad) then NULL_HASH else x.root)
              && indexes == vnIndex + Indexes(found)
    {
      found, indexes := [], vnIndex;
      if nTransactions == 0 || nTransactions > MAX_TRANSACTIONS || |vHash| > nTransactions || |vBits| < |vHash| {
        return NULL_HASH, [], vnIndex;
      }
      var nHeight := ComputeHeight();
      var nBitsUsed, nHashUsed;
      root, nBitsUsed, nHashUsed, found := TraverseAndExtract(nHeight, 0, 0, 0, []);
      indexes := vnIndex + Indexes(found);
      if fBad || (nBitsUsed + 7) / 8 != (|vBits| + 7) / 8 || nHashUsed != |vHash| {
        return NULL_HASH, found, indexes;
      }
    }
  }

  /** Build, serialise, read back, extract: the real root and exactly the
      matched txids with their indices, in order. */
  method RoundTrip(pair: (Hash, Hash) -> Hash, txids: seq<Hash>, matched: seq<bool>)
    returns (root: Hash, found: seq<Found>)
    requires Injective(pair) && Distinct(txids) && 0 < |txids| == |matched| <= MAX_TRANSACTIONS
    ensures root == MerkleRoot(pair, txids)
    ensures found == Expected(txids, matched, 0, |txids|)
  {
    var sent := new PartialMerkleTree(pair, txids, matched);
    var bytes := Pack(sent.vBits);
    var received := new PartialMerkleTree.FromWire(pair, sent.nTransactions, sent.vHash, bytes);
    ghost var e := Encoding(received.vBits, received.vHash);
    assert ExtractTree(pair, |txids|, e) ==
      Extracted(MerkleRoot(pair, txids), Expected(txids, matched, 0, |txids|)) by {
      var padding := seq(|bytes| * 8 - |sent.vBits|, _ => false);
      assert e == Encoding(sent.vBits + padding, sent.vHash);
      RoundTripPadded(pair, txids, matched, padding);
    }
    var indexes;
    root, found, indexes := received.ExtractMatches([]);
  }
}
