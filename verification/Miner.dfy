/**
  Block assembly (src/miner.cpp, src/miner.h): packages of a transaction and its
  ancestors are chosen from the mempool while the totals of their descendants
  are corrected lazily.

  The mempool is a finite set of transactions with their strict ancestors and
  exact cached totals. Packages are ranked by any comparison that is a strict
  weak order, as the indexes of the source demand; the comparison of fee rates
  with the hash to break ties is one, but for the rounding of the source.
*/
module Miner {

  import Arithmetic

  type Tx = nat

  const WITNESS_SCALE_FACTOR := 4
  const MAX_BLOCK_SIGOPS_COST := 80000
  const MAX_CONSECUTIVE_FAILURES := 1000
  const RESERVED_WEIGHT := 4000
  const RESERVED_SIGOPS := 400

  /** A mempool entry; the last four fields are totals over the transaction and
      its ancestors. */
  datatype Entry = Entry(
    size: nat, weight: nat, sigops: nat, fee: int, modFee: int,
    countWithAncestors: nat, sizeWithAncestors: nat, sigopsWithAncestors: nat, modFeesWithAncestors: int)

  /** The mempool: entries and strict ancestors. */
  datatype Pool = Pool(entries: map<Tx, Entry>, ancestors: map<Tx, set<Tx>>) {
    ghost predicate Shaped() {
      && ancestors.Keys == entries.Keys
      && (forall t :: t in ancestors ==> ancestors[t] <= entries.Keys && t !in ancestors[t])
      && (forall t, a {:trigger a in ancestors[t]} :: t in ancestors && a in ancestors[t] ==>
        ancestors[a] <= ancestors[t])
      && (forall t :: t in entries ==>
        0 < entries[t].size && entries[t].weight <= WITNESS_SCALE_FACTOR * entries[t].size)
    }

    ghost predicate Valid() {
      Shaped() && forall t {:trigger CachedExactly(t)} :: t in entries ==> CachedExactly(t)
    }

    ghost predicate CachedExactly(t: Tx)
      requires t in entries && t in ancestors
    {
      && entries[t].countWithAncestors == |ancestors[t]| + 1
      && entries[t].sizeWithAncestors == Sum(Size(this), Package(t))
      && entries[t].sigopsWithAncestors == Sum(SigOps(this), Package(t))
      && entries[t].modFeesWithAncestors == Net(ModFee(this), Package(t))
    }

    /** A transaction with its ancestors. */
    function Package(t: Tx): set<Tx>
      requires t in ancestors
    {
      ancestors[t] + {t}
    }

    /** CalculateDescendants: includes the transaction itself. */
    function Descendants(t: Tx): set<Tx> {
      set d | d in ancestors && (d == t || t in ancestors[d])
    }
  }

  // ----- Sums over sets of transactions -----

  ghost function Sum(f: Tx -> nat, s: set<Tx>): nat {
    if s == {} then 0
    else
      var x :| x in s;
      f(x) + Sum(f, s - {x})
  }

  lemma {:induction false} SumRemove(f: Tx -> nat, s: set<Tx>, x: Tx)
    requires x in s
    ensures Sum(f, s) == f(x) + Sum(f, s - {x})
    decreases |s|
  {
    var y :| y in s && Sum(f, s) == f(y) + Sum(f, s - {y});
    if y != x {
      SumRemove(f, s - {y}, x);
      SumRemove(f, s - {x}, y);
      assert s - {y} - {x} == s - {x} - {y};
    }
  }

  lemma {:induction false} SumUnion(f: Tx -> nat, a: set<Tx>, b: set<Tx>)
    requires a !! b
    ensures Sum(f, a + b) == Sum(f, a) + Sum(f, b)
    decreases |a|
  {
    if a == {} {
      assert a + b == b;
    } else {
      var x :| x in a;
      SumRemove(f, a, x);
      SumRemove(f, a + b, x);
      assert a + b - {x} == (a - {x}) + b;
      SumUnion(f, a - {x}, b);
    }
  }

  lemma SumSubset(f: Tx -> nat, a: set<Tx>, b: set<Tx>)
    requires a <= b
    ensures Sum(f, b) == Sum(f, a) + Sum(f, b - a)
  {
    SumUnion(f, a, b - a);
    assert a + (b - a) == b;
  }

  lemma {:induction false} SumScale(f: Tx -> nat, g: Tx -> nat, s: set<Tx>)
    requires forall x :: x in s ==> f(x) <= WITNESS_SCALE_FACTOR * g(x)
    ensures Sum(f, s) <= WITNESS_SCALE_FACTOR * Sum(g, s)
    decreases |s|
  {
    if s != {} {
      var x :| x in s;
      SumRemove(f, s, x);
      SumRemove(g, s, x);
      SumScale(f, g, s - {x});
    }
  }

  function Size(p: Pool): Tx -> nat { t => if t in p.entries then p.entries[t].size else 0 }
  function Weight(p: Pool): Tx -> nat { t => if t in p.entries then p.entries[t].weight else 0 }
  function SigOps(p: Pool): Tx -> nat { t => if t in p.entries then p.entries[t].sigops else 0 }

  function Fee(p: Pool): Tx -> int { t => if t in p.entries then p.entries[t].fee else 0 }
  function ModFee(p: Pool): Tx -> int { t => if t in p.entries then p.entries[t].modFee else 0 }

  /** How much a modified fee exceeds the base fee. */
  function Bonus(p: Pool): Tx -> int { t => if t in p.entries then p.entries[t].modFee - p.entries[t].fee else 0 }

  /** The sum of amounts that may be negative. */
  ghost function Net(f: Tx -> int, s: set<Tx>): int {
    if s == {} then 0
    else
      var x :| x in s;
      f(x) + Net(f, s - {x})
  }

  lemma {:induction false} NetRemove(f: Tx -> int, s: set<Tx>, x: Tx)
    requires x in s
    ensures Net(f, s) == f(x) + Net(f, s - {x})
    decreases |s|
  {
    var y :| y in s && Net(f, s) == f(y) + Net(f, s - {y});
    if y != x {
      NetRemove(f, s - {y}, x);
      NetRemove(f, s - {x}, y);
      assert s - {y} - {x} == s - {x} - {y};
    }
  }

  lemma NetAdd(f: Tx -> int, s: set<Tx>, x: Tx)
    requires x !in s
    ensures Net(f, s + {x}) == Net(f, s) + f(x)
  {
    NetRemove(f, s + {x}, x);
    assert s + {x} - {x} == s;
  }

  lemma {:induction false} NetUnion(f: Tx -> int, a: set<Tx>, b: set<Tx>)
    requires a !! b
    ensures Net(f, a + b) == Net(f, a) + Net(f, b)
    decreases |a|
  {
    if a == {} {
      assert a + b == b;
    } else {
      var x :| x in a;
      NetRemove(f, a, x);
      NetRemove(f, a + b, x);
      assert a + b - {x} == (a - {x}) + b;
      NetUnion(f, a - {x}, b);
    }
  }

  lemma NetSubset(f: Tx -> int, a: set<Tx>, b: set<Tx>)
    requires a <= b
    ensures Net(f, b) == Net(f, a) + Net(f, b - a)
  {
    NetUnion(f, a, b - a);
    assert a + (b - a) == b;
  }

  lemma {:induction false} NetMinus(f: Tx -> int, g: Tx -> int, d: Tx -> int, s: set<Tx>)
    requires forall x :: x in s ==> d(x) == f(x) - g(x)
    ensures Net(d, s) == Net(f, s) - Net(g, s)
    decreases |s|
  {
    if s != {} {
      var x :| x in s;
      NetRemove(f, s, x);
      NetRemove(g, s, x);
      NetRemove(d, s, x);
      NetMinus(f, g, d, s - {x});
    }
  }

  // ----- Lazily corrected totals -----

  /** CTxMemPoolModifiedEntry without the iterator. */
  datatype Totals = Totals(size: int, sigops: int, fees: int)

  /** What of a package is still outside the block. */
  ghost function Remaining(p: Pool, inBlock: set<Tx>, t: Tx): set<Tx>
    requires t in p.ancestors
  {
    p.Package(t) - inBlock
  }

  /** Recorded totals never fall below what is really still to be added. They
      may exceed it: an entry erased after a failure is re-created from the
      full totals. */
  ghost predicate Covers(p: Pool, inBlock: set<Tx>, t: Tx, totals: Totals)
    requires t in p.ancestors
  {
    && totals.size >= Sum(Size(p), Remaining(p, inBlock, t))
    && totals.sigops >= Sum(SigOps(p), Remaining(p, inBlock, t))
  }

  ghost predicate ModifiedOk(p: Pool, inBlock: set<Tx>, modified: map<Tx, Totals>) {
    && modified.Keys <= p.ancestors.Keys
    && modified.Keys !! inBlock
    && forall t :: t in modified ==> Covers(p, inBlock, t, modified[t])
  }

  /** An entry that is not modified, failed or in the block has no ancestor in
      the block, so its cached totals are exact. */
  ghost predicate Untouched(p: Pool, inBlock: set<Tx>, t: Tx)
    requires t in p.ancestors
  {
    p.ancestors[t] !! inBlock
  }

  ghost predicate FreshOk(p: Pool, inBlock: set<Tx>, modified: map<Tx, Totals>, failed: set<Tx>) {
    forall t :: t in p.ancestors && t !in inBlock && t !in modified && t !in failed ==> Untouched(p, inBlock, t)
  }

  /** The block holds no transaction twice and every transaction after all of
      its ancestors. */
  ghost predicate Ordered(p: Pool, vtx: seq<Tx>) {
    && (forall i :: 0 <= i < |vtx| ==> vtx[i] in p.ancestors)
    && (forall i, j :: 0 <= i < j < |vtx| ==> vtx[i] != vtx[j])
    && (forall i :: 0 <= i < |vtx| ==> p.ancestors[vtx[i]] <= Elements(vtx[..i]))
  }

  function Elements(s: seq<Tx>): set<Tx> { set x | x in s }

  lemma OrderedClosed(p: Pool, vtx: seq<Tx>, t: Tx)
    requires Ordered(p, vtx) && t in vtx
    ensures t in p.ancestors && p.ancestors[t] <= Elements(vtx)
  {
    var i :| 0 <= i < |vtx| && vtx[i] == t;
    assert Elements(vtx[..i]) <= Elements(vtx);
  }

  // ----- UpdatePackagesForAdded -----

  /** The totals recorded for `t` after its ancestors `hits` were added. */
  ghost predicate Corrected(p: Pool, before: map<Tx, Totals>, after: map<Tx, Totals>, t: Tx, hits: set<Tx>)
    requires t in p.ancestors && t in p.entries
  {
    if hits == {} then (t in after <==> t in before) && (t in before ==> after[t] == before[t])
    else
      && t in after
      && after[t].size == Start(p, before, t).size - Sum(Size(p), hits)
      && after[t].sigops == Start(p, before, t).sigops - Sum(SigOps(p), hits)
      && FeesCorrected(p, before, after[t], t, hits)
  }

  /** The base fees of the added ancestors are subtracted, and the modified fee
      of the one that created the record. */
  ghost predicate FeesCorrected(p: Pool, before: map<Tx, Totals>, now: Totals, t: Tx, hits: set<Tx>)
    requires t in p.entries
  {
    if t in before then now.fees == before[t].fees - Net(Fee(p), hits)
    else exists first :: first in hits && now.fees == Cached(p, t).fees - Net(Fee(p), hits) - Bonus(p)(first)
  }

  /** The constructor of a modified entry copies the cached totals. */
  function Cached(p: Pool, t: Tx): Totals
    requires t in p.entries
  {
    Totals(p.entries[t].sizeWithAncestors, p.entries[t].sigopsWithAncestors, p.entries[t].modFeesWithAncestors)
  }

  function Start(p: Pool, before: map<Tx, Totals>, t: Tx): Totals
    requires t in p.entries
  {
    if t in before then before[t] else Cached(p, t)
  }

  /** The state of the correction when the part `done` of the added package has
      been accounted for. */
  ghost predicate Progress(p: Pool, before: map<Tx, Totals>, after: map<Tx, Totals>, added: set<Tx>, done: set<Tx>)
    requires p.ancestors.Keys == p.entries.Keys
  {
    && after.Keys <= p.ancestors.Keys
    && forall t :: t in p.ancestors ==> Corrected(p, before, after, t, if t in added then {} else done * p.ancestors[t])
  }

  ghost predicate Closed(p: Pool, inBlock: set<Tx>) {
    forall t :: t in inBlock ==> t in p.ancestors && p.ancestors[t] <= inBlock
  }

  /** Adding a package to the block takes its part out of what remains. */
  lemma RemainingShrinks(p: Pool, inBlock: set<Tx>, added: set<Tx>, t: Tx)
    requires t in p.ancestors && t !in added && inBlock !! added
    ensures var hits := added * p.ancestors[t];
      && hits <= Remaining(p, inBlock, t)
      && Remaining(p, inBlock + added, t) == Remaining(p, inBlock, t) - hits
  {
  }

  lemma CoversShrinks(p: Pool, inBlock: set<Tx>, added: set<Tx>, t: Tx, was: Totals, now: Totals)
    requires t in p.ancestors && t !in added && inBlock !! added && Covers(p, inBlock, t, was)
    requires now.size == was.size - Sum(Size(p), added * p.ancestors[t])
    requires now.sigops == was.sigops - Sum(SigOps(p), added * p.ancestors[t])
    ensures Covers(p, inBlock + added, t, now)
  {
    RemainingShrinks(p, inBlock, added, t);
    SumSubset(Size(p), added * p.ancestors[t], Remaining(p, inBlock, t));
    SumSubset(SigOps(p), added * p.ancestors[t], Remaining(p, inBlock, t));
  }

  /** A descendant of what was just added cannot be in the block already. */
  lemma HitIsOutside(p: Pool, inBlock: set<Tx>, added: set<Tx>, t: Tx)
    requires Closed(p, inBlock) && inBlock !! added && t in p.ancestors && added * p.ancestors[t] != {}
    ensures t !in inBlock
  {
  }

  lemma CorrectedOne(p: Pool, inBlock: set<Tx>, added: set<Tx>, before: map<Tx, Totals>, after: map<Tx, Totals>, t: Tx)
    requires p.Valid() && Closed(p, inBlock) && inBlock !! added && before.Keys !! added &&
      ModifiedOk(p, inBlock, before)
    requires t in p.ancestors && t in after
    requires Corrected(p, before, after, t, if t in added then {} else added * p.ancestors[t])
    ensures t !in inBlock + added && Covers(p, inBlock + added, t, after[t])
  {
    var hits := added * p.ancestors[t];
    assert t !in added;
    StartCovers(p, inBlock, before, t);
    if hits != {} {
      HitIsOutside(p, inBlock, added, t);
    } else {
      assert after[t] == Start(p, before, t);
      assert Sum(Size(p), hits) == 0 && Sum(SigOps(p), hits) == 0;
    }
    CoversShrinks(p, inBlock, added, t, Start(p, before, t), after[t]);
  }

  /** Correcting the totals for a package that just entered the block restores
      both invariants. */
  lemma CorrectedOk(p: Pool, inBlock: set<Tx>, added: set<Tx>, before: map<Tx, Totals>, after: map<Tx, Totals>,
        failed: set<Tx>)
    requires p.Valid() && Closed(p, inBlock) && inBlock !! added && before.Keys !! added
    requires ModifiedOk(p, inBlock, before) && FreshExcept(p, inBlock, added, before, failed)
    requires Progress(p, before, after, added, added)
    ensures ModifiedOk(p, inBlock + added, after)
    ensures FreshOk(p, inBlock + added, after, failed)
  {
    CorrectedModified(p, inBlock, added, before, after);
    CorrectedFresh(p, inBlock, added, before, after, failed);
  }

  lemma CorrectedModified(p: Pool, inBlock: set<Tx>, added: set<Tx>, before: map<Tx, Totals>, after: map<Tx, Totals>)
    requires p.Valid() && Closed(p, inBlock) && inBlock !! added && before.Keys !! added
    requires ModifiedOk(p, inBlock, before) && Progress(p, before, after, added, added)
    ensures ModifiedOk(p, inBlock + added, after)
  {
    var block := inBlock + added;
    forall t | t in after ensures t in p.ancestors && t !in block && Covers(p, block, t, after[t]) {
      assert t in p.ancestors;
      assert Corrected(p, before, after, t, if t in added then {} else added * p.ancestors[t]);
      CorrectedOne(p, inBlock, added, before, after, t);
    }
  }

  lemma CorrectedFresh(p: Pool, inBlock: set<Tx>, added: set<Tx>, before: map<Tx, Totals>, after: map<Tx, Totals>,
        failed: set<Tx>)
    requires p.ancestors.Keys == p.entries.Keys && FreshExcept(p, inBlock, added, before, failed)
    requires Progress(p, before, after, added, added)
    ensures FreshOk(p, inBlock + added, after, failed)
  {
    var block := inBlock + added;
    forall t | t in p.ancestors && t !in block && t !in after && t !in failed ensures Untouched(p, block, t) {
      FreshOne(p, inBlock, added, before, after, t);
      assert Untouched(p, inBlock, t);
    }
  }

  lemma FreshOne(p: Pool, inBlock: set<Tx>, added: set<Tx>, before: map<Tx, Totals>, after: map<Tx, Totals>, t: Tx)
    requires t in p.ancestors && t in p.entries && t !in added && t !in after
    requires Corrected(p, before, after, t, added * p.ancestors[t])
    ensures t !in before && added * p.ancestors[t] == {}
    ensures Untouched(p, inBlock, t) ==> Untouched(p, inBlock + added, t)
  {
    assert forall x :: x in p.ancestors[t] && x in added ==> x in added * p.ancestors[t];
  }

  /** FreshOk, where the entries of `added` no longer matter. */
  ghost predicate FreshExcept(p: Pool, inBlock: set<Tx>, added: set<Tx>, modified: map<Tx, Totals>, failed: set<Tx>) {
    forall t :: t in p.ancestors && t !in inBlock && t !in added && t !in modified && t !in failed ==>
      Untouched(p, inBlock, t)
  }

  lemma StartCovers(p: Pool, inBlock: set<Tx>, before: map<Tx, Totals>, t: Tx)
    requires p.Valid() && ModifiedOk(p, inBlock, before) && t in p.ancestors
    ensures Covers(p, inBlock, t, Start(p, before, t))
  {
    assert p.CachedExactly(t);
    SumSubset(Size(p), Remaining(p, inBlock, t), p.Package(t));
    SumSubset(SigOps(p), Remaining(p, inBlock, t), p.Package(t));
  }

  // ----- Ranking -----

  /** A package as the indexes compare it. */
  datatype Candidate = Candidate(t: Tx, totals: Totals)

  /** CompareModifiedEntry and CompareTxMemPoolEntryByAncestorFee without
      rounding; transactions are numbered in hash order. */
  predicate ByFeeRate(a: Candidate, b: Candidate) {
    var f1, f2 := a.totals.fees * b.totals.size, b.totals.fees * a.totals.size;
    if f1 == f2 then a.t < b.t else f1 > f2
  }

  predicate Solid(c: Candidate) { c.totals.size > 0 }

  /** A strict weak order on packages that are not empty. */
  ghost predicate Ranking(better: (Candidate, Candidate) -> bool) {
    && (forall a, b :: better(a, b) ==> !better(b, a))
    && (forall a, b, c | Solid(a) && Solid(b) && Solid(c) :: !better(a, b) && !better(b, c) ==> !better(a, c))
  }

  lemma FeeRateRanks()
    ensures Ranking(ByFeeRate)
  {
    forall a, b, c | Solid(a) && Solid(b) && Solid(c) && !ByFeeRate(a, b) && !ByFeeRate(b, c)
      ensures !ByFeeRate(a, c)
    {
      RatesCompose(a.totals.fees, a.totals.size, b.totals.fees, b.totals.size, c.totals.fees, c.totals.size);
    }
  }

  /** The package of t with its recorded totals. */
  function Offer(p: Pool, modified: map<Tx, Totals>, t: Tx): Candidate
    requires t in p.entries
  {
    Candidate(t, Start(p, modified, t))
  }

  predicate NoneBetter(better: (Candidate, Candidate) -> bool, offers: map<Tx, Totals>, c: Candidate) {
    forall t :: t in offers ==> !better(Candidate(t, offers[t]), c)
  }

  ghost predicate AllSolid(offers: map<Tx, Totals>) {
    forall t :: t in offers ==> Solid(Candidate(t, offers[t]))
  }

  lemma {:induction false} BestExists(better: (Candidate, Candidate) -> bool, offers: map<Tx, Totals>)
    returns (best: Tx)
    requires Ranking(better) && offers != map[] && AllSolid(offers)
    ensures best in offers && NoneBetter(better, offers, Candidate(best, offers[best]))
    decreases |offers|
  {
    best :| best in offers;
    var rest := offers - {best};
    if rest != map[] {
      Shrinks(offers, best);
      var other := BestExists(better, rest);
      BestOfTwo(better, offers, best, other);
      if !better(Candidate(best, offers[best]), Candidate(other, offers[other])) { best := other; }
    }
  }

  lemma BestOfTwo(better: (Candidate, Candidate) -> bool, offers: map<Tx, Totals>, x: Tx, y: Tx)
    requires Ranking(better) && AllSolid(offers) && x in offers && y in offers
    requires NoneBetter(better, offers - {x}, Candidate(y, offers[y]))
    ensures var c, d := Candidate(x, offers[x]), Candidate(y, offers[y]);
      if better(c, d) then NoneBetter(better, offers, c) else NoneBetter(better, offers, d)
  {
    var c, d := Candidate(x, offers[x]), Candidate(y, offers[y]);
    forall t | t in offers && t != x ensures !better(Candidate(t, offers[t]), d) {
      assert t in offers - {x};
    }
    forall t | t in offers ensures Solid(Candidate(t, offers[t])) {}
  }

  /** Whatever is no better than the best of these is no better than what beats it. */
  lemma StillNone(better: (Candidate, Candidate) -> bool, offers: map<Tx, Totals>, best: Candidate, c: Candidate)
    requires Ranking(better) && AllSolid(offers) && Solid(best) && Solid(c)
    requires NoneBetter(better, offers, best) && !better(best, c)
    ensures NoneBetter(better, offers, c)
  {
    forall t | t in offers ensures !better(Candidate(t, offers[t]), c) {
      assert Solid(Candidate(t, offers[t])) && !better(Candidate(t, offers[t]), best);
    }
  }

  lemma RatesCompose(f: int, r: nat, g: int, s: nat, h: int, t: nat)
    requires r > 0 && s > 0 && t > 0 && f * s <= g * r && g * t <= h * s
    ensures f * t <= h * r
    ensures f * t == h * r ==> f * s == g * r && g * t == h * s
  {
    ScaledOrder(f * s, g * r, t);
    ScaledOrder(g * t, h * s, r);
    assert f * s * t == f * t * s && g * r * t == g * t * r && h * s * r == h * r * s;
    if f * t > h * r { ScaledOrder(h * r, f * t, s); }
  }

  lemma ScaledOrder(x: int, y: int, k: nat)
    requires x <= y && k > 0
    ensures x * k <= y * k && (x < y ==> x * k < y * k)
  {
    Arithmetic.MulMono(x, y, k);
    if x < y { Arithmetic.MulMono(x + 1, y, k); }
  }

  // ----- SortForBlock -----

  /** CompareTxIterByAncestorCount; transactions are numbered in hash order. */
  predicate Before(p: Pool, a: Tx, b: Tx)
    requires a in p.entries && b in p.entries
  {
    if p.entries[a].countWithAncestors != p.entries[b].countWithAncestors
    then p.entries[a].countWithAncestors < p.entries[b].countWithAncestors else a < b
  }

  ghost predicate Sorted(p: Pool, s: seq<Tx>) {
    && (forall i :: 0 <= i < |s| ==> s[i] in p.entries)
    && (forall i, j :: 0 <= i < j < |s| ==> Before(p, s[i], s[j]))
  }

  function Insert(p: Pool, s: seq<Tx>, x: Tx): (r: seq<Tx>)
    requires x in p.entries && forall i :: 0 <= i < |s| ==> s[i] in p.entries
  {
    if s == [] || Before(p, x, s[0]) then [x] + s else [s[0]] + Insert(p, s[1..], x)
  }

  lemma {:induction false} InsertSorted(p: Pool, s: seq<Tx>, x: Tx)
    requires x in p.entries && Sorted(p, s) && x !in s
    ensures Sorted(p, Insert(p, s, x)) && Elements(Insert(p, s, x)) == Elements(s) + {x}
    ensures |Insert(p, s, x)| == |s| + 1
  {
    if s != [] && !Before(p, x, s[0]) {
      InsertSorted(p, s[1..], x);
      var r := Insert(p, s[1..], x);
      assert s == [s[0]] + s[1..];
      forall i | 0 <= i < |r| ensures r[i] in p.entries && Before(p, s[0], r[i]) {
        assert r[i] in Elements(r);
        if r[i] != x {
          var j :| 0 <= j < |s[1..]| && s[1..][j] == r[i];
          assert s[j + 1] == r[i];
        }
      }
    }
  }

  /** An ancestor has fewer ancestors, so sorting by their number puts it first. */
  lemma AncestorBefore(p: Pool, t: Tx, a: Tx)
    requires p.Valid() && t in p.ancestors && a in p.ancestors[t]
    ensures a in p.entries && p.entries[a].countWithAncestors < p.entries[t].countWithAncestors
  {
    assert p.CachedExactly(a) && p.CachedExactly(t);
    assert a !in p.ancestors[a];
    SubsetSmaller(p.ancestors[a], p.ancestors[t], a);
  }

  lemma SubsetSmaller(a: set<Tx>, b: set<Tx>, x: Tx)
    requires a <= b && x in b && x !in a
    ensures |a| < |b|
  {
    assert b == a + (b - a);
    assert x in b - a;
    assert |b| == |a| + |b - a|;
  }

  /** Appending a sorted package keeps the block ordered. */
  lemma AppendOrdered(p: Pool, vtx: seq<Tx>, t: Tx, sorted: seq<Tx>)
    requires p.Valid() && Ordered(p, vtx) && t in p.ancestors && t !in vtx
    requires Sorted(p, sorted) && Elements(sorted) == Remaining(p, Elements(vtx), t)
    ensures Ordered(p, vtx + sorted) && Elements(vtx + sorted) == Elements(vtx) + Elements(sorted)
  {
    var all := vtx + sorted;
    forall i | 0 <= i < |sorted| ensures sorted[i] !in vtx && sorted[i] in p.Package(t) {
      assert sorted[i] in Elements(sorted);
    }
    forall i | 0 <= i < |all| ensures p.ancestors[all[i]] <= Elements(all[..i]) {
      if i < |vtx| {
        assert all[..i] == vtx[..i];
      } else {
        AppendedAncestors(p, vtx, t, sorted, i - |vtx|);
      }
    }
  }

  lemma AppendedAncestors(p: Pool, vtx: seq<Tx>, t: Tx, sorted: seq<Tx>, i: nat)
    requires p.Valid() && t in p.ancestors && i < |sorted|
    requires Sorted(p, sorted) && Elements(sorted) == Remaining(p, Elements(vtx), t)
    ensures p.ancestors[sorted[i]] <= Elements((vtx + sorted)[..|vtx| + i])
  {
    var all := vtx + sorted;
    assert sorted[i] in Elements(sorted);
    forall a | a in p.ancestors[sorted[i]] ensures a in Elements(all[..|vtx| + i]) {
      if a in vtx {
        var k :| 0 <= k < |vtx| && vtx[k] == a;
        assert all[..|vtx| + i][k] == a;
      } else {
        assert a in Remaining(p, Elements(vtx), t);
        var k :| 0 <= k < |sorted| && sorted[k] == a;
        AncestorBefore(p, sorted[i], a);
        assert k < i;
        assert all[..|vtx| + i][|vtx| + k] == a;
      }
    }
  }

  lemma ProgressStep(p: Pool, before: map<Tx, Totals>, was: map<Tx, Totals>, now: map<Tx, Totals>, added: set<Tx>,
        done: set<Tx>, it: Tx)
    requires p.Valid() && Progress(p, before, was, added, done) && it in added && it !in done && it in p.entries
    requires now.Keys <= p.ancestors.Keys
    requires forall t :: t in p.ancestors ==> Subtracted(p, was, now, t, t !in added && it in p.ancestors[t], it)
    ensures Progress(p, before, now, added, done + {it})
  {
    forall t | t in p.ancestors
      ensures Corrected(p, before, now, t, if t in added then {} else (done + {it}) * p.ancestors[t])
    {
      assert Corrected(p, before, was, t, if t in added then {} else done * p.ancestors[t]);
      assert Subtracted(p, was, now, t, t !in added && it in p.ancestors[t], it);
      if t !in added { ProgressOne(p, before, was, now, done, it, t); }
    }
  }

  lemma ProgressOne(p: Pool, before: map<Tx, Totals>, was: map<Tx, Totals>, now: map<Tx, Totals>, done: set<Tx>,
        it: Tx, t: Tx)
    requires it !in done && it in p.entries && t in p.ancestors && t in p.entries
    requires Corrected(p, before, was, t, done * p.ancestors[t])
    requires Subtracted(p, was, now, t, it in p.ancestors[t], it)
    ensures Corrected(p, before, now, t, (done + {it}) * p.ancestors[t])
  {
    var hits, hits' := done * p.ancestors[t], (done + {it}) * p.ancestors[t];
    if it in p.ancestors[t] {
      assert hits' == hits + {it};
      HitCorrected(p, before, was, now, hits, it, t, hits');
    } else {
      assert hits' == hits;
    }
  }

  lemma HitCorrected(p: Pool, before: map<Tx, Totals>, was: map<Tx, Totals>, now: map<Tx, Totals>,
                     hits: set<Tx>, it: Tx, t: Tx, hits': set<Tx>)
    requires it in p.entries && t in p.ancestors && t in p.entries && it !in hits && hits' == hits + {it}
    requires Corrected(p, before, was, t, hits) && Subtracted(p, was, now, t, true, it)
    ensures Corrected(p, before, now, t, hits')
  {
    assert hits' - {it} == hits;
    SumRemove(Size(p), hits', it);
    SumRemove(SigOps(p), hits', it);
    if hits == {} {
      FirstHit(p, before, was, now, it, t, hits');
    } else {
      LaterHit(p, before, was, now, hits, it, t, hits');
    }
  }

  lemma FirstHit(p: Pool, before: map<Tx, Totals>, was: map<Tx, Totals>, now: map<Tx, Totals>, it: Tx, t: Tx,
        hits: set<Tx>)
    requires it in p.entries && t in p.ancestors && t in p.entries && hits == {it}
    requires Corrected(p, before, was, t, {}) && Subtracted(p, was, now, t, true, it)
    ensures FeesCorrected(p, before, now[t], t, hits)
  {
    NetAdd(Fee(p), {}, it);
    assert {} + {it} == hits && it in hits;
  }

  lemma LaterHit(p: Pool, before: map<Tx, Totals>, was: map<Tx, Totals>, now: map<Tx, Totals>,
                 hits: set<Tx>, it: Tx, t: Tx, hits': set<Tx>)
    requires it in p.entries && t in p.entries && it !in hits && hits' == hits + {it} && t in was
    requires FeesCorrected(p, before, was[t], t, hits) && Subtracted(p, was, now, t, true, it)
    ensures FeesCorrected(p, before, now[t], t, hits')
  {
    NetAdd(Fee(p), hits, it);
    if t !in before {
      var first :| first in hits && was[t].fees == Cached(p, t).fees - Net(Fee(p), hits) - Bonus(p)(first);
      assert first in hits';
    }
  }

  /** The fees after one correction: the modified fees of the added ancestors are
      subtracted, but for the bonus of those subtracted with their base fees. */
  lemma CorrectedFees(p: Pool, before: map<Tx, Totals>, after: map<Tx, Totals>, t: Tx, hits: set<Tx>)
    returns (base: set<Tx>)
    requires t in p.ancestors && t in p.entries && hits != {} && Corrected(p, before, after, t, hits)
    ensures if t in before then base == hits else exists first :: first in hits && base == hits - {first}
    ensures after[t].fees == Start(p, before, t).fees - Net(ModFee(p), hits) + Net(Bonus(p), base)
  {
    NetMinus(ModFee(p), Fee(p), Bonus(p), hits);
    base := hits;
    if t !in before {
      var first :| first in hits && after[t].fees == Cached(p, t).fees - Net(Fee(p), hits) - Bonus(p)(first);
      base := hits - {first};
      NetRemove(Bonus(p), hits, first);
    }
  }

  // ----- What is recorded over a whole run -----

  /** The record of `t` was made when `first` entered the block, and the totals of
      `hits` have been subtracted since then. */
  ghost predicate RecordedBy(p: Pool, t: Tx, totals: Totals, hits: set<Tx>, first: Tx)
    requires t in p.entries
  {
    && first in hits
    && totals.size == Cached(p, t).size - Sum(Size(p), hits)
    && totals.sigops == Cached(p, t).sigops - Sum(SigOps(p), hits)
    && totals.fees == Cached(p, t).fees - Net(ModFee(p), hits) + Net(Bonus(p), hits - {first})
  }

  /** All ancestors in the block are accounted for, unless the transaction was
      turned down before: then its record was erased and made again. */
  ghost predicate Recorded(p: Pool, inBlock: set<Tx>, t: Tx, totals: Totals, again: bool)
    requires t in p.ancestors && t in p.entries
  {
    exists hits: set<Tx>, first: Tx ::
      RecordedBy(p, t, totals, hits, first) && hits <= p.ancestors[t] * inBlock
      && (hits == p.ancestors[t] * inBlock || again)
  }

  ghost predicate RecordsOk(p: Pool, inBlock: set<Tx>, modified: map<Tx, Totals>, failed: set<Tx>) {
    forall t :: t in modified ==>
      t in p.ancestors && t in p.entries && Recorded(p, inBlock, t, modified[t], t in failed)
  }

  lemma RecordedMore(p: Pool, t: Tx, was: Totals, now: Totals, hits: set<Tx>, first: Tx, more: set<Tx>)
    requires t in p.entries && RecordedBy(p, t, was, hits, first) && hits !! more
    requires now.size == was.size - Sum(Size(p), more) && now.sigops == was.sigops - Sum(SigOps(p), more)
    requires now.fees == was.fees - Net(ModFee(p), more) + Net(Bonus(p), more)
    ensures RecordedBy(p, t, now, hits + more, first)
  {
    SumUnion(Size(p), hits, more);
    SumUnion(SigOps(p), hits, more);
    NetUnion(ModFee(p), hits, more);
    NetUnion(Bonus(p), hits - {first}, more);
    assert hits - {first} + more == hits + more - {first};
  }

  lemma Distribute(a: set<Tx>, b: set<Tx>, c: set<Tx>)
    ensures a * (b + c) == a * b + c * a
  {
  }

  lemma RecordedIs(p: Pool, inBlock: set<Tx>, t: Tx, totals: Totals, again: bool, hits: set<Tx>, first: Tx)
    requires t in p.ancestors && t in p.entries && RecordedBy(p, t, totals, hits, first)
    requires hits == p.ancestors[t] * inBlock || (again && hits <= p.ancestors[t] * inBlock)
    ensures Recorded(p, inBlock, t, totals, again)
  {
  }

  lemma RecordExtends(p: Pool, before: map<Tx, Totals>, after: map<Tx, Totals>, t: Tx, hits: set<Tx>, first: Tx,
        more: set<Tx>)
    requires t in p.ancestors && t in p.entries && t in before && hits !! more
    requires RecordedBy(p, t, before[t], hits, first) && Corrected(p, before, after, t, more)
    ensures t in after && RecordedBy(p, t, after[t], hits + more, first)
  {
    if more == {} {
      assert hits + more == hits;
    } else {
      var base := CorrectedFees(p, before, after, t, more);
      RecordedMore(p, t, before[t], after[t], hits, first, more);
    }
  }

  /** An entry that was recorded before. */
  lemma RecordGoesOn(p: Pool, inBlock: set<Tx>, added: set<Tx>, before: map<Tx, Totals>, after: map<Tx, Totals>, t: Tx,
        again: bool)
    requires t in p.ancestors && t in p.entries && t in before && inBlock !! added
    requires Recorded(p, inBlock, t, before[t], again)
    requires Corrected(p, before, after, t, added * p.ancestors[t])
    ensures t in after && Recorded(p, inBlock + added, t, after[t], again)
  {
    var earlier, more := p.ancestors[t] * inBlock, added * p.ancestors[t];
    var hits: set<Tx>, first: Tx :| RecordedBy(p, t, before[t], hits, first) && hits <= earlier
      && (hits == earlier || again);
    RecordExtends(p, before, after, t, hits, first, more);
    Distribute(p.ancestors[t], inBlock, added);
    RecordedIs(p, inBlock + added, t, after[t], again, hits + more, first);
  }

  /** An entry of which the first ancestors enter the block. */
  lemma RecordBegins(p: Pool, inBlock: set<Tx>, added: set<Tx>, before: map<Tx, Totals>, after: map<Tx, Totals>, t: Tx,
        again: bool)
    requires t in p.ancestors && t in p.entries && t !in before && inBlock !! added && added * p.ancestors[t] != {}
    requires Untouched(p, inBlock, t) || again
    requires Corrected(p, before, after, t, added * p.ancestors[t])
    ensures t in after && Recorded(p, inBlock + added, t, after[t], again)
  {
    var hits := added * p.ancestors[t];
    var base := CorrectedFees(p, before, after, t, hits);
    var first :| first in hits && base == hits - {first};
    Distribute(p.ancestors[t], inBlock, added);
    RecordedIs(p, inBlock + added, t, after[t], again, hits, first);
  }

  /** Every correction keeps the records. */
  lemma RecordsKept(p: Pool, inBlock: set<Tx>, added: set<Tx>, before: map<Tx, Totals>, after: map<Tx, Totals>,
        failed: set<Tx>)
    requires p.ancestors.Keys == p.entries.Keys && Closed(p, inBlock) && inBlock !! added && before.Keys !! added
    requires RecordsOk(p, inBlock, before, failed) && FreshExcept(p, inBlock, added, before, failed)
    requires Progress(p, before, after, added, added)
    ensures RecordsOk(p, inBlock + added, after, failed)
  {
    forall t | t in after
      ensures t in p.ancestors && t in p.entries && Recorded(p, inBlock + added, t, after[t], t in failed)
    {
      assert Corrected(p, before, after, t, if t in added then {} else added * p.ancestors[t]);
      if t in before {
        RecordGoesOn(p, inBlock, added, before, after, t, t in failed);
      } else {
        HitIsOutside(p, inBlock, added, t);
        RecordBegins(p, inBlock, added, before, after, t, t in failed);
      }
    }
  }

  /** The recorded size and signature operations are those of what remains. The
      fees are if and only if the ancestors in the block have no bonus in total,
      not counting the one with which the record was made. */
  lemma FeesExactly(p: Pool, inBlock: set<Tx>, t: Tx, totals: Totals) returns (first: Tx)
    requires p.Valid() && t in p.ancestors && t !in inBlock && Recorded(p, inBlock, t, totals, false)
    ensures first in p.ancestors[t] * inBlock
    ensures totals.size == Sum(Size(p), Remaining(p, inBlock, t))
    ensures totals.sigops == Sum(SigOps(p), Remaining(p, inBlock, t))
    ensures totals.fees == Net(ModFee(p), Remaining(p, inBlock, t)) + Net(Bonus(p), p.ancestors[t] * inBlock - {first})
    ensures totals.fees == Net(ModFee(p), Remaining(p, inBlock, t)) <==>
      Net(Bonus(p), p.ancestors[t] * inBlock - {first}) == 0
  {
    var hits: set<Tx>, f: Tx :| RecordedBy(p, t, totals, hits, f) && hits == p.ancestors[t] * inBlock;
    first := f;
    assert p.CachedExactly(t);
    RecordedRest(p, t, totals, hits, first);
    assert p.Package(t) - hits == Remaining(p, inBlock, t);
  }

  lemma RecordedRest(p: Pool, t: Tx, totals: Totals, hits: set<Tx>, first: Tx)
    requires t in p.ancestors && t in p.entries && p.CachedExactly(t)
    requires hits <= p.ancestors[t] && RecordedBy(p, t, totals, hits, first)
    ensures totals.size == Sum(Size(p), p.Package(t) - hits) && totals.sigops == Sum(SigOps(p), p.Package(t) - hits)
    ensures totals.fees == Net(ModFee(p), p.Package(t) - hits) + Net(Bonus(p), hits - {first})
  {
    SumSubset(Size(p), hits, p.Package(t));
    SumSubset(SigOps(p), hits, p.Package(t));
    NetSubset(ModFee(p), hits, p.Package(t));
  }

  lemma {:induction false} NetZero(f: Tx -> int, s: set<Tx>)
    requires forall x :: x in s ==> f(x) == 0
    ensures Net(f, s) == 0
    decreases |s|
  {
    if s != {} {
      var x :| x in s;
      NetRemove(f, s, x);
      NetZero(f, s - {x});
    }
  }

  /** So they are if no ancestor in the block was prioritised. */
  lemma UnprioritisedFees(p: Pool, inBlock: set<Tx>, t: Tx, totals: Totals)
    requires p.Valid() && t in p.ancestors && t !in inBlock && Recorded(p, inBlock, t, totals, false)
    requires forall x :: x in p.ancestors[t] * inBlock ==> Bonus(p)(x) == 0
    ensures totals.fees == Net(ModFee(p), Remaining(p, inBlock, t))
  {
    var first := FeesExactly(p, inBlock, t, totals);
    NetZero(Bonus(p), p.ancestors[t] * inBlock - {first});
  }

  /** A large transaction and its child, each with a fee of 1 and a bonus of 10,
      and a large transaction that spends from both. */
  function Family(): Pool {
    Pool(map[0 := Entry(10, 40, 0, 1, 11, 1, 10, 0, 11),
             1 := Entry(1, 4, 0, 1, 11, 2, 11, 0, 22),
             2 := Entry(11, 44, 0, 1, 1, 3, 22, 0, 23)],
         map[0 := {}, 1 := {0}, 2 := {0, 1}])
  }

  lemma SumsOfOne(f: Tx -> nat, g: Tx -> int, x: Tx, s: set<Tx>)
    requires s == {x}
    ensures Sum(f, s) == f(x) && Net(g, s) == g(x)
  {
    SumRemove(f, s, x);
    NetRemove(g, s, x);
    assert s - {x} == {};
  }

  lemma SumsOfTwo(f: Tx -> nat, g: Tx -> int, s: set<Tx>)
    requires s == {0, 1}
    ensures Sum(f, s) == f(0) + f(1) && Net(g, s) == g(0) + g(1)
  {
    SumRemove(f, s, 1);
    NetRemove(g, s, 1);
    SumsOfOne(f, g, 0, s - {1});
  }

  lemma SumsOfThree(f: Tx -> nat, g: Tx -> int, s: set<Tx>)
    requires s == {0, 1, 2}
    ensures Sum(f, s) == f(0) + f(1) + f(2) && Net(g, s) == g(0) + g(1) + g(2)
  {
    SumRemove(f, s, 2);
    NetRemove(g, s, 2);
    SumsOfTwo(f, g, s - {2});
  }

  lemma FamilyCached(p: Pool)
    requires p == Family()
    ensures p.CachedExactly(0) && p.CachedExactly(1) && p.CachedExactly(2)
  {
    var a, b, c := p.Package(0), p.Package(1), p.Package(2);
    SumsOfOne(Size(p), ModFee(p), 0, a);
    SumsOfOne(SigOps(p), ModFee(p), 0, a);
    SumsOfTwo(Size(p), ModFee(p), b);
    SumsOfTwo(SigOps(p), ModFee(p), b);
    SumsOfThree(Size(p), ModFee(p), c);
    SumsOfThree(SigOps(p), ModFee(p), c);
    assert |{0}| == 1 && |{0, 1}| == 2;
  }

  lemma OfThree(q: Tx -> bool, s: set<Tx>)
    requires s == {0, 1, 2} && q(0) && q(1) && q(2)
    ensures forall t :: t in s ==> q(t)
  {
  }

  lemma FamilyValid(p: Pool)
    requires p == Family()
    ensures p.Valid()
  {
    FamilyShape(p);
    FamilyCached(p);
    OfThree(t => t in p.entries && t in p.ancestors && p.CachedExactly(t), p.entries.Keys);
  }

  lemma FamilyShape(p: Pool)
    requires p == Family()
    ensures p.Shaped() && p.entries.Keys == {0, 1, 2}
  {
  }

  /** Transaction 1 has the best fee rate. Its package enters the empty block, and
      12 is taken off the fees of 2 where the modified fees are 22: what remains
      of 2 is itself, with a fee of 1, and 11 is recorded. */
  lemma BonusStays(p: Pool, package: set<Tx>, after: map<Tx, Totals>)
    requires p == Family() && package == Remaining(p, {}, 1) && Progress(p, map[], after, package, package)
    ensures p.Valid() && package == {0, 1}
    ensures forall t :: t in {0, 2} ==> ByFeeRate(Candidate(1, Cached(p, 1)), Candidate(t, Cached(p, t)))
    ensures 2 in after && after[2].fees == 11
    ensures Net(ModFee(p), Remaining(p, package, 2)) == 1
  {
    FamilyValid(p);
    FamilyRanks(p);
    assert package == {0, 1};
    ChildCorrected(p, after, package);
    ChildFees(p, after[2], package);
    ChildRemains(p, package);
  }

  lemma ChildRemains(p: Pool, package: set<Tx>)
    requires p == Family() && package == {0, 1}
    ensures Net(ModFee(p), Remaining(p, package, 2)) == 1
  {
    assert Remaining(p, package, 2) == {2};
    SumsOfOne(Size(p), ModFee(p), 2, Remaining(p, package, 2));
  }

  lemma FamilyRanks(p: Pool)
    requires p == Family()
    ensures forall t :: t in {0, 2} ==> ByFeeRate(Candidate(1, Cached(p, 1)), Candidate(t, Cached(p, t)))
  {
    assert Cached(p, 0) == Totals(10, 0, 11) && Cached(p, 1) == Totals(11, 0, 22) && Cached(p, 2) == Totals(22, 0, 23);
  }

  lemma ChildFees(p: Pool, now: Totals, hits: set<Tx>)
    requires p == Family() && hits == {0, 1} && FeesCorrected(p, map[], now, 2, hits)
    ensures now.fees == 11
  {
    SumsOfTwo(Size(p), Fee(p), hits);
    var first :| first in hits && now.fees == Cached(p, 2).fees - Net(Fee(p), hits) - Bonus(p)(first);
  }

  lemma ChildCorrected(p: Pool, after: map<Tx, Totals>, hits: set<Tx>)
    requires p == Family() && hits == {0, 1} && Progress(p, map[], after, hits, hits)
    ensures 2 in after && FeesCorrected(p, map[], after[2], 2, hits)
  {
    assert hits * p.ancestors[2] == hits && 2 !in hits && 0 in hits;
    assert Corrected(p, map[], after, 2, hits);
  }

  /** `it` has been subtracted from the totals of `t`, or nothing changed. */
  ghost predicate Subtracted(p: Pool, was: map<Tx, Totals>, now: map<Tx, Totals>, t: Tx, hit: bool, it: Tx)
    requires t in p.entries && it in p.entries
  {
    if hit then
      && t in now
      && now[t].size == Start(p, was, t).size - p.entries[it].size
      && now[t].sigops == Start(p, was, t).sigops - p.entries[it].sigops
      && now[t].fees == Start(p, was, t).fees - if t in was then p.entries[it].fee else p.entries[it].modFee
    else (t in now <==> t in was) && (t in was ==> now[t] == was[t])
  }

  datatype Counters = Counters(weight: int, sigops: int, txs: int, fees: int, vTxFees: seq<int>,
    vTxSigOpsCost: seq<int>)

  function Tally(c: Counters, e: Entry): Counters {
    Counters(c.weight + e.weight, c.sigops + e.sigops, c.txs + 1, c.fees + e.fee, c.vTxFees + [e.fee],
      c.vTxSigOpsCost + [e.sigops])
  }

  /** The counters of a block template with the given transactions. */
  function CountersOf(p: Pool, vtx: seq<Tx>): Counters
    requires forall i :: 0 <= i < |vtx| ==> vtx[i] in p.entries
  {
    if vtx == [] then Counters(RESERVED_WEIGHT, RESERVED_SIGOPS, 0, 0, [], [])
    else Tally(CountersOf(p, vtx[..|vtx| - 1]), p.entries[vtx[|vtx| - 1]])
  }

  function Total(xs: seq<int>): int {
    if xs == [] then 0 else Total(xs[..|xs| - 1]) + xs[|xs| - 1]
  }

  lemma CountersAppend(p: Pool, vtx: seq<Tx>, t: Tx)
    requires (forall i :: 0 <= i < |vtx| ==> vtx[i] in p.entries) && t in p.entries
    ensures CountersOf(p, vtx + [t]) == Tally(CountersOf(p, vtx), p.entries[t])
  {
    assert (vtx + [t])[..|vtx|] == vtx;
  }

  /** The per-transaction lists follow the block, and the fee total is the sum of the fee list. */
  lemma {:induction false} CounterLists(p: Pool, vtx: seq<Tx>)
    requires forall i :: 0 <= i < |vtx| ==> vtx[i] in p.entries
    ensures var c := CountersOf(p, vtx);
      && c.txs == |vtx| == |c.vTxFees| == |c.vTxSigOpsCost|
      && c.fees == Total(c.vTxFees)
      && forall i :: 0 <= i < |vtx| ==>
        c.vTxFees[i] == p.entries[vtx[i]].fee && c.vTxSigOpsCost[i] == p.entries[vtx[i]].sigops
  {
    if vtx != [] {
      var n := |vtx| - 1;
      CounterLists(p, vtx[..n]);
      assert CountersOf(p, vtx).vTxFees[..n] == CountersOf(p, vtx[..n]).vTxFees;
    }
  }

  lemma ElementsLast(vtx: seq<Tx>)
    requires vtx != []
    requires forall i, j :: 0 <= i < j < |vtx| ==> vtx[i] != vtx[j]
    ensures vtx[|vtx| - 1] in Elements(vtx)
    ensures Elements(vtx) - {vtx[|vtx| - 1]} == Elements(vtx[..|vtx| - 1])
  {
    var before := vtx[..|vtx| - 1];
    assert vtx == before + [vtx[|vtx| - 1]];
    ElementsJoin(before, [vtx[|vtx| - 1]]);
  }

  /** The weight and the signature operations of a block without duplicates are sums over its transactions. */
  lemma {:induction false} CounterSums(p: Pool, vtx: seq<Tx>)
    requires forall i :: 0 <= i < |vtx| ==> vtx[i] in p.entries
    requires forall i, j :: 0 <= i < j < |vtx| ==> vtx[i] != vtx[j]
    ensures CountersOf(p, vtx).weight == RESERVED_WEIGHT + Sum(Weight(p), Elements(vtx))
    ensures CountersOf(p, vtx).sigops == RESERVED_SIGOPS + Sum(SigOps(p), Elements(vtx))
  {
    if vtx != [] {
      var n := |vtx| - 1;
      CounterSums(p, vtx[..n]);
      ElementsLast(vtx);
      SumRemove(Weight(p), Elements(vtx), vtx[n]);
      SumRemove(SigOps(p), Elements(vtx), vtx[n]);
    }
  }

  lemma ElementsJoin(a: seq<Tx>, b: seq<Tx>)
    ensures Elements(a + b) == Elements(a) + Elements(b)
  {
  }

  lemma Shrinks(modified: map<Tx, Totals>, t: Tx)
    requires t in modified
    ensures |modified - {t}| == |modified| - 1
  {
    assert (modified - {t}).Keys == modified.Keys - {t};
  }

  /** Dropping a failed entry from the modified set. */
  lemma FailedOk(p: Pool, inBlock: set<Tx>, modified: map<Tx, Totals>, failed: set<Tx>, t: Tx)
    requires ModifiedOk(p, inBlock, modified) && FreshOk(p, inBlock, modified, failed) && t in modified
    ensures ModifiedOk(p, inBlock, modified - {t}) && FreshOk(p, inBlock, modified - {t}, failed + {t})
    ensures |modified - {t}| == |modified| - 1
  {
    Shrinks(modified, t);
  }

  lemma SortedPrefix(p: Pool, sorted: seq<Tx>, k: nat)
    requires Sorted(p, sorted) && k < |sorted|
    ensures sorted[k] in Elements(sorted) && sorted[k] !in Elements(sorted[..k])
    ensures sorted[..k + 1] == sorted[..k] + [sorted[k]]
    ensures Elements(sorted[..k + 1]) == Elements(sorted[..k]) + {sorted[k]}
  {
    assert forall i :: 0 <= i < k ==> Before(p, sorted[i], sorted[k]);
  }

  /** A package that passes TestPackage with covering totals fits the block. */
  lemma PackageFits(p: Pool, inBlock: set<Tx>, t: Tx, totals: Totals, weight: nat, maxWeight: nat)
    requires p.Valid() && t in p.ancestors && Covers(p, inBlock, t, totals)
    requires weight + WITNESS_SCALE_FACTOR * totals.size < maxWeight
    ensures weight + Sum(Weight(p), Remaining(p, inBlock, t)) <= maxWeight
  {
    var left := Remaining(p, inBlock, t);
    assert left <= p.entries.Keys;
    SumScale(Weight(p), Size(p), left);
  }

  lemma BlockFits(p: Pool, vtx: seq<Tx>, t: Tx, sorted: seq<Tx>, totals: Totals, maxWeight: nat)
    requires p.Valid() && Ordered(p, vtx) && t in p.ancestors && t !in vtx
    requires Ordered(p, vtx + sorted) && Elements(sorted) == Remaining(p, Elements(vtx), t)
    requires Covers(p, Elements(vtx), t, totals)
    requires CountersOf(p, vtx).weight + WITNESS_SCALE_FACTOR * totals.size < maxWeight
    requires CountersOf(p, vtx).sigops + totals.sigops < MAX_BLOCK_SIGOPS_COST
    ensures CountersOf(p, vtx + sorted).weight <= maxWeight
    ensures CountersOf(p, vtx + sorted).sigops < MAX_BLOCK_SIGOPS_COST
    ensures CountersOf(p, vtx).weight <= CountersOf(p, vtx + sorted).weight
    ensures CountersOf(p, vtx).sigops <= CountersOf(p, vtx + sorted).sigops
  {
    var block, package := Elements(vtx), Elements(sorted);
    CounterSums(p, vtx);
    CounterSums(p, vtx + sorted);
    ElementsJoin(vtx, sorted);
    SumUnion(Weight(p), block, package);
    SumUnion(SigOps(p), block, package);
    PackageFits(p, block, t, totals, CountersOf(p, vtx).weight, maxWeight);
  }

  // ----- Why a transaction is left out -----

  /** Corrections only ever lower the recorded totals. */
  ghost predicate Lowered(p: Pool, modified: map<Tx, Totals>) {
    forall t :: t in modified ==>
      t in p.entries && modified[t].size <= Cached(p, t).size && modified[t].sigops <= Cached(p, t).sigops
  }

  lemma LoweredKept(p: Pool, before: map<Tx, Totals>, after: map<Tx, Totals>, added: set<Tx>)
    requires p.ancestors.Keys == p.entries.Keys && Lowered(p, before) && Progress(p, before, after, added, added)
    ensures Lowered(p, after) && before.Keys <= after.Keys
  {
    forall t | t in after
      ensures t in p.entries && after[t].size <= Cached(p, t).size && after[t].sigops <= Cached(p, t).sigops
    {
      assert t in p.ancestors;
      assert Corrected(p, before, after, t, if t in added then {} else added * p.ancestors[t]);
    }
    forall t | t in before ensures t in after {
      assert t in p.entries;
      assert Corrected(p, before, after, t, if t in added then {} else added * p.ancestors[t]);
    }
  }

  /** What of the block template decides whether a package may enter. */
  datatype Block = Block(txs: set<Tx>, weight: int, sigops: int, maxWeight: int, eligible: Tx -> bool)

  predicate Fits(block: Block, totals: Totals) {
    && block.weight + WITNESS_SCALE_FACTOR * totals.size < block.maxWeight
    && block.sigops + totals.sigops < MAX_BLOCK_SIGOPS_COST
  }

  /** The whole package of `t` does not fit, or some part of it may not enter. */
  ghost predicate Rejected(p: Pool, t: Tx, block: Block) {
    && t in p.entries && t in p.ancestors
    && (!Fits(block, Cached(p, t)) || exists a :: a in p.Package(t) && !block.eligible(a))
  }

  ghost predicate AllRejected(p: Pool, ts: set<Tx>, block: Block) {
    forall t :: t in ts ==> Rejected(p, t, block)
  }

  /** What the selection keeps between two packages: `skipped` are the entries
      that were tried and turned down. */
  ghost predicate Selecting(p: Pool, block: Block, modified: map<Tx, Totals>, failed: set<Tx>, skipped: set<Tx>) {
    && ModifiedOk(p, block.txs, modified) && FreshOk(p, block.txs, modified, failed)
    && RecordsOk(p, block.txs, modified, failed)
    && Lowered(p, modified)
    && failed <= skipped
    && AllRejected(p, skipped, block)
  }

  lemma LoweredErase(p: Pool, modified: map<Tx, Totals>, t: Tx)
    requires Lowered(p, modified)
    ensures Lowered(p, modified - {t})
  {
  }

  lemma RecordsErase(p: Pool, inBlock: set<Tx>, modified: map<Tx, Totals>, failed: set<Tx>, gone: set<Tx>,
        more: set<Tx>)
    requires RecordsOk(p, inBlock, modified, failed) && more <= gone
    ensures RecordsOk(p, inBlock, modified - gone, failed + more)
  {
    forall t | t in modified - gone
      ensures t in p.ancestors && t in p.entries && Recorded(p, inBlock, t, (modified - gone)[t], t in failed + more)
    {
      assert t in modified && (t in failed + more <==> t in failed);
    }
  }

  lemma RejectOne(p: Pool, block: Block, skipped: set<Tx>, t: Tx)
    requires AllRejected(p, skipped, block) && Rejected(p, t, block)
    ensures AllRejected(p, skipped + {t}, block)
  {
  }

  /** The block only grows, so what was turned down would be turned down again. */
  lemma StillRejected(p: Pool, block: Block, block': Block, skipped: set<Tx>)
    requires AllRejected(p, skipped, block)
    requires block'.maxWeight == block.maxWeight && block'.eligible == block.eligible
    requires block.weight <= block'.weight && block.sigops <= block'.sigops
    ensures AllRejected(p, skipped, block')
  {
    forall t | t in skipped ensures Rejected(p, t, block') {
      assert Rejected(p, t, block);
    }
  }

  /** Every entry met so far is in the block, awaiting correction, or turned down. */
  ghost predicate Accounted(order: seq<Tx>, mi: nat, known: set<Tx>)
    requires mi <= |order|
  {
    forall i :: 0 <= i < mi ==> order[i] in known
  }

  lemma AccountedNext(order: seq<Tx>, mi: nat, known: set<Tx>, known': set<Tx>)
    requires mi <= |order| && Accounted(order, mi, known) && known <= known'
    ensures Accounted(order, mi, known')
    ensures mi < |order| && order[mi] in known' ==> Accounted(order, mi + 1, known')
  {
  }

  lemma NothingLeftOut(p: Pool, order: seq<Tx>, block: Block, skipped: set<Tx>)
    requires Accounted(order, |order|, Known(block.txs, map[], skipped)) && AllRejected(p, skipped, block)
    ensures forall i :: 0 <= i < |order| ==> order[i] in block.txs || Rejected(p, order[i], block)
  {
  }

  function Known(inBlock: set<Tx>, modified: map<Tx, Totals>, skipped: set<Tx>): set<Tx> {
    inBlock + modified.Keys + skipped
  }

  lemma KnownDown(inBlock: set<Tx>, modified: map<Tx, Totals>, skipped: set<Tx>, t: Tx)
    ensures Known(inBlock, modified, skipped) <= Known(inBlock, modified - {t}, skipped + {t})
    ensures Known(inBlock, modified, skipped) <= Known(inBlock, modified, skipped + {t})
  {
  }

  lemma TurnedDown(p: Pool, block: Block, modified: map<Tx, Totals>, failed: set<Tx>, skipped: set<Tx>, t: Tx)
    requires Selecting(p, block, modified, failed, skipped) && t in p.entries && t in p.ancestors && t in modified
    requires Rejected(p, t, block)
    ensures Selecting(p, block, modified - {t}, failed + {t}, skipped + {t})
  {
    FailedOk(p, block.txs, modified, failed, t);
    RecordsErase(p, block.txs, modified, failed, {t}, {t});
    LoweredErase(p, modified, t);
    RejectOne(p, block, skipped, t);
  }

  lemma PassedOver(p: Pool, block: Block, modified: map<Tx, Totals>, failed: set<Tx>, skipped: set<Tx>, t: Tx)
    requires Selecting(p, block, modified, failed, skipped) && Rejected(p, t, block)
    ensures Selecting(p, block, modified, failed, skipped + {t})
  {
    RejectOne(p, block, skipped, t);
  }

  lemma TakenIn(p: Pool, block: Block, block': Block, package: set<Tx>, modified: map<Tx, Totals>, modified': map<Tx,
        Totals>, failed: set<Tx>, skipped: set<Tx>)
    requires p.ancestors.Keys == p.entries.Keys
    requires Selecting(p, block, modified, failed, skipped)
    requires ModifiedOk(p, block'.txs, modified') && FreshOk(p, block'.txs, modified', failed)
    requires RecordsOk(p, block'.txs, modified', failed)
    requires Progress(p, modified - package, modified', package, package)
    requires block'.maxWeight == block.maxWeight && block'.eligible == block.eligible
    requires block.weight <= block'.weight && block.sigops <= block'.sigops
    requires block'.txs == block.txs + package
    ensures Selecting(p, block', modified', failed, skipped)
    ensures Known(block.txs, modified, skipped) + package <= Known(block'.txs, modified', skipped)
  {
    assert Lowered(p, modified - package);
    LoweredKept(p, modified - package, modified', package);
    StillRejected(p, block, block', skipped);
    KnownIn(block.txs, package, modified, modified', skipped);
  }

  lemma KnownIn(inBlock: set<Tx>, package: set<Tx>, modified: map<Tx, Totals>, modified': map<Tx, Totals>,
        skipped: set<Tx>)
    requires (modified - package).Keys <= modified'.Keys
    ensures Known(inBlock, modified, skipped) <= Known(inBlock + package, modified', skipped)
  {
    forall t | t in modified ensures t in Known(inBlock + package, modified', skipped) {
      if t !in package { assert t in modified - package; }
    }
  }

  datatype Outcome = Included | TooBig | NotEligible

  // ----- Why the selection ends -----

  /** The packages that were too big since the last one was included. */
  ghost predicate Refusing(p: Pool, block: Block, order: seq<Tx>, mi: nat, modified: map<Tx, Totals>, failed: set<Tx>,
        refused: set<Tx>, n: int)
    requires mi <= |order|
  {
    && |refused| == n && refused !! modified.Keys && refused <= failed + Elements(order[..mi])
    && forall t :: t in refused ==> t in p.entries && t !in block.txs && !Fits(block, Cached(p, t))
  }

  /** How the selection ends: nothing is left; or the best package pays too
      little, among the packages on offer; or many packages in a row were too big
      for a block that is nearly full. */
  datatype Ending = Exhausted | TooCheap(stop: Tx, offers: map<Tx, Totals>) | NearlyFull(refused: set<Tx>)

  // ----- What was selected -----

  /** One selection: the transaction whose package it is, the packages on offer
      with their totals, and the transactions that entered the block. */
  datatype Pick = Pick(t: Tx, offers: map<Tx, Totals>, package: seq<Tx>)

  /** The template of a block with these transactions. */
  ghost function BlockOf(p: Pool, vtx: seq<Tx>, maxWeight: int, eligible: Tx -> bool): Block
    requires forall i :: 0 <= i < |vtx| ==> vtx[i] in p.entries
  {
    var c := CountersOf(p, vtx);
    Block(Elements(vtx), c.weight, c.sigops, maxWeight, eligible)
  }

  /** What remains of the package enters, it fits by the totals, and every
      transaction of it may enter. */
  ghost predicate Taken(p: Pool, block: Block, t: Tx, totals: Totals, package: seq<Tx>) {
    && t in p.ancestors && Elements(package) == Remaining(p, block.txs, t) && Fits(block, totals)
    && forall x :: x in package ==> block.eligible(x)
  }

  /** The pick was the best of all on offer, and paid enough. */
  ghost predicate GoodPick(p: Pool, block: Block, better: (Candidate, Candidate) -> bool, minFee: int -> int,
        pick: Pick)
    requires p.ancestors.Keys == p.entries.Keys
  {
    && OffersOk(p, block, pick.offers) && BestOffer(better, pick.offers, pick.t)
    && pick.offers[pick.t].fees >= minFee(pick.offers[pick.t].size)
    && Taken(p, block, pick.t, pick.offers[pick.t], pick.package)
  }

  /** The block grew from `start` by the picks, each good when it was made. */
  ghost predicate PickedBy(p: Pool, better: (Candidate, Candidate) -> bool, minFee: int -> int, maxWeight: int,
        eligible: Tx -> bool, start: seq<Tx>, picks: seq<Pick>, vtx: seq<Tx>)
    requires p.ancestors.Keys == p.entries.Keys && forall i :: 0 <= i < |vtx| ==> vtx[i] in p.entries
    decreases |picks|
  {
    if picks == [] then vtx == start
    else
      var last := picks[|picks| - 1];
      var n := |vtx| - |last.package|;
      && n >= 0 && vtx[n..] == last.package
      && GoodPick(p, BlockOf(p, vtx[..n], maxWeight, eligible), better, minFee, last)
      && PickedBy(p, better, minFee, maxWeight, eligible, start, picks[..|picks| - 1], vtx[..n])
  }

  lemma PickedMore(p: Pool, better: (Candidate, Candidate) -> bool, minFee: int -> int, maxWeight: int,
        eligible: Tx -> bool, start: seq<Tx>, picks: seq<Pick>, vtx: seq<Tx>, pick: Pick, vtx': seq<Tx>)
    requires p.ancestors.Keys == p.entries.Keys && forall i :: 0 <= i < |vtx'| ==> vtx'[i] in p.entries
    requires vtx <= vtx' && pick.package == vtx'[|vtx|..]
    requires PickedBy(p, better, minFee, maxWeight, eligible, start, picks, vtx)
    requires GoodPick(p, BlockOf(p, vtx, maxWeight, eligible), better, minFee, pick)
    ensures PickedBy(p, better, minFee, maxWeight, eligible, start, picks + [pick], vtx')
  {
    var all := picks + [pick];
    assert all[..|picks|] == picks && vtx'[..|vtx|] == vtx;
  }

  lemma EligibleMore(start: seq<Tx>, vtx: seq<Tx>, vtx': seq<Tx>, eligible: Tx -> bool)
    requires start <= vtx <= vtx' && (forall i :: |start| <= i < |vtx| ==> eligible(vtx[i]))
    requires forall x :: x in vtx'[|vtx|..] ==> eligible(x)
    ensures start <= vtx' && forall i :: |start| <= i < |vtx'| ==> eligible(vtx'[i])
  {
    forall i | |start| <= i < |vtx'| ensures eligible(vtx'[i]) {
      if i >= |vtx| { assert vtx'[i] in vtx'[|vtx|..]; }
    }
  }

  lemma RefusingOn(p: Pool, block: Block, order: seq<Tx>, mi: nat, mi': nat, modified: map<Tx, Totals>,
        modified': map<Tx, Totals>, failed: set<Tx>, failed': set<Tx>, refused: set<Tx>, n: int)
    requires mi <= mi' <= |order| && Refusing(p, block, order, mi, modified, failed, refused, n)
    requires modified'.Keys <= modified.Keys && failed <= failed'
    ensures Refusing(p, block, order, mi', modified', failed', refused, n)
  {
    assert order[..mi] <= order[..mi'];
    assert Elements(order[..mi]) <= Elements(order[..mi']);
  }

  lemma RefusingMore(p: Pool, block: Block, order: seq<Tx>, mi: nat, modified: map<Tx, Totals>, failed: set<Tx>,
        refused: set<Tx>, n: int, t: Tx)
    requires mi <= |order| && Refusing(p, block, order, mi, modified, failed, refused, n)
    requires t in p.entries && t !in block.txs && !Fits(block, Cached(p, t)) && t !in refused && t !in modified
    requires t in failed || t in order[..mi]
    ensures Refusing(p, block, order, mi, modified, failed, refused + {t}, n + 1)
  {
  }

  /** A package that is considered was not refused since the last inclusion. */
  lemma NotRefused(p: Pool, block: Block, order: seq<Tx>, mi: nat, modified: map<Tx, Totals>, failed: set<Tx>,
        refused: set<Tx>, n: int, t: Tx)
    requires mi <= |order| && Refusing(p, block, order, mi, modified, failed, refused, n)
    requires forall i, j :: 0 <= i < j < |order| ==> order[i] != order[j]
    requires t in modified || (mi < |order| && t == order[mi] && t !in failed)
    ensures t !in refused
  {
  }

  /** The totals with which a package is considered: the cached ones if no
      ancestor is in the block, and the corrected ones otherwise. */
  ghost predicate Offered(p: Pool, block: Block, t: Tx, totals: Totals)
    requires t in p.ancestors && t in p.entries
  {
    || (totals == Cached(p, t) && Untouched(p, block.txs, t))
    || Recorded(p, block.txs, t, totals, Rejected(p, t, block))
  }

  ghost predicate BestOffer(better: (Candidate, Candidate) -> bool, offers: map<Tx, Totals>, t: Tx) {
    t in offers && NoneBetter(better, offers, Candidate(t, offers[t]))
  }

  ghost predicate Justified(p: Pool, block: Block, better: (Candidate, Candidate) -> bool, minFee: int -> int,
        ending: Ending)
    requires p.ancestors.Keys == p.entries.Keys
  {
    match ending
    case Exhausted => forall t :: t in p.entries ==> t in block.txs || Rejected(p, t, block)
    case TooCheap(stop, offers) =>
      && OffersOk(p, block, offers) && BestOffer(better, offers, stop)
      && offers[stop].fees < minFee(offers[stop].size)
    case NearlyFull(refused) =>
      && block.weight + 4000 > block.maxWeight && |refused| > MAX_CONSECUTIVE_FAILURES
      && forall t :: t in refused ==> t in p.entries && t !in block.txs && !Fits(block, Cached(p, t))
  }

  /** Every transaction outside the block is on offer or was turned down. */
  ghost predicate OffersOk(p: Pool, block: Block, offers: map<Tx, Totals>)
    requires p.ancestors.Keys == p.entries.Keys
  {
    && (forall t :: t in p.entries ==> t in block.txs || Rejected(p, t, block) || t in offers)
    && (forall t :: t in offers ==> t in p.entries && t !in block.txs && Offered(p, block, t, offers[t]))
  }

  /** mapTx by ancestor score: each entry once, none before a better one. */
  ghost predicate Ranked(p: Pool, better: (Candidate, Candidate) -> bool, order: seq<Tx>) {
    && (forall t :: t in p.entries <==> t in order)
    && (forall i, j :: 0 <= i < j < |order| ==> order[i] != order[j])
    && (forall i, j :: 0 <= i < j < |order| ==> order[i] in p.entries && order[j] in p.entries
                                                && !better(Offer(p, map[], order[j]), Offer(p, map[], order[i])))
  }

  lemma RankedIn(p: Pool, better: (Candidate, Candidate) -> bool, order: seq<Tx>)
    requires Ranked(p, better, order)
    ensures forall i :: 0 <= i < |order| ==> order[i] in p.entries
    ensures forall i, j :: 0 <= i < j < |order| ==> order[i] != order[j]
  {
  }

  /** The packages that can still be considered. */
  ghost function Offers(p: Pool, inBlock: set<Tx>, modified: map<Tx, Totals>, failed: set<Tx>, tail: set<Tx>):
    map<Tx, Totals>
  {
    map t | t in p.entries && t !in inBlock && (t in modified || (t in tail && t !in failed)) :: Start(p, modified, t)
  }

  lemma SolidOffers(p: Pool, inBlock: set<Tx>, modified: map<Tx, Totals>, t: Tx)
    requires p.Valid() && ModifiedOk(p, inBlock, modified) && t in p.entries && t !in inBlock
    ensures Solid(Offer(p, modified, t))
  {
    StartCovers(p, inBlock, modified, t);
    SumRemove(Size(p), Remaining(p, inBlock, t), t);
  }

  lemma OfferedOne(p: Pool, block: Block, modified: map<Tx, Totals>, failed: set<Tx>, skipped: set<Tx>, t: Tx)
    requires Selecting(p, block, modified, failed, skipped) && t in p.entries && t in p.ancestors && t !in block.txs
    requires t in modified || t !in failed
    ensures Offered(p, block, t, Start(p, modified, t))
  {
    if t in modified {
      assert t in failed ==> t in skipped && Rejected(p, t, block);
      RecordedAgain(p, block.txs, t, modified[t], t in failed, Rejected(p, t, block));
    }
  }

  lemma RecordedAgain(p: Pool, inBlock: set<Tx>, t: Tx, totals: Totals, was: bool, now: bool)
    requires t in p.ancestors && t in p.entries && Recorded(p, inBlock, t, totals, was) && (was ==> now)
    ensures Recorded(p, inBlock, t, totals, now)
  {
  }

  lemma AllOffered(p: Pool, block: Block, order: seq<Tx>, mi: nat, modified: map<Tx, Totals>, failed: set<Tx>,
        skipped: set<Tx>)
    requires p.ancestors.Keys == p.entries.Keys && Selecting(p, block, modified, failed, skipped)
    requires (forall t :: t in p.entries <==> t in order) && mi <= |order|
    requires Accounted(order, mi, Known(block.txs, modified, skipped))
    ensures OffersOk(p, block, Offers(p, block.txs, modified, failed, Elements(order[mi..])))
  {
    var offers := Offers(p, block.txs, modified, failed, Elements(order[mi..]));
    forall t | t in p.entries ensures t in block.txs || Rejected(p, t, block) || t in offers {
      var i :| 0 <= i < |order| && order[i] == t;
      if i >= mi { assert order[mi..][i - mi] == t; }
      if t in skipped || t in failed { assert Rejected(p, t, block); }
    }
    forall t | t in offers ensures Offered(p, block, t, offers[t]) {
      OfferedOne(p, block, modified, failed, skipped, t);
    }
  }

  /** The choice between the next entry and the best modified one. */
  ghost predicate Chosen(p: Pool, better: (Candidate, Candidate) -> bool, order: seq<Tx>, mi: nat,
        modified: map<Tx, Totals>, iter: Tx, fUsingModified: bool)
    requires mi <= |order| && iter in p.entries && forall i :: 0 <= i < |order| ==> order[i] in p.entries
  {
    && NoneBetter(better, modified, Offer(p, modified, iter))
    && (if fUsingModified then
          iter in modified && (mi < |order| ==> better(Offer(p, modified, iter), Offer(p, map[], order[mi])))
        else mi < |order| && iter == order[mi])
  }

  /** Everything else that might be considered is not better. */
  lemma ChosenBest(p: Pool, better: (Candidate, Candidate) -> bool, order: seq<Tx>, mi: nat, inBlock: set<Tx>,
        modified: map<Tx, Totals>, failed: set<Tx>, iter: Tx, fUsingModified: bool)
    requires p.Valid() && Ranking(better) && Ranked(p, better, order) && mi <= |order|
    requires ModifiedOk(p, inBlock, modified) && iter in p.entries && iter !in inBlock
    requires mi < |order| ==> order[mi] !in modified && order[mi] !in inBlock
    requires Chosen(p, better, order, mi, modified, iter, fUsingModified)
    ensures NoneBetter(better, Offers(p, inBlock, modified, failed, Elements(order[mi..])), Offer(p, modified, iter))
  {
    var offers, c := Offers(p, inBlock, modified, failed, Elements(order[mi..])), Offer(p, modified, iter);
    forall t | t in offers ensures !better(Candidate(t, offers[t]), c) {
      if t !in modified {
        var k := Index(order, mi, t);
        LaterNotBetter(p, better, order, mi, k, inBlock, modified, c, iter, fUsingModified);
      }
    }
  }

  lemma Index(order: seq<Tx>, mi: nat, t: Tx) returns (k: nat)
    requires mi <= |order| && t in Elements(order[mi..])
    ensures mi <= k < |order| && order[k] == t
  {
    var i :| 0 <= i < |order[mi..]| && order[mi..][i] == t;
    k := mi + i;
  }

  /** The package considered is on offer, and none on offer is better. */
  lemma RightChoice(p: Pool, block: Block, better: (Candidate, Candidate) -> bool, order: seq<Tx>, mi: nat,
        modified: map<Tx, Totals>, failed: set<Tx>, skipped: set<Tx>, iter: Tx, fUsingModified: bool,
        offers: map<Tx, Totals>)
    requires p.Valid() && Ranking(better) && Ranked(p, better, order) && mi <= |order|
    requires Selecting(p, block, modified, failed, skipped) && iter in p.entries && iter !in block.txs
    requires Accounted(order, mi, Known(block.txs, modified, skipped))
    requires mi < |order| ==> order[mi] !in modified && order[mi] !in block.txs && order[mi] !in failed
    requires Chosen(p, better, order, mi, modified, iter, fUsingModified)
    requires offers == Offers(p, block.txs, modified, failed, Elements(order[mi..]))
    ensures OffersOk(p, block, offers) && BestOffer(better, offers, iter) && offers[iter] == Start(p, modified, iter)
  {
    AllOffered(p, block, order, mi, modified, failed, skipped);
    ChosenBest(p, better, order, mi, block.txs, modified, failed, iter, fUsingModified);
    assert !fUsingModified ==> order[mi..][0] == iter;
  }

  lemma LaterNotBetter(p: Pool, better: (Candidate, Candidate) -> bool, order: seq<Tx>, mi: nat, k: nat,
        inBlock: set<Tx>, modified: map<Tx, Totals>, c: Candidate, iter: Tx, fUsingModified: bool)
    requires p.Valid() && Ranking(better) && Ranked(p, better, order) && mi <= k < |order|
    requires ModifiedOk(p, inBlock, modified) && iter in p.entries && iter !in inBlock && order[k] !in inBlock
    requires order[mi] !in modified && order[mi] !in inBlock && c == Offer(p, modified, iter)
    requires Chosen(p, better, order, mi, modified, iter, fUsingModified)
    ensures !better(Offer(p, map[], order[k]), c)
  {
    var next, later := Offer(p, map[], order[mi]), Offer(p, map[], order[k]);
    assert !better(later, next);
    SolidOffers(p, inBlock, modified, iter);
    SolidOffers(p, {}, map[], order[mi]);
    SolidOffers(p, {}, map[], order[k]);
    if fUsingModified {
      assert !better(next, c);
    } else {
      assert c == next;
    }
  }

  class BlockAssembler {
    const pool: Pool
    const nBlockMaxWeight: nat
    const minFee: int -> int
    const better: (Candidate, Candidate) -> bool
    const eligible: Tx -> bool

    var vtx: seq<Tx>
    var vTxFees: seq<int>
    var vTxSigOpsCost: seq<int>
    var inBlock: set<Tx>
    var nBlockWeight: nat
    var nBlockTx: nat
    var nBlockSigOpsCost: nat
    var nFees: int

    /** The counters as functions of the block's contents. */
    ghost predicate Counted()
      reads this
    {
      && inBlock == Elements(vtx)
      && (forall i :: 0 <= i < |vtx| ==> vtx[i] in pool.entries)
      && Counters(nBlockWeight, nBlockSigOpsCost, nBlockTx, nFees, vTxFees, vTxSigOpsCost) == CountersOf(pool, vtx)
    }

    /** The block is ordered, its counters describe it, and it is within limits. */
    ghost predicate Valid()
      reads this
    {
      && pool.Valid() && Ordered(pool, vtx) && Counted()
      && nBlockWeight <= nBlockMaxWeight && nBlockSigOpsCost < MAX_BLOCK_SIGOPS_COST
    }

    /** The limit is clamped as in the source; resetBlock reserves room for the
        coinbase. */
    constructor (pool: Pool, maxBlockWeight: nat, optionMaxWeight: nat,
                 minFee: int -> int, better: (Candidate, Candidate) -> bool, eligible: Tx -> bool)
      requires pool.Valid() && maxBlockWeight >= 4000
      ensures Valid() && this.pool == pool && vtx == []
      ensures this.minFee == minFee && this.better == better && this.eligible == eligible
      ensures nBlockMaxWeight <= if maxBlockWeight < 8000 then 4000 else maxBlockWeight - 4000
      ensures 4000 <= optionMaxWeight <= maxBlockWeight - 4000 ==> nBlockMaxWeight == optionMaxWeight
      ensures nBlockMaxWeight >= 4000 && (optionMaxWeight >= maxBlockWeight - 4000 >= 4000 ==>
        nBlockMaxWeight == maxBlockWeight - 4000)
    {
      this.pool := pool;
      var limit := if optionMaxWeight < maxBlockWeight - 4000 then optionMaxWeight else maxBlockWeight - 4000;
      nBlockMaxWeight := if limit < 4000 then 4000 else limit;
      this.minFee := minFee;
      this.better := better;
      this.eligible := eligible;
      vtx, vTxFees, vTxSigOpsCost, inBlock := [], [], [], {};
      nBlockWeight, nBlockSigOpsCost, nBlockTx, nFees := RESERVED_WEIGHT, RESERVED_SIGOPS, 0, 0;
    }

    ghost function Template(): Block
      reads this
    {
      Block(inBlock, nBlockWeight, nBlockSigOpsCost, nBlockMaxWeight, eligible)
    }

    predicate TestPackage(packageSize: int, packageSigOpsCost: int)
      reads this
    {
      && nBlockWeight + WITNESS_SCALE_FACTOR * packageSize < nBlockMaxWeight
      && nBlockSigOpsCost + packageSigOpsCost < MAX_BLOCK_SIGOPS_COST
    }

    method AddToBlock(t: Tx)
      requires Counted() && t in pool.entries && t !in inBlock
      modifies this
      ensures Counted() && vtx == old(vtx) + [t] && inBlock == old(inBlock) + {t}
    {
      var entry := pool.entries[t];
      CountersAppend(pool, vtx, t);
      vtx := vtx + [t];
      vTxFees := vTxFees + [entry.fee];
      vTxSigOpsCost := vTxSigOpsCost + [entry.sigops];
      nBlockWeight := nBlockWeight + entry.weight;
      nBlockTx := nBlockTx + 1;
      nBlockSigOpsCost := nBlockSigOpsCost + entry.sigops;
      nFees := nFees + entry.fee;
      inBlock := inBlock + {t};
    }

    /** The whole sorted package goes in and out of the modified set. */
    method AddSorted(sorted: seq<Tx>, modified: map<Tx, Totals>) returns (modified': map<Tx, Totals>)
      requires Counted() && Sorted(pool, sorted) && Elements(sorted) !! inBlock
      modifies this
      ensures Counted() && vtx == old(vtx) + sorted && inBlock == old(inBlock) + Elements(sorted)
      ensures modified' == modified - Elements(sorted)
    {
      modified' := modified;
      for k := 0 to |sorted|
        invariant Counted() && vtx == old(vtx) + sorted[..k]
        invariant modified' == modified - Elements(sorted[..k])
      {
        NotYetIn(pool, old(vtx), sorted, k);
        ErasedMore(modified, Elements(sorted[..k]), sorted[k]);
        AddToBlock(sorted[k]);
        modified' := modified' - {sorted[k]};
      }
      assert sorted[..|sorted|] == sorted;
      ElementsJoin(old(vtx), sorted);
    }

    method SortForBlock(package: set<Tx>) returns (sorted: seq<Tx>)
      requires package <= pool.entries.Keys
      ensures Sorted(pool, sorted) && Elements(sorted) == package
    {
      sorted := [];
      var rest := package;
      while rest != {}
        invariant rest <= package && Sorted(pool, sorted) && Elements(sorted) == package - rest
        decreases rest
      {
        var x :| x in rest;
        assert x !in Elements(sorted);
        InsertSorted(pool, sorted, x);
        sorted := Insert(pool, sorted, x);
        rest := rest - {x};
      }
    }

    method UpdateDescendants(it: Tx, added: set<Tx>, modified: map<Tx, Totals>)
      returns (modified': map<Tx, Totals>, n: nat)
      requires pool.Valid() && it in pool.entries && modified.Keys <= pool.ancestors.Keys && it in added
      ensures modified'.Keys <= pool.ancestors.Keys
      ensures forall t :: t in pool.ancestors ==>
        Subtracted(pool, modified, modified', t, t !in added && it in pool.ancestors[t], it)
    {
      modified', n := modified, 0;
      var rest := pool.Descendants(it);
      var entry := pool.entries[it];
      while rest != {}
        invariant rest <= pool.Descendants(it) && modified'.Keys <= pool.ancestors.Keys
        invariant forall t :: t in pool.ancestors ==>
          Subtracted(pool, modified, modified', t, t !in added && it in pool.ancestors[t] && t !in rest, it)
        decreases rest
      {
        var desc :| desc in rest;
        if desc !in added {
          n := n + 1;
          var e := Start(pool, modified', desc);
          var fee := if desc in modified' then entry.fee else entry.modFee;
          modified' := modified'[desc := Totals(e.size - entry.size, e.sigops - entry.sigops, e.fees - fee)];
        }
        rest := rest - {desc};
      }
    }

    method UpdatePackagesForAdded(added: set<Tx>, modified: map<Tx, Totals>)
      returns (modified': map<Tx, Totals>, n: nat)
      requires pool.Valid() && added <= pool.entries.Keys && modified.Keys <= pool.ancestors.Keys
      ensures Progress(pool, modified, modified', added, added)
    {
      modified', n := modified, 0;
      var rest := added;
      while rest != {}
        invariant rest <= added && Progress(pool, modified, modified', added, added - rest)
        decreases rest
      {
        var it :| it in rest;
        ghost var was := modified';
        var k;
        modified', k := UpdateDescendants(it, added, modified');
        n := n + k;
        ProgressStep(pool, modified, was, modified', added, added - rest, it);
        assert added - (rest - {it}) == added - rest + {it};
        rest := rest - {it};
      }
      assert added - rest == added;
    }

    /** A package that passed the tests enters the block, and the totals of its
        descendants are corrected. */
    method IncludePackage(t: Tx, package: set<Tx>, totals: Totals, modified: map<Tx, Totals>, ghost failed: set<Tx>)
      returns (modified': map<Tx, Totals>, n: nat)
      requires Valid() && t in pool.ancestors && t !in inBlock && package == Remaining(pool, inBlock, t)
      requires ModifiedOk(pool, inBlock, modified) && FreshOk(pool, inBlock, modified, failed)
      requires RecordsOk(pool, inBlock, modified, failed)
      requires Covers(pool, inBlock, t, totals) && TestPackage(totals.size, totals.sigops)
      modifies this
      ensures Valid() && inBlock == old(inBlock) + package && old(vtx) <= vtx && Elements(vtx[|old(vtx)|..]) == package
      ensures old(nBlockWeight) <= nBlockWeight && old(nBlockSigOpsCost) <= nBlockSigOpsCost
      ensures Progress(pool, modified - package, modified', package, package)
      ensures ModifiedOk(pool, inBlock, modified') && FreshOk(pool, inBlock, modified', failed)
      ensures RecordsOk(pool, inBlock, modified', failed)
    {
      ghost var block := inBlock;
      var sorted := SortForBlock(package);
      AppendOrdered(pool, vtx, t, sorted);
      BlockFits(pool, vtx, t, sorted, totals, nBlockMaxWeight);
      var kept := AddSorted(sorted, modified);
      assert vtx[|old(vtx)|..] == sorted;
      modified', n := UpdatePackagesForAdded(package, kept);
      ClosedBlock(pool, old(vtx));
      AddedOk(pool, block, package, modified, modified', failed);
    }

    method Accept(iter: Tx, package: set<Tx>, totals: Totals, modified: map<Tx, Totals>, ghost failed: set<Tx>,
          ghost skipped: set<Tx>)
      returns (modified': map<Tx, Totals>, n: nat)
      requires Valid() && Selecting(pool, Template(), modified, failed, skipped)
      requires iter in pool.entries && iter !in inBlock && package == Remaining(pool, inBlock, iter)
      requires totals == Start(pool, modified, iter) && TestPackage(totals.size, totals.sigops)
      modifies this
      ensures Valid() && Selecting(pool, Template(), modified', failed, skipped)
      ensures old(vtx) <= vtx && Elements(vtx[|old(vtx)|..]) == package
      ensures Known(old(inBlock), modified, skipped) + {iter} <= Known(inBlock, modified', skipped)
      ensures iter in inBlock && old(inBlock) < inBlock
    {
      StartCovers(pool, inBlock, modified, iter);
      assert iter in package;
      ghost var block := Template();
      modified', n := IncludePackage(iter, package, totals, modified, failed);
      TakenIn(pool, block, Template(), package, modified, modified', failed, skipped);
    }

    method Refuse(iter: Tx, fUsingModified: bool, modified: map<Tx, Totals>, failed: set<Tx>, ghost skipped: set<Tx>)
      returns (modified': map<Tx, Totals>, failed': set<Tx>, ghost skipped': set<Tx>)
      requires Selecting(pool, Template(), modified, failed, skipped) && Rejected(pool, iter, Template())
      requires fUsingModified <==> iter in modified
      ensures Selecting(pool, Template(), modified', failed', skipped') && skipped' == skipped + {iter}
      ensures Known(inBlock, modified, skipped) + {iter} <= Known(inBlock, modified', skipped')
      ensures |modified'| == |modified| - if fUsingModified then 1 else 0
      ensures modified' == modified - {iter} && failed' == if fUsingModified then failed + {iter} else failed
    {
      modified', failed', skipped' := modified, failed, skipped + {iter};
      KnownDown(inBlock, modified, skipped, iter);
      if fUsingModified {
        Shrinks(modified, iter);
        TurnedDown(pool, Template(), modified, failed, skipped, iter);
        modified' := modified - {iter};
        failed' := failed + {iter};
      } else {
        PassedOver(pool, Template(), modified, failed, skipped, iter);
        EraseAbsent(modified, iter);
      }
    }

    /** Tests a package and includes it, or turns its last transaction down. */
    method Consider(iter: Tx, fUsingModified: bool, totals: Totals, modified: map<Tx, Totals>, failed: set<Tx>,
          ghost skipped: set<Tx>)
      returns (outcome: Outcome, modified': map<Tx, Totals>, failed': set<Tx>, ghost skipped': set<Tx>, n: nat)
      requires Valid() && Selecting(pool, Template(), modified, failed, skipped) && iter in pool.entries &&
        iter !in inBlock
      requires fUsingModified <==> iter in modified
      requires totals == Start(pool, modified, iter)
      modifies this
      ensures Valid() && Selecting(pool, Template(), modified', failed', skipped') && skipped <= skipped' &&
        old(vtx) <= vtx
      ensures Known(old(inBlock), modified, skipped) + {iter} <= Known(inBlock, modified', skipped')
      ensures outcome.Included? ==> iter in inBlock && old(inBlock) < inBlock
      ensures if outcome.Included? then Taken(pool, old(Template()), iter, totals, vtx[|old(vtx)|..])
              else vtx == old(vtx)
      ensures !outcome.Included? ==>
        Template() == old(Template()) && |modified'| == |modified| - if fUsingModified then 1 else 0
      ensures !outcome.Included? ==>
        modified' == modified - {iter} && failed' == if fUsingModified then failed + {iter} else failed
      ensures outcome.TooBig? ==> !Fits(Template(), Cached(pool, iter))
    {
      failed', skipped', n := failed, skipped, 0;
      var package := pool.Package(iter) - inBlock;
      var fits := TestPackage(totals.size, totals.sigops);
      if !fits || exists t :: t in package && !eligible(t) {
        outcome := if fits then NotEligible else TooBig;
        TooSoon(package, iter, totals, modified);
        modified', failed', skipped' := Refuse(iter, fUsingModified, modified, failed, skipped);
        return;
      }
      outcome := Included;
      modified', n := Accept(iter, package, totals, modified, failed, skipped);
    }

    lemma TooSoon(package: set<Tx>, iter: Tx, totals: Totals, modified: map<Tx, Totals>)
      requires Lowered(pool, modified) && iter in pool.entries && iter in pool.ancestors &&
        totals == Start(pool, modified, iter)
      requires package <= pool.Package(iter)
      requires !TestPackage(totals.size, totals.sigops) || exists t :: t in package && !eligible(t)
      ensures Rejected(pool, iter, Template())
      ensures !TestPackage(totals.size, totals.sigops) ==> !Fits(Template(), Cached(pool, iter))
    {
    }

    /** Transactions already in the block are taken off their descendants. */
    method StartSelection() returns (modified: map<Tx, Totals>, n: nat)
      requires Valid()
      ensures Selecting(pool, Template(), modified, {}, {})
    {
      modified, n := UpdatePackagesForAdded(inBlock, map[]);
      CorrectedOk(pool, {}, inBlock, map[], modified, {});
      RecordsKept(pool, {}, inBlock, map[], modified, {});
      LoweredKept(pool, map[], modified, inBlock);
      assert {} + inBlock == inBlock;
    }

    /** The selection between two rounds. */
    ghost predicate Running(order: seq<Tx>, mi: nat, modified: map<Tx, Totals>, failed: set<Tx>, skipped: set<Tx>,
          refused: set<Tx>, nConsecutiveFailed: int)
      reads this
    {
      && mi <= |order| && Valid() && Selecting(pool, Template(), modified, failed, skipped)
      && Accounted(order, mi, Known(inBlock, modified, skipped))
      && Refusing(pool, Template(), order, mi, modified, failed, refused, nConsecutiveFailed)
    }

    /** An entry of mapTx that is in the block, modified or failed is passed over. */
    lemma Skips(order: seq<Tx>, mi: nat, modified: map<Tx, Totals>, failed: set<Tx>, skipped: set<Tx>, refused: set<Tx>,
          nConsecutiveFailed: int)
      requires Running(order, mi, modified, failed, skipped, refused, nConsecutiveFailed) && mi < |order|
      requires order[mi] in modified || order[mi] in inBlock || order[mi] in failed
      ensures Running(order, mi + 1, modified, failed, skipped, refused, nConsecutiveFailed)
    {
      var known := Known(inBlock, modified, skipped);
      AccountedNext(order, mi, known, known);
      RefusingOn(pool, Template(), order, mi, mi + 1, modified, modified, failed, failed, refused, nConsecutiveFailed);
    }

    /** One package is considered. */
    method Round(order: seq<Tx>, mi: nat, iter: Tx, fUsingModified: bool, totals: Totals, modified: map<Tx, Totals>,
          failed: set<Tx>, ghost skipped: set<Tx>, ghost refused: set<Tx>, nConsecutiveFailed: int)
      returns (outcome: Outcome, modified': map<Tx, Totals>, failed': set<Tx>, ghost skipped': set<Tx>,
          ghost refused': set<Tx>, nFailed: int, n: nat)
      requires Running(order, mi, modified, failed, skipped, refused, nConsecutiveFailed)
      requires forall i, j :: 0 <= i < j < |order| ==> order[i] != order[j]
      requires iter in pool.entries && iter !in inBlock && totals == Start(pool, modified, iter)
      requires fUsingModified <==> iter in modified
      requires !fUsingModified ==> mi < |order| && iter == order[mi] && iter !in failed
      modifies this
      ensures Running(order, if fUsingModified then mi else mi + 1, modified', failed', skipped', refused', nFailed)
      ensures old(vtx) <= vtx
      ensures if outcome.Included? then Taken(pool, old(Template()), iter, totals, vtx[|old(vtx)|..])
              else vtx == old(vtx)
      ensures if outcome.Included? then old(inBlock) < inBlock
              else inBlock == old(inBlock) && |modified'| == |modified| - if fUsingModified then 1 else 0
    {
      ghost var known, at := Known(inBlock, modified, skipped), if fUsingModified then mi else mi + 1;
      NotRefused(pool, Template(), order, mi, modified, failed, refused, nConsecutiveFailed, iter);
      outcome, modified', failed', skipped', n := Consider(iter, fUsingModified, totals, modified, failed, skipped);
      AccountedNext(order, mi, known, Known(inBlock, modified', skipped'));
      nFailed, refused' := nConsecutiveFailed, refused;
      if outcome.Included? {
        nFailed, refused' := 0, {};
      } else {
        RefusingOn(pool, Template(), order, mi, at, modified, modified', failed, failed', refused, nConsecutiveFailed);
        if outcome.TooBig? {
          assert !fUsingModified ==> order[..at][mi] == iter;
          RefusingMore(pool, Template(), order, at, modified', failed', refused, nConsecutiveFailed, iter);
          nFailed, refused' := nConsecutiveFailed + 1, refused + {iter};
        }
      }
    }

    /** The block grew by the picks, and all that entered was allowed to. */
    ghost predicate Grown(start: seq<Tx>, picks: seq<Pick>)
      reads this
    {
      && Valid() && PickedBy(pool, better, minFee, nBlockMaxWeight, eligible, start, picks, vtx)
      && start <= vtx && forall i :: |start| <= i < |vtx| ==> eligible(vtx[i])
    }

    /** One package that pays enough is considered; if it is included, it is the
        next pick. */
    method Turn(order: seq<Tx>, mi: nat, iter: Tx, fUsingModified: bool, totals: Totals, modified: map<Tx, Totals>,
          failed: set<Tx>, ghost skipped: set<Tx>, ghost refused: set<Tx>, nConsecutiveFailed: int,
          ghost start: seq<Tx>, ghost picks: seq<Pick>, ghost offers: map<Tx, Totals>)
      returns (outcome: Outcome, modified': map<Tx, Totals>, failed': set<Tx>, ghost skipped': set<Tx>,
          ghost refused': set<Tx>, nFailed: int, n: nat, ghost picks': seq<Pick>)
      requires Running(order, mi, modified, failed, skipped, refused, nConsecutiveFailed) && Grown(start, picks)
      requires forall i, j :: 0 <= i < j < |order| ==> order[i] != order[j]
      requires iter in pool.entries && iter !in inBlock && totals == Start(pool, modified, iter)
      requires fUsingModified <==> iter in modified
      requires !fUsingModified ==> mi < |order| && iter == order[mi] && iter !in failed
      requires OffersOk(pool, Template(), offers) && BestOffer(better, offers, iter) && offers[iter] == totals
      requires totals.fees >= minFee(totals.size)
      modifies this
      ensures Running(order, if fUsingModified then mi else mi + 1, modified', failed', skipped', refused', nFailed)
      ensures Grown(start, picks') && |picks'| == |picks| + if outcome.Included? then 1 else 0
      ensures if outcome.Included? then old(inBlock) < inBlock
              else inBlock == old(inBlock) && |modified'| == |modified| - if fUsingModified then 1 else 0
    {
      ghost var earlier, block := vtx, Template();
      outcome, modified', failed', skipped', refused', nFailed, n := Round(order, mi, iter, fUsingModified, totals,
        modified, failed, skipped, refused, nConsecutiveFailed);
      picks' := picks;
      if outcome.Included? {
        ghost var pick := Pick(iter, offers, vtx[|earlier|..]);
        PickedMore(pool, better, minFee, nBlockMaxWeight, eligible, start, picks, earlier, pick, vtx);
        picks' := picks + [pick];
        EligibleMore(start, earlier, vtx, eligible);
      }
    }

    /** One round of the loop: an entry is passed over, or the selection stops, or
        a package is considered. */
    method Advance(order: seq<Tx>, mi: nat, modified: map<Tx, Totals>, failed: set<Tx>, ghost skipped: set<Tx>,
          ghost refused: set<Tx>, nConsecutiveFailed: int, ghost start: seq<Tx>, ghost picks: seq<Pick>)
      returns (stop: bool, included: bool, n: nat, mi': nat, modified': map<Tx, Totals>, failed': set<Tx>,
          ghost skipped': set<Tx>, ghost refused': set<Tx>, nFailed: int, ghost picks': seq<Pick>, ghost ending: Ending)
      requires Running(order, mi, modified, failed, skipped, refused, nConsecutiveFailed) && Grown(start, picks)
      requires Ranking(better) && Ranked(pool, better, order) && (mi < |order| || modified != map[])
      modifies this
      ensures Running(order, mi', modified', failed', skipped', refused', nFailed)
      ensures Grown(start, picks') && |picks'| == |picks| + if included then 1 else 0
      ensures stop ==> Justified(pool, Template(), better, minFee, ending)
      ensures stop || old(inBlock) < inBlock ||
        (inBlock == old(inBlock) && |order| - mi' + |modified'| < |order| - mi + |modified|)
    {
      stop, included, n, ending := false, false, 0, Exhausted;
      mi', modified', failed', nFailed := mi, modified, failed, nConsecutiveFailed;
      skipped', refused', picks' := skipped, refused, picks;
      if mi < |order| && (order[mi] in modified || order[mi] in inBlock || order[mi] in failed) {
        Skips(order, mi, modified, failed, skipped, refused, nConsecutiveFailed);
        mi' := mi + 1;
        return;
      }
      var iter, fUsingModified, totals;
      ghost var offers;
      iter, fUsingModified, totals, offers := ChooseNext(order, mi, modified, failed, skipped);
      if totals.fees < minFee(totals.size) {
        stop, ending := true, TooCheap(iter, offers);
        return;
      }
      RankedIn(pool, better, order);
      var outcome;
      outcome, modified', failed', skipped', refused', nFailed, n, picks' := Turn(order, mi, iter, fUsingModified,
        totals, modified, failed, skipped, refused, nConsecutiveFailed, start, picks, offers);
      included := outcome.Included?;
      if !fUsingModified { mi' := mi + 1; }
      if outcome.TooBig? && nFailed > MAX_CONSECUTIVE_FAILURES && nBlockWeight + 4000 > nBlockMaxWeight {
        stop, ending := true, NearlyFull(refused');
      }
    }

    /** `order` is mapTx by ancestor score. The picks say how the block grew; the
        ending says which of the three exits was taken and why. */
    method AddPackageTxs(order: seq<Tx>)
      returns (nPackagesSelected: nat, nDescendantsUpdated: nat, ghost picks: seq<Pick>, ghost ending: Ending)
      requires Valid() && Ranking(better) && Ranked(pool, better, order)
      modifies this
      ensures Valid() && old(vtx) <= vtx && nPackagesSelected == |picks|
      ensures PickedBy(pool, better, minFee, nBlockMaxWeight, eligible, old(vtx), picks, vtx)
      ensures forall i :: |old(vtx)| <= i < |vtx| ==> eligible(vtx[i])
      ensures Justified(pool, Template(), better, minFee, ending)
    {
      picks := [];
      nPackagesSelected := 0;
      var failed: set<Tx> := {};
      var modified: map<Tx, Totals>;
      ghost var skipped: set<Tx>, refused: set<Tx> := {}, {};
      modified, nDescendantsUpdated := StartSelection();
      var mi: nat := 0;
      var nConsecutiveFailed := 0;
      while mi < |order| || modified != map[]
        invariant Running(order, mi, modified, failed, skipped, refused, nConsecutiveFailed)
        invariant nPackagesSelected == |picks| && Grown(old(vtx), picks)
        decreases pool.entries.Keys - inBlock, |order| - mi + |modified|
      {
        var stop, included, n;
        stop, included, n, mi, modified, failed, skipped, refused, nConsecutiveFailed, picks, ending := Advance(order,
          mi, modified, failed, skipped, refused, nConsecutiveFailed, old(vtx), picks);
        if included {
          nPackagesSelected := nPackagesSelected + 1;
          nDescendantsUpdated := nDescendantsUpdated + n;
        }
        if stop { return; }
      }
      ending := Exhausted;
      NothingLeftOut(pool, order, Template(), skipped);
    }

    /** The package to consider, its totals, and all that are on offer. */
    method ChooseNext(order: seq<Tx>, mi: nat, modified: map<Tx, Totals>, ghost failed: set<Tx>, ghost skipped: set<Tx>)
      returns (iter: Tx, fUsingModified: bool, totals: Totals, ghost offers: map<Tx, Totals>)
      requires Valid() && Ranking(better) && Ranked(pool, better, order) && mi <= |order|
      requires Selecting(pool, Template(), modified, failed, skipped)
      requires Accounted(order, mi, Known(inBlock, modified, skipped))
      requires if mi < |order| then order[mi] !in inBlock && order[mi] !in modified && order[mi] !in failed
               else modified != map[]
      ensures iter in pool.entries && iter !in inBlock && totals == Start(pool, modified, iter)
      ensures fUsingModified <==> iter in modified
      ensures !fUsingModified ==> mi < |order| && iter == order[mi] && iter !in failed
      ensures OffersOk(pool, Template(), offers) && BestOffer(better, offers, iter) && offers[iter] == totals
    {
      RankedIn(pool, better, order);
      iter, fUsingModified := Choose(order, mi, modified);
      totals := if fUsingModified then modified[iter] else Cached(pool, iter);
      offers := Offers(pool, inBlock, modified, failed, Elements(order[mi..]));
      RightChoice(pool, Template(), better, order, mi, modified, failed, skipped, iter, fUsingModified, offers);
    }

    /** The next entry of mapTx, or the best modified one. */
    method Choose(order: seq<Tx>, mi: nat, modified: map<Tx, Totals>) returns (iter: Tx, fUsingModified: bool)
      requires pool.Valid() && ModifiedOk(pool, inBlock, modified) && Ranking(better)
      requires mi <= |order| && forall i :: 0 <= i < |order| ==> order[i] in pool.entries
      requires if mi < |order| then order[mi] !in inBlock && order[mi] !in modified else modified != map[]
      ensures iter in pool.entries && iter !in inBlock && (fUsingModified <==> iter in modified)
      ensures Chosen(pool, better, order, mi, modified, iter, fUsingModified)
    {
      forall t | t in modified ensures Solid(Candidate(t, modified[t])) { SolidOffers(pool, inBlock, modified, t); }
      if modified == map[] {
        return order[mi], false;
      }
      ghost var _ := BestExists(better, modified);
      var best :| best in modified && NoneBetter(better, modified, Candidate(best, modified[best]));
      if mi == |order| || better(Offer(pool, modified, best), Offer(pool, map[], order[mi])) {
        return best, true;
      }
      SolidOffers(pool, inBlock, modified, order[mi]);
      StillNone(better, modified, Offer(pool, modified, best), Offer(pool, modified, order[mi]));
      return order[mi], false;
    }
  }

  lemma EraseAbsent(modified: map<Tx, Totals>, t: Tx)
    requires t !in modified
    ensures modified - {t} == modified
  {
  }

  lemma ErasedMore(modified: map<Tx, Totals>, gone: set<Tx>, t: Tx)
    ensures modified - gone - {t} == modified - (gone + {t})
  {
  }

  lemma NotYetIn(p: Pool, vtx: seq<Tx>, sorted: seq<Tx>, k: nat)
    requires Sorted(p, sorted) && Elements(sorted) !! Elements(vtx) && k < |sorted|
    ensures sorted[k] in p.entries && sorted[k] !in Elements(vtx + sorted[..k])
    ensures Elements(sorted[..k + 1]) == Elements(sorted[..k]) + {sorted[k]} &&
      sorted[..k + 1] == sorted[..k] + [sorted[k]]
  {
    SortedPrefix(p, sorted, k);
    ElementsJoin(vtx, sorted[..k]);
  }

  lemma ClosedBlock(p: Pool, vtx: seq<Tx>)
    requires Ordered(p, vtx)
    ensures Closed(p, Elements(vtx))
  {
    forall t | t in Elements(vtx) ensures t in p.ancestors && p.ancestors[t] <= Elements(vtx) {
      OrderedClosed(p, vtx, t);
    }
  }

  /** Erasing the included entries from the modified set. */
  /** What the selection keeps about its records when a package is added. */
  lemma AddedOk(p: Pool, inBlock: set<Tx>, package: set<Tx>, modified: map<Tx, Totals>, after: map<Tx, Totals>,
        failed: set<Tx>)
    requires p.Valid() && Closed(p, inBlock) && inBlock !! package
    requires ModifiedOk(p, inBlock, modified) && FreshOk(p, inBlock, modified, failed)
    requires RecordsOk(p, inBlock, modified, failed) && Progress(p, modified - package, after, package, package)
    ensures ModifiedOk(p, inBlock + package, after) && FreshOk(p, inBlock + package, after, failed)
    ensures RecordsOk(p, inBlock + package, after, failed)
  {
    var kept := modified - package;
    KeptOk(p, inBlock, package, modified, kept, failed);
    CorrectedOk(p, inBlock, package, kept, after, failed);
    RecordsErase(p, inBlock, modified, failed, package, {});
    assert failed + {} == failed;
    RecordsKept(p, inBlock, package, kept, after, failed);
  }

  lemma KeptOk(p: Pool, inBlock: set<Tx>, package: set<Tx>, modified: map<Tx, Totals>, kept: map<Tx, Totals>,
        failed: set<Tx>)
    requires ModifiedOk(p, inBlock, modified) && FreshOk(p, inBlock, modified, failed) && kept == modified - package
    ensures ModifiedOk(p, inBlock, kept) && FreshExcept(p, inBlock, package, kept, failed) && kept.Keys !! package
  {
  }
}
