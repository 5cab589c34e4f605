/**
  The block tree and the active chain (src/chain.cpp, src/chain.h): parent links,
  skip links, and the vector of the blocks below a tip.

  `Walk` is the plain ancestor function along the parent links. `Path` is the
  branch of a block, from the genesis block up to it.
*/
module Chain {
  import opened Arithmetic
  import opened SkipHeights

  const MAX_LOCATOR_SZ := 101

  // ----- The block tree -----

  class BlockIndex {
    const pprev: BlockIndex?
    const nHeight: nat
    var pskip: BlockIndex?
    ghost const line: seq<BlockIndex>

    /** `line` lists the strict ancestors, the genesis block first. */
    ghost predicate Ok()
      decreases |line|
    {
      && nHeight == |line|
      && (pprev == null ==> line == [])
      && (pprev != null ==> line == pprev.line + [pprev] && pprev.Ok())
    }

    ghost function Path(): seq<BlockIndex> { line + [this] }

    /** A skip link, once built, points to the ancestor at the skip height. */
    ghost predicate SkipOk()
      reads this
    {
      pskip != null ==> GetSkipHeight(nHeight) <= |line| && pskip == Path()[GetSkipHeight(nHeight)]
    }

    ghost predicate Built()
      reads Path()
    {
      && (nHeight == |line|)
      && forall i :: 0 <= i <= nHeight ==> Path()[i].SkipOk()
    }

    constructor (prev: BlockIndex?)
      requires prev != null ==> prev.Ok()
      ensures Ok() && pprev == prev && pskip == null
    {
      pprev, pskip := prev, null;
      nHeight := if prev == null then 0 else prev.nHeight + 1;
      line := if prev == null then [] else prev.line + [prev];
    }

    /** Every block above the genesis block has its skip link. */
    ghost predicate Linked()
      reads Path()
    {
      forall i :: 0 < i < |Path()| ==> Path()[i].pskip != null
    }

    /** Agrees with the walk along the parents for every height, and follows
        skip links on the way; `rounds` counts the iterations. */
    method GetAncestor(height: int) returns (r: BlockIndex?, ghost rounds: nat)
      requires Ok() && Built()
      ensures r == if 0 <= height <= nHeight then Walk(this, height) else null
      ensures Linked() && 0 <= height <= nHeight ==> rounds == Hops(nHeight, height)
    {
      rounds := 0;
      if height > nHeight || height < 0 {
        return null, rounds;
      }
      var pindexWalk: BlockIndex := this;
      var heightWalk := nHeight;
      while heightWalk > height
        invariant heightWalk == pindexWalk.nHeight >= height
        invariant pindexWalk.Ok() && pindexWalk.Path() <= Path()
        invariant Walk(pindexWalk, height) == Walk(this, height)
        invariant Linked() ==> rounds + Hops(heightWalk, height) == Hops(nHeight, height)
      {
        var heightSkip := GetSkipHeight(heightWalk);
        var heightSkipPrev := GetSkipHeight(heightWalk - 1);
        WalkIsPath(pindexWalk, heightSkip);
        assert Path()[heightWalk] == pindexWalk;
        ghost var next := NextHeight(heightWalk, height);
        assert Hops(heightWalk, height) == 1 + Hops(next, height);
        if pindexWalk.pskip != null &&
           (heightSkip == height ||
             (heightSkip > height && !(heightSkipPrev < heightSkip - 2 && heightSkipPrev >= height))) {
          WalkThrough(pindexWalk, heightSkip, height);
          pindexWalk := pindexWalk.pskip;
          heightWalk := heightSkip;
        } else {
          assert pindexWalk.pprev != null;
          pindexWalk := pindexWalk.pprev;
          heightWalk := heightWalk - 1;
        }
        rounds := rounds + 1;
        assert Linked() ==> heightWalk == next;
      }
      r := pindexWalk;
    }

    /** Blocks whose ancestors have correct skip links get one, too: so do all
        blocks of a tree that grows by construction and BuildSkip. */
    method BuildSkip()
      requires Ok() && if pprev != null then pprev.Built() else pskip == null
      modifies this`pskip
      ensures pskip == if pprev == null then null else Walk(this, GetSkipHeight(nHeight))
      ensures Built() && (pprev == null || pprev.Linked() ==> Linked())
    {
      if pprev != null {
        ghost var rounds;
        pskip, rounds := pprev.GetAncestor(GetSkipHeight(nHeight));
        WalkIsPath(this, GetSkipHeight(nHeight));
        forall i | 0 <= i < nHeight ensures Path()[i] == pprev.Path()[i] && Path()[i] != this {
          WalkIsPath(this, i);
        }
        assert Path()[nHeight] == this;
      }
    }
  }

  /** The ancestor at a height, one parent at a time. */
  function Walk(b: BlockIndex, height: nat): (r: BlockIndex)
    requires b.Ok() && height <= b.nHeight
    ensures r.Ok() && r.nHeight == height
    decreases b.nHeight
  {
    if height == b.nHeight then b else Walk(b.pprev, height)
  }

  lemma {:induction false} WalkIsPath(b: BlockIndex, height: nat)
    requires b.Ok() && height <= b.nHeight
    ensures Walk(b, height) == b.Path()[height]
    ensures Walk(b, height).Path() == b.Path()[..height + 1]
    decreases b.nHeight
  {
    if height < b.nHeight {
      WalkIsPath(b.pprev, height);
      assert b.Path() == b.pprev.Path() + [b];
    }
  }

  lemma {:induction false} WalkThrough(b: BlockIndex, middle: nat, height: nat)
    requires b.Ok() && height <= middle <= b.nHeight
    ensures Walk(Walk(b, middle), height) == Walk(b, height)
    decreases b.nHeight
  {
    if middle < b.nHeight { WalkThrough(b.pprev, middle, height); }
  }

  /** Two branches that meet at a height are the same up to it. */
  lemma MeetBelow(a: BlockIndex, b: BlockIndex, meet: nat, height: nat)
    requires a.Ok() && b.Ok() && height <= meet <= a.nHeight && meet <= b.nHeight
    requires Walk(a, meet) == Walk(b, meet)
    ensures Walk(a, height) == Walk(b, height)
  {
    WalkThrough(a, meet, height);
    WalkThrough(b, meet, height);
  }

  /** r is the highest block that lies on the branches of both a and b; null
      stands for a height of -1, that is, for disjoint branches. */
  ghost predicate HighestCommon(r: BlockIndex?, a: BlockIndex, b: BlockIndex)
    requires a.Ok() && b.Ok()
  {
    && (r != null ==> r.nHeight <= a.nHeight && r.nHeight <= b.nHeight
                      && r == Walk(a, r.nHeight) && r == Walk(b, r.nHeight))
    && forall h :: (if r == null then -1 else r.nHeight) < h <= a.nHeight && h <= b.nHeight ==> Walk(a, h) != Walk(b, h)
  }

  /** The final assertion of the source holds for any two blocks, also for
      blocks of trees with different roots. */
  method LastCommonAncestor(a: BlockIndex, b: BlockIndex) returns (r: BlockIndex?)
    requires a.Ok() && b.Ok() && a.Built() && b.Built()
    ensures HighestCommon(r, a, b)
  {
    ghost var rounds;
    var pa: BlockIndex?, pb: BlockIndex? := a, b;
    if a.nHeight > b.nHeight {
      pa, rounds := a.GetAncestor(b.nHeight);
    } else if b.nHeight > a.nHeight {
      pb, rounds := b.GetAncestor(a.nHeight);
    }
    while pa != pb && pa != null && pb != null
      invariant (pa == null) == (pb == null)
      invariant pa != null ==>
        && pa.nHeight == pb.nHeight <= a.nHeight && pa.nHeight <= b.nHeight
        && pa == Walk(a, pa.nHeight) && pb == Walk(b, pb.nHeight)
      invariant forall h :: (if pa == null then -1 else pa.nHeight) < h <= a.nHeight && h <= b.nHeight ==>
        Walk(a, h) != Walk(b, h)
      decreases if pa == null then 0 else pa.nHeight + 1
    {
      WalkDown(a, pa.nHeight);
      WalkDown(b, pb.nHeight);
      pa := pa.pprev;
      pb := pb.pprev;
    }
    assert pa == pb;
    r := pa;
  }

  lemma WalkDown(b: BlockIndex, height: nat)
    requires b.Ok() && height <= b.nHeight
    ensures height > 0 ==> Walk(b, height).pprev == Walk(b, height - 1)
    ensures height == 0 ==> Walk(b, height).pprev == null
  {
    if height > 0 {
      var w := Walk(b, height);
      WalkThrough(b, height, height - 1);
      assert w.line == w.pprev.line + [w.pprev] && w.pprev.Ok();
    }
  }

  // ----- The active chain -----

  class CChain {
    var vChain: seq<BlockIndex?>

    /** The vector is empty or holds the branch of its last block. */
    ghost predicate Valid()
      reads this
    {
      vChain == [] || (Tip() != null && Tip().Ok() && vChain == Tip().Path())
    }

    function Tip(): BlockIndex?
      reads this
    {
      if |vChain| > 0 then vChain[|vChain| - 1] else null
    }

    function At(height: int): BlockIndex?
      reads this
    {
      if height < 0 || height >= |vChain| then null else vChain[height]
    }

    predicate Contains(b: BlockIndex)
      reads this
    {
      At(b.nHeight) == b
    }

    function Next(b: BlockIndex): BlockIndex?
      reads this
    {
      if Contains(b) then At(b.nHeight + 1) else null
    }

    function Height(): int
      reads this
    {
      |vChain| - 1
    }

    lemma AtIsWalk(height: nat)
      requires Valid() && height < |vChain|
      ensures Tip() != null && Tip().Ok() && Tip().nHeight == |vChain| - 1
      ensures vChain[height] == Walk(Tip(), height)
    {
      WalkIsPath(Tip(), height);
    }

    /** Membership tested at one height is membership in the chain, and then
        the chain up to there is the branch of the block. */
    lemma ContainsBranch(b: BlockIndex)
      requires Valid() && b.Ok()
      ensures Contains(b) <==> b in vChain
      ensures Contains(b) ==> b.nHeight < |vChain| && vChain[..b.nHeight + 1] == b.Path()
      ensures Contains(b) ==> forall h :: 0 <= h <= b.nHeight ==> vChain[h] == Walk(b, h)
    {
      if b in vChain {
        var i :| 0 <= i < |vChain| && vChain[i] == b;
        AtIsWalk(i);
      }
      if Contains(b) {
        AtIsWalk(b.nHeight);
        WalkIsPath(Tip(), b.nHeight);
        forall h | 0 <= h <= b.nHeight ensures vChain[h] == Walk(b, h) {
          AtIsWalk(h);
          WalkThrough(Tip(), b.nHeight, h);
        }
      }
    }

    /** The next block of the chain is the child of the given one. */
    lemma NextIsChild(b: BlockIndex)
      requires Valid() && b.Ok()
      ensures Next(b) != null <==> b in vChain && b != Tip()
      ensures Next(b) != null ==> Next(b).pprev == b && Next(b) in vChain
    {
      ContainsBranch(b);
      if Contains(b) && b.nHeight + 1 < |vChain| {
        AtIsWalk(b.nHeight + 1);
        AtIsWalk(b.nHeight);
        WalkDown(Tip(), b.nHeight + 1);
      }
    }

    /** Stops early at the first block already in place, and yet every entry is
        right afterwards, whatever valid chain was there before. */
    method SetTip(tip: BlockIndex?)
      requires Valid() && (tip != null ==> tip.Ok())
      modifies this
      ensures Valid() && Tip() == tip
      ensures tip != null ==> vChain == tip.Path()
    {
      if tip == null {
        vChain := [];
        return;
      }
      ghost var was := vChain;
      vChain := Resize(vChain, tip.nHeight + 1);
      var pindex: BlockIndex? := tip;
      while pindex != null && vChain[pindex.nHeight] != pindex
        invariant |vChain| == tip.nHeight + 1
        invariant pindex != null ==> pindex.Ok() && pindex.nHeight <= tip.nHeight && pindex == Walk(tip, pindex.nHeight)
        invariant forall i :: (if pindex == null then -1 else pindex.nHeight) < i <= tip.nHeight ==>
          vChain[i] == Walk(tip, i)
        invariant forall i :: 0 <= i <= (if pindex == null then -1 else pindex.nHeight) ==>
          vChain[i] == if i < |was| then was[i] else null
        decreases if pindex == null then 0 else pindex.nHeight + 1
      {
        WalkDown(tip, pindex.nHeight);
        vChain := vChain[pindex.nHeight := pindex];
        pindex := pindex.pprev;
      }
      if pindex != null { AlreadyThere(was, tip, pindex.nHeight); }
      forall i | 0 <= i <= tip.nHeight ensures vChain[i] == tip.Path()[i] {
        WalkIsPath(tip, i);
      }
      assert vChain == tip.Path();
    }

    /** The highest block of the chain on the branch of `b`, or null. */
    method FindFork(b: BlockIndex?) returns (r: BlockIndex?)
      requires Valid() && (b != null ==> b.Ok() && b.Built())
      ensures b == null || vChain == [] ==> r == null
      ensures b != null && vChain != [] ==> HighestCommon(r, b, Tip())
      ensures r != null ==> Contains(r)
    {
      if b == null {
        return null;
      }
      r := b;
      if b.nHeight > Height() {
        ghost var rounds;
        r, rounds := b.GetAncestor(Height());
      }
      while r != null && !Contains(r)
        invariant r != null ==> r.Ok() && r.nHeight <= b.nHeight && r == Walk(b, r.nHeight) && r.nHeight < |vChain|
        invariant forall h :: (if r == null then -1 else r.nHeight) < h <= b.nHeight && h < |vChain| ==>
          vChain[h] != Walk(b, h)
        decreases if r == null then 0 else r.nHeight + 1
      {
        WalkDown(b, r.nHeight);
        r := r.pprev;
      }
      if vChain != [] {
        forall h | 0 <= h < |vChain| ensures vChain[h] == Walk(Tip(), h) { AtIsWalk(h); }
        AtIsWalk(0);
      }
    }

    /** The blocks of a locator: from `b` (the tip by default) down to the
        genesis block, with steps that double from the eleventh on. */
    method GetLocator(b: BlockIndex?) returns (vHave: seq<BlockIndex>)
      requires Valid() && (b != null ==> b.Ok() && b.Built()) && (Tip() != null ==> Tip().Built())
      ensures var start := if b == null then Tip() else b;
        if start == null then vHave == []
        else start.Ok() && vHave != [] && vHave[0] == start && vHave[|vHave| - 1].nHeight == 0 && Stepping(start, vHave)
    {
      var nStep := 1;
      vHave := [];
      var pindex: BlockIndex? := b;
      if pindex == null { pindex := Tip(); }
      ghost var start: BlockIndex? := pindex;
      while pindex != null
        invariant start == if b == null then Tip() else b
        invariant start == null ==> pindex == null && vHave == []
        invariant start != null ==> start.Ok() && start.Built() && pindex != null && Below(start, pindex)
        invariant start != null ==> Stepping(start, vHave) && nStep == StepAt(|vHave|)
        invariant start != null ==>
          if vHave == [] then pindex == start else StepsTo(vHave[|vHave| - 1], |vHave| - 1, pindex)
        decreases if pindex == null then 0 else pindex.nHeight + 1
      {
        SteppingAppend(start, vHave, pindex);
        vHave := vHave + [pindex];
        if pindex.nHeight == 0 { break; }
        var nHeight := if pindex.nHeight - nStep < 0 then 0 else pindex.nHeight - nStep;
        pindex := Back(start, pindex, nHeight);
        if |vHave| > 10 { nStep := nStep * 2; }
      }
    }

    /** The ancestor at a height, from the chain if possible. */
    method Back(ghost start: BlockIndex, b: BlockIndex, nHeight: nat) returns (r: BlockIndex?)
      requires Valid() && start.Ok() && start.Built() && Below(start, b) && nHeight <= b.nHeight
      ensures r == Walk(start, nHeight)
    {
      WalkThrough(start, b.nHeight, nHeight);
      if Contains(b) {
        ContainsBranch(b);
        r := At(nHeight);
      } else {
        PathBuilt(start, b);
        ghost var rounds;
        r, rounds := b.GetAncestor(nHeight);
      }
    }
  }

  /** The step from the i-th entry of a locator to the next. */
  function StepAt(i: nat): nat {
    if i <= 10 then 1 else Pow2(i - 10)
  }

  /** The entries are ancestors of the first, each a step below the one before,
      or at height 0. */
  ghost predicate Stepping(start: BlockIndex, entries: seq<BlockIndex>)
    requires start.Ok()
  {
    && (entries != [] ==> entries[0] == start)
    && (forall i :: 0 <= i < |entries| ==> Below(start, entries[i]))
    && (forall i :: 0 < i < |entries| ==> Follows(entries, i))
  }

  ghost predicate Below(start: BlockIndex, b: BlockIndex)
    requires start.Ok()
  {
    b.nHeight <= start.nHeight && b == Walk(start, b.nHeight)
  }

  ghost predicate Follows(entries: seq<BlockIndex>, i: nat)
    requires 0 < i < |entries|
  {
    StepsTo(entries[i - 1], i - 1, entries[i])
  }

  ghost predicate StepsTo(b: BlockIndex, i: nat, next: BlockIndex) {
    && b.nHeight > 0
    && next.nHeight == if b.nHeight < StepAt(i) then 0 else b.nHeight - StepAt(i)
  }

  lemma SteppingAppend(start: BlockIndex, entries: seq<BlockIndex>, b: BlockIndex)
    requires start.Ok() && Stepping(start, entries) && Below(start, b)
    requires if entries == [] then b == start else StepsTo(entries[|entries| - 1], |entries| - 1, b)
    ensures Stepping(start, entries + [b])
  {
    var all := entries + [b];
    forall i | 0 < i < |all| ensures Follows(all, i) {
      if i < |entries| { assert Follows(entries, i); }
    }
  }

  lemma PathBuilt(start: BlockIndex, b: BlockIndex)
    requires start.Ok() && start.Built() && b.Ok() && b.nHeight <= start.nHeight && b == Walk(start, b.nHeight)
    ensures b.Built()
  {
    WalkIsPath(start, b.nHeight);
    forall i | 0 <= i <= b.nHeight ensures b.Path()[i].SkipOk() {
      assert b.Path()[i] == start.Path()[i];
    }
  }

  /** Heights in a locator strictly descend. */
  lemma LocatorDescends(start: BlockIndex, entries: seq<BlockIndex>, i: nat)
    requires start.Ok() && Stepping(start, entries) && 0 < i < |entries|
    ensures entries[i].nHeight < entries[i - 1].nHeight
  {
    assert Follows(entries, i);
  }

  /** Above height 0 an entry lies at least its own step below the start. */
  lemma {:induction false} LocatorFalls(start: BlockIndex, entries: seq<BlockIndex>, i: nat)
    requires start.Ok() && Stepping(start, entries) && i < |entries| && entries[i].nHeight > 0
    ensures entries[i].nHeight + StepAt(i) <= start.nHeight + 1
    decreases i
  {
    if i > 0 {
      assert Follows(entries, i);
      LocatorFalls(start, entries, i - 1);
      assert Pow2(0) == 1;
      assert StepAt(i) <= 2 * StepAt(i - 1);
    }
  }

  /** A locator has at most k + 12 entries below height 2^k, hence fewer than
      peers allow for every height of a 32-bit int. */
  lemma LocatorSize(start: BlockIndex, entries: seq<BlockIndex>, k: nat)
    requires start.Ok() && Stepping(start, entries) && start.nHeight < Pow2(k)
    ensures |entries| <= k + 12
    ensures k <= 31 ==> |entries| <= MAX_LOCATOR_SZ
  {
    if |entries| > k + 12 {
      var i := k + 11;
      assert Follows(entries, i + 1);
      LocatorFalls(start, entries, i);
      Pow2Mono(k, i - 10);
      assert false;
    }
  }

  function Resize(v: seq<BlockIndex?>, n: nat): seq<BlockIndex?> {
    if n <= |v| then v[..n] else v + seq(n - |v|, i => null)
  }

  /** A branch that shares a block with the tip's branch shares all below. */
  lemma AlreadyThere(was: seq<BlockIndex?>, tip: BlockIndex, meet: nat)
    requires was == [] || (was[|was| - 1] != null && was[|was| - 1].Ok() && was == was[|was| - 1].Path())
    requires tip.Ok() && meet <= tip.nHeight && meet < |was| && was[meet] == Walk(tip, meet)
    ensures forall i :: 0 <= i <= meet ==> was[i] == Walk(tip, i)
  {
    var oldTip := was[|was| - 1];
    WalkIsPath(oldTip, meet);
    forall i | 0 <= i <= meet ensures was[i] == Walk(tip, i) {
      WalkIsPath(oldTip, i);
      MeetBelow(oldTip, tip, meet, i);
    }
  }
}
