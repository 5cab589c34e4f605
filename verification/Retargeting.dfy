/**
  How the next target follows the time that the past blocks took (src/pow.cpp),
  in plain arithmetic: what the rules of ProofOfWork promise to a miner.
*/
module Retargeting {
  import opened Arithmetic
  import opened Limbs
  import opened BaseUint
  import opened Compact
  import opened ProofOfWork

  function Least(a: nat, b: nat): nat { if a < b then a else b }

  // ----- One retarget -----

  lemma ScaledIs(target: nat, actual: nat, planned: nat, limit: nat, m: nat)
    requires planned > 0 && m > 0 && Times(target, actual) < m
    ensures target * actual >= 0
    ensures Retarget(target, actual, planned, limit, m) == Least(limit, target * actual / planned)
  {
    TimesIs(target, actual);
    TimesNonNegative(target, actual);
    ModSmall(Times(target, actual), m);
    QuotIs(target * actual, planned);
  }

  lemma RoomBelow(target: nat, actual: nat, most: nat, m: nat)
    requires actual <= most && Times(target, most) < m
    ensures Times(target, actual) < m
  {
    TimesCommutes(target, actual);
    TimesCommutes(target, most);
    TimesMono(actual, most, target);
  }

  /** Within the range the target is scaled by the time taken. */
  lemma FollowsInside(target: nat, elapsed: nat, planned: nat, factor: nat, limit: nat, m: nat)
    requires factor > 0 && planned > 0 && m > 0 && Times(target, planned * factor) < m
    requires planned / factor <= elapsed <= planned * factor
    ensures target * elapsed >= 0
    ensures Retarget(target, Clamp(elapsed, planned, factor), planned, limit, m) ==
      Least(limit, target * elapsed / planned)
  {
    RoomBelow(target, elapsed, planned * factor, m);
    ScaledIs(target, elapsed, planned, limit, m);
  }

  /** A longer time counts as the longest, and multiplies the target. */
  lemma FollowsAbove(target: nat, elapsed: int, planned: nat, factor: nat, limit: nat, m: nat)
    requires factor > 0 && planned > 0 && m > 0 && Times(target, planned * factor) < m
    requires elapsed >= planned * factor
    ensures target * factor >= 0
    ensures Retarget(target, Clamp(elapsed, planned, factor), planned, limit, m) == Least(limit, target * factor)
  {
    var most := planned * factor;
    ClampIs(elapsed, planned, factor, planned / factor, most);
    ScaledIs(target, most, planned, limit, m);
    MultipleIs(target, planned, factor, most);
  }

  lemma ClampIs(elapsed: int, planned: nat, factor: nat, least: int, most: int)
    requires factor > 0 && least == planned / factor && most == planned * factor
    ensures 0 <= least <= planned <= most
    ensures Clamp(elapsed, planned, factor) ==
      if elapsed <= least then least else if elapsed <= most then elapsed else most
  {
    ClampUpper(elapsed, planned, factor);
    DivBound(planned, factor);
  }

  lemma MultipleIs(target: nat, planned: nat, factor: nat, most: nat)
    requires planned > 0 && most == planned * factor
    ensures target * factor >= 0 && target * most / planned == target * factor
  {
    MulNonNegative(target, factor);
    assert target * most == planned * (target * factor);
    DivModUnique(target * most, planned, target * factor, 0);
  }

  /** A shorter time counts as the shortest, and divides it. */
  lemma FollowsBelow(target: nat, elapsed: int, planned: nat, factor: nat, share: nat, limit: nat, m: nat)
    requires factor > 0 && planned > 0 && m > 0 && Times(target, planned * factor) < m
    requires share == planned / factor && planned == factor * share && elapsed <= share
    ensures Retarget(target, Clamp(elapsed, planned, factor), planned, limit, m) == Least(limit, Quot(target, factor))
  {
    ClampIs(elapsed, planned, factor, share, planned * factor);
    RoomBelow(target, share, planned * factor, m);
    ScaledIs(target, share, planned, limit, m);
    ShareIs(target, share, planned, factor);
    QuotIs(target, factor);
  }

  lemma ShareIs(target: nat, share: nat, planned: nat, factor: nat)
    requires factor > 0 && planned == factor * share && planned > 0
    ensures target / factor >= 0 && target * share / planned == target / factor
  {
    var q, r := target / factor, target % factor;
    DivBound(target, factor);
    MulNonNegative(r, share);
    MulMono(r + 1, factor, share);
    assert target == factor * q + r;
    assert target * share == planned * q + r * share;
    DivModUnique(target * share, planned, q, r * share);
  }

  lemma ClampMonotone(elapsed: int, elapsed': int, planned: nat, factor: nat)
    requires factor > 0 && elapsed <= elapsed'
    ensures Clamp(elapsed, planned, factor) <= Clamp(elapsed', planned, factor) <= planned * factor
  {
    ClampUpper(elapsed, planned, factor);
    ClampUpper(elapsed', planned, factor);
  }

  /** A longer time never makes the target smaller. */
  lemma FollowsMonotone(target: nat, elapsed: int, elapsed': int, planned: nat, factor: nat, limit: nat, m: nat)
    requires factor > 0 && planned > 0 && m > 0 && Times(target, planned * factor) < m && elapsed <= elapsed'
    ensures Retarget(target, Clamp(elapsed, planned, factor), planned, limit, m) <=
      Retarget(target, Clamp(elapsed', planned, factor), planned, limit, m)
  {
    var a, a' := Clamp(elapsed, planned, factor), Clamp(elapsed', planned, factor);
    ClampMonotone(elapsed, elapsed', planned, factor);
    RoomBelow(target, a, planned * factor, m);
    RoomBelow(target, a', planned * factor, m);
    TimesNonNegative(target, a);
    TimesNonNegative(target, a');
    ModSmall(Times(target, a), m);
    ModSmall(Times(target, a'), m);
    TimesCommutes(target, a);
    TimesCommutes(target, a');
    TimesMono(a, a', target);
    QuotMonotone(Times(target, a), Times(target, a'), planned);
  }

  /** The next target after `elapsed` seconds where `planned` were meant: scaled by
      their quotient, which counts as at least 1 / factor and at most factor, and
      never above the limit. */
  ghost predicate Scales(next: nat, target: nat, elapsed: int, planned: nat, factor: nat, limit: nat)
    requires factor > 0 && planned > 0
  {
    && (elapsed <= planned / factor ==> next == Least(limit, Quot(target, factor)))
    && (planned / factor <= elapsed <= planned * factor ==>
          target * elapsed >= 0 && next == Least(limit, target * elapsed / planned))
    && (elapsed == planned ==> next == Least(limit, target))
    && (elapsed >= planned * factor ==> target * factor >= 0 && next == Least(limit, target * factor))
  }

  lemma RetargetScales(target: nat, elapsed: int, planned: nat, factor: nat, limit: nat, m: nat)
    requires factor > 0 && planned > 0 && m > 0 && Times(planned * factor, target) < m && planned % factor == 0
    ensures Scales(Retarget(target, Clamp(elapsed, planned, factor), planned, limit, m),
                   target, elapsed, planned, factor, limit)
  {
    TimesCommutes(planned * factor, target);
    var share := planned / factor;
    ExactShare(planned, factor);
    ClampIs(elapsed, planned, factor, share, planned * factor);
    if elapsed <= share { FollowsBelow(target, elapsed, planned, factor, share, limit, m); }
    if planned / factor <= elapsed <= planned * factor { FollowsInside(target, elapsed, planned, factor, limit, m); }
    if elapsed == planned { DivModUnique(target * planned, planned, target, 0); }
    if elapsed >= planned * factor { FollowsAbove(target, elapsed, planned, factor, limit, m); }
  }

  // ----- Dark Gravity Wave -----

  /** The time from the first to the last of the last n blocks. */
  function Elapsed(blocks: seq<Header>, n: nat): int
    requires 1 <= n <= |blocks|
  {
    blocks[|blocks| - 1].nTime - blocks[|blocks| - n].nTime
  }

  ghost predicate AllSound(p: Params, blocks: seq<Header>, m: nat)
    requires m > 0
  {
    forall i :: 0 <= i < |blocks| ==> Sound(p, blocks[i].nBits, m)
  }

  lemma WindowIs(p: Params, blocks: seq<Header>, planned: nat, elapsed: int, m: nat)
    requires m > 0 && p.Valid() && |blocks| > p.pastBlocks
    requires planned == p.pastBlocks * p.spacing && elapsed == Elapsed(blocks, p.pastBlocks)
    ensures planned > 0
    ensures RetargetWindow(p, blocks, m) ==
      Retarget(Average(blocks, p.pastBlocks, m), Clamp(elapsed, planned, 3), planned, p.powLimit, m)
  {
  }

  lemma AverageSound(p: Params, blocks: seq<Header>, planned: nat, room: nat, m: nat)
    requires Roomy(p, room) && m == PowB(8) && |blocks| > p.pastBlocks && AllSound(p, blocks, m)
    requires planned == p.pastBlocks * p.spacing
    ensures var avg := Average(blocks, p.pastBlocks, m);
      avg <= p.powLimit && Times(planned * 3, avg) < m && planned % 3 == 0
  {
    WindowExact(p, blocks, room, m);
    var hi := Largest(blocks, p.pastBlocks, m);
    var i :| 1 <= i <= p.pastBlocks && Target(Recent(blocks, i), m) == hi;
    assert Sound(p, blocks[|blocks| - i].nBits, m);
    WindowRoom(p, room, Average(blocks, p.pastBlocks, m), m);
  }

  /** On a branch with sound targets the average is scaled by the time from the
      first to the last block of the window. */
  lemma WindowScales(p: Params, blocks: seq<Header>, planned: nat, room: nat, m: nat)
    requires Roomy(p, room) && m == PowB(8) && |blocks| > p.pastBlocks && AllSound(p, blocks, m)
    requires planned == p.pastBlocks * p.spacing
    ensures var next, avg := RetargetWindow(p, blocks, m), Average(blocks, p.pastBlocks, m);
      && planned > 0 && Scales(next, avg, Elapsed(blocks, p.pastBlocks), planned, 3, p.powLimit)
      && (Elapsed(blocks, p.pastBlocks) == planned ==> next == avg)
  {
    var elapsed := Elapsed(blocks, p.pastBlocks);
    AverageSound(p, blocks, planned, room, m);
    WindowIs(p, blocks, planned, elapsed, m);
    RetargetScales(Average(blocks, p.pastBlocks, m), elapsed, planned, 3, p.powLimit, m);
  }

  /** Of two branches with the same targets, the one that took longer gets the
      larger target. */
  lemma WindowMonotone(p: Params, blocks: seq<Header>, blocks': seq<Header>, room: nat, m: nat)
    requires Roomy(p, room) && m == PowB(8) && |blocks| > p.pastBlocks && |blocks'| > p.pastBlocks
    requires AllSound(p, blocks, m) && SameTargets(blocks, blocks', p.pastBlocks)
    requires Elapsed(blocks, p.pastBlocks) <= Elapsed(blocks', p.pastBlocks)
    ensures RetargetWindow(p, blocks, m) <= RetargetWindow(p, blocks', m)
  {
    var n, planned := p.pastBlocks, p.pastBlocks * p.spacing;
    var avg := Average(blocks, n, m);
    AverageSound(p, blocks, planned, room, m);
    WindowIs(p, blocks, planned, Elapsed(blocks, n), m);
    WindowIs(p, blocks', planned, Elapsed(blocks', n), m);
    SameAverage(blocks, blocks', n, m);
    TimesCommutes(planned * 3, avg);
    FollowsMonotone(avg, Elapsed(blocks, n), Elapsed(blocks', n), planned, 3, p.powLimit, m);
  }

  ghost predicate SameTargets(blocks: seq<Header>, blocks': seq<Header>, n: nat)
    requires n <= |blocks| && n <= |blocks'|
  {
    forall i :: 1 <= i <= n ==> Recent(blocks, i).nBits == Recent(blocks', i).nBits
  }

  lemma {:induction false} SameAverage(blocks: seq<Header>, blocks': seq<Header>, n: nat, m: nat)
    requires 1 <= n <= |blocks| && n <= |blocks'| && m > 0 && SameTargets(blocks, blocks', n)
    ensures Average(blocks, n, m) == Average(blocks', n, m)
  {
    if n > 1 { SameAverage(blocks, blocks', n - 1, m); }
  }

  /** The sum of the last n targets in which the last one counts twice. */
  function Weighted(blocks: seq<Header>, n: nat, m: nat): nat
    requires 1 <= n <= |blocks| && m > 0
  {
    Target(Recent(blocks, n), m) + if n == 1 then Target(Recent(blocks, 1), m) else Weighted(blocks, n - 1, m)
  }

  /** "Not an average really": the last target counts twice, and rounding takes
      less than n off. */
  lemma {:induction false} AverageWeights(blocks: seq<Header>, n: nat, m: nat)
    requires 1 <= n <= |blocks| && m > 0
    ensures 0 <= Weighted(blocks, n, m) - Times(n + 1, ExactAverage(blocks, n, m)) <= Times(n, n)
  {
    if n == 1 {
      TimesIs(2, ExactAverage(blocks, n, m));
      TimesIs(1, 1);
    } else {
      AverageWeights(blocks, n - 1, m);
      WeightsStep(ExactAverage(blocks, n - 1, m), n, Target(Recent(blocks, n), m), Weighted(blocks, n - 1, m));
    }
  }

  lemma WeightsStep(avg: nat, n: nat, target: nat, weighted: nat)
    requires n > 0 && 0 <= weighted - Times(n, avg) <= Times(n - 1, n - 1)
    ensures 0 <= weighted + target - Times(n + 1, ExactStep(avg, n, target)) <= Times(n, n)
  {
    TimesNonNegative(n, avg);
    QuotMod(Times(n, avg) + target, n + 1);
    TimesCommutes(n + 1, ExactStep(avg, n, target));
    TimesAdds(n - 1, 1, n);
    TimesDistributes(n - 1, n - 1, 1);
    TimesIs(1, n);
    TimesIs(n - 1, 1);
  }

  ghost predicate AllKawpow(p: Params, blocks: seq<Header>, n: nat)
    requires n <= |blocks|
  {
    forall i :: 1 <= i <= n ==> Recent(blocks, i).nTime >= p.kawpowTime
  }

  lemma {:induction false} KawpowAll(p: Params, blocks: seq<Header>, n: nat)
    requires n <= |blocks|
    ensures KawpowBlocks(p, blocks, n) <= n && (KawpowBlocks(p, blocks, n) == n <==> AllKawpow(p, blocks, n))
  {
    if n > 0 { KawpowAll(p, blocks, n - 1); }
  }

  /** The bits stand for the target, up to the precision of the encoding. */
  ghost predicate Carries(nBits: nat, target: nat, m: nat)
    requires m > 0
  {
    nBits < B && 0 <= Rounded(target) && Decode(nBits, m) == Decoded(Rounded(target), false, false)
  }

  lemma EncodeCarries(target: nat, m: nat)
    requires target < m == PowB(8)
    ensures Encode(target, false) >= 0 && Carries(Encode(target, false), target, m)
  {
    RoundTrip(target, m);
  }

  /** The limit while the chain is short. */
  lemma DgwShort(p: Params, blocks: seq<Header>, time: int, m: nat)
    requires p.Valid() && p.powLimit < m == PowB(8) && 0 < |blocks| <= p.pastBlocks && p.dgwHeight <= |blocks|
    ensures Carries(GetNextWorkRequired(p, blocks, time, m), p.powLimit, m)
  {
    EncodeCarries(p.powLimit, m);
  }

  /** The limit of the newer proof of work until a whole window was mined with it. */
  lemma DgwYoung(p: Params, blocks: seq<Header>, time: int, m: nat)
    requires p.Valid() && p.kawpowLimit < m == PowB(8) && |blocks| > p.pastBlocks && p.dgwHeight <= |blocks|
    requires !(p.allowMinDifficulty && p.noRetargeting)
    requires time >= p.kawpowTime && !AllKawpow(p, blocks, p.pastBlocks)
    ensures Carries(GetNextWorkRequired(p, blocks, time, m), p.kawpowLimit, m)
  {
    KawpowAll(p, blocks, p.pastBlocks);
    EncodeCarries(p.kawpowLimit, m);
  }

  /** Otherwise the average of the window, scaled by the time it took. */
  lemma DgwFollows(p: Params, blocks: seq<Header>, time: int, planned: nat, room: nat, m: nat) returns (next: nat)
    requires Roomy(p, room) && p.powLimit < m == PowB(8) && |blocks| > p.pastBlocks && AllSound(p, blocks, m)
    requires !(p.allowMinDifficulty && p.noRetargeting) && planned == p.pastBlocks * p.spacing
    requires p.dgwHeight <= |blocks| && (time < p.kawpowTime || AllKawpow(p, blocks, p.pastBlocks))
    ensures Carries(GetNextWorkRequired(p, blocks, time, m), next, m)
    ensures planned > 0 && Scales(next, Average(blocks, p.pastBlocks, m), Elapsed(blocks, p.pastBlocks), planned, 3,
                                  p.powLimit)
  {
    KawpowAll(p, blocks, p.pastBlocks);
    WindowScales(p, blocks, planned, room, m);
    next := RetargetWindow(p, blocks, m);
    EncodeCarries(next, m);
  }

  // ----- The rule of intervals -----

  lemma IntervalIs(p: Params, blocks: seq<Header>, time: int, n: nat, m: nat)
    requires p.Valid() && m > 0 && blocks != [] && n == Span(p) && |blocks| % n == 0 && !p.noRetargeting
    ensures n <= |blocks|
    ensures NextWorkByInterval(p, blocks, time, m) ==
      Encode(Retarget(Target(Recent(blocks, 1), m), Clamp(Elapsed(blocks, n), p.timespan, 4), p.timespan, p.powLimit,
                      m), false)
  {
    IntervalFits(|blocks|, n);
  }

  /** Once per interval of n blocks the last target is scaled by the time from the
      first to the last block of the interval. */
  lemma IntervalFollows(p: Params, blocks: seq<Header>, time: int, n: nat, room: nat, m: nat) returns (next: nat)
    requires Roomy(p, room) && p.powLimit < m == PowB(8) && blocks != [] && AllSound(p, blocks, m)
    requires !p.noRetargeting && n == Span(p) && |blocks| % n == 0 && |blocks| < p.dgwHeight
    ensures n <= |blocks| && Carries(GetNextWorkRequired(p, blocks, time, m), next, m)
    ensures Scales(next, Target(Recent(blocks, 1), m), Elapsed(blocks, n), p.timespan, 4, p.powLimit)
  {
    IntervalIs(p, blocks, time, n, m);
    var target, elapsed := Target(Recent(blocks, 1), m), Elapsed(blocks, n);
    assert Sound(p, blocks[|blocks| - 1].nBits, m);
    LastScales(p, target, elapsed, room, m);
    next := Retarget(target, Clamp(elapsed, p.timespan, 4), p.timespan, p.powLimit, m);
    EncodeCarries(next, m);
  }

  lemma LastScales(p: Params, target: nat, elapsed: int, room: nat, m: nat)
    requires Roomy(p, room) && m == PowB(8) && target <= p.powLimit
    ensures Scales(Retarget(target, Clamp(elapsed, p.timespan, 4), p.timespan, p.powLimit, m),
                   target, elapsed, p.timespan, 4, p.powLimit)
  {
    Room(p.timespan * 4, target, 8, room);
    RetargetScales(target, elapsed, p.timespan, 4, p.powLimit, m);
  }

  /** A longer interval never makes the target smaller. */
  lemma IntervalMonotone(p: Params, target: nat, elapsed: int, elapsed': int, room: nat, m: nat)
    requires Roomy(p, room) && m == PowB(8) && target <= p.powLimit && elapsed <= elapsed'
    ensures Retarget(target, Clamp(elapsed, p.timespan, 4), p.timespan, p.powLimit, m) <=
      Retarget(target, Clamp(elapsed', p.timespan, 4), p.timespan, p.powLimit, m)
  {
    Room(p.timespan * 4, target, 8, room);
    TimesCommutes(p.timespan * 4, target);
    FollowsMonotone(target, elapsed, elapsed', p.timespan, 4, p.powLimit, m);
  }

  /** The blocks of an interval. */
  function Span(p: Params): (n: nat)
    requires p.Valid()
    ensures n > 0
  {
    IntervalPositive(p);
    p.Interval()
  }

  /** Between, it stays, but for the rule of test networks: a block that comes late
      may be mined at the limit, and others take the target of the last block
      that did not use this rule. */
  lemma IntervalStays(p: Params, blocks: seq<Header>, time: int, m: nat) returns (k: nat)
    requires p.Valid() && p.powLimit < m == PowB(8) && 0 < |blocks| < p.dgwHeight
    requires |blocks| % Span(p) != 0 || p.noRetargeting
    ensures var work := GetNextWorkRequired(p, blocks, time, m);
      if |blocks| % Span(p) == 0 || !p.allowMinDifficulty then work == Recent(blocks, 1).nBits
      else Special(p, blocks, time, work, k, m)
  {
    k := RegularIs(p, blocks);
    EncodeCarries(p.powLimit, m);
  }

  /** Dark Gravity Wave on such a network that does not retarget, likewise. */
  lemma DgwSpecial(p: Params, blocks: seq<Header>, time: int, m: nat) returns (k: nat)
    requires p.Valid() && p.powLimit < m == PowB(8) && |blocks| > p.pastBlocks
    requires p.allowMinDifficulty && p.noRetargeting && p.dgwHeight <= |blocks|
    ensures Special(p, blocks, time, GetNextWorkRequired(p, blocks, time, m), k, m)
  {
    k := RegularIs(p, blocks);
    EncodeCarries(p.powLimit, m);
  }

  ghost predicate Special(p: Params, blocks: seq<Header>, time: int, work: nat, k: nat, m: nat)
    requires p.Valid() && blocks != [] && m > 0
  {
    if time > Recent(blocks, 1).nTime + 2 * p.spacing then Carries(work, p.powLimit, m)
    else k < |blocks| && work == blocks[k].nBits && Regular(p, blocks, k)
  }

  /** Block k is the first of an interval or not at the limit, and it is the last
      such block. */
  ghost predicate Regular(p: Params, blocks: seq<Header>, k: nat)
    requires p.Valid() && k < |blocks|
  {
    && (k == 0 || k % Span(p) == 0 || blocks[k].nBits != Encode(p.powLimit, false))
    && forall i :: k < i < |blocks| ==> i % Span(p) != 0 && blocks[i].nBits == Encode(p.powLimit, false)
  }

  lemma {:induction false} RegularIs(p: Params, blocks: seq<Header>) returns (k: nat)
    requires p.Valid() && blocks != []
    ensures k < |blocks| && LastRegular(p, blocks) == blocks[k].nBits && Regular(p, blocks, k)
  {
    var h := |blocks| - 1;
    k := h;
    if h > 0 && h % Span(p) != 0 && blocks[h].nBits == Encode(p.powLimit, false) {
      k := RegularIs(p, blocks[..h]);
    }
  }
}
