/**
  The next difficulty target (src/pow.cpp): Dark Gravity Wave over the last 180
  blocks, and the older rule that retargets once per interval.

  A branch of the chain is the sequence of its headers, the genesis block first.
  Products and sums are those of 256-bit numbers, with their wrap-around; the
  lemmas say when nothing wraps.
*/
module ProofOfWork {
  import opened Arithmetic
  import opened Limbs
  import opened LimbShifts
  import opened BaseUint
  import opened Compact

  datatype Header = Header(nBits: uint32, nTime: int)

  /** The consensus parameters, and the length of the Dark Gravity Wave window,
      which is 180 in the source. */
  datatype Params = Params(
    powLimit: nat, kawpowLimit: nat, spacing: nat, timespan: nat,
    allowMinDifficulty: bool, noRetargeting: bool, kawpowTime: int, dgwHeight: nat, pastBlocks: nat)
  {
    ghost predicate Valid() {
      && 0 < spacing <= timespan
      && 0 < pastBlocks < B - 1 && 0 < pastBlocks * spacing && 3 * (pastBlocks * spacing) < B && 4 * timespan < B
    }

    function Interval(): nat
      requires spacing > 0
    {
      timespan / spacing
    }
  }

  function Target(h: Header, m: nat): nat
    requires m > 0
  {
    Decode(h.nBits, m).value
  }

  /** The header n places from the end; 1 is the last. */
  function Recent(blocks: seq<Header>, n: nat): Header
    requires 1 <= n <= |blocks|
  {
    blocks[|blocks| - n]
  }

  // ----- The running average -----

  /** Sums and products modulo m, which is 2^256. */
  function AverageStep(avg: nat, n: nat, target: nat, m: nat): (r: nat)
    requires m > 0
  {
    Quot(Mod(Mod(Times(avg, n), m) + target, m), n + 1)
  }

  /** The average over the last n blocks: "not an average really". */
  function Average(blocks: seq<Header>, n: nat, m: nat): (r: nat)
    requires 1 <= n <= |blocks| && m > 0
  {
    if n == 1 then Target(Recent(blocks, 1), m) else
      AverageStep(Average(blocks, n - 1, m), n, Target(Recent(blocks, n), m), m)
  }

  /** Without wrap-around a step stays between its two arguments. */
  lemma StepBetween(avg: nat, n: nat, target: nat, lo: nat, hi: nat, m: nat)
    requires lo <= avg <= hi && lo <= target <= hi && Times(n + 1, hi) < m
    ensures 0 <= Times(n, avg) < m && Times(n, avg) + target < m
    ensures lo <= Quot(Times(n, avg) + target, n + 1) <= hi
  {
    TimesNonNegative(n, avg);
    TimesCommutes(n, avg);
    TimesCommutes(n, lo);
    TimesCommutes(n, hi);
    TimesMono(lo, avg, n);
    TimesMono(avg, hi, n);
    TimesAdds(n, 1, lo);
    TimesAdds(n, 1, hi);
    TimesIs(1, lo);
    TimesIs(1, hi);
    TimesCommutes(n + 1, lo);
    TimesCommutes(n + 1, hi);
    QuotBetween(Times(n, avg) + target, n + 1, lo, hi);
  }

  lemma QuotBetween(x: nat, p: nat, lo: nat, hi: nat)
    requires p > 0 && Times(lo, p) <= x <= Times(hi, p)
    ensures lo <= Quot(x, p) <= hi
  {
    QuotLower(x, p, lo);
    QuotUpper(x, p, hi);
  }

  lemma StepWithin(avg: nat, n: nat, target: nat, lo: nat, hi: nat, m: nat)
    requires lo <= avg <= hi && lo <= target <= hi && Times(n + 1, hi) < m && m > 0
    ensures lo <= AverageStep(avg, n, target, m) <= hi
    ensures AverageStep(avg, n, target, m) == ExactStep(avg, n, target)
  {
    StepBetween(avg, n, target, lo, hi, m);
    TimesCommutes(n, avg);
    ModSmall(Times(n, avg), m);
    ModSmall(Times(n, avg) + target, m);
  }

  /** A step without wrap-around. */
  function ExactStep(avg: nat, n: nat, target: nat): nat {
    TimesNonNegative(n, avg);
    Quot(Times(n, avg) + target, n + 1)
  }

  /** The average over the last n blocks in unbounded numbers. */
  function ExactAverage(blocks: seq<Header>, n: nat, m: nat): nat
    requires 1 <= n <= |blocks| && m > 0
  {
    if n == 1 then Target(Recent(blocks, 1), m)
    else ExactStep(ExactAverage(blocks, n - 1, m), n, Target(Recent(blocks, n), m))
  }

  /** For targets far enough below 2^256 no step of the average wraps, and it
      stays between the smallest and the largest target of the window. */
  lemma {:induction false} AverageBetween(blocks: seq<Header>, n: nat, lo: nat, hi: nat, m: nat)
    requires 1 <= n <= |blocks| && Times(n + 1, hi) < m && m > 0
    requires forall i :: 1 <= i <= n ==> lo <= Target(Recent(blocks, i), m) <= hi
    ensures lo <= Average(blocks, n, m) <= hi
    ensures Average(blocks, n, m) == ExactAverage(blocks, n, m)
  {
    if n > 1 {
      TimesMono(n, n + 1, hi);
      AverageBetween(blocks, n - 1, lo, hi, m);
      StepWithin(Average(blocks, n - 1, m), n, Target(Recent(blocks, n), m), lo, hi, m);
    }
  }

  /** The smallest and the largest of the last n targets. */
  function Smallest(blocks: seq<Header>, n: nat, m: nat): (lo: nat)
    requires 1 <= n <= |blocks| && m > 0
    ensures forall i :: 1 <= i <= n ==> lo <= Target(Recent(blocks, i), m)
  {
    var last := Target(Recent(blocks, n), m);
    if n == 1 || last < Smallest(blocks, n - 1, m) then last else Smallest(blocks, n - 1, m)
  }

  function Largest(blocks: seq<Header>, n: nat, m: nat): (hi: nat)
    requires 1 <= n <= |blocks| && m > 0
    ensures forall i :: 1 <= i <= n ==> Target(Recent(blocks, i), m) <= hi
    ensures exists i :: 1 <= i <= n && Target(Recent(blocks, i), m) == hi
  {
    var last := Target(Recent(blocks, n), m);
    if n == 1 || last > Largest(blocks, n - 1, m) then last else Largest(blocks, n - 1, m)
  }

  // ----- Retargeting -----

  /** The timespan is kept between a fraction and a multiple of the planned one. */
  function Clamp(actual: int, planned: nat, factor: nat): nat
    requires factor > 0
  {
    var low := if actual < planned / factor then planned / factor else actual;
    if low > planned * factor then planned * factor else low
  }

  /** target * actual / planned, at most the limit. */
  function Retarget(target: nat, actual: nat, planned: nat, limit: nat, m: nat): nat
    requires planned > 0 && m > 0
  {
    var next := Quot(Mod(Times(target, actual), m), planned);
    if next > limit then limit else next
  }

  /** One retarget changes the target by at most the factor, up to rounding. */
  lemma RetargetBounded(target: nat, actual: int, planned: nat, factor: nat, limit: nat, m: nat)
    requires factor > 0 && planned > 0 && planned % factor == 0
    requires Times(target, planned * factor) < m && m > 0
    ensures Retarget(target, Clamp(actual, planned, factor), planned, limit, m) <= Times(factor, target)
    ensures Retarget(target, Clamp(actual, planned, factor), planned, limit, m) <= limit
    ensures Times(target, Clamp(actual, planned, factor)) == Mod(Times(target, Clamp(actual, planned, factor)), m)
  {
    var ts := Clamp(actual, planned, factor);
    var x := Times(target, ts);
    TimesNonNegative(target, ts);
    TimesCommutes(target, ts);
    TimesCommutes(target, planned * factor);
    ClampUpper(actual, planned, factor);
    TimesMono(ts, planned * factor, target);
    ModSmall(x, m);
    TimesIs(planned, factor);
    TimesCommutes(planned, factor);
    TimesAssociates(target, factor, planned);
    TimesCommutes(target, factor);
    TimesNonNegative(factor, target);
    QuotUpper(x, planned, Times(factor, target));
  }

  /** Nor does it shrink by more than the factor. */
  lemma RetargetFloor(target: nat, actual: int, planned: nat, factor: nat, limit: nat, m: nat)
    requires factor > 0 && planned > 0 && planned % factor == 0
    requires Times(target, planned * factor) < m && m > 0
    ensures Retarget(target, Clamp(actual, planned, factor), planned, limit, m) >= Quot(target, factor)
      || Retarget(target, Clamp(actual, planned, factor), planned, limit, m) == limit
  {
    var ts := Clamp(actual, planned, factor);
    RetargetBounded(target, actual, planned, factor, limit, m);
    ClampLower(actual, planned, factor);
    TimesNonNegative(target, ts);
    ExactShare(planned, factor);
    ShareOf(target, ts, planned, factor, planned / factor);
  }

  lemma ExactShare(planned: nat, factor: nat)
    requires factor > 0 && planned % factor == 0
    ensures planned / factor >= 0 && planned == factor * (planned / factor)
  {
  }

  lemma RetargetWithin(target: nat, actual: int, planned: nat, factor: nat, limit: nat, m: nat)
    requires factor > 0 && planned > 0 && planned % factor == 0
    requires Times(planned * factor, target) < m && m > 0
    ensures var ts := Clamp(actual, planned, factor);
      var next := Retarget(target, ts, planned, limit, m);
      && 0 <= Times(target, ts) < m
      && next <= factor * target && (next >= Quot(target, factor) || next == limit)
  {
    TimesCommutes(planned * factor, target);
    RetargetBounded(target, actual, planned, factor, limit, m);
    RetargetFloor(target, actual, planned, factor, limit, m);
    TimesNonNegative(target, Clamp(actual, planned, factor));
    TimesIs(factor, target);
  }

  lemma ShareOf(target: nat, ts: nat, planned: nat, factor: nat, share: nat)
    requires factor > 0 && planned > 0 && share <= ts && planned == factor * share && Times(target, ts) >= 0
    ensures Quot(Times(target, ts), planned) >= Quot(target, factor)
  {
    var q := Quot(target, factor);
    QuotMod(target, factor);
    TimesCommutes(target, ts);
    TimesCommutes(target, share);
    TimesMono(share, ts, target);
    TimesMono(Times(q, factor), target, share);
    TimesAssociates(q, factor, share);
    TimesIs(factor, share);
    QuotLower(Times(target, ts), planned, q);
  }

  lemma ClampLower(actual: int, planned: nat, factor: nat)
    requires factor > 0
    ensures planned / factor >= 0 && Clamp(actual, planned, factor) >= planned / factor
  {
    MulMono(1, factor, planned);
    DivBound(planned, factor);
  }

  lemma QuotLower(x: nat, p: nat, lo: nat)
    requires p > 0 && Times(lo, p) <= x
    ensures lo <= Quot(x, p)
  {
    QuotMod(x, p);
    if Quot(x, p) < lo {
      TimesMono(Quot(x, p) + 1, lo, p);
      TimesAdds(Quot(x, p), 1, p);
      TimesIs(1, p);
    }
  }

  lemma ClampUpper(actual: int, planned: nat, factor: nat)
    requires factor > 0
    ensures Clamp(actual, planned, factor) <= planned * factor
    ensures planned * factor >= planned
  {
    MulMono(1, factor, planned);
    DivBound(planned, factor);
  }

  lemma ClampFits(actual: int, planned: nat, factor: nat)
    requires factor > 0 && factor * planned < B
    ensures Clamp(actual, planned, factor) < B && planned < B
  {
    ClampUpper(actual, planned, factor);
    MulMono(1, factor, planned);
  }

  lemma QuotUpper(x: nat, p: nat, hi: nat)
    requires p > 0 && x <= Times(hi, p)
    ensures Quot(x, p) <= hi
  {
    QuotMod(x, p);
    if Quot(x, p) > hi {
      TimesMono(hi + 1, Quot(x, p), p);
      TimesAdds(hi, 1, p);
      TimesIs(1, p);
    }
  }

  // ----- The rules -----

  /** The number of the last n blocks mined with the newer proof of work. */
  function KawpowBlocks(p: Params, blocks: seq<Header>, n: nat): nat
    requires n <= |blocks|
  {
    if n == 0 then 0 else KawpowBlocks(p, blocks, n - 1) + if Recent(blocks, n).nTime >= p.kawpowTime then 1 else 0
  }

  /** Back to the last block that did not use the special rule. */
  function LastRegular(p: Params, blocks: seq<Header>): uint32
    requires p.Valid() && blocks != []
  {
    var h := |blocks| - 1;
    IntervalPositive(p);
    if h > 0 && h % p.Interval() != 0 && blocks[h].nBits == Encode(p.powLimit, false) then LastRegular(p, blocks[..h])
    else blocks[h].nBits
  }

  lemma IntervalPositive(p: Params)
    requires 0 < p.spacing <= p.timespan
    ensures p.Interval() > 0
  {
    QuotIs(p.timespan, p.spacing);
  }

  function DarkGravityWave(p: Params, blocks: seq<Header>, time: int, m: nat): nat
    requires m > 0 && p.Valid() && blocks != []
  {
    var last := blocks[|blocks| - 1];
    if |blocks| - 1 < p.pastBlocks then Encode(p.powLimit, false)
    else if p.allowMinDifficulty && p.noRetargeting then
      if time > last.nTime + p.spacing * 2 then Encode(p.powLimit, false) else LastRegular(p, blocks)
    else if time >= p.kawpowTime && KawpowBlocks(p, blocks, p.pastBlocks) != p.pastBlocks then
      Encode(p.kawpowLimit, false)
    else Encode(RetargetWindow(p, blocks, m), false)
  }

  /** The average of the window, scaled by the time the window took. */
  function RetargetWindow(p: Params, blocks: seq<Header>, m: nat): nat
    requires m > 0 && p.Valid() && |blocks| > p.pastBlocks
  {
    var planned := p.pastBlocks * p.spacing;
    var actual := Clamp(Recent(blocks, 1).nTime - Recent(blocks, p.pastBlocks).nTime, planned, 3);
    Retarget(Average(blocks, p.pastBlocks, m), actual, planned, p.powLimit, m)
  }

  /** Targets below 2^(256 - room) leave room for factors below 2^room. */
  lemma Room(k: nat, target: nat, width: nat, room: nat)
    requires room <= 32 * width && k < Pow2(room) && target < Pow2(32 * width - room)
    ensures 0 <= Times(k, target) < PowB(width)
  {
    var e := 32 * width - room;
    PowBIsPow2(width);
    TimesNonNegative(k, target);
    TimesCommutes(k, target);
    TimesMono(target, Pow2(e), k);
    TimesCommutes(Pow2(e), k);
    ScaledBelow(k, room, e);
  }

  /** With targets between lo and hi in the window, nothing wraps and the new
      target is at most three times hi, and at least a third of lo unless the
      limit is lower. */
  lemma WindowBetween(p: Params, blocks: seq<Header>, lo: nat, hi: nat, m: nat)
    requires m > 0 && p.Valid() && |blocks| > p.pastBlocks && (p.pastBlocks * p.spacing) % 3 == 0
    requires forall i :: 1 <= i <= p.pastBlocks ==> lo <= Target(Recent(blocks, i), m) <= hi
    requires Times(p.pastBlocks + 1, hi) < m && Times(p.pastBlocks * p.spacing * 3, hi) < m
    ensures lo <= Average(blocks, p.pastBlocks, m) == ExactAverage(blocks, p.pastBlocks, m) <= hi
    ensures RetargetWindow(p, blocks, m) == ExactWindow(p, blocks, m)
    ensures RetargetWindow(p, blocks, m) <= p.powLimit && RetargetWindow(p, blocks, m) <= 3 * hi
    ensures RetargetWindow(p, blocks, m) >= Quot(lo, 3) || RetargetWindow(p, blocks, m) == p.powLimit
  {
    var avg, planned := Average(blocks, p.pastBlocks, m), p.pastBlocks * p.spacing;
    AverageBetween(blocks, p.pastBlocks, lo, hi, m);
    RoomFor(avg, hi, planned * 3, m);
    var elapsed := Recent(blocks, 1).nTime - Recent(blocks, p.pastBlocks).nTime;
    RetargetBounded(avg, elapsed, planned, 3, p.powLimit, m);
    RetargetFloor(avg, elapsed, planned, 3, p.powLimit, m);
    TimesIs(3, avg);
    QuotMonotone(lo, avg, 3);
  }

  /** RetargetWindow in unbounded numbers. */
  function ExactWindow(p: Params, blocks: seq<Header>, m: nat): nat
    requires m > 0 && p.Valid() && |blocks| > p.pastBlocks
  {
    var planned := p.pastBlocks * p.spacing;
    var actual := Clamp(Recent(blocks, 1).nTime - Recent(blocks, p.pastBlocks).nTime, planned, 3);
    var avg := ExactAverage(blocks, p.pastBlocks, m);
    TimesNonNegative(avg, actual);
    var next := Quot(Times(avg, actual), planned);
    if next > p.powLimit then p.powLimit else next
  }

  lemma RoomFor(avg: nat, hi: nat, k: nat, m: nat)
    requires avg <= hi && Times(k, hi) < m
    ensures Times(avg, k) < m
  {
    TimesMono(avg, hi, k);
    TimesCommutes(hi, k);
  }

  function CalculateNextWork(p: Params, last: Header, firstTime: int, m: nat): nat
    requires m > 0 && p.Valid()
  {
    if p.noRetargeting then last.nBits
    else
      Encode(Retarget(Target(last, m), Clamp(last.nTime - firstTime, p.timespan, 4), p.timespan, p.powLimit, m), false)
  }

  function NextWorkByInterval(p: Params, blocks: seq<Header>, time: int, m: nat): nat
    requires m > 0 && p.Valid() && blocks != []
  {
    IntervalPositive(p);
    var last := blocks[|blocks| - 1];
    if |blocks| % p.Interval() != 0 then
      if p.allowMinDifficulty then
        if time > last.nTime + p.spacing * 2 then Encode(p.powLimit, false) else LastRegular(p, blocks)
      else last.nBits
    else
      IntervalFits(|blocks|, p.Interval());
      CalculateNextWork(p, last, blocks[|blocks| - p.Interval()].nTime, m)
  }

  /** The first block of a full interval exists: the assertions of the source hold. */
  lemma IntervalFits(n: nat, interval: nat)
    requires n > 0 && interval > 0 && n % interval == 0
    ensures interval <= n
  {
  }

  function GetNextWorkRequired(p: Params, blocks: seq<Header>, time: int, m: nat): nat
    requires m > 0 && p.Valid() && blocks != []
  {
    if |blocks| >= p.dgwHeight then DarkGravityWave(p, blocks, time, m) else NextWorkByInterval(p, blocks, time, m)
  }

  // ----- Every target of a chain is within the limit -----

  /** The compact target raises no flag and is at most the limit. */
  ghost predicate Sound(p: Params, nBits: nat, m: nat)
    requires m > 0
  {
    nBits < B && Decode(nBits, m) == Decoded(Decode(nBits, m).value, false, false) &&
      Decode(nBits, m).value <= p.powLimit
  }

  lemma EncodedSound(p: Params, v: nat, m: nat)
    requires v <= p.powLimit < m == PowB(8)
    ensures Sound(p, Encode(v, false), m)
  {
    RoundTrip(v, m);
    Loss(v);
  }

  lemma {:induction false} RegularSound(p: Params, blocks: seq<Header>, m: nat)
    requires m > 0 && p.Valid() && blocks != [] && forall i :: 0 <= i < |blocks| ==> Sound(p, blocks[i].nBits, m)
    ensures Sound(p, LastRegular(p, blocks), m)
  {
    IntervalPositive(p);
    var h := |blocks| - 1;
    if h > 0 && h % p.Interval() != 0 && blocks[h].nBits == Encode(p.powLimit, false) {
      RegularSound(p, blocks[..h], m);
    }
  }

  lemma DgwSound(p: Params, blocks: seq<Header>, time: int, m: nat)
    requires p.Valid() && p.kawpowLimit <= p.powLimit < m == PowB(8) && blocks != []
    requires Sound(p, LastRegular(p, blocks), m)
    ensures Sound(p, DarkGravityWave(p, blocks, time, m), m)
  {
    forall v: nat | v <= p.powLimit ensures Sound(p, Encode(v, false), m) { EncodedSound(p, v, m); }
  }

  lemma IntervalSound(p: Params, blocks: seq<Header>, time: int, m: nat)
    requires p.Valid() && p.powLimit < m == PowB(8) && blocks != []
    requires Sound(p, LastRegular(p, blocks), m) && Sound(p, blocks[|blocks| - 1].nBits, m)
    ensures Sound(p, NextWorkByInterval(p, blocks, time, m), m)
  {
    forall v: nat | v <= p.powLimit ensures Sound(p, Encode(v, false), m) { EncodedSound(p, v, m); }
  }

  /** Whatever rule applies, the next target is sound if all past ones are. */
  lemma NextSound(p: Params, blocks: seq<Header>, time: int, m: nat)
    requires p.Valid() && p.kawpowLimit <= p.powLimit < m == PowB(8)
    requires blocks != [] && forall i :: 0 <= i < |blocks| ==> Sound(p, blocks[i].nBits, m)
    ensures Sound(p, GetNextWorkRequired(p, blocks, time, m), m)
  {
    RegularSound(p, blocks, m);
    DgwSound(p, blocks, time, m);
    IntervalSound(p, blocks, time, m);
  }

  /** A chain in which every block after the first carries the required target. */
  ghost predicate Chained(p: Params, blocks: seq<Header>, m: nat)
    requires p.Valid() && m > 0
  {
    forall i :: 0 < i < |blocks| ==> Required(p, blocks, i, m)
  }

  ghost predicate Required(p: Params, blocks: seq<Header>, i: nat, m: nat)
    requires p.Valid() && 0 < i < |blocks| && m > 0
  {
    blocks[i].nBits == GetNextWorkRequired(p, blocks[..i], blocks[i].nTime, m)
  }

  lemma ChainedPrefix(p: Params, blocks: seq<Header>, h: nat, m: nat)
    requires p.Valid() && m > 0 && Chained(p, blocks, m) && h <= |blocks|
    ensures Chained(p, blocks[..h], m)
  {
    forall i | 0 < i < h ensures Required(p, blocks[..h], i, m) {
      assert Required(p, blocks, i, m);
      assert blocks[..h][..i] == blocks[..i];
    }
  }

  /** In a whole chain no target ever leaves the limit. */
  lemma {:induction false} ChainSound(p: Params, blocks: seq<Header>, m: nat)
    requires p.Valid() && p.kawpowLimit <= p.powLimit < m == PowB(8) && Chained(p, blocks, m)
    requires blocks != [] && Sound(p, blocks[0].nBits, m)
    ensures forall i :: 0 <= i < |blocks| ==> Sound(p, blocks[i].nBits, m)
  {
    if |blocks| > 1 {
      var h := |blocks| - 1;
      ChainedPrefix(p, blocks, h, m);
      ChainSound(p, blocks[..h], m);
      assert Required(p, blocks, h, m);
      NextSound(p, blocks[..h], blocks[h].nTime, m);
    }
  }

  // ----- Nothing wraps -----

  /** What the main and test networks have: targets below 2^236, and windows and
      intervals that stretch to less than 2^20 seconds. */
  ghost predicate Roomy(p: Params, room: nat) {
    && room == 20 && p.Valid() && p.kawpowLimit <= p.powLimit < Pow2(256 - room)
    && p.pastBlocks * p.spacing * 3 < Pow2(room) && p.timespan * 4 < Pow2(room)
    && (p.pastBlocks * p.spacing) % 3 == 0 && p.timespan % 4 == 0
  }

  lemma WindowRoom(p: Params, room: nat, hi: nat, m: nat)
    requires Roomy(p, room) && hi <= p.powLimit && m == PowB(8)
    ensures Times(p.pastBlocks + 1, hi) < m && Times(p.pastBlocks * p.spacing * 3, hi) < m
  {
    MulMono(1, p.spacing, p.pastBlocks);
    Room(p.pastBlocks + 1, hi, 8, room);
    Room(p.pastBlocks * p.spacing * 3, hi, 8, room);
  }

  /** On a branch with sound targets Dark Gravity Wave computes in 256 bits what
      it would in unbounded numbers. Its average lies between the smallest and
      the largest target of the window, and the new target within a factor of
      three of them or at the limit. */
  lemma WindowExact(p: Params, blocks: seq<Header>, room: nat, m: nat)
    requires Roomy(p, room) && m == PowB(8) && |blocks| > p.pastBlocks
    requires forall i :: 0 <= i < |blocks| ==> Sound(p, blocks[i].nBits, m)
    ensures var n, next := p.pastBlocks, RetargetWindow(p, blocks, m);
      && Smallest(blocks, n, m) <= Average(blocks, n, m) == ExactAverage(blocks, n, m) <= Largest(blocks, n, m)
      && next == ExactWindow(p, blocks, m) <= 3 * Largest(blocks, n, m)
      && (next >= Quot(Smallest(blocks, n, m), 3) || next == p.powLimit)
  {
    var n := p.pastBlocks;
    var lo, hi := Smallest(blocks, n, m), Largest(blocks, n, m);
    var i :| 1 <= i <= n && Target(Recent(blocks, i), m) == hi;
    assert Sound(p, blocks[|blocks| - i].nBits, m);
    WindowRoom(p, room, hi, m);
    WindowBetween(p, blocks, lo, hi, m);
  }

  /** The older rule, likewise, changes the last target at most fourfold. */
  lemma IntervalExact(p: Params, target: nat, actual: int, factor: nat, room: nat, m: nat)
    requires Roomy(p, room) && m == PowB(8) && target <= p.powLimit && factor == 4
    ensures var ts := Clamp(actual, p.timespan, factor);
      var next := Retarget(target, ts, p.timespan, p.powLimit, m);
      && 0 <= Times(target, ts) < m
      && next <= factor * target && (next >= Quot(target, factor) || next == p.powLimit)
  {
    Room(p.timespan * factor, target, 8, room);
    RetargetWithin(target, actual, p.timespan, factor, p.powLimit, m);
  }

  /** So it is along every chain that follows the rules. */
  lemma ChainExact(p: Params, blocks: seq<Header>, h: nat, room: nat, m: nat)
    requires Roomy(p, room) && p.powLimit < m == PowB(8) && Chained(p, blocks, m)
    requires blocks != [] && Sound(p, blocks[0].nBits, m) && p.pastBlocks < h <= |blocks|
    ensures RetargetWindow(p, blocks[..h], m) == ExactWindow(p, blocks[..h], m)
  {
    ChainSound(p, blocks, m);
    WindowExact(p, blocks[..h], room, m);
  }

  // ----- On 256-bit objects -----

  /** (avg * n + target) / (n + 1) in place. */
  method AverageInto(avg: Uint, n: nat, target: Uint)
    requires avg.pn.Length == target.pn.Length >= 2 && avg.pn != target.pn && 0 < n < B - 1
    modifies avg.pn
    ensures avg.Value() == AverageStep(old(avg.Value()), n, target.Value(), avg.Modulus())
  {
    avg.TimesWord(n);
    avg.PlusAssign(target);
    var divisor := new Uint(avg.pn.Length);
    divisor.SetWord(n + 1);
    var ok := avg.DivAssign(divisor);
    assert ok;
  }

  /** One block of the loop. */
  method PastBlock(avg: Uint, n: nat, blocks: seq<Header>) returns (next: Uint)
    requires avg.pn.Length >= 2 && 1 <= n <= |blocks| && n < B - 1
    requires n > 1 ==> avg.Value() == Average(blocks, n - 1, avg.Modulus())
    modifies avg.pn
    ensures next == avg || (fresh(next) && fresh(next.pn))
    ensures next.pn.Length == avg.pn.Length && next.Value() == Average(blocks, n, next.Modulus())
  {
    var target := new Uint(avg.pn.Length);
    var neg, over := SetCompact(target, Recent(blocks, n).nBits);
    if n == 1 {
      next := target;
    } else {
      AverageInto(avg, n, target);
      next := avg;
    }
  }

  /** The loop over the last blocks. */
  method PastAverage(p: Params, blocks: seq<Header>, width: nat) returns (avg: Uint, kawpowBlocks: nat)
    requires 0 < p.pastBlocks <= |blocks| && p.pastBlocks < B - 1 && width >= 2
    ensures fresh(avg) && fresh(avg.pn) && avg.pn.Length == width
    ensures avg.Value() == Average(blocks, p.pastBlocks, avg.Modulus())
    ensures kawpowBlocks == KawpowBlocks(p, blocks, p.pastBlocks)
  {
    avg := new Uint(width);
    kawpowBlocks := 0;
    for n := 1 to p.pastBlocks + 1
      invariant avg.pn.Length == width && fresh(avg) && fresh(avg.pn)
      invariant n > 1 ==> avg.Value() == Average(blocks, n - 1, avg.Modulus())
      invariant kawpowBlocks == KawpowBlocks(p, blocks, n - 1)
    {
      avg := PastBlock(avg, n, blocks);
      if Recent(blocks, n).nTime >= p.kawpowTime { kawpowBlocks := kawpowBlocks + 1; }
    }
  }

  /** target * actual / planned in place, at most the limit. */
  method RetargetInto(target: Uint, actual: nat, planned: nat, limit: Uint) returns (nBits: nat)
    requires target.pn.Length == limit.pn.Length >= 2 && target.pn != limit.pn
    requires actual < B && 0 < planned < B
    modifies target.pn
    ensures nBits == Encode(Retarget(old(target.Value()), actual, planned, limit.Value(), limit.Modulus()), false)
  {
    target.TimesWord(actual);
    var divisor := new Uint(target.pn.Length);
    divisor.SetWord(planned);
    var ok := target.DivAssign(divisor);
    assert ok;
    var c := target.CompareTo(limit);
    if c > 0 {
      nBits := GetCompact(limit, false);
    } else {
      nBits := GetCompact(target, false);
    }
  }

  method BackToRegular(p: Params, blocks: seq<Header>, limit: nat) returns (nBits: uint32)
    requires p.Valid() && blocks != [] && limit == Encode(p.powLimit, false)
    ensures nBits == LastRegular(p, blocks)
  {
    IntervalPositive(p);
    var index := |blocks| - 1;
    assert blocks[..index + 1] == blocks;
    while index > 0 && index % p.Interval() != 0 && blocks[index].nBits == limit
      invariant 0 <= index < |blocks| && LastRegular(p, blocks[..index + 1]) == LastRegular(p, blocks)
    {
      assert blocks[..index + 1][..index] == blocks[..index];
      index := index - 1;
    }
    nBits := blocks[index].nBits;
  }

  method ComputeDarkGravityWave(p: Params, powLimit: Uint, kawpowLimit: Uint, blocks: seq<Header>, time: int)
    returns (nBits: nat)
    requires p.Valid() && blocks != []
    requires powLimit.pn.Length == kawpowLimit.pn.Length >= 2
    requires powLimit.Value() == p.powLimit && kawpowLimit.Value() == p.kawpowLimit
    ensures nBits == DarkGravityWave(p, blocks, time, powLimit.Modulus())
  {
    var last := blocks[|blocks| - 1];
    var nProofOfWorkLimit := GetCompact(powLimit, false);
    if |blocks| - 1 < p.pastBlocks {
      return nProofOfWorkLimit;
    }
    if p.allowMinDifficulty && p.noRetargeting {
      if time > last.nTime + p.spacing * 2 {
        return nProofOfWorkLimit;
      }
      nBits := BackToRegular(p, blocks, nProofOfWorkLimit);
      return;
    }
    var avg, kawpowBlocks := PastAverage(p, blocks, powLimit.pn.Length);
    if time >= p.kawpowTime && kawpowBlocks != p.pastBlocks {
      nBits := GetCompact(kawpowLimit, false);
      return;
    }
    nBits := RetargetAverage(p, powLimit, avg, blocks);
  }

  method RetargetAverage(p: Params, powLimit: Uint, avg: Uint, blocks: seq<Header>) returns (nBits: nat)
    requires p.Valid() && |blocks| > p.pastBlocks
    requires avg.pn.Length == powLimit.pn.Length >= 2 && avg.pn != powLimit.pn && powLimit.Value() == p.powLimit
    requires avg.Value() == Average(blocks, p.pastBlocks, powLimit.Modulus())
    modifies avg.pn
    ensures nBits == Encode(RetargetWindow(p, blocks, powLimit.Modulus()), false)
  {
    var planned := p.pastBlocks * p.spacing;
    var elapsed := Recent(blocks, 1).nTime - Recent(blocks, p.pastBlocks).nTime;
    ClampUpper(elapsed, planned, 3);
    nBits := RetargetInto(avg, Clamp(elapsed, planned, 3), planned, powLimit);
  }

  method RetargetBits(nBits: uint32, actual: nat, planned: nat, limit: Uint) returns (r: nat)
    requires limit.pn.Length >= 2 && actual < B && 0 < planned < B
    ensures var m := limit.Modulus();
      r == Encode(Retarget(Decode(nBits, m).value, actual, planned, limit.Value(), m), false)
  {
    var next := new Uint(limit.pn.Length);
    var neg, over := SetCompact(next, nBits);
    r := RetargetInto(next, actual, planned, limit);
  }

  method ComputeNextWork(p: Params, powLimit: Uint, last: Header, firstTime: int) returns (nBits: nat)
    requires p.Valid() && powLimit.pn.Length >= 2 && powLimit.Value() == p.powLimit
    ensures nBits == CalculateNextWork(p, last, firstTime, powLimit.Modulus())
  {
    if p.noRetargeting {
      return last.nBits;
    }
    var actual := Clamp(last.nTime - firstTime, p.timespan, 4);
    ClampFits(last.nTime - firstTime, p.timespan, 4);
    nBits := RetargetBits(last.nBits, actual, p.timespan, powLimit);
  }

  method ComputeByInterval(p: Params, powLimit: Uint, blocks: seq<Header>, time: int) returns (nBits: nat)
    requires p.Valid() && blocks != [] && powLimit.pn.Length >= 2 && powLimit.Value() == p.powLimit
    ensures nBits == NextWorkByInterval(p, blocks, time, powLimit.Modulus())
  {
    IntervalPositive(p);
    var last, nHeight := blocks[|blocks| - 1], |blocks| - 1;
    if (nHeight + 1) % p.Interval() != 0 {
      if p.allowMinDifficulty {
        var nProofOfWorkLimit := GetCompact(powLimit, false);
        if time > last.nTime + p.spacing * 2 {
          return nProofOfWorkLimit;
        }
        nBits := BackToRegular(p, blocks, nProofOfWorkLimit);
        return;
      }
      return last.nBits;
    }
    IntervalFits(|blocks|, p.Interval());
    var nHeightFirst := nHeight - (p.Interval() - 1);
    nBits := ComputeNextWork(p, powLimit, last, blocks[nHeightFirst].nTime);
  }

  method ComputeNextWorkRequired(p: Params, powLimit: Uint, kawpowLimit: Uint, blocks: seq<Header>, time: int)
    returns (nBits: nat)
    requires p.Valid() && blocks != []
    requires powLimit.pn.Length == kawpowLimit.pn.Length >= 2
    requires powLimit.Value() == p.powLimit && kawpowLimit.Value() == p.kawpowLimit
    ensures nBits == GetNextWorkRequired(p, blocks, time, powLimit.Modulus())
  {
    if |blocks| >= p.dgwHeight {
      nBits := ComputeDarkGravityWave(p, powLimit, kawpowLimit, blocks, time);
    } else {
      nBits := ComputeByInterval(p, powLimit, blocks, time);
    }
  }
}
