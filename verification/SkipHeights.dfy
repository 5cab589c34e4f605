/**
  The heights that skip links lead to (src/chain.cpp, lines 70-109), and how many
  links the walk to an ancestor follows.

  The walk from height w to height t is measured by the bits in which they
  differ: `Scale` is the place of the highest such bit, counted from one, and
  `LowOnes` counts the bits of w below it.
*/
module SkipHeights {
  import opened Arithmetic

  // ----- Skip heights -----

  /** n & (n - 1), computed bit by bit; see InvertsLowestOne. */
  function InvertLowestOne(n: nat): (r: nat)
    ensures n > 0 ==> r < n
  {
    if n == 0 then 0 else if n % 2 == 1 then n - 1 else 2 * InvertLowestOne(n / 2)
  }

  /** The value of the lowest 1 in binary. */
  function LowestOne(n: nat): nat
    requires n > 0
  {
    if n % 2 == 1 then 1 else 2 * LowestOne(n / 2)
  }

  lemma {:induction false} AndSelf(n: nat)
    ensures And(n, n) == n
  {
    if n > 0 { AndSelf(n / 2); }
  }

  /** The lowest 1 becomes a 0. In two's complement 0 & -1 is 0, too. */
  lemma {:induction false} InvertsLowestOne(n: nat)
    requires n > 0
    ensures InvertLowestOne(n) == And(n, n - 1) == n - LowestOne(n)
  {
    if n % 2 == 1 {
      AndSelf(n / 2);
      assert (n - 1) / 2 == n / 2;
    } else {
      InvertsLowestOne(n / 2);
      assert (n - 1) / 2 == n / 2 - 1;
    }
  }

  function GetSkipHeight(height: nat): (r: nat)
    ensures height > 0 ==> r < height
  {
    if height < 2 then 0
    else if height % 2 == 1 then InvertLowestOne(InvertLowestOne(height - 1)) + 1
    else InvertLowestOne(height)
  }

  /** Where one round of GetAncestor goes, with all skip links in place. */
  function NextHeight(w: nat, t: nat): (r: nat)
    requires t < w
    ensures t <= r < w
  {
    var skip, skipPrev := GetSkipHeight(w), GetSkipHeight(w - 1);
    if skip == t || (skip > t && !(skipPrev < skip - 2 && skipPrev >= t)) then skip else w - 1
  }

  /** How many rounds it takes. */
  function Hops(w: nat, t: nat): nat
    requires t <= w
    decreases w
  {
    if w == t then 0 else 1 + Hops(NextHeight(w, t), t)
  }

  // ----- The bits in which two heights differ -----

  function Scale(w: nat, t: nat): nat
    decreases w + t
  {
    if w == t then 0 else 1 + Scale(w / 2, t / 2)
  }

  function LowOnes(w: nat, t: nat): nat
    decreases w + t
  {
    if w / 2 == t / 2 then 0 else w % 2 + LowOnes(w / 2, t / 2)
  }

  lemma {:induction false} LowOnesBound(w: nat, t: nat)
    requires w != t
    ensures LowOnes(w, t) < Scale(w, t)
    decreases w + t
  {
    if w / 2 != t / 2 { LowOnesBound(w / 2, t / 2); }
  }

  lemma {:induction false} ScaleBound(w: nat, t: nat, k: nat)
    requires w < Pow2(k) && t < Pow2(k)
    ensures Scale(w, t) <= k
    decreases k
  {
    if k > 0 { ScaleBound(w / 2, t / 2, k - 1); }
  }

  lemma ClearEven(n: nat)
    requires n > 0 && n % 2 == 0
    ensures InvertLowestOne(n) == 2 * InvertLowestOne(n / 2) && InvertLowestOne(n) % 2 == 0
  {
  }

  lemma ClearOdd(n: nat)
    requires n % 2 == 1
    ensures InvertLowestOne(n) == n - 1
  {
  }

  /** Clearing a bit below the highest difference stays above t. */
  lemma {:induction false} ClearLow(w: nat, t: nat)
    requires t < w && LowOnes(w, t) > 0
    ensures t < InvertLowestOne(w)
    ensures Scale(InvertLowestOne(w), t) == Scale(w, t) && LowOnes(InvertLowestOne(w), t) == LowOnes(w, t) - 1
    decreases w
  {
    if w % 2 == 1 {
      ClearOdd(w);
      assert (w - 1) / 2 == w / 2;
    } else {
      ClearLow(w / 2, t / 2);
      ClearEven(w);
    }
  }

  /** Clearing the highest difference does not; the predecessor is closer. */
  lemma {:induction false} ClearHigh(w: nat, t: nat)
    requires t < w && LowOnes(w, t) == 0
    ensures InvertLowestOne(w) <= t && Scale(w - 1, t) < Scale(w, t)
    decreases w
  {
    if w / 2 == t / 2 {
      ClearOdd(w);
    } else {
      ClearHigh(w / 2, t / 2);
      ClearEven(w);
      assert (w - 1) / 2 == w / 2 - 1;
    }
  }

  // ----- Every round comes closer -----

  /** How much is left to do before the highest difference goes. */
  function Effort(w: nat, t: nat): nat
    requires t < w
  {
    if w % 2 == 0 then 2 * LowOnes(w, t) + 1
    else if GetSkipHeight(w) >= t then 2 * LowOnes(w - 1, t)
    else 2 * LowOnes(w - 1, t) + 2
  }

  ghost predicate Closer(r: nat, w: nat, t: nat)
    requires t <= r < w
  {
    Scale(r, t) < Scale(w, t) || (Scale(r, t) == Scale(w, t) && r != t && Effort(r, t) < Effort(w, t))
  }

  /** Going back by one changes nothing for the bits above the last. */
  lemma OddScale(x: nat, t: nat)
    requires x % 2 == 0 && t < x
    ensures Scale(x + 1, t) == Scale(x, t) && Scale(x, t) >= 2
  {
    assert (x + 1) / 2 == x / 2;
  }

  lemma ClearDouble(n: nat)
    requires n > 0
    ensures InvertLowestOne(2 * n) == 2 * InvertLowestOne(n)
  {
    ClearEven(2 * n);
  }

  lemma ClearTwo(w: nat, k: nat)
    requires w == 4 * k + 2
    ensures InvertLowestOne(w) == w - 2
  {
    ClearOdd(2 * k + 1);
    ClearDouble(2 * k + 1);
  }

  lemma ClearFour(w: nat, k: nat)
    requires w == 8 * k + 4
    ensures InvertLowestOne(w) == w - 4
  {
    ClearTwo(4 * k + 2, k);
    ClearDouble(4 * k + 2);
  }

  lemma ClearEight(k: nat)
    requires k > 0
    ensures InvertLowestOne(8 * k) <= 8 * k - 8
  {
    ClearDouble(k);
    ClearDouble(2 * k);
    ClearDouble(4 * k);
  }

  lemma SkipOdd(h: nat)
    requires h % 2 == 1 && h > 1
    ensures GetSkipHeight(h) == InvertLowestOne(InvertLowestOne(h - 1)) + 1
  {
  }

  lemma ClearSix(k: nat)
    requires k > 0
    ensures InvertLowestOne(InvertLowestOne(8 * k - 2)) == 8 * k - 8
  {
    ClearTwo(8 * k - 2, 2 * k - 1);
    ClearFour(8 * k - 4, k - 1);
  }

  lemma BeforeEight(k: nat)
    requires k > 0
    ensures GetSkipHeight(8 * k - 1) == 8 * k - 7
  {
    ClearSix(k);
    SkipOdd(8 * k - 1);
  }

  lemma EvenCases(w: nat) returns (k: nat)
    requires w % 2 == 0 && w > 0
    ensures w == 4 * k + 2 || (w == 8 * k + 4 && (w - 4) % 4 == 0) || (w == 8 * k && k > 0)
  {
    k := if w % 4 == 2 then w / 4 else w / 8;
  }

  /** The bit of value two, below the differences with t. */
  lemma SetTwo(s: nat, t: nat)
    requires s % 4 == 0 && t < s
    ensures Scale(s + 2, t) == Scale(s, t) && LowOnes(s + 2, t) == LowOnes(s, t) + 1
  {
    assert (s + 2) / 2 == s / 2 + 1 && (s / 2 + 1) / 2 == s / 4;
    assert s / 2 / 2 == s / 4 && t / 2 / 2 == t / 4 && s / 4 > t / 4;
  }

  lemma NotBetter(w: nat, k: nat)
    requires w == 8 * k && k > 0
    ensures GetSkipHeight(w - 1) >= InvertLowestOne(w) - 2
  {
    ClearEight(k);
    BeforeEight(k);
  }

  /** The predecessor's link is better only if the lowest bit is small. */
  lemma SmallBit(w: nat)
    requires w % 2 == 0 && w > 0 && GetSkipHeight(w - 1) < InvertLowestOne(w) - 2
    ensures InvertLowestOne(w) == w - 2 || (InvertLowestOne(w) == w - 4 && (w - 4) % 4 == 0)
  {
    var k := EvenCases(w);
    if w == 8 * k { NotBetter(w, k); } else if w == 4 * k + 2 { ClearTwo(w, k); } else { ClearFour(w, k); }
  }

  lemma BetterPrev(w: nat, t: nat)
    requires w % 2 == 0 && t < w && LowOnes(w, t) > 0
    requires GetSkipHeight(w - 1) < InvertLowestOne(w) - 2
    ensures t < w - 2 && LowOnes(w - 2, t) <= LowOnes(w, t) && Scale(w - 2, t) == Scale(w, t)
  {
    ClearLow(w, t);
    SmallBit(w);
    if InvertLowestOne(w) != w - 2 { SetTwo(w - 4, t); }
  }

  /** From an even height: its own link, */
  lemma EvenTaken(w: nat, t: nat)
    requires w % 2 == 0 && t < w && LowOnes(w, t) > 0
    ensures t < InvertLowestOne(w) && Closer(InvertLowestOne(w), w, t)
  {
    ClearEven(w);
    ClearLow(w, t);
  }

  /** or the better one of the predecessor, */
  lemma EvenBack(w: nat, t: nat)
    requires w % 2 == 0 && t < w && LowOnes(w, t) > 0
    requires t <= GetSkipHeight(w - 1) < InvertLowestOne(w) - 2
    ensures t < w - 1 && Closer(w - 1, w, t)
  {
    BetterPrev(w, t);
    OddScale(w - 2, t);
  }

  /** or the step that ends the scale. */
  lemma EvenCloser(w: nat, t: nat)
    requires w % 2 == 0 && t < w
    ensures Closer(NextHeight(w, t), w, t)
  {
    if LowOnes(w, t) == 0 {
      ClearHigh(w, t);
    } else {
      EvenTaken(w, t);
      if GetSkipHeight(w - 1) < InvertLowestOne(w) - 2 && GetSkipHeight(w - 1) >= t { EvenBack(w, t); }
    }
  }

  /** Both low bits cleared in the last round of a scale. */
  lemma ClearedAll(x: nat, t: nat)
    requires x % 2 == 0 && t < x && LowOnes(x, t) < 2 && t <= InvertLowestOne(InvertLowestOne(x)) + 1
    ensures Scale(InvertLowestOne(InvertLowestOne(x)) + 1, t) <= 1
  {
    var y := InvertLowestOne(x);
    ClearEven(x);
    if y > 0 { ClearEven(y); }
    if LowOnes(x, t) == 0 {
      ClearHigh(x, t);
    } else {
      ClearLow(x, t);
      ClearHigh(y, t);
    }
  }

  /** Two low bits are cleared in a round that stays in its scale. */
  lemma ClearedTwo(x: nat, t: nat)
    requires x % 2 == 0 && t < x && LowOnes(x, t) >= 2
    ensures var y := InvertLowestOne(InvertLowestOne(x));
      y % 2 == 0 && t < y && Scale(y, t) == Scale(x, t) && LowOnes(y, t) == LowOnes(x, t) - 2
  {
    var z := InvertLowestOne(x);
    ClearLow(x, t);
    ClearLow(z, t);
    ClearEven(x);
    ClearEven(z);
  }

  /** From an odd height the walk takes its own link or none. */
  lemma OddNext(w: nat, t: nat)
    requires w % 2 == 1 && t < w - 1
    ensures var s := InvertLowestOne(InvertLowestOne(w - 1)) + 1;
      GetSkipHeight(w) == s && NextHeight(w, t) == if s >= t then s else w - 1
  {
    assert GetSkipHeight(w - 1) == InvertLowestOne(w - 1);
  }

  lemma OddCloser(w: nat, t: nat)
    requires w % 2 == 1 && t < w
    ensures Closer(NextHeight(w, t), w, t)
  {
    var x := w - 1;
    if x > t {
      var y := InvertLowestOne(InvertLowestOne(x));
      OddNext(w, t);
      OddScale(x, t);
      if y + 1 >= t {
        if LowOnes(x, t) < 2 {
          ClearedAll(x, t);
        } else {
          ClearedTwo(x, t);
          OddScale(y, t);
        }
      }
    } else {
      assert NextHeight(w, t) == t;
    }
  }

  lemma EffortBound(w: nat, t: nat)
    requires t < w
    ensures Effort(w, t) <= 2 * Scale(w, t)
  {
    LowOnesBound(w, t);
    if w % 2 == 1 && t < w - 1 {
      LowOnesBound(w - 1, t);
      OddScale(w - 1, t);
    }
  }

  function Rank(w: nat, t: nat): nat
    requires t <= w
  {
    if w == t then 0 else Scale(w, t) * Scale(w, t) + Effort(w, t)
  }

  lemma Squares(a: nat, b: nat)
    requires a < b
    ensures a * a + 2 * a < b * b
  {
    MulMono(a + 1, b, a + 1);
    MulMono(a + 1, b, b);
  }

  lemma Oblongs(a: nat, b: nat)
    requires a <= b
    ensures a * a + 2 * a <= b * (b + 2)
  {
    MulMono(a, b, a);
    MulMono(a, b, b);
  }

  lemma CloserRank(r: nat, w: nat, t: nat)
    requires t <= r < w && Closer(r, w, t)
    ensures Rank(r, t) < Rank(w, t)
  {
    if r == t {
      Squares(0, Scale(w, t));
    } else if Scale(r, t) < Scale(w, t) {
      EffortBound(r, t);
      Squares(Scale(r, t), Scale(w, t));
    }
  }

  lemma RankFalls(w: nat, t: nat)
    requires t < w
    ensures Rank(NextHeight(w, t), t) < Rank(w, t)
  {
    if w % 2 == 0 { EvenCloser(w, t); } else { OddCloser(w, t); }
    CloserRank(NextHeight(w, t), w, t);
  }

  lemma {:induction false} HopsRank(w: nat, t: nat)
    requires t <= w
    ensures Hops(w, t) <= Rank(w, t)
    decreases w
  {
    if t < w {
      RankFalls(w, t);
      HopsRank(NextHeight(w, t), t);
    }
  }

  /** Among 2^k heights the walk takes at most k (k + 2) rounds: the number of
      rounds grows with the square of the logarithm. */
  lemma HopsBound(w: nat, t: nat, k: nat)
    requires t <= w < Pow2(k)
    ensures Hops(w, t) <= k * (k + 2)
  {
    HopsRank(w, t);
    ScaleBound(w, t, k);
    if t < w {
      EffortBound(w, t);
      Oblongs(Scale(w, t), k);
    }
  }
}
