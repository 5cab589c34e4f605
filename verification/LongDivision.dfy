/**
  The shift-and-subtract division of src/arith_uint256.cpp:87-111: the invariant
  of its loop over the numbers, and the bits of the quotient it sets.
*/
module LongDivision {
  import opened Arithmetic
  import opened Limbs
  import opened LimbShifts

  // ----- Quotient and remainder over the numbers -----

  /** What is left of the dividend is below twice the shifted divisor, and the
      rest of the dividend is in the quotient. */
  ghost predicate Dividing(dividend: nat, divisor: nat, q: nat, num: nat, shift: int) {
    && shift >= -1
    && num + Times(q, divisor) == dividend
    && num < Times(divisor, Pow2(shift + 1))
  }

  lemma DivisionStarts(dividend: nat, divisor: nat, numBits: nat, divBits: nat)
    requires BitLength(dividend, numBits) && BitLength(divisor, divBits) && 0 < divBits <= numBits
    ensures Dividing(dividend, divisor, 0, dividend, numBits - divBits)
    ensures 0 <= Times(divisor, Pow2(numBits - divBits)) < Pow2(numBits)
  {
    var shift := numBits - divBits;
    TimesIs(0, divisor);
    Pow2Add(divBits - 1, shift + 1);
    TimesMono(Pow2(divBits - 1), divisor, Pow2(shift + 1));
    Pow2Add(divBits, shift);
    TimesMono(divisor, Pow2(divBits) - 1, Pow2(shift));
    TimesAdds(Pow2(divBits) - 1, 1, Pow2(shift));
    TimesIs(1, Pow2(shift));
    TimesNonNegative(divisor, Pow2(shift));
  }

  lemma DivisionSkips(dividend: nat, divisor: nat, q: nat, num: nat, shift: nat)
    requires Dividing(dividend, divisor, q, num, shift) && num < Times(divisor, Pow2(shift))
    ensures Dividing(dividend, divisor, q, num, shift - 1)
  {
  }

  lemma DivisionTakes(dividend: nat, divisor: nat, q: nat, num: nat, shift: nat)
    requires Dividing(dividend, divisor, q, num, shift) && num >= Times(divisor, Pow2(shift))
    ensures Dividing(dividend, divisor, q + Pow2(shift), num - Times(divisor, Pow2(shift)), shift - 1)
  {
    TimesAdds(q, Pow2(shift), divisor);
    TimesCommutes(Pow2(shift), divisor);
    TimesScales(divisor, 2, Pow2(shift));
  }

  lemma DivisionEnds(dividend: nat, divisor: nat, q: nat, num: nat)
    requires divisor > 0 && Dividing(dividend, divisor, q, num, -1)
    ensures q == Quot(dividend, divisor) && num == Mod(dividend, divisor)
  {
    TimesIs(divisor, 1);
    QuotMultiple(q, num, divisor);
  }

  lemma ShiftBack(divisor: nat, shift: nat)
    requires shift > 0
    ensures Times(divisor, Pow2(shift)) >= 0
    ensures Quot(Times(divisor, Pow2(shift)), 2) == Times(divisor, Pow2(shift - 1))
  {
    TimesScales(divisor, 2, Pow2(shift - 1));
    TimesNonNegative(divisor, Pow2(shift - 1));
    QuotMultiple(Times(divisor, Pow2(shift - 1)), 0, 2);
    TimesIs(Times(divisor, Pow2(shift - 1)), 2);
  }

  // ----- The bits of the quotient -----

  /** The lowest t bits of a limb are clear. */
  ghost predicate LimbClear(x: uint32, t: int) {
    && (t >= 32 ==> x == 0)
    && (0 < t < 32 ==> exists y: nat :: x == Times(y, Pow2(t)))
  }

  /** The lowest t bits of a number are clear. */
  ghost predicate ClearBelow(a: seq<uint32>, t: int) {
    forall j :: 0 <= j < |a| ==> LimbClear(a[j], t - 32 * j)
  }

  lemma ZerosClear(n: nat, t: int)
    ensures ClearBelow(Zeros(n), t)
  {
    forall j | 0 <= j < n ensures LimbClear(0, t - 32 * j) {
      if 0 < t - 32 * j < 32 {
        TimesIs(0, Pow2(t - 32 * j));
        assert 0 == Times(0, Pow2(t - 32 * j));
      }
    }
  }

  lemma LimbWeaken(x: uint32, t: int)
    requires LimbClear(x, t + 1)
    ensures LimbClear(x, t)
  {
    if 0 < t < 31 {
      var y: nat :| x == Times(y, Pow2(t + 1));
      TimesDouble(y, t);
      assert x == Times(2 * y, Pow2(t));
    } else if t == 31 {
      TimesIs(0, Pow2(31));
      assert x == Times(0, Pow2(31));
    }
  }

  lemma TimesDouble(y: nat, t: nat)
    ensures Times(y, Pow2(t + 1)) == Times(2 * y, Pow2(t))
  {
    TimesScales(y, 2, Pow2(t));
    TimesCommutes(2 * y, Pow2(t));
    TimesScales(Pow2(t), 2, y);
    TimesCommutes(y, Pow2(t));
  }

  lemma ClearWeaken(a: seq<uint32>, t: int)
    requires ClearBelow(a, t + 1)
    ensures ClearBelow(a, t)
  {
    forall j | 0 <= j < |a| ensures LimbClear(a[j], t - 32 * j) {
      LimbWeaken(a[j], t - 32 * j);
    }
  }

  /** Setting a bit above which alone there may be ones is an addition. */
  lemma LimbSet(x: uint32, b: nat)
    requires b < 32 && LimbClear(x, b + 1)
    ensures Or(x, Pow2(b)) == x + Pow2(b) < B && LimbClear(x + Pow2(b), b)
  {
    WordIsPow2();
    if b < 31 {
      var y: nat :| x == Times(y, Pow2(b + 1));
      OrDisjointAbove(y, b);
      TimesDouble(y, b);
      TimesAdds(2 * y, 1, Pow2(b));
      TimesIs(1, Pow2(b));
      assert x + Pow2(b) == Times(2 * y + 1, Pow2(b));
      BelowWord(x, y, b);
    } else {
      TimesIs(1, Pow2(31));
      assert x + Pow2(31) == Times(1, Pow2(31));
    }
  }

  lemma OrDisjointAbove(y: nat, b: nat)
    ensures Times(y, Pow2(b + 1)) >= 0
    ensures Or(Times(y, Pow2(b + 1)), Pow2(b)) == Times(y, Pow2(b + 1)) + Pow2(b)
  {
    OrDisjoint(Pow2(b), y, b + 1);
    OrCommutes(Pow2(b), Times(y, Pow2(b + 1)));
  }

  /** A multiple of 2^(b+1) below 2^32 leaves room for 2^b. */
  lemma BelowWord(x: uint32, y: nat, b: nat)
    requires b < 31 && x == Times(y, Pow2(b + 1))
    ensures x + Pow2(b) < B
  {
    HalfWeights(b + 1);
    TimesCommutes(Pow2(b + 1), Pow2(31 - b));
    if y >= Pow2(31 - b) {
      TimesMono(Pow2(31 - b), y, Pow2(b + 1));
      assert false;
    }
    TimesMono(y, Pow2(31 - b) - 1, Pow2(b + 1));
    TimesAdds(Pow2(31 - b) - 1, 1, Pow2(b + 1));
    TimesIs(1, Pow2(b + 1));
  }

  lemma {:induction false} ValUpdate(a: seq<uint32>, j: nat, d: nat)
    requires j < |a| && a[j] + d < B
    ensures Val(a[j := a[j] + d]) == Val(a) + Times(d, PowB(j))
  {
    if j == 0 {
      assert a[0 := a[0] + d][1..] == a[1..];
      TimesIs(d, 1);
    } else {
      ValUpdate(a[1..], j - 1, d);
      assert a[j := a[j] + d][1..] == a[1..][j - 1 := a[1..][j - 1] + d];
      TimesScales(d, B, PowB(j - 1));
    }
  }

  /** Setting bit t adds 2^t to a number whose bits up to t are clear. */
  lemma BitSet(a: seq<uint32>, k: nat, b: nat)
    requires k < |a| && b < 32 && ClearBelow(a, 32 * k + b + 1)
    ensures Or(a[k], Pow2(b)) < B
    ensures var a' := a[k := Or(a[k], Pow2(b))];
      Val(a') == Val(a) + Pow2(32 * k + b) && ClearBelow(a', 32 * k + b)
  {
    var t := 32 * k + b;
    assert LimbClear(a[k], t + 1 - 32 * k);
    LimbSet(a[k], b);
    ValUpdate(a, k, Pow2(b));
    ShiftWeight(k, b);
    var a' := a[k := Or(a[k], Pow2(b))];
    forall j | 0 <= j < |a'| ensures LimbClear(a'[j], t - 32 * j) {
      if j != k { LimbWeaken(a[j], t - 32 * j); }
    }
  }
}
