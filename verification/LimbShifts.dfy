/**
  Shifts, bit lengths and comparison of multi-word numbers
  (src/arith_uint256.cpp:25-56, 113-122, 174-187).
*/
module LimbShifts {
  import opened Arithmetic
  import opened Limbs

  lemma {:induction false} PowBIsPow2(n: nat)
    ensures PowB(n) == Pow2(32 * n)
  {
    if n > 0 {
      PowBIsPow2(n - 1);
      Pow2Add(32, 32 * (n - 1));
      TimesCommutes(Pow2(32), Pow2(32 * (n - 1)));
      WordIsPow2();
      TimesScales(Pow2(32 * (n - 1)), B, 1);
      TimesIs(Pow2(32 * (n - 1)), 1);
    }
  }

  lemma WordIsPow2()
    ensures Pow2(32) == B
  {
    assert Pow2(8) == 256;
    Pow2Add(8, 8);
    TimesIs(256, 256);
    Pow2Add(16, 16);
    TimesIs(65536, 65536);
  }

  /** The weight of a whole shift is that of its limbs and its bits. */
  lemma ShiftWeight(k: nat, s: nat)
    ensures Pow2(32 * k + s) == Times(Pow2(s), PowB(k))
  {
    PowBIsPow2(k);
    Pow2Add(s, 32 * k);
  }

  /** Both halves of a limb that is shifted by s bits. */
  lemma HalfWeights(s: nat)
    requires s <= 32
    ensures Times(Pow2(s), Pow2(32 - s)) == B
  {
    Pow2Add(s, 32 - s);
    WordIsPow2();
  }

  lemma HalvesUnique(n: nat, low: nat, high: nat)
    requires low < B && n == low + B * high
    ensures Low(n) == low && High(n) == high
  {
    Halves(n);
  }

  /** x >> s and x << s of a 32-bit word. */
  function RightWord(x: uint32, s: nat): (r: uint32)
    ensures r <= x
  {
    DivBound(x, Pow2(s));
    x / Pow2(s)
  }

  function LeftWord(x: uint32, s: nat): uint32 {
    (x * Pow2(s)) % B
  }

  // ----- Left shift -----

  /** Shifting a limb by s bits keeps the lower 32 - s bits and moves the other
      bits, the quotient by 2^(32-s), to the next limb. */
  lemma SplitLimb(x: uint32, s: nat) returns (q: nat, r: nat)
    requires s < 32
    ensures q == x / Pow2(32 - s) && r == x % Pow2(32 - s) && q < Pow2(s)
    ensures Times(Pow2(s), x) == B * q + Times(r, Pow2(s))
    ensures 0 <= Times(r, Pow2(s)) <= B - Pow2(s)
  {
    var w, h := Pow2(s), Pow2(32 - s);
    q, r := Quot(x, h), Mod(x, h);
    QuotMod(x, h);
    QuotIs(x, h);
    HalfWeights(s);
    TimesDistributes(w, Times(q, h), r);
    TimesCommutes(q, h);
    TimesAssociates(w, h, q);
    TimesIs(B, q);
    TimesCommutes(w, r);
    TimesNonNegative(r, w);
    RemainderRoom(r, s);
    QuotientRoom(x, q, s);
  }

  lemma RemainderRoom(r: nat, s: nat)
    requires s < 32 && r < Pow2(32 - s)
    ensures Times(r, Pow2(s)) <= B - Pow2(s)
  {
    HalfWeights(s);
    TimesCommutes(Pow2(s), Pow2(32 - s));
    TimesMono(r, Pow2(32 - s) - 1, Pow2(s));
    TimesAdds(Pow2(32 - s) - 1, 1, Pow2(s));
    TimesIs(1, Pow2(s));
  }

  lemma QuotientRoom(x: uint32, q: nat, s: nat)
    requires s < 32 && Times(q, Pow2(32 - s)) <= x
    ensures q < Pow2(s)
  {
    HalfWeights(s);
    if q >= Pow2(s) {
      TimesMono(Pow2(s), q, Pow2(32 - s));
      assert false;
    }
  }

  /** One step of the shift is one step of the multiplication by 2^s: the or of
      the two parts is their sum, because the bits are disjoint. */
  lemma ShlDigit(x: uint32, s: nat, carry: nat)
    requires s < 32 && carry < Pow2(s)
    ensures var n := carry + Times(Pow2(s), x);
      n >= 0 && High(n) == RightWord(x, 32 - s) && High(n) < Pow2(s) && Low(n) == Or(carry, LeftWord(x, s))
  {
    var q, r := SplitLimb(x, s);
    HalvesUnique(carry + Times(Pow2(s), x), carry + Times(r, Pow2(s)), q);
    OrDisjoint(carry, r, s);
    TimesIs(Pow2(s), x);
    HalvesUnique(Times(Pow2(s), x), Times(r, Pow2(s)), q);
    Halves(Times(Pow2(s), x));
  }

  lemma BitsOfWord(s: nat)
    requires s < 32
    ensures Pow2(s) < B
  {
    WordIsPow2();
    Pow2Mono(s + 1, 32);
  }

  /** A shift by k limbs and s bits. */
  function Shl(a: seq<uint32>, k: nat, s: nat): (r: seq<uint32>)
    requires s < 32
    ensures |r| == |a|
  {
    BitsOfWord(s);
    if k >= |a| then Zeros(|a|) else Zeros(k) + MulWord(a[..|a| - k], Pow2(s))
  }

  lemma ShlCarry(a: seq<uint32>, k: nat, s: nat) returns (c: int)
    requires s < 32 && k < |a| && Pow2(s) < B
    ensures Val(Zeros(k) + MulWord(a[..|a| - k], Pow2(s))) + Times(c, PowB(|a|)) == Times(Val(a), Pow2(32 * k + s))
  {
    c := MulLower(a, |a| - k, Pow2(s));
    ShlLift(Val(MulWord(a[..|a| - k], Pow2(s))), c, |a| - k, k, Pow2(s), Val(a));
    ZerosVal(k);
    ValJoin(Zeros(k), MulWord(a[..|a| - k], Pow2(s)));
    ShiftWeight(k, s);
  }

  lemma MulLower(a: seq<uint32>, m: nat, w: uint32) returns (c: int)
    requires m <= |a|
    ensures Val(MulWord(a[..m], w)) + Times(c, PowB(m)) == Times(w, Val(a))
  {
    var i := MulWordCarry(a[..m], w);
    var j := RowSplit(w, a, m);
    c := i + j;
    TimesAdds(i, j, PowB(m));
  }

  lemma ShlLift(v: int, c: int, m: nat, k: nat, w: int, a: int)
    requires v + Times(c, PowB(m)) == Times(w, a)
    ensures Times(v, PowB(k)) + Times(c, PowB(m + k)) == Times(a, Times(w, PowB(k)))
  {
    var p := PowB(k);
    TimesAdds(v, Times(c, PowB(m)), p);
    TimesAssociates(c, PowB(m), p);
    PowBAdd(m, k);
    TimesCommutes(w, a);
    TimesAssociates(a, w, p);
  }

  lemma ShlWithin(a: seq<uint32>, k: nat, s: nat)
    requires s < 32 && k < |a| && Pow2(s) < B
    ensures Val(Zeros(k) + MulWord(a[..|a| - k], Pow2(s))) == Mod(Times(Val(a), Pow2(32 * k + s)), PowB(|a|))
  {
    var c := ShlCarry(a, k, s);
    Remainder(Val(Zeros(k) + MulWord(a[..|a| - k], Pow2(s))), c, PowB(|a|), Times(Val(a), Pow2(32 * k + s)));
  }

  lemma ShlBeyond(a: seq<uint32>, k: nat, s: nat)
    requires k >= |a|
    ensures Mod(Times(Val(a), Pow2(32 * k + s)), PowB(|a|)) == 0
  {
    var c := ShlAway(a, k, s);
    Remainder(0, c, PowB(|a|), Times(Val(a), Pow2(32 * k + s)));
  }

  /** A left shift multiplies by a power of two, modulo the width. */
  lemma ShlVal(a: seq<uint32>, k: nat, s: nat)
    requires s < 32
    ensures Val(Shl(a, k, s)) == Mod(Times(Val(a), Pow2(32 * k + s)), PowB(|a|))
  {
    BitsOfWord(s);
    if k < |a| {
      ShlWithin(a, k, s);
    } else {
      ZerosVal(|a|);
      ShlBeyond(a, k, s);
    }
  }

  lemma ShlAway(a: seq<uint32>, k: nat, s: nat) returns (c: int)
    requires k >= |a|
    ensures Times(c, PowB(|a|)) == Times(Val(a), Pow2(32 * k + s))
  {
    ShiftWeight(k, s);
    PowBAdd(k - |a|, |a|);
    TimesAssociates(Pow2(s), PowB(k - |a|), PowB(|a|));
    TimesAssociates(Val(a), Times(Pow2(s), PowB(k - |a|)), PowB(|a|));
    c := Times(Val(a), Times(Pow2(s), PowB(k - |a|)));
  }

  // ----- Right shift -----

  /** The lower limbs, each with the bits that come down from the next one. */
  function ShrBits(a: seq<uint32>, s: nat): (r: seq<uint32>)
    requires s < 32
    ensures |r| == |a|
  {
    if a == [] then [] else
      ShrFits(a[0], LowBits(a[1..], s), s);
      [Quot(a[0], Pow2(s)) + Times(LowBits(a[1..], s), Pow2(32 - s))] + ShrBits(a[1..], s)
  }

  function LowBits(a: seq<uint32>, s: nat): (l: nat)
    ensures l < Pow2(s)
  {
    if a == [] then 0 else Mod(a[0], Pow2(s))
  }

  lemma ShrFits(x: uint32, l: nat, s: nat)
    requires s < 32 && l < Pow2(s)
    ensures 0 <= Quot(x, Pow2(s)) + Times(l, Pow2(32 - s)) < B
    ensures Quot(x, Pow2(s)) < Pow2(32 - s)
  {
    QuotMod(x, Pow2(s));
    HalfWeights(s);
    TimesNonNegative(l, Pow2(32 - s));
    TimesMono(l, Pow2(s) - 1, Pow2(32 - s));
    TimesAdds(Pow2(s) - 1, 1, Pow2(32 - s));
    TimesIs(1, Pow2(32 - s));
    if Quot(x, Pow2(s)) >= Pow2(32 - s) {
      TimesMono(Pow2(32 - s), Quot(x, Pow2(s)), Pow2(s));
      TimesCommutes(Pow2(32 - s), Pow2(s));
      assert false;
    }
  }

  lemma {:induction false} ShrBitsVal(a: seq<uint32>, s: nat)
    requires s < 32
    ensures Val(a) == Times(Val(ShrBits(a, s)), Pow2(s)) + LowBits(a, s)
  {
    if a != [] {
      ShrBitsVal(a[1..], s);
      var rest := ShrBits(a[1..], s);
      var q, l := Quot(a[0], Pow2(s)), LowBits(a[1..], s);
      ShrFits(a[0], l, s);
      ValCons(q + Times(l, Pow2(32 - s)), rest);
      ShrStep(q, l, Val(rest), s);
      QuotMod(a[0], Pow2(s));
    }
  }

  lemma ShrStep(q: int, l: int, v: int, s: nat)
    requires s < 32
    ensures Times(q + Times(l, Pow2(32 - s)) + B * v, Pow2(s)) == Times(q, Pow2(s)) + B * l + B * Times(v, Pow2(s))
  {
    var w := Pow2(s);
    TimesAdds(q + Times(l, Pow2(32 - s)), B * v, w);
    TimesAdds(q, Times(l, Pow2(32 - s)), w);
    TimesAssociates(l, Pow2(32 - s), w);
    HalfWeights(s);
    TimesCommutes(w, Pow2(32 - s));
    TimesIs(l, B);
    TimesCommutes(B * v, w);
    TimesScales(w, B, v);
    TimesCommutes(w, v);
  }

  lemma {:induction false} ShrBitsAt(a: seq<uint32>, s: nat, j: nat)
    requires s < 32 && j < |a|
    ensures ShrBits(a, s)[j] == Quot(a[j], Pow2(s)) + Times(LowBits(a[j + 1..], s), Pow2(32 - s))
  {
    if j > 0 {
      ShrBitsAt(a[1..], s, j - 1);
      assert a[1..][j..] == a[j + 1..];
    }
  }

  /** The or of the two parts is their sum, because the bits are disjoint. */
  lemma ShrDigit(x: uint32, y: uint32, s: nat)
    requires 0 < s < 32
    ensures Or(RightWord(x, s), LeftWord(y, 32 - s)) == Quot(x, Pow2(s)) + Times(Mod(y, Pow2(s)), Pow2(32 - s))
  {
    var q, r := SplitLimb(y, 32 - s);
    QuotIs(x, Pow2(s));
    QuotIs(y, Pow2(s));
    ShrFits(x, 0, s);
    TimesIs(Pow2(32 - s), y);
    HalvesUnique(Times(Pow2(32 - s), y), Times(r, Pow2(32 - s)), q);
    Halves(Times(Pow2(32 - s), y));
    OrDisjoint(Quot(x, Pow2(s)), r, 32 - s);
  }

  function Shr(a: seq<uint32>, k: nat, s: nat): (r: seq<uint32>)
    requires s < 32
    ensures |r| == |a|
  {
    if k >= |a| then Zeros(|a|) else ShrBits(a[k..], s) + Zeros(k)
  }

  lemma ShrWithin(a: seq<uint32>, k: nat, s: nat)
    requires k < |a| && s < 32
    ensures Val(ShrBits(a[k..], s) + Zeros(k)) == Quot(Val(a), Pow2(32 * k + s))
  {
    var high := ShrBits(a[k..], s);
    ZerosVal(k);
    ValJoin(high, Zeros(k));
    TimesIs(0, PowB(|high|));
    var low := ShrRest(a, k, s);
    QuotMultiple(Val(high), low, Pow2(32 * k + s));
  }

  lemma ShrBeyond(a: seq<uint32>, shift: nat)
    requires shift >= 32 * |a|
    ensures Quot(Val(a), Pow2(shift)) == 0
  {
    PowBIsPow2(|a|);
    Pow2Mono(32 * |a|, shift);
  }

  /** A right shift is the quotient by a power of two. */
  lemma ShrVal(a: seq<uint32>, k: nat, s: nat)
    requires s < 32
    ensures Val(Shr(a, k, s)) == Quot(Val(a), Pow2(32 * k + s))
  {
    if k >= |a| {
      ZerosVal(|a|);
      ShrBeyond(a, 32 * k + s);
    } else {
      ShrWithin(a, k, s);
    }
  }

  lemma ShrRest(a: seq<uint32>, k: nat, s: nat) returns (low: nat)
    requires k < |a| && s < 32
    ensures low < Pow2(32 * k + s)
    ensures Val(a) == Times(Val(ShrBits(a[k..], s)), Pow2(32 * k + s)) + low
  {
    var v, l, p := Val(ShrBits(a[k..], s)), LowBits(a[k..], s), PowB(k);
    ShrBitsVal(a[k..], s);
    ValSplit(a, k);
    TimesAdds(Times(v, Pow2(s)), l, p);
    TimesAssociates(v, Pow2(s), p);
    ShiftWeight(k, s);
    TimesNonNegative(l, p);
    TimesMono(l, Pow2(s) - 1, p);
    TimesAdds(Pow2(s) - 1, 1, p);
    TimesIs(1, p);
    low := Val(a[..k]) + Times(l, p);
  }

  // ----- Bit length -----

  /** n is the position of the highest bit of v, plus one; 0 for 0. */
  ghost predicate BitLength(v: nat, n: nat) {
    v < Pow2(n) && (n > 0 ==> Pow2(n - 1) <= v)
  }

  lemma BitLengthUnique(v: nat, m: nat, n: nat)
    requires BitLength(v, m) && BitLength(v, n)
    ensures m == n
  {
    if m < n { Pow2Mono(m, n - 1); }
    if n < m { Pow2Mono(n, m - 1); }
  }

  lemma {:induction false} ZeroLimbs(a: seq<uint32>)
    requires forall i :: 0 <= i < |a| ==> a[i] == 0
    ensures Val(a) == 0
  {
    if a != [] { ZeroLimbs(a[1..]); }
  }

  /** The highest limb that is not zero determines the bit length. */
  lemma TopLimb(a: seq<uint32>, pos: nat, b: nat)
    requires pos < |a| && b < 32 && Pow2(b) <= a[pos] < Pow2(b + 1)
    requires forall i :: pos < i < |a| ==> a[i] == 0
    ensures BitLength(Val(a), 32 * pos + b + 1)
  {
    var p := PowB(pos);
    ZeroLimbs(a[pos..][1..]);
    assert Val(a[pos..]) == a[pos];
    ValSplit(a, pos);
    ShiftWeight(pos, b);
    ShiftWeight(pos, b + 1);
    Between(Val(a[..pos]), a[pos], Pow2(b), Pow2(b + 1), p);
  }

  lemma Between(low: nat, x: nat, min: nat, max: nat, p: nat)
    requires low < p && min <= x < max
    ensures Times(min, p) <= low + Times(x, p) < Times(max, p)
  {
    TimesMono(min, x, p);
    TimesMono(x, max - 1, p);
    TimesAdds(max - 1, 1, p);
    TimesIs(1, p);
  }

  /** The test of bit n of a number below 2^(n+1). */
  lemma BitTest(x: nat, n: nat)
    requires x < Pow2(n + 1)
    ensures (x / Pow2(n)) % 2 == 1 <==> x >= Pow2(n)
  {
    QuotIs(x, Pow2(n));
  }

  // ----- Comparison -----

  /** The highest limb in which two numbers differ decides. */
  lemma {:induction false} CompareTop(a: seq<uint32>, b: seq<uint32>, i: nat)
    requires |a| == |b| && i < |a| && a[i] < b[i] && a[i + 1..] == b[i + 1..]
    ensures Val(a) < Val(b)
  {
    if i > 0 {
      assert a[1..][i..] == a[i + 1..] && b[1..][i..] == b[i + 1..];
      CompareTop(a[1..], b[1..], i - 1);
    }
  }
}
