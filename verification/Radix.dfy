/**
  Numbers as digit sequences, the highest digit first, in any base; and how many
  digits of base 58 and of base 256 correspond.
*/
module Radix {
  import opened Arithmetic

  predicate Digits(d: seq<nat>, base: nat) {
    forall i :: 0 <= i < |d| ==> d[i] < base
  }

  function Num(d: seq<nat>, base: nat): (v: nat) {
    if d == [] then 0
    else
      TimesNonNegative(Num(d[..|d| - 1], base), base);
      Times(Num(d[..|d| - 1], base), base) + d[|d| - 1]
  }

  function Pow(base: nat, e: nat): nat {
    if e == 0 then 1
    else
      TimesNonNegative(Pow(base, e - 1), base);
      Times(Pow(base, e - 1), base)
  }

  // ----- Powers -----

  lemma {:induction false} PowPositive(base: nat, e: nat)
    requires base > 0
    ensures Pow(base, e) >= 1
  {
    if e > 0 {
      PowPositive(base, e - 1);
      TimesMono(1, Pow(base, e - 1), base);
      TimesIs(1, base);
    }
  }

  lemma {:induction false} PowAdd(base: nat, m: nat, n: nat)
    ensures Pow(base, m + n) == Times(Pow(base, m), Pow(base, n))
  {
    if n == 0 {
      TimesIs(Pow(base, m), 1);
    } else {
      PowAdd(base, m, n - 1);
      assert m + n - 1 == m + (n - 1);
      TimesAssociates(Pow(base, m), Pow(base, n - 1), base);
    }
  }

  /** (base^m)^n == base^(m n), with the exponent as a repeated sum. */
  lemma {:induction false} PowPow(base: nat, m: nat, n: nat)
    requires base > 0
    ensures m * n >= 0 && Pow(base, m) >= 1 && Pow(Pow(base, m), n) == Pow(base, m * n)
  {
    PowPositive(base, m);
    MulNonNegative(m, n);
    if n > 0 {
      PowPow(base, m, n - 1);
      assert m * n == m * (n - 1) + m;
      PowAdd(base, m * (n - 1), m);
    }
  }

  lemma {:induction false} PowMono(base: nat, m: nat, n: nat)
    requires base > 0 && m <= n
    ensures Pow(base, m) <= Pow(base, n)
  {
    if m < n {
      PowMono(base, m, n - 1);
      PowPositive(base, n - 1);
      TimesCommutes(Pow(base, n - 1), base);
      TimesMono(1, base, Pow(base, n - 1));
      TimesIs(1, Pow(base, n - 1));
    }
  }

  lemma {:induction false} PowBase(x: nat, y: nat, n: nat)
    requires x <= y
    ensures 0 <= Pow(x, n) <= Pow(y, n)
  {
    if n > 0 {
      PowBase(x, y, n - 1);
      TimesNonNegative(Pow(x, n - 1), x);
      TimesMono(Pow(x, n - 1), Pow(y, n - 1), x);
      TimesCommutes(Pow(y, n - 1), x);
      TimesCommutes(Pow(y, n - 1), y);
      TimesMono(x, y, Pow(y, n - 1));
    }
  }

  lemma {:induction false} PowStrict(x: nat, y: nat, n: nat)
    requires x < y && n > 0
    ensures Pow(x, n) < Pow(y, n)
  {
    if n == 1 {
      assert Pow(x, 0) == 1 && Pow(y, 0) == 1;
      TimesIs(1, x);
      TimesIs(1, y);
    } else {
      PowStrict(x, y, n - 1);
      PowBase(x, x, n - 1);
      TimesCommutes(Pow(x, n - 1), x);
      TimesMono(Pow(x, n - 1), Pow(y, n - 1), x);
      PowPositive(y, n - 1);
      TimesCommutes(Pow(y, n - 1), x);
      TimesCommutes(Pow(y, n - 1), y);
      TimesMono(x + 1, y, Pow(y, n - 1));
      TimesAdds(x, 1, Pow(y, n - 1));
      TimesIs(1, Pow(y, n - 1));
    }
  }

  /** x^p <= y^q carries over to all exponents with at least the same ratio. */
  lemma Ratio(x: nat, y: nat, p: nat, q: nat, a: nat, b: nat)
    requires x > 0 && y > 0 && p > 0 && Pow(x, p) <= Pow(y, q) && q * a <= b * p
    ensures Pow(x, a) <= Pow(y, b)
  {
    PowPow(x, a, p);
    PowPow(x, p, a);
    PowPow(y, q, a);
    PowPow(y, b, p);
    assert a * p == p * a;
    PowBase(Pow(x, p), Pow(y, q), a);
    PowMono(y, q * a, b * p);
    if Pow(x, a) > Pow(y, b) { PowStrict(Pow(y, b), Pow(x, a), p); }
  }

  // ----- 58 against 256 -----

  /** A base that is a power of two. */
  lemma {:induction false} PowerOfTwo(base: nat, b: nat, n: nat)
    requires base == Pow2(b)
    ensures b * n >= 0 && Pow(base, n) == Pow2(b * n)
  {
    MulNonNegative(b, n);
    if n > 0 {
      PowerOfTwo(base, b, n - 1);
      assert b * n == b * (n - 1) + b;
      Pow2Add(b * (n - 1), b);
    }
  }

  /** x^a >= 2^p and x^b >= 2^q give a bound for x^(ak+b). */
  lemma AtLeast(x: nat, a: nat, p: nat, b: nat, q: nat, k: nat)
    requires x > 0 && Pow(x, a) >= Pow2(p) && Pow(x, b) >= Pow2(q)
    ensures a * k >= 0 && p * k >= 0 && Pow(x, a * k + b) >= Pow2(p * k + q)
  {
    PowPow(x, a, k);
    PowerOfTwo(Pow2(p), p, k);
    PowBase(Pow2(p), Pow(x, a), k);
    PowAdd(x, a * k, b);
    Pow2Add(p * k, q);
    Product(Pow2(p * k), Pow(x, a * k), Pow2(q), Pow(x, b));
  }

  lemma AtMost(x: nat, a: nat, p: nat, b: nat, q: nat, k: nat)
    requires x > 0 && Pow(x, a) <= Pow2(p) && Pow(x, b) <= Pow2(q)
    ensures a * k >= 0 && p * k >= 0 && Pow(x, a * k + b) <= Pow2(p * k + q)
  {
    PowPow(x, a, k);
    PowPositive(x, b);
    PowerOfTwo(Pow2(p), p, k);
    PowBase(Pow(x, a), Pow2(p), k);
    PowAdd(x, a * k, b);
    Pow2Add(p * k, q);
    Product(Pow(x, a * k), Pow2(p * k), Pow(x, b), Pow2(q));
  }

  lemma Product(x: int, x': int, y: int, y': int)
    requires 0 <= x <= x' && 0 <= y <= y'
    ensures Times(x, y) <= Times(x', y')
  {
    TimesMono(x, x', y);
    TimesCommutes(x', y);
    TimesCommutes(x', y');
    TimesMono(y, y', x');
  }

  lemma PowNext(x: nat, e: nat, v: nat)
    requires Pow(x, e) == v
    ensures Pow(x, e + 1) == v * x
  {
    TimesIs(v, x);
  }

  lemma Powers58(x: nat)
    requires 57 < x < 59
    ensures Pow(x, 6) == 38068692544 && Pow(x, 7) == 2207984167552
    ensures Pow(x, 10) == 430804206899405824 && Pow(x, 11) == 24986644000165537792
  {
    PowNext(x, 0, 1);
    PowNext(x, 1, 58);
    PowNext(x, 2, 3364);
    PowNext(x, 3, 195112);
    PowNext(x, 4, 11316496);
    PowNext(x, 5, 656356768);
    PowNext(x, 6, 38068692544);
    PowNext(x, 7, 2207984167552);
    PowNext(x, 8, 128063081718016);
    PowNext(x, 9, 7427658739644928);
    PowNext(x, 10, 430804206899405824);
  }

  lemma Powers2(e: nat)
    requires 34 < e < 36
    ensures Pow2(e) == 34359738368 && Pow2(e + 6) == 2199023255552
    ensures Pow2(e + 23) == 288230376151711744 && Pow2(e + 24) == 576460752303423488
  {
    assert Pow2(e - 35) == 1;
    PowShift13(e - 35);
    PowShift13(e - 22);
    assert Pow2(e - 5) == 16 * Pow2(e - 9) by { assert Pow2(e - 7) == 4 * Pow2(e - 9); }
    assert Pow2(e - 1) == 16 * Pow2(e - 5) by { assert Pow2(e - 3) == 4 * Pow2(e - 5); }
    assert Pow2(e + 4) == 16 * Pow2(e) by { assert Pow2(e + 2) == 4 * Pow2(e); }
    assert Pow2(e + 6) == 4 * Pow2(e + 4);
    PowShift13(e + 6);
    assert Pow2(e + 23) == 16 * Pow2(e + 19) by { assert Pow2(e + 21) == 4 * Pow2(e + 19); }
  }

  /** 58^6, 58^7 and 58^10 against powers of two. */
  lemma Bounds58(x: nat, e: nat)
    requires 57 < x < 59 && 34 < e < 36
    ensures Pow(x, 6) >= Pow2(e) && Pow(x, 7) >= Pow2(e + 6)
    ensures Pow(x, 10) <= Pow2(e + 24) && Pow(x, 11) <= 87 * Pow2(e + 23)
  {
    Powers58(x);
    Powers2(e);
  }

  /** 58^22 < 2^129: 58^11 is below 87 * 2^58, and 87^2 below 2^13. */
  lemma Bound22(x: nat, e: nat)
    requires 57 < x < 59 && 34 < e < 36
    ensures Pow(x, 22) <= Pow2(2 * (e + 23) + 13)
  {
    Bounds58(x, e);
    PowAdd(x, 11, 11);
    var p := Pow2(e + 23);
    PowPositive(x, 11);
    Product(Pow(x, 11), 87 * p, Pow(x, 11), 87 * p);
    TimesScales(87 * p, 87, p);
    TimesCommutes(87 * p, p);
    TimesScales(p, 87, p);
    Pow2Add(e + 23, e + 23);
    PowShift13(2 * (e + 23));
  }

  lemma PowShift13(e: nat)
    ensures Pow2(e + 13) == 8192 * Pow2(e)
  {
    assert Pow2(e + 4) == 16 * Pow2(e) by { assert Pow2(e + 2) == 4 * Pow2(e); }
    assert Pow2(e + 8) == 16 * Pow2(e + 4) by { assert Pow2(e + 6) == 4 * Pow2(e + 4); }
    assert Pow2(e + 12) == 16 * Pow2(e + 8) by { assert Pow2(e + 10) == 4 * Pow2(e + 8); }
  }

  /** 256^50 <= 58^69. */
  lemma Down(x: nat, y: nat, k: nat, e: nat)
    requires 57 < x < 59 && y == Pow2(8) && 8 < k < 10 && 34 < e < 36
    ensures Pow(y, 5 * k + 5) <= Pow(x, 7 * k + 6)
  {
    Bounds58(x, e);
    AtLeast(x, 7, e + 6, 6, e, k);
    PowerOfTwo(y, 8, 5 * k + 5);
    Pow2Mono(8 * (5 * k + 5), (e + 6) * k + e);
  }

  /** 58^1000 <= 256^733. */
  lemma Up(x: nat, y: nat, k: nat, m: nat, e: nat)
    requires 57 < x < 59 && y == Pow2(8) && 44 < k < 46 && 34 < e < 36 && 732 < m < 734
    ensures Pow(x, 22 * k + 10) <= Pow(y, m)
  {
    Bounds58(x, e);
    Bound22(x, e);
    AtMost(x, 22, 2 * (e + 23) + 13, 10, e + 24, k);
    PowerOfTwo(y, 8, m);
    assert (2 * (e + 23) + 13) * k + (e + 24) == 8 * m;
  }

  /** n bytes need at most n * 138 / 100 + 1 digits of base 58. */
  lemma Estimate58(n: nat, size: nat, x: nat, y: nat)
    requires 57 < x < 59 && y == Pow2(8) && size == n * 138 / 100 + 1
    ensures Pow(y, n) <= Pow(x, size)
  {
    Down(x, y, 9, 35);
    Ratio(y, x, 50, 69, n, size);
  }

  /** n digits of base 58 need at most n * 733 / 1000 + 1 bytes. */
  lemma Estimate256(n: nat, size: nat, x: nat, y: nat)
    requires 57 < x < 59 && y == Pow2(8) && size == n * 733 / 1000 + 1
    ensures Pow(x, n) <= Pow(y, size)
  {
    Up(x, y, 45, 733, 35);
    Ratio(x, y, 1000, 733, n, size);
  }

  // ----- Canonical digits -----

  lemma {:induction false} NumBound(d: seq<nat>, base: nat)
    requires base > 0 && Digits(d, base)
    ensures 0 <= Num(d, base) < Pow(base, |d|)
  {
    if d != [] {
      var n := |d| - 1;
      NumBound(d[..n], base);
      TimesNonNegative(Num(d[..n], base), base);
      TimesMono(Num(d[..n], base), Pow(base, n) - 1, base);
      TimesAdds(Pow(base, n) - 1, 1, base);
      TimesIs(1, base);
    }
  }

  lemma QuotLess(n: nat, base: nat)
    requires n > 0 && base > 1
    ensures Quot(n, base) < n
  {
  }

  /** The digits of n without leading zeros. */
  function Canon(n: nat, base: nat): seq<nat>
    requires base > 1
    decreases n
  {
    if n == 0 then []
    else
      QuotLess(n, base);
      Canon(Quot(n, base), base) + [Mod(n, base)]
  }

  ghost predicate Normal(d: seq<nat>, base: nat) {
    Digits(d, base) && (d == [] || d[0] != 0)
  }

  lemma {:induction false} CanonNormal(n: nat, base: nat)
    requires base > 1
    ensures Normal(Canon(n, base), base) && Num(Canon(n, base), base) == n && (n > 0 ==> Canon(n, base) != [])
    decreases n
  {
    if n > 0 {
      QuotLess(n, base);
      var q := Quot(n, base);
      CanonNormal(q, base);
      QuotMod(n, base);
      TimesIs(0, base);
      assert Canon(n, base)[..|Canon(n, base)| - 1] == Canon(q, base);
    }
  }

  /** A number has only one canonical digit sequence. */
  lemma {:induction false} CanonUnique(d: seq<nat>, base: nat)
    requires base > 1 && Normal(d, base)
    ensures Num(d, base) >= 0 && Canon(Num(d, base), base) == d && (d != [] ==> Num(d, base) > 0)
  {
    if d != [] {
      var n := |d| - 1;
      var p := d[..n];
      CanonUnique(p, base);
      TimesNonNegative(Num(p, base), base);
      QuotMultiple(Num(p, base), d[n], base);
      if n > 0 {
        TimesMono(1, Num(p, base), base);
        TimesIs(1, base);
      } else {
        TimesIs(0, base);
      }
      assert d == p + [d[n]];
    }
  }

  function Strip(d: seq<nat>): seq<nat> {
    if d != [] && d[0] == 0 then Strip(d[1..]) else d
  }

  lemma {:induction false} NumLeadingZero(d: seq<nat>, base: nat)
    ensures Num([0] + d, base) == Num(d, base)
  {
    var all := [0] + d;
    if d == [] {
      assert all[..0] == [];
      TimesIs(0, base);
    } else {
      var n := |d| - 1;
      assert all[..n + 1] == [0] + d[..n];
      NumLeadingZero(d[..n], base);
    }
  }

  lemma {:induction false} StripNum(d: seq<nat>, base: nat)
    ensures Num(Strip(d), base) == Num(d, base)
    ensures Digits(d, base) ==> Normal(Strip(d), base)
  {
    if d != [] && d[0] == 0 {
      assert d == [0] + d[1..];
      NumLeadingZero(d[1..], base);
      StripNum(d[1..], base);
    }
  }

  /** Stripping leading zeros makes digits canonical. */
  lemma StripIsCanon(d: seq<nat>, base: nat)
    requires base > 1 && Digits(d, base)
    ensures Num(d, base) >= 0 && Strip(d) == Canon(Num(d, base), base)
  {
    StripNum(d, base);
    CanonUnique(Strip(d), base);
  }

  // ----- d * mult + carry, in place -----

  function Push(d: seq<nat>, base: nat, mult: nat, carry: nat): (r: seq<nat>)
    requires base > 0
    ensures |r| == |d| && Digits(r, base)
  {
    if d == [] then []
    else
      var n := Next(d[|d| - 1], mult, carry);
      Push(d[..|d| - 1], base, mult, Quot(n, base)) + [Mod(n, base)]
  }

  function Next(digit: nat, mult: nat, carry: nat): nat {
    TimesNonNegative(digit, mult);
    carry + Times(digit, mult)
  }

  /** The carry out of the highest digit. */
  function Out(d: seq<nat>, base: nat, mult: nat, carry: nat): nat
    requires base > 0
  {
    if d == [] then carry else Out(d[..|d| - 1], base, mult, Quot(Next(d[|d| - 1], mult, carry), base))
  }

  lemma {:induction false} PushNum(d: seq<nat>, base: nat, mult: nat, carry: nat)
    requires base > 0
    ensures Num(Push(d, base, mult, carry), base) + Times(Out(d, base, mult, carry), Pow(base, |d|)) ==
            Times(Num(d, base), mult) + carry
  {
    if d == [] {
      TimesIs(carry, 1);
      TimesIs(0, mult);
    } else {
      var k := |d| - 1;
      var n := Next(d[k], mult, carry);
      PushNum(d[..k], base, mult, Quot(n, base));
      PushLast(d, base, mult, carry, Push(d[..k], base, mult, Quot(n, base)), Out(d[..k], base, mult, Quot(n, base)),
        n);
    }
  }

  lemma PushLast(d: seq<nat>, base: nat, mult: nat, carry: nat, r: seq<nat>, out: nat, n: nat)
    requires base > 0 && d != [] && n == Next(d[|d| - 1], mult, carry)
    requires Num(r, base) + Times(out, Pow(base, |d| - 1)) == Times(Num(d[..|d| - 1], base), mult) + Quot(n, base)
    ensures Num(r + [Mod(n, base)], base) + Times(out, Pow(base, |d|)) == Times(Num(d, base), mult) + carry
  {
    var k := |d| - 1;
    var w := Num(d[..k], base);
    assert (r + [Mod(n, base)])[..|r|] == r;
    PushStep(Num(r, base), out, Pow(base, k), w, base, mult, Quot(n, base));
    QuotMod(n, base);
    TimesAdds(Times(w, base), d[k], mult);
  }

  lemma SwapFactors(w: int, mult: int, base: int)
    ensures Times(Times(w, mult), base) == Times(Times(w, base), mult)
  {
    TimesAssociates(w, mult, base);
    TimesCommutes(mult, base);
    TimesAssociates(w, base, mult);
  }

  lemma TwoSums(v: nat, t: nat, w: nat, q: nat, base: nat)
    requires v + t == w + q
    ensures Times(v, base) + Times(t, base) == Times(w, base) + Times(q, base)
  {
    TimesIs(v, base);
    TimesIs(t, base);
    TimesIs(w, base);
    TimesIs(q, base);
    TwoProducts(v, t, w, q, base);
  }

  lemma TwoProducts(v: nat, t: nat, w: nat, q: nat, base: nat)
    requires v + t == w + q
    ensures v * base + t * base == w * base + q * base
  {
    assert (v + t) * base == (w + q) * base;
  }

  lemma PushStep(v: nat, out: nat, p: nat, w: nat, base: nat, mult: nat, q: nat)
    requires v + Times(out, p) == Times(w, mult) + q
    ensures Times(v, base) + Times(out, Times(p, base)) == Times(Times(w, base), mult) + Times(q, base)
  {
    TimesNonNegative(out, p);
    TimesNonNegative(w, mult);
    var t, m := Times(out, p), Times(w, mult);
    assert Times(t, base) == Times(out, Times(p, base)) by { TimesAssociates(out, p, base); }
    assert Times(m, base) == Times(Times(w, base), mult) by { SwapFactors(w, mult, base); }
    TwoSums(v, t, m, q, base);
  }

  /** If the result fits, nothing is carried out. */
  lemma PushFits(d: seq<nat>, base: nat, mult: nat, carry: nat)
    requires base > 0 && Digits(d, base) && Times(Num(d, base), mult) + carry < Pow(base, |d|)
    ensures Out(d, base, mult, carry) == 0
    ensures Num(Push(d, base, mult, carry), base) == Times(Num(d, base), mult) + carry
  {
    PushNum(d, base, mult, carry);
    NumBound(Push(d, base, mult, carry), base);
    PowPositive(base, |d|);
    if Out(d, base, mult, carry) > 0 {
      TimesMono(1, Out(d, base, mult, carry), Pow(base, |d|));
      TimesIs(1, Pow(base, |d|));
    } else {
      TimesIs(0, Pow(base, |d|));
    }
  }

  /** Zeros stay zeros when nothing is carried in. */
  lemma {:induction false} PushZeros(d: seq<nat>, base: nat, mult: nat)
    requires base > 0 && forall i :: 0 <= i < |d| ==> d[i] == 0
    ensures Push(d, base, mult, 0) == d && Out(d, base, mult, 0) == 0
  {
    if d != [] {
      TimesIs(0, mult);
      PushZeros(d[..|d| - 1], base, mult);
      assert d == d[..|d| - 1] + [0];
    }
  }
}
