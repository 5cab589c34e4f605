/**
  Multi-word arithmetic on sequences of 32-bit limbs, lowest limb first, each
  operation limb by limb as in src/arith_uint256.cpp and src/arith_uint256.h,
  and what it means for the numbers the limbs stand for.
*/
module Limbs {
  import opened Arithmetic

  const B := 0x1_0000_0000

  type uint32 = x: int | 0 <= x < B

  function PowB(n: nat): (p: nat)
    ensures p >= 1
  {
    if n == 0 then 1 else B * PowB(n - 1)
  }

  /** The number a sequence of limbs stands for. */
  function Val(s: seq<uint32>): (v: nat)
    ensures v < PowB(|s|)
  {
    if s == [] then 0 else s[0] + B * Val(s[1..])
  }

  function Zeros(n: nat): (s: seq<uint32>)
    ensures |s| == n && forall i :: 0 <= i < n ==> s[i] == 0
  {
    seq(n, i => 0)
  }

  lemma {:induction false} ZerosVal(n: nat)
    ensures Val(Zeros(n)) == 0
  {
    if n > 0 {
      ZerosVal(n - 1);
      assert Zeros(n)[1..] == Zeros(n - 1);
    }
  }

  lemma {:induction false} PowBAdd(m: nat, n: nat)
    ensures PowB(m + n) == Times(PowB(m), PowB(n))
  {
    if m == 0 {
      TimesIs(1, PowB(n));
    } else {
      PowBAdd(m - 1, n);
      TimesCommutes(PowB(m), PowB(n));
      TimesScales(PowB(n), B, PowB(m - 1));
      TimesCommutes(PowB(n), PowB(m - 1));
    }
  }

  /** The limbs above position |a| count PowB(|a|) times. */
  lemma {:induction false} ValJoin(a: seq<uint32>, b: seq<uint32>)
    ensures Val(a + b) == Val(a) + Times(Val(b), PowB(|a|))
  {
    if a == [] {
      assert a + b == b;
      TimesIs(Val(b), 1);
    } else {
      ValJoin(a[1..], b);
      assert (a + b)[1..] == a[1..] + b;
      TimesScales(Val(b), B, PowB(|a| - 1));
    }
  }

  lemma ValSplit(a: seq<uint32>, m: nat)
    requires m <= |a|
    ensures Val(a) == Val(a[..m]) + Times(Val(a[m..]), PowB(m))
  {
    assert a[..m] + a[m..] == a;
    ValJoin(a[..m], a[m..]);
  }

  lemma ValCons(x: uint32, rest: seq<uint32>)
    ensures Val([x] + rest) == x + B * Val(rest)
  {
    assert ([x] + rest)[1..] == rest;
  }

  /** n & 0xffffffff and n >> 32, by repeated subtraction. */
  function Low(n: nat): uint32 {
    if n < B then n else Low(n - B)
  }

  function High(n: nat): nat {
    if n < B then 0 else 1 + High(n - B)
  }

  lemma {:induction false} Halves(n: nat)
    ensures n == Low(n) + B * High(n)
    ensures Low(n) == n % B && High(n) == n / B
  {
    if n >= B { Halves(n - B); }
  }

  /** One digit of a sum is split off; the rest is carried. */
  lemma Digit(n: nat, v: int, t: int, total: int)
    requires v + t == total + High(n)
    ensures Low(n) + B * v + B * t == n + B * total
  {
    Halves(n);
  }

  // ----- Addition, negation, subtraction -----

  function Add(a: seq<uint32>, b: seq<uint32>, carry: nat): (r: seq<uint32>)
    requires |a| == |b|
    ensures |r| == |a|
  {
    if a == [] then [] else
      var n := carry + a[0] + b[0];
      [Low(n)] + Add(a[1..], b[1..], High(n))
  }

  lemma {:induction false} AddCarry(a: seq<uint32>, b: seq<uint32>, carry: nat) returns (k: nat)
    requires |a| == |b|
    ensures Val(Add(a, b, carry)) + Times(k, PowB(|a|)) == Val(a) + Val(b) + carry
  {
    if a == [] {
      k := carry;
      TimesIs(k, 1);
    } else {
      var n := carry + a[0] + b[0];
      k := AddCarry(a[1..], b[1..], High(n));
      ValCons(Low(n), Add(a[1..], b[1..], High(n)));
      TimesScales(k, B, PowB(|a| - 1));
      Digit(n, Val(Add(a[1..], b[1..], High(n))), Times(k, PowB(|a| - 1)), Val(a[1..]) + Val(b[1..]));
    }
  }

  lemma AddVal(a: seq<uint32>, b: seq<uint32>)
    requires |a| == |b|
    ensures Val(Add(a, b, 0)) == Mod(Val(a) + Val(b), PowB(|a|))
  {
    var k := AddCarry(a, b, 0);
    Remainder(Val(Add(a, b, 0)), k, PowB(|a|), Val(a) + Val(b));
  }

  function Not(a: seq<uint32>): (r: seq<uint32>)
    ensures |r| == |a|
  {
    if a == [] then [] else [B - 1 - a[0]] + Not(a[1..])
  }

  lemma {:induction false} NotVal(a: seq<uint32>)
    ensures Val(Not(a)) == PowB(|a|) - 1 - Val(a)
  {
    if a != [] {
      NotVal(a[1..]);
      ValCons(B - 1 - a[0], Not(a[1..]));
    }
  }

  function Inc(a: seq<uint32>): (r: seq<uint32>)
    ensures |r| == |a|
  {
    if a == [] then [] else if a[0] == B - 1 then [0] + Inc(a[1..]) else [a[0] + 1] + a[1..]
  }

  lemma {:induction false} IncCarry(a: seq<uint32>) returns (k: nat)
    ensures Val(Inc(a)) + Times(k, PowB(|a|)) == Val(a) + 1
  {
    if a == [] {
      k := 1;
      TimesIs(1, 1);
    } else if a[0] == B - 1 {
      k := IncCarry(a[1..]);
      ValCons(0, Inc(a[1..]));
      TimesScales(k, B, PowB(|a| - 1));
    } else {
      k := 0;
      ValCons(a[0] + 1, a[1..]);
    }
  }

  function Dec(a: seq<uint32>): (r: seq<uint32>)
    ensures |r| == |a|
  {
    if a == [] then [] else if a[0] == 0 then [B - 1] + Dec(a[1..]) else [a[0] - 1] + a[1..]
  }

  lemma {:induction false} DecBorrow(a: seq<uint32>) returns (k: int)
    ensures Val(Dec(a)) + Times(k, PowB(|a|)) == Val(a) - 1
  {
    if a == [] {
      k := -1;
      TimesIs(-1, 1);
    } else if a[0] == 0 {
      k := DecBorrow(a[1..]);
      ValCons(B - 1, Dec(a[1..]));
      TimesScales(k, B, PowB(|a| - 1));
    } else {
      k := 0;
      ValCons(a[0] - 1, a[1..]);
    }
  }

  lemma IncVal(a: seq<uint32>)
    ensures Val(Inc(a)) == Mod(Val(a) + 1, PowB(|a|))
  {
    var k := IncCarry(a);
    Remainder(Val(Inc(a)), k, PowB(|a|), Val(a) + 1);
  }

  lemma DecVal(a: seq<uint32>)
    ensures Val(Dec(a)) == Mod(Val(a) - 1, PowB(|a|))
  {
    var k := DecBorrow(a);
    Remainder(Val(Dec(a)), k, PowB(|a|), Val(a) - 1);
  }

  function Neg(a: seq<uint32>): (r: seq<uint32>)
    ensures |r| == |a|
  {
    Inc(Not(a))
  }

  function Sub(a: seq<uint32>, b: seq<uint32>): (r: seq<uint32>)
    requires |a| == |b|
    ensures |r| == |a|
  {
    Add(a, Neg(b), 0)
  }

  lemma NegBorrow(a: seq<uint32>) returns (k: int)
    ensures Val(Neg(a)) + Times(k, PowB(|a|)) == 0 - Val(a)
  {
    NotVal(a);
    var j: int := IncCarry(Not(a));
    k := j - 1;
    TimesAdds(j, -1, PowB(|a|));
    TimesIs(-1, PowB(|a|));
  }

  lemma AddOpposite(a: seq<uint32>, b: int, opposite: seq<uint32>, i: int)
    requires |opposite| == |a| && Val(opposite) + Times(i, PowB(|a|)) == 0 - b
    ensures Val(Add(a, opposite, 0)) == Mod(Val(a) - b, PowB(|a|))
  {
    var j := AddCarry(a, opposite, 0);
    TimesAdds(i, j, PowB(|a|));
    Remainder(Val(Add(a, opposite, 0)), i + j, PowB(|a|), Val(a) - b);
  }

  lemma NegWidth(a: seq<uint32>, b: seq<uint32>, opposite: seq<uint32>) returns (i: int)
    requires |a| == |b| && opposite == Neg(b)
    ensures |opposite| == |a| && Val(opposite) + Times(i, PowB(|a|)) == 0 - Val(b)
  {
    i := NegBorrow(b);
  }

  lemma AddNeg(a: seq<uint32>, b: seq<uint32>, opposite: seq<uint32>, difference: int)
    requires |a| == |b| && opposite == Neg(b) && difference == Val(a) - Val(b)
    ensures |opposite| == |a| && Val(Add(a, opposite, 0)) == Mod(difference, PowB(|a|))
  {
    var i := NegWidth(a, b, opposite);
    AddOpposite(a, Val(b), opposite, i);
  }

  lemma SubVal(a: seq<uint32>, b: seq<uint32>, difference: int)
    requires |a| == |b| && difference == Val(a) - Val(b)
    ensures Val(Sub(a, b)) == Mod(difference, PowB(|a|))
  {
    AddNeg(a, b, Neg(b), difference);
  }

  // ----- Multiplication -----

  lemma WordProduct(x: uint32, y: uint32)
    ensures 0 <= x * y <= (B - 1) * (B - 1)
  {
    MulNonNegative(x, y);
    MulMono(x, B - 1, y);
  }

  /** The double-width sum of one step never exceeds 64 bits, and its upper half
      is again a limb. */
  lemma StepFits(carry: uint32, p: uint32, w: uint32, x: uint32)
    ensures 0 <= carry + p + w * x < B * B
    ensures 0 <= High(carry + p + w * x) < B
  {
    WordProduct(w, x);
    Halves(carry + p + w * x);
  }

  /** p + w * b + carry, cut to the length of p. */
  function MulAdd(p: seq<uint32>, b: seq<uint32>, w: uint32, carry: uint32): (r: seq<uint32>)
    requires |p| <= |b|
    ensures |r| == |p|
  {
    if p == [] then [] else
      var n := carry + p[0] + w * b[0];
      StepFits(carry, p[0], w, b[0]);
      [Low(n)] + MulAdd(p[1..], b[1..], w, High(n))
  }

  lemma {:induction false} MulAddCarry(p: seq<uint32>, b: seq<uint32>, w: uint32, carry: uint32) returns (k: nat)
    requires |p| <= |b|
    ensures Val(MulAdd(p, b, w, carry)) + Times(k, PowB(|p|)) == Val(p) + Times(w, Val(b[..|p|])) + carry
  {
    if p == [] {
      k := carry;
      TimesIs(k, 1);
      TimesIs(w, 0);
    } else {
      var n := carry + p[0] + w * b[0];
      StepFits(carry, p[0], w, b[0]);
      k := MulAddCarry(p[1..], b[1..], w, High(n));
      MulAddStep(p, b, w, carry, MulAdd(p[1..], b[1..], w, High(n)), k);
    }
  }

  lemma MulAddStep(p: seq<uint32>, b: seq<uint32>, w: uint32, carry: uint32, rest: seq<uint32>, k: int)
    requires 0 < |p| <= |b|
    requires carry + p[0] + w * b[0] >= 0
    requires Val(rest) + Times(k, PowB(|p| - 1)) ==
      Val(p[1..]) + Times(w, Val(b[1..][..|p| - 1])) + High(carry + p[0] + w * b[0])
    ensures Val([Low(carry + p[0] + w * b[0])] + rest) + Times(k, PowB(|p|)) == Val(p) + Times(w, Val(b[..|p|])) + carry
  {
    var n := carry + p[0] + w * b[0];
    var low := b[1..][..|p| - 1];
    ValCons(Low(n), rest);
    TimesScales(k, B, PowB(|p| - 1));
    assert b[..|p|] == [b[0]] + low;
    WordTimes(w, b[0], low);
    Digit(n, Val(rest), Times(k, PowB(|p| - 1)), Val(p[1..]) + Times(w, Val(low)));
  }

  lemma WordTimes(w: uint32, x: uint32, rest: seq<uint32>)
    ensures Times(w, Val([x] + rest)) == w * x + B * Times(w, Val(rest))
  {
    ValCons(x, rest);
    TimesDistributes(w, x, B * Val(rest));
    TimesScales(w, B, Val(rest));
    TimesIs(w, x);
  }

  function MulWord(a: seq<uint32>, w: uint32): (r: seq<uint32>)
    ensures |r| == |a|
  {
    MulAdd(Zeros(|a|), a, w, 0)
  }

  lemma MulWordCarry(a: seq<uint32>, w: uint32) returns (k: nat)
    ensures Val(MulWord(a, w)) + Times(k, PowB(|a|)) == Times(w, Val(a))
  {
    ZerosVal(|a|);
    k := MulAddCarry(Zeros(|a|), a, w, 0);
    assert a[..|a|] == a;
  }

  lemma MulWordVal(a: seq<uint32>, w: uint32)
    ensures Val(MulWord(a, w)) == Mod(Times(Val(a), w), PowB(|a|))
  {
    var k := MulWordCarry(a, w);
    TimesCommutes(w, Val(a));
    Remainder(Val(MulWord(a, w)), k, PowB(|a|), Times(Val(a), w));
  }

  /** Row after row, each a limb further up, without the limbs that are done. */
  function MulRows(acc: seq<uint32>, a: seq<uint32>, b: seq<uint32>): (r: seq<uint32>)
    requires |acc| == |a| <= |b|
    ensures |r| == |acc|
    decreases |a|
  {
    if a == [] then [] else
      var row := MulAdd(acc, b, a[0], 0);
      [row[0]] + MulRows(row[1..], a[1..], b)
  }

  function Mul(a: seq<uint32>, b: seq<uint32>): (r: seq<uint32>)
    requires |a| == |b|
    ensures |r| == |a|
  {
    MulRows(Zeros(|a|), a, b)
  }

  /** a0 * b splits into the part below p and a multiple of p. */
  lemma RowSplit(a0: int, b: seq<uint32>, n: nat) returns (k: int)
    requires n <= |b|
    ensures Times(a0, Val(b[..n])) + Times(k, PowB(n)) == Times(a0, Val(b))
  {
    ValSplit(b, n);
    TimesDistributes(a0, Val(b[..n]), Times(Val(b[n..]), PowB(n)));
    TimesAssociates(a0, Val(b[n..]), PowB(n));
    k := Times(a0, Val(b[n..]));
  }

  lemma {:induction false} MulRowsCarry(acc: seq<uint32>, a: seq<uint32>, b: seq<uint32>) returns (k: int)
    requires |acc| == |a| <= |b|
    ensures Val(MulRows(acc, a, b)) + Times(k, PowB(|a|)) == Val(acc) + Times(Val(b), Val(a))
    decreases |a|
  {
    if a == [] {
      k := 0;
      TimesIs(Val(b), 0);
    } else {
      var row := MulAdd(acc, b, a[0], 0);
      var k1 := MulAddCarry(acc, b, a[0], 0);
      var k2 := MulRowsCarry(row[1..], a[1..], b);
      k := MulRowsStep(Val(acc), a, b, row, MulRows(row[1..], a[1..], b), k1, k2);
    }
  }

  lemma MulRowsStep(acc: int, a: seq<uint32>, b: seq<uint32>, row: seq<uint32>, rest: seq<uint32>, k1: int, k2: int)
    returns (k: int)
    requires 0 < |a| == |row| <= |b|
    requires Val(row) + Times(k1, PowB(|a|)) == acc + Times(a[0], Val(b[..|a|])) + 0
    requires Val(rest) + Times(k2, PowB(|a| - 1)) == Val(row[1..]) + Times(Val(b), Val(a[1..]))
    ensures Val([row[0]] + rest) + Times(k, PowB(|a|)) == acc + Times(Val(b), Val(a))
  {
    var p := PowB(|a|);
    var k0 := RowSplit(a[0], b, |a|);
    ValCons(row[0], rest);
    TimesScales(k2, B, PowB(|a| - 1));
    FactorSplit(b, a);
    k := k0 + k1 + k2;
    TimesAdds(k0, k1, p);
    TimesAdds(k0 + k1, k2, p);
  }

  lemma FactorSplit(b: seq<uint32>, a: seq<uint32>)
    requires a != []
    ensures Times(Val(b), Val(a)) == Times(a[0], Val(b)) + B * Times(Val(b), Val(a[1..]))
  {
    TimesDistributes(Val(b), a[0], B * Val(a[1..]));
    TimesScales(Val(b), B, Val(a[1..]));
    TimesCommutes(Val(b), a[0]);
  }

  lemma MulVal(a: seq<uint32>, b: seq<uint32>)
    requires |a| == |b|
    ensures Val(Mul(a, b)) == Mod(Times(Val(a), Val(b)), PowB(|a|))
  {
    ZerosVal(|a|);
    var k := MulRowsCarry(Zeros(|a|), a, b);
    TimesCommutes(Val(b), Val(a));
    Remainder(Val(Mul(a, b)), k, PowB(|a|), Times(Val(a), Val(b)));
  }
}
