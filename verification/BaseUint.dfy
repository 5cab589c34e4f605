/**
  The in-place operators of base_uint (src/arith_uint256.h, src/arith_uint256.cpp)
  on an array of 32-bit limbs, for any number of limbs. Each loop is proved
  against a limb function of Limbs or LimbShifts, and by the lemmas there each
  operator against the arithmetic of the numbers.
*/
module BaseUint {
  import opened Arithmetic
  import opened Limbs
  import opened LimbShifts
  import opened LongDivision

  // One step of a loop takes one limb off the result `r`.

  lemma TakeLimb(r: seq<uint32>, i: nat, x: uint32, rest: seq<uint32>)
    requires i < |r| && r[i..] == [x] + rest
    ensures r[i] == x && r[i + 1..] == rest
  {
    assert r[i] == r[i..][0];
    assert r[i + 1..] == r[i..][1..];
  }

  lemma AddUnfold(a: seq<uint32>, b: seq<uint32>, carry: nat, i: nat, r: seq<uint32>)
    requires |a| == |b| == |r| && i < |a| && r[i..] == Add(a[i..], b[i..], carry)
    ensures var n := carry + a[i] + b[i];
      r[i] == n % B && r[i + 1..] == Add(a[i + 1..], b[i + 1..], n / B)
  {
    var n := carry + a[i] + b[i];
    Halves(n);
    assert a[i..][1..] == a[i + 1..] && b[i..][1..] == b[i + 1..];
    TakeLimb(r, i, Low(n), Add(a[i + 1..], b[i + 1..], High(n)));
  }

  lemma NotUnfold(a: seq<uint32>, i: nat, r: seq<uint32>)
    requires i < |a| == |r| && r[i..] == Not(a[i..])
    ensures r[i] == B - 1 - a[i] && r[i + 1..] == Not(a[i + 1..])
  {
    assert a[i..][1..] == a[i + 1..];
    TakeLimb(r, i, B - 1 - a[i], Not(a[i + 1..]));
  }

  lemma IncUnfold(a: seq<uint32>, i: nat, r: seq<uint32>)
    requires i < |a| == |r| && r[i..] == Inc(a[i..])
    ensures r[i] == if a[i] == B - 1 then 0 else a[i] + 1
    ensures r[i + 1..] == if a[i] == B - 1 then Inc(a[i + 1..]) else a[i + 1..]
  {
    assert a[i..][1..] == a[i + 1..];
    if a[i] == B - 1 { TakeLimb(r, i, 0, Inc(a[i + 1..])); } else { TakeLimb(r, i, a[i] + 1, a[i + 1..]); }
  }

  lemma DecUnfold(a: seq<uint32>, i: nat, r: seq<uint32>)
    requires i < |a| == |r| && r[i..] == Dec(a[i..])
    ensures r[i] == if a[i] == 0 then B - 1 else a[i] - 1
    ensures r[i + 1..] == if a[i] == 0 then Dec(a[i + 1..]) else a[i + 1..]
  {
    assert a[i..][1..] == a[i + 1..];
    if a[i] == 0 { TakeLimb(r, i, B - 1, Dec(a[i + 1..])); } else { TakeLimb(r, i, a[i] - 1, a[i + 1..]); }
  }

  /** The double-width sum fits 64 bits. */
  lemma MulAddUnfold(p: seq<uint32>, b: seq<uint32>, w: uint32, carry: uint32, i: nat, r: seq<uint32>)
    requires i < |p| == |r| <= |b| && r[i..] == MulAdd(p[i..], b[i..], w, carry)
    ensures var n := carry + p[i] + w * b[i];
      && 0 <= n < B * B && 0 <= n / B < B
      && r[i] == n % B && r[i + 1..] == MulAdd(p[i + 1..], b[i + 1..], w, n / B)
  {
    var n := carry + p[i] + w * b[i];
    StepFits(carry, p[i], w, b[i]);
    Halves(n);
    assert p[i..][1..] == p[i + 1..] && b[i..][1..] == b[i + 1..];
    TakeLimb(r, i, Low(n), MulAdd(p[i + 1..], b[i + 1..], w, High(n)));
  }

  /** i limbs of a row are done, the others untouched. */
  ghost predicate RowDone(pn: seq<uint32>, before: seq<uint32>, acc: seq<uint32>, row: seq<uint32>, i: nat) {
    i <= |acc| == |row| && pn == before + row[..i] + acc[i..]
  }

  predicate AllZero(s: seq<uint32>) {
    forall k :: 0 <= k < |s| ==> s[k] == 0
  }

  /** A row of the multiplication: the limbs before it, what is added to, the
      factor and the result. */
  datatype Row = Row(cleared: bool, before: seq<uint32>, acc: seq<uint32>, y: seq<uint32>, result: seq<uint32>)

  ghost predicate RowInv(pn: seq<uint32>, row: Row, w: uint32, carry: uint32, i: nat) {
    if row.cleared then carry == 0 && AllZero(pn)
    else
      && RowDone(pn, row.before, row.acc, row.result, i) && |row.acc| <= |row.y|
      && row.result[i..] == MulAdd(row.acc[i..], row.y[i..], w, carry)
  }

  lemma RowDoneMore(pn: seq<uint32>, before: seq<uint32>, acc: seq<uint32>, y: seq<uint32>, row: seq<uint32>,
        w: uint32, carry: uint32, i: nat, n: nat)
    requires RowDone(pn, before, acc, row, i) && i < |acc| <= |y| && row[i..] == MulAdd(acc[i..], y[i..], w, carry)
    requires n == carry + pn[i + |before|] + w * y[i]
    ensures 0 <= n / B < B && RowDone(pn[i + |before| := n % B], before, acc, row, i + 1)
    ensures row[i + 1..] == MulAdd(acc[i + 1..], y[i + 1..], w, n / B)
  {
    assert pn[i + |before|] == acc[i];
    MulAddUnfold(acc, y, w, carry, i, row);
    assert row[..i + 1] == row[..i] + [row[i]];
  }

  class Uint {
    const pn: array<uint32>

    ghost function Value(): nat
      reads pn
    {
      Val(pn[..])
    }

    /** 2^BITS. */
    ghost function Modulus(): nat { PowB(pn.Length) }

    constructor (width: nat)
      ensures fresh(pn) && pn.Length == width && pn[..] == Zeros(width)
    {
      pn := new uint32[width](i => 0);
    }

    constructor Copy(b: Uint)
      ensures fresh(pn) && pn[..] == b.pn[..]
    {
      pn := new uint32[b.pn.Length];
      new;
      for i := 0 to pn.Length
        invariant pn.Length == b.pn.Length && fresh(pn)
        invariant forall j :: 0 <= j < i ==> pn[j] == b.pn[j]
      {
        pn[i] := b.pn[i];
      }
    }

    method SetZero()
      modifies pn
      ensures pn[..] == Zeros(pn.Length)
    {
      for i := 0 to pn.Length
        invariant forall j :: 0 <= j < i ==> pn[j] == 0
      {
        pn[i] := 0;
      }
    }

    /** Assignment of a 64-bit word. */
    method SetWord(b: nat)
      requires pn.Length >= 2 && b < B * B
      modifies pn
      ensures Value() == b
    {
      SetZero();
      pn[0] := b % B;
      pn[1] := b / B;
      assert pn[..] == [b % B] + ([b / B] + Zeros(pn.Length - 2));
      ZerosVal(pn.Length - 2);
      ValCons(b / B, Zeros(pn.Length - 2));
      ValCons(b % B, [b / B] + Zeros(pn.Length - 2));
    }

    // ----- Sums -----

    method AddLimbs(b: Uint)
      requires b.pn.Length == pn.Length
      modifies pn
      ensures pn[..] == Add(old(pn[..]), old(b.pn[..]), 0)
    {
      ghost var x, y := pn[..], b.pn[..];
      ghost var r := Add(x, y, 0);
      var carry := 0;
      for i := 0 to pn.Length
        invariant 0 <= carry
        invariant forall j :: i <= j < pn.Length ==> pn[j] == x[j] && b.pn[j] == y[j]
        invariant forall j :: 0 <= j < i ==> pn[j] == r[j]
        invariant r[i..] == Add(x[i..], y[i..], carry)
      {
        AddUnfold(x, y, carry, i, r);
        var n := carry + pn[i] + b.pn[i];
        pn[i] := n % B;
        carry := n / B;
      }
    }

    /** operator+=: addition modulo 2^BITS; `b` may be this very object. */
    method PlusAssign(b: Uint)
      requires b.pn.Length == pn.Length
      modifies pn
      ensures Value() == Mod(old(Value()) + old(b.Value()), Modulus())
    {
      AddVal(pn[..], b.pn[..]);
      AddLimbs(b);
    }

    /** operator~. */
    method Complement() returns (r: Uint)
      ensures fresh(r) && fresh(r.pn) && r.pn[..] == Not(pn[..])
    {
      r := new Uint(pn.Length);
      ghost var x := pn[..];
      ghost var n := Not(x);
      for i := 0 to pn.Length
        invariant forall j :: 0 <= j < i ==> r.pn[j] == n[j]
        invariant n[i..] == Not(x[i..])
      {
        NotUnfold(x, i, n);
        r.pn[i] := B - 1 - pn[i];
      }
    }

    method IncLimbs()
      modifies pn
      ensures pn[..] == Inc(old(pn[..]))
    {
      ghost var x := pn[..];
      ghost var r := Inc(x);
      var i := 0;
      while i < pn.Length
        invariant 0 <= i <= pn.Length
        invariant forall j :: i <= j < pn.Length ==> pn[j] == x[j]
        invariant forall j :: 0 <= j < i ==> pn[j] == r[j]
        invariant r[i..] == Inc(x[i..])
      {
        IncUnfold(x, i, r);
        pn[i] := if pn[i] == B - 1 then 0 else pn[i] + 1;
        if pn[i] != 0 {
          SameTail(pn[..], x, r, i + 1);
          return;
        }
        i := i + 1;
      }
    }

    method DecLimbs()
      modifies pn
      ensures pn[..] == Dec(old(pn[..]))
    {
      ghost var x := pn[..];
      ghost var r := Dec(x);
      var i := 0;
      while i < pn.Length
        invariant 0 <= i <= pn.Length
        invariant forall j :: i <= j < pn.Length ==> pn[j] == x[j]
        invariant forall j :: 0 <= j < i ==> pn[j] == r[j]
        invariant r[i..] == Dec(x[i..])
      {
        DecUnfold(x, i, r);
        pn[i] := if pn[i] == 0 then B - 1 else pn[i] - 1;
        if pn[i] != B - 1 {
          SameTail(pn[..], x, r, i + 1);
          return;
        }
        i := i + 1;
      }
    }

    /** operator++. */
    method Increment()
      modifies pn
      ensures Value() == Mod(old(Value()) + 1, Modulus())
    {
      IncVal(pn[..]);
      IncLimbs();
    }

    /** operator--. */
    method Decrement()
      modifies pn
      ensures Value() == Mod(old(Value()) - 1, Modulus())
    {
      DecVal(pn[..]);
      DecLimbs();
    }

    method SubLimbs(b: Uint)
      requires b.pn.Length == pn.Length
      modifies pn
      ensures pn[..] == Sub(old(pn[..]), old(b.pn[..]))
    {
      var r := b.Complement();
      r.IncLimbs();
      AddLimbs(r);
    }

    /** operator-=: addition of the two's complement. */
    method MinusAssign(b: Uint)
      requires b.pn.Length == pn.Length
      modifies pn
      ensures Value() == Mod(old(Value()) - old(b.Value()), Modulus())
    {
      SubVal(pn[..], b.pn[..], Value() - b.Value());
      SubLimbs(b);
    }

    // ----- Products -----

    method MulWordLimbs(w: uint32)
      modifies pn
      ensures pn[..] == MulWord(old(pn[..]), w)
    {
      ghost var x, z := pn[..], Zeros(pn.Length);
      ghost var r := MulWord(x, w);
      var carry: uint32 := 0;
      for i := 0 to pn.Length
        invariant forall j :: i <= j < pn.Length ==> pn[j] == x[j]
        invariant forall j :: 0 <= j < i ==> pn[j] == r[j]
        invariant r[i..] == MulAdd(z[i..], x[i..], w, carry)
      {
        MulAddUnfold(z, x, w, carry, i, r);
        var n := carry + w * pn[i];
        pn[i] := n % B;
        carry := n / B;
      }
    }

    /** operator*= with a 32-bit factor. */
    method TimesWord(w: uint32)
      modifies pn
      ensures Value() == Mod(Times(old(Value()), w), Modulus())
    {
      MulWordVal(pn[..], w);
      MulWordLimbs(w);
    }

    /** One limb of a row. */
    method MulStep(at: nat, i: nat, w: uint32, b: Uint, carry: uint32) returns (carry': uint32, ghost n: nat)
      requires at < pn.Length && i < b.pn.Length
      modifies pn
      ensures n == carry + old(pn[at]) + w * old(b.pn[i])
      ensures pn[..] == old(pn[..])[at := n % B] && carry' == n / B
    {
      var sum := carry + pn[at] + w * b.pn[i];
      StepFits(carry, pn[at], w, b.pn[i]);
      n := sum;
      pn[at] := sum % B;
      carry' := sum / B;
    }

    method MulNext(j: nat, i: nat, w: uint32, b: Uint, carry: uint32, ghost row: Row) returns (carry': uint32)
      requires i + j < pn.Length == b.pn.Length && RowInv(pn[..], row, w, carry, i)
      requires |row.before| == j && (b.pn != pn ==> b.pn[..] == row.y) && row.cleared == (b.pn == pn)
      modifies pn
      ensures RowInv(pn[..], row, w, carry', i + 1)
    {
      ghost var was, n := pn[..], 0;
      assert b.pn != pn ==> b.pn[i] == row.y[i];
      carry', n := MulStep(i + j, i, w, b, carry);
      if b.pn != pn { RowDoneMore(was, row.before, row.acc, row.y, row.result, w, carry, i, n); }
    }

    /** One row of the long multiplication, from limb j up. A factor that is this
        very object has been cleared by then and stays so. */
    method MulRow(j: nat, w: uint32, b: Uint)
      requires j < pn.Length == b.pn.Length && (b.pn == pn ==> AllZero(pn[..]))
      modifies pn
      ensures b.pn == pn ==> AllZero(pn[..])
      ensures b.pn != pn ==> pn[..j] == old(pn[..j]) && pn[j..] == MulAdd(old(pn[j..]), b.pn[..], w, 0)
    {
      ghost var row := Row(b.pn == pn, pn[..j], pn[j..], b.pn[..], MulAdd(pn[j..], b.pn[..], w, 0));
      var carry: uint32 := 0;
      var i := 0;
      while i + j < pn.Length
        invariant 0 <= i <= pn.Length - j && RowInv(pn[..], row, w, carry, i)
      {
        carry := MulNext(j, i, w, b, carry, row);
        i := i + 1;
      }
    }

    method MulLimbs(b: Uint)
      requires pn.Length == b.pn.Length
      modifies pn
      ensures b.pn == pn ==> AllZero(pn[..])
      ensures b.pn != pn ==> pn[..] == Mul(old(pn[..]), b.pn[..])
    {
      var a := new Uint.Copy(this);
      ghost var x, y := pn[..], b.pn[..];
      ghost var r := Mul(x, y);
      SetZero();
      for j := 0 to pn.Length
        invariant a.pn[..] == x
        invariant b.pn == pn ==> AllZero(pn[..])
        invariant b.pn != pn ==> b.pn[..] == y && r[j..] == MulRows(pn[j..], x[j..], y)
        invariant b.pn != pn ==> forall k :: 0 <= k < j ==> pn[k] == r[k]
      {
        if b.pn != pn { MulRowsUnfold(pn[j..], x, y, j, r); }
        ghost var before := pn[..j];
        MulRow(j, a.pn[j], b);
        assert b.pn != pn ==> forall k :: 0 <= k < j ==> pn[k] == pn[..j][k] == before[k];
        assert pn[j + 1..] == pn[j..][1..];
      }
    }

    /** operator*= multiplies modulo 2^BITS. With the object itself as the factor
        the result is 0 instead: the factor is cleared before it is read. */
    method TimesAssign(b: Uint)
      requires pn.Length == b.pn.Length
      modifies pn
      ensures b.pn != pn ==> Value() == Mod(Times(old(Value()), b.Value()), Modulus())
      ensures b.pn == pn ==> Value() == 0
    {
      MulVal(pn[..], b.pn[..]);
      MulLimbs(b);
      if b.pn == pn { ZeroLimbs(pn[..]); }
    }

    // ----- Shifts -----

    /** pn[j] |= v. */
    method OrLimb(j: nat, v: uint32)
      requires j < pn.Length
      modifies pn
      ensures Or(old(pn[j]), v) < B && pn[..] == old(pn[..])[j := Or(old(pn[j]), v)]
    {
      WordIsPow2();
      OrBound(pn[j], v, 32);
      pn[j] := Or(pn[j], v);
    }

    /** The loop of operator<<=: two limbs take part of every old one. */
    method ShlLimbs(k: nat, s: nat)
      requires s < 32
      modifies pn
      ensures pn[..] == Shl(old(pn[..]), k, s)
    {
      var a := new Uint.Copy(this);
      ghost var x := pn[..];
      SetZero();
      ShlBefore(x, k, s);
      for i := 0 to pn.Length
        invariant a.pn[..] == x
        invariant forall j :: 0 <= j < pn.Length ==> pn[j] == ShlPartial(x, k, s, i, j)
      {
        if i + k < pn.Length { ShlAt(x, k, s, i); }
        if i + k + 1 < pn.Length && s != 0 {
          OrLimb(i + k + 1, RightWord(a.pn[i], 32 - s));
        }
        if i + k < pn.Length {
          OrLimb(i + k, LeftWord(a.pn[i], s));
        }
      }
    }

    /** operator<<=. */
    method ShlAssign(shift: nat)
      modifies pn
      ensures Value() == Mod(Times(old(Value()), Pow2(shift)), Modulus())
    {
      var k, s := shift / 32, shift % 32;
      ShlVal(pn[..], k, s);
      ShlLimbs(k, s);
    }

    /** The loop of operator>>=. */
    method ShrLimbs(k: nat, s: nat)
      requires s < 32
      modifies pn
      ensures pn[..] == Shr(old(pn[..]), k, s)
    {
      var a := new Uint.Copy(this);
      ghost var x := pn[..];
      SetZero();
      for i := 0 to pn.Length
        invariant a.pn[..] == x
        invariant forall j :: 0 <= j < pn.Length ==> pn[j] == ShrPartial(x, k, s, i, j)
      {
        ShrRound(a, k, s, i);
      }
      ShrAfter(x, k, s);
    }

    method ShrRound(a: Uint, k: nat, s: nat, i: nat)
      requires s < 32 && i < pn.Length == a.pn.Length && a.pn != pn
      requires forall j :: 0 <= j < pn.Length ==> pn[j] == ShrPartial(a.pn[..], k, s, i, j)
      modifies pn
      ensures forall j :: 0 <= j < pn.Length ==> pn[j] == ShrPartial(a.pn[..], k, s, i + 1, j)
    {
      if i - k - 1 >= 0 {
        ShrAt(a.pn[..], k, s, i - k - 1);
        if s != 0 {
          OrLimb(i - k - 1, LeftWord(a.pn[i], 32 - s));
        }
      }
      if i - k >= 0 {
        OrLimb(i - k, RightWord(a.pn[i], s));
      }
    }

    /** operator>>=. */
    method ShrAssign(shift: nat)
      modifies pn
      ensures Value() == Quot(old(Value()), Pow2(shift))
    {
      var k, s := shift / 32, shift % 32;
      ShrVal(pn[..], k, s);
      ShrLimbs(k, s);
    }

    // ----- Comparison and bit length -----

    method CompareTo(b: Uint) returns (r: int)
      requires pn.Length == b.pn.Length
      ensures r == if Value() < b.Value() then -1 else if Value() > b.Value() then 1 else 0
    {
      for i := pn.Length downto 0
        invariant pn[i..] == b.pn[i..]
      {
        if pn[i] < b.pn[i] {
          CompareTop(pn[..], b.pn[..], i);
          return -1;
        }
        if pn[i] > b.pn[i] {
          CompareTop(b.pn[..], pn[..], i);
          return 1;
        }
      }
      assert pn[..] == b.pn[..];
      return 0;
    }

    /** Comparison with a 64-bit word. */
    method EqualTo(b: nat) returns (r: bool)
      requires pn.Length >= 2 && b < B * B
      ensures r == (Value() == b)
    {
      ghost var high := pn[2..];
      assert pn[..] == [pn[0]] + ([pn[1]] + high);
      ValCons(pn[1], high);
      ValCons(pn[0], [pn[1]] + high);
      for i := pn.Length downto 2
        invariant forall j :: i <= j < pn.Length ==> pn[j] == 0
      {
        if pn[i] != 0 {
          NonZeroLimb(high, i - 2);
          return false;
        }
      }
      ZeroLimbs(high);
      return pn[1] == b / B && pn[0] == b % B;
    }

    method TopBit(pos: nat) returns (n: nat)
      requires pos < pn.Length && pn[pos] != 0
      ensures n < 32 && Pow2(n) <= pn[pos] < Pow2(n + 1)
    {
      WordIsPow2();
      n := 31;
      while n > 0
        invariant n < 32 && pn[pos] < Pow2(n + 1)
      {
        BitTest(pn[pos], n);
        if (pn[pos] / Pow2(n)) % 2 == 1 { return; }
        n := n - 1;
      }
    }

    method Bits() returns (n: nat)
      ensures BitLength(Value(), n) && n <= 32 * pn.Length
    {
      for pos := pn.Length downto 0
        invariant forall i :: pos <= i < pn.Length ==> pn[i] == 0
      {
        if pn[pos] != 0 {
          var b := TopBit(pos);
          TopLimb(pn[..], pos, b);
          return 32 * pos + b + 1;
        }
      }
      ZeroLimbs(pn[..]);
      return 0;
    }

    /** The lowest 64 bits: pn[0] | pn[1] << 32. */
    method GetLow64() returns (r: nat)
      requires pn.Length >= 2
      ensures r == Mod(Value(), PowB(2)) && r < B * B
      ensures Value() < B * B ==> r == Value()
    {
      WordIsPow2();
      OrDisjoint(pn[0], pn[1], 32);
      TimesIs(pn[1], B);
      r := Or(pn[0], pn[1] * B);
      ghost var high := pn[2..];
      assert pn[..] == [pn[0]] + ([pn[1]] + high);
      ValCons(pn[1], high);
      ValCons(pn[0], [pn[1]] + high);
      ValSplit(pn[..], 2);
      ModMultiple(Val(pn[..2]), Val(pn[..][2..]), PowB(2));
    }

    // ----- Division -----

    /** Subtracts the shifted divisor and sets the bit of the quotient. */
    method TakeBit(num: Uint, div: Uint, shift: nat)
      requires pn.Length == num.pn.Length == div.pn.Length && shift < 32 * pn.Length
      requires pn != num.pn && pn != div.pn && num.pn != div.pn
      requires num.Value() >= div.Value() && ClearBelow(pn[..], shift + 1)
      modifies pn, num.pn
      ensures num.Value() == old(num.Value()) - div.Value()
      ensures Value() == old(Value()) + Pow2(shift) && ClearBelow(pn[..], shift)
    {
      BitSet(pn[..], shift / 32, shift % 32);
      ModSmall(num.Value() - div.Value(), num.Modulus());
      num.MinusAssign(div);
      OrLimbBit(shift / 32, shift % 32);
    }

    method DivideBit(num: Uint, div: Uint, shift: nat, ghost dividend: nat, ghost divisor: nat)
      requires pn.Length == num.pn.Length == div.pn.Length && shift < 32 * pn.Length
      requires pn != num.pn && pn != div.pn && num.pn != div.pn
      requires div.Value() == Times(divisor, Pow2(shift))
      requires Dividing(dividend, divisor, Value(), num.Value(), shift) && ClearBelow(pn[..], shift + 1)
      modifies pn, num.pn
      ensures Dividing(dividend, divisor, Value(), num.Value(), shift - 1) && ClearBelow(pn[..], shift)
    {
      var c := num.CompareTo(div);
      if c >= 0 {
        DivisionTakes(dividend, divisor, Value(), num.Value(), shift);
        TakeBit(num, div, shift);
      } else {
        DivisionSkips(dividend, divisor, Value(), num.Value(), shift);
        ClearWeaken(pn[..], shift);
      }
    }

    /** pn[k] |= 1 << b. */
    method OrLimbBit(k: nat, b: nat)
      requires k < pn.Length && b < 32
      modifies pn
      ensures Or(old(pn[k]), Pow2(b)) < B && pn[..] == old(pn[..])[k := Or(old(pn[k]), Pow2(b))]
    {
      BitsOfWord(b);
      OrLimb(k, Pow2(b));
    }

    method DivideBits(num: Uint, div: Uint, start: nat, ghost dividend: nat, ghost divisor: nat)
      requires pn.Length == num.pn.Length == div.pn.Length && start < 32 * pn.Length
      requires pn != num.pn && pn != div.pn && num.pn != div.pn
      requires div.Value() == Times(divisor, Pow2(start)) && divisor > 0
      requires Dividing(dividend, divisor, Value(), num.Value(), start) && ClearBelow(pn[..], start + 1)
      modifies pn, num.pn, div.pn
      ensures Value() == Quot(dividend, divisor) && num.Value() == Mod(dividend, divisor)
    {
      var shift: int := start;
      while shift >= 0
        invariant -1 <= shift <= start
        invariant Dividing(dividend, divisor, Value(), num.Value(), shift) && ClearBelow(pn[..], shift + 1)
        invariant shift >= 0 ==> div.Value() == Times(divisor, Pow2(shift))
      {
        DivideBit(num, div, shift, dividend, divisor);
        if shift > 0 { ShiftBack(divisor, shift); }
        assert Pow2(1) == 2;
        div.ShrAssign(1);
        shift := shift - 1;
      }
      DivisionEnds(dividend, divisor, Value(), num.Value());
    }

    /** operator/=: floor division; a zero divisor is reported after the object
        was set to zero. */
    method DivAssign(b: Uint) returns (ok: bool)
      requires b.pn.Length == pn.Length
      modifies pn
      ensures ok <==> old(b.Value()) != 0
      ensures Value() == if ok then Quot(old(Value()), old(b.Value())) else 0
    {
      var div := new Uint.Copy(b);
      var num := new Uint.Copy(this);
      ghost var dividend, divisor := Value(), b.Value();
      SetZero();
      ZerosVal(pn.Length);
      var numBits := num.Bits();
      var divBits := div.Bits();
      if divBits == 0 {
        return false;
      }
      ok := true;
      if divBits > numBits {
        Pow2Mono(numBits, divBits - 1);
        return;
      }
      var shift := numBits - divBits;
      DivisionStarts(dividend, divisor, numBits, divBits);
      PowBIsPow2(pn.Length);
      Pow2Mono(numBits, 32 * pn.Length);
      ModSmall(Times(divisor, Pow2(shift)), Modulus());
      ZerosClear(pn.Length, shift + 1);
      div.ShlAssign(shift);
      DivideBits(num, div, shift, dividend, divisor);
    }
  }

  /** What the limb below leaves for limb i in a left shift. */
  function ShlIn(x: seq<uint32>, s: nat, i: nat): uint32
    requires i <= |x| && s < 32
  {
    if i == 0 || s == 0 then 0 else RightWord(x[i - 1], 32 - s)
  }

  lemma ShlUnfold(x: seq<uint32>, s: nat, carry: nat, i: nat, mw: seq<uint32>)
    requires s < 32 && i < |x| == |mw| && carry < Pow2(s) < B
    requires mw[i..] == MulAdd(Zeros(|x|)[i..], x[i..], Pow2(s), carry)
    ensures mw[i] == Or(carry, LeftWord(x[i], s)) && ShlIn(x, s, i + 1) < Pow2(s)
    ensures mw[i + 1..] == MulAdd(Zeros(|x|)[i + 1..], x[i + 1..], Pow2(s), ShlIn(x, s, i + 1))
  {
    MulAddUnfold(Zeros(|x|), x, Pow2(s), carry, i, mw);
    ShlDigit(x[i], s, carry);
    TimesIs(Pow2(s), x[i]);
    Halves(carry + Times(Pow2(s), x[i]));
  }

  lemma {:induction false} ShlChain(x: seq<uint32>, s: nat, i: nat)
    requires s < 32 && i <= |x| && Pow2(s) < B
    ensures ShlIn(x, s, i) < Pow2(s)
    ensures MulWord(x, Pow2(s))[i..] == MulAdd(Zeros(|x|)[i..], x[i..], Pow2(s), ShlIn(x, s, i))
  {
    if i == 0 {
      assert Zeros(|x|)[0..] == Zeros(|x|) && x[0..] == x;
    } else {
      ShlChain(x, s, i - 1);
      ShlUnfold(x, s, ShlIn(x, s, i - 1), i - 1, MulWord(x, Pow2(s)));
    }
  }

  /** Limb j after i rounds of the left shift. */
  function ShlPartial(x: seq<uint32>, k: nat, s: nat, i: nat, j: nat): uint32
    requires s < 32 && i <= |x| && j < |x|
  {
    if j < k + i then Shl(x, k, s)[j] else if j == k + i then ShlIn(x, s, i) else 0
  }

  lemma ShlBefore(x: seq<uint32>, k: nat, s: nat)
    requires s < 32
    ensures forall j :: 0 <= j < |x| ==> ShlPartial(x, k, s, 0, j) == 0
  {
  }

  lemma ShlAt(x: seq<uint32>, k: nat, s: nat, i: nat)
    requires s < 32 && k + i < |x|
    ensures Shl(x, k, s)[k + i] == Or(ShlIn(x, s, i), LeftWord(x[i], s))
  {
    BitsOfWord(s);
    var low := x[..|x| - k];
    ShlChain(low, s, i);
    ShlUnfold(low, s, ShlIn(low, s, i), i, MulWord(low, Pow2(s)));
  }

  /** Limb j after i rounds of the right shift. */
  function ShrPartial(x: seq<uint32>, k: nat, s: nat, i: nat, j: nat): uint32
    requires s < 32 && i <= |x| && j < |x|
  {
    if j < i - k - 1 then Shr(x, k, s)[j] else if j == i - k - 1 then RightWord(x[i - 1], s) else 0
  }

  /** Limb j of the shifted number, from its two sources. */
  lemma ShrAt(x: seq<uint32>, k: nat, s: nat, j: nat)
    requires s < 32 && j + k < |x|
    ensures Shr(x, k, s)[j] ==
      if s == 0 || j + k + 1 == |x| then RightWord(x[j + k], s)
      else Or(RightWord(x[j + k], s), LeftWord(x[j + k + 1], 32 - s))
  {
    ShrBitsAt(x[k..], s, j);
    QuotIs(x[j + k], Pow2(s));
    var rest := x[k..][j + 1..];
    TimesIs(0, Pow2(32 - s));
    if rest != [] {
      assert rest[0] == x[j + k + 1];
      if s > 0 { ShrDigit(x[j + k], x[j + k + 1], s); }
    }
  }

  lemma ShrAfter(x: seq<uint32>, k: nat, s: nat)
    requires s < 32
    ensures forall j :: 0 <= j < |x| ==> ShrPartial(x, k, s, |x|, j) == Shr(x, k, s)[j]
  {
    if k < |x| { ShrAt(x, k, s, |x| - k - 1); }
  }

  lemma MulRowsUnfold(acc: seq<uint32>, x: seq<uint32>, y: seq<uint32>, j: nat, r: seq<uint32>)
    requires j < |x| == |y| == |r| && |acc| == |x| - j && r[j..] == MulRows(acc, x[j..], y)
    ensures var row := MulAdd(acc, y, x[j], 0);
      r[j] == row[0] && r[j + 1..] == MulRows(row[1..], x[j + 1..], y)
  {
    var row := MulAdd(acc, y, x[j], 0);
    assert x[j..][1..] == x[j + 1..];
    TakeLimb(r, j, row[0], MulRows(row[1..], x[j + 1..], y));
  }

  lemma {:induction false} NonZeroLimb(s: seq<uint32>, i: nat)
    requires i < |s| && s[i] != 0
    ensures Val(s) > 0
  {
    if i > 0 { NonZeroLimb(s[1..], i - 1); }
  }

  lemma SameTail(s: seq<uint32>, x: seq<uint32>, r: seq<uint32>, i: nat)
    requires |s| == |x| == |r| && i <= |s| && r[i..] == x[i..]
    requires forall j :: 0 <= j < i ==> s[j] == r[j]
    requires forall j :: i <= j < |s| ==> s[j] == x[j]
    ensures s == r
  {
    forall j | i <= j < |s| ensures s[j] == r[j] {
      assert r[j] == r[i..][j - i] && x[j] == x[i..][j - i];
    }
  }
}
