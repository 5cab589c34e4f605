/**
  The compact encoding of difficulty targets (src/arith_uint256.cpp:207-248): an
  exponent of base 256 and a mantissa of 23 bits.
*/
module Compact {
  import opened Arithmetic
  import opened Limbs
  import opened LimbShifts
  import opened BaseUint

  const SIGN_BIT := 0x80_0000
  const EXPONENT := 0x100_0000

  // ----- Bit lengths -----

  function NumBits(v: nat): nat {
    if v == 0 then 0 else 1 + NumBits(v / 2)
  }

  lemma {:induction false} NumBitsIs(v: nat)
    ensures BitLength(v, NumBits(v))
  {
    if v > 0 {
      NumBitsIs(v / 2);
      if v / 2 == 0 { assert NumBits(v) == 1; }
    }
  }

  lemma BitsWithin(v: nat, b: nat, n: nat)
    requires BitLength(v, b) && v < Pow2(n)
    ensures b <= n
  {
    if n < b { Pow2Mono(n, b - 1); }
  }

  lemma NumBitsBelow(v: nat, n: nat)
    requires v < Pow2(n)
    ensures NumBits(v) <= n
  {
    NumBitsIs(v);
    BitsWithin(v, NumBits(v), n);
  }

  // ----- Decoding -----

  datatype Decoded = Decoded(value: nat, negative: bool, overflow: bool)

  /** The mantissa; small exponents cut bytes off it. */
  function Mantissa(nCompact: uint32): uint32 {
    var nSize := nCompact / EXPONENT;
    if nSize <= 3 then Quot(nCompact % SIGN_BIT, Pow2(8 * (3 - nSize))) else nCompact % SIGN_BIT
  }

  /** SetCompact; m is 2^256. */
  function Decode(nCompact: uint32, m: nat): Decoded
    requires m > 0
  {
    var nSize := nCompact / EXPONENT;
    var nWord := Mantissa(nCompact);
    Decoded(
      if nSize <= 3 then nWord else Mod(Times(nWord, Pow2(8 * (nSize - 3))), m),
      nWord != 0 && nCompact / SIGN_BIT % 2 == 1,
      nWord != 0 && (nSize > 34 || (nWord > 0xff && nSize > 33) || (nWord > 0xffff && nSize > 32)))
  }

  lemma ScaledBelow(w: nat, a: nat, e: nat)
    requires w < Pow2(a)
    ensures 0 <= Times(w, Pow2(e)) <= Pow2(a + e) - Pow2(e)
  {
    Pow2Add(a, e);
    TimesNonNegative(w, Pow2(e));
    TimesMono(w, Pow2(a) - 1, Pow2(e));
    TimesAdds(Pow2(a) - 1, 1, Pow2(e));
    TimesIs(1, Pow2(e));
  }

  lemma ScaledAbove(w: nat, a: nat, e: nat)
    requires w >= Pow2(a)
    ensures Times(w, Pow2(e)) >= Pow2(a + e)
  {
    Pow2Add(a, e);
    TimesMono(Pow2(a), w, Pow2(e));
  }

  lemma SmallPowers()
    ensures Pow2(0) == 1 && Pow2(8) == 0x100 && Pow2(15) == 0x8000 && Pow2(16) == 0x1_0000
    ensures Pow2(23) == 0x80_0000 && Pow2(24) == 0x100_0000
  {
  }

  /** The overflow flag is exact: it is raised when the number the encoding
      stands for needs more than 256 bits, and only then. */
  lemma OverflowExact(nCompact: uint32, m: nat)
    requires nCompact / EXPONENT > 3 && m == PowB(8)
    ensures Decode(nCompact, m).overflow <==> Times(Mantissa(nCompact), Pow2(8 * (nCompact / EXPONENT - 3))) >= m
  {
    OverflowCases(nCompact / EXPONENT, Mantissa(nCompact), 8);
  }

  lemma OverflowCases(nSize: nat, w: nat, width: nat)
    requires nSize > 3 && w < SIGN_BIT && width == 8
    ensures (w != 0 && (nSize > 34 || (w > 0xff && nSize > 33) || (w > 0xffff && nSize > 32)))
      <==> Times(w, Pow2(8 * (nSize - 3))) >= PowB(width)
  {
    PowBIsPow2(width);
    var bits := 32 * width;
    if w == 0 {
      TimesIs(0, Pow2(8 * (nSize - 3)));
    } else if nSize > 34 {
      ScaledAbove(w, 0, 8 * (nSize - 3));
      Pow2Mono(bits, 8 * (nSize - 3));
    } else if nSize > 32 {
      OverflowEdge(nSize, w, bits);
    } else {
      NoOverflow(nSize, w, bits);
    }
  }

  lemma OverflowEdge(nSize: nat, w: nat, bits: nat)
    requires 33 <= nSize <= 34 && bits == 256
    ensures w > (if nSize == 34 then 0xff else 0xffff) <==> Times(w, Pow2(8 * (nSize - 3))) >= Pow2(bits)
  {
    SmallPowers();
    FitsExactly(w, if nSize == 34 then 8 else 16, 8 * (nSize - 3));
  }

  lemma NoOverflow(nSize: nat, w: nat, bits: nat)
    requires 3 < nSize <= 32 && w < SIGN_BIT && bits == 256
    ensures Times(w, Pow2(8 * (nSize - 3))) < Pow2(bits)
  {
    SmallPowers();
    ScaledBelow(w, 23, 8 * (nSize - 3));
    Pow2Mono(23 + 8 * (nSize - 3), bits);
  }

  lemma FitsExactly(w: nat, a: nat, e: nat)
    ensures Times(w, Pow2(e)) >= Pow2(a + e) <==> w >= Pow2(a)
  {
    if w < Pow2(a) { ScaledBelow(w, a, e); } else { ScaledAbove(w, a, e); }
  }

  /** Without overflow the value is the mantissa times its power of 256. */
  lemma DecodedValue(nCompact: uint32, m: nat)
    requires m == PowB(8) && !Decode(nCompact, m).overflow && nCompact / EXPONENT > 3
    ensures Decode(nCompact, m).value == Times(Mantissa(nCompact), Pow2(8 * (nCompact / EXPONENT - 3)))
  {
    var e := 8 * (nCompact / EXPONENT - 3);
    OverflowExact(nCompact, m);
    TimesNonNegative(Mantissa(nCompact), Pow2(e));
    ModSmall(Times(Mantissa(nCompact), Pow2(e)), m);
  }

  // ----- Encoding -----

  /** Size and mantissa before the sign bit is made free. */
  function FirstSize(v: nat): nat { (NumBits(v) + 7) / 8 }

  function FirstWord(v: nat): nat {
    var nSize := FirstSize(v);
    if nSize <= 3 then
      TimesNonNegative(v, Pow2(8 * (3 - nSize)));
      Times(v, Pow2(8 * (3 - nSize)))
    else Quot(v, Pow2(8 * (nSize - 3)))
  }

  /** Size and mantissa of the encoding. */
  function Size(v: nat): nat {
    if FirstWord(v) >= SIGN_BIT then FirstSize(v) + 1 else FirstSize(v)
  }

  function Word(v: nat): nat {
    if FirstWord(v) >= SIGN_BIT then FirstWord(v) / 256 else FirstWord(v)
  }

  /** GetCompact. */
  function Encode(v: nat, negative: bool): nat {
    Word(v) + EXPONENT * Size(v) + if negative && Word(v) != 0 then SIGN_BIT else 0
  }

  /** How many bytes of v the encoding drops. */
  function DroppedBytes(v: nat): nat {
    if NumBits(v) < 24 then 0 else NumBits(v) / 8 - 2
  }

  lemma QuotBelow(v: nat, a: nat, e: nat)
    requires v < Pow2(a + e)
    ensures Quot(v, Pow2(e)) < Pow2(a)
  {
    QuotMod(v, Pow2(e));
    if Quot(v, Pow2(e)) >= Pow2(a) { ScaledAbove(Quot(v, Pow2(e)), a, e); }
  }

  lemma QuotAbove(v: nat, a: nat, e: nat)
    requires v >= Pow2(a + e)
    ensures Quot(v, Pow2(e)) >= Pow2(a)
  {
    QuotMod(v, Pow2(e));
    if Quot(v, Pow2(e)) < Pow2(a) { ScaledBelow(Quot(v, Pow2(e)), a, e); }
  }

  lemma ScaledQuot(v: nat, b: nat, e: nat)
    requires BitLength(v, b) && e < b
    ensures BitLength(Quot(v, Pow2(e)), b - e)
  {
    BitsOfQuot(v, b - e - 1, e);
  }

  lemma BitsOfQuot(v: nat, n: nat, e: nat)
    requires Pow2(n + e) <= v < Pow2(n + 1 + e)
    ensures BitLength(Quot(v, Pow2(e)), n + 1)
  {
    QuotBelow(v, n + 1, e);
    QuotAbove(v, n, e);
    HasBits(Quot(v, Pow2(e)), n);
  }

  lemma ScaledTimes(v: nat, b: nat, e: nat)
    requires v < Pow2(b + 1) && v >= Pow2(b)
    ensures Times(v, Pow2(e)) >= 0 && BitLength(Times(v, Pow2(e)), b + e + 1)
  {
    ScaledBelow(v, b + 1, e);
    ScaledAbove(v, b, e);
    HasBits(Times(v, Pow2(e)), b + e);
  }

  lemma HasBits(x: nat, n: nat)
    requires Pow2(n) <= x < Pow2(n + 1)
    ensures BitLength(x, n + 1)
  {
  }

  /** The first mantissa has 24 bits when the highest byte is full, and else
      between 17 and 23. */
  lemma FirstWordBits(v: nat)
    requires v > 0
    ensures BitLength(FirstWord(v), NumBits(v) + 24 - 8 * FirstSize(v))
    ensures NumBits(v) > 0
  {
    NumBitsIs(v);
    var b, n := NumBits(v), FirstSize(v);
    if n <= 3 {
      ScaledTimes(v, b - 1, 8 * (3 - n));
    } else {
      ScaledQuot(v, b, 8 * (n - 3));
    }
  }

  lemma SignBitTest(v: nat)
    requires v > 0
    ensures FirstWord(v) >= SIGN_BIT <==> NumBits(v) == 8 * FirstSize(v)
    ensures FirstWord(v) < EXPONENT
  {
    SmallPowers();
    FirstWordBits(v);
    var b, f := NumBits(v) + 24 - 8 * FirstSize(v), FirstWord(v);
    assert 17 <= b <= 24;
    if b < 24 { Pow2Mono(b, 23); } else { Pow2Mono(23, b - 1); }
    Pow2Mono(b, 24);
  }

  lemma QuotQuot(v: nat, e: nat)
    ensures Quot(v, Pow2(e)) / 256 == Quot(v, Pow2(e + 8))
  {
    var q := Quot(v, Pow2(e));
    QuotMod(v, Pow2(e));
    QuotMod(q, 256);
    QuotIs(q, 256);
    QuotTwice(Quot(q, 256), Mod(q, 256), Mod(v, Pow2(e)), e);
  }

  lemma QuotTwice(hi: nat, lo: nat, r: nat, e: nat)
    requires lo < 256 && r < Pow2(e)
    ensures Times(Times(hi, 256) + lo, Pow2(e)) + r >= 0
    ensures Quot(Times(Times(hi, 256) + lo, Pow2(e)) + r, Pow2(e + 8)) == hi
  {
    SmallPowers();
    Pow2Add(8, e);
    TimesAdds(Times(hi, 256), lo, Pow2(e));
    TimesAssociates(hi, 256, Pow2(e));
    ScaledBelow(lo, 8, e);
    QuotMultiple(hi, Times(lo, Pow2(e)) + r, Pow2(e + 8));
  }

  /** Up to 23 bits the mantissa is the number itself, moved up; beyond, the
      encoding keeps the number without its dropped bytes. */
  lemma WordSmall(v: nat)
    requires v > 0 && DroppedBytes(v) == 0
    ensures Size(v) <= 3 && Word(v) == Times(v, Pow2(8 * (3 - Size(v)))) && Word(v) < SIGN_BIT
  {
    SmallPowers();
    SignBitTest(v);
    FirstWordBits(v);
    var n := FirstSize(v);
    if FirstWord(v) >= SIGN_BIT {
      assert n <= 2;
      Pow2Add(8, 8 * (2 - n));
      TimesIs(0x100, Pow2(8 * (2 - n)));
      TimesScales(v, 0x100, Pow2(8 * (2 - n)));
    }
  }

  lemma WordLarge(v: nat)
    requires v > 0 && DroppedBytes(v) > 0
    ensures Size(v) == DroppedBytes(v) + 3 && Word(v) == Quot(v, Pow2(8 * DroppedBytes(v)))
  {
    SmallPowers();
    SignBitTest(v);
    FirstWordBits(v);
    var n := FirstSize(v);
    if FirstWord(v) >= SIGN_BIT {
      if n == 3 {
        TimesIs(v, 1);
        QuotIs(v, 0x100);
      } else {
        QuotQuot(v, 8 * (n - 3));
      }
    }
  }

  lemma WordBounds(v: nat)
    requires v > 0 && DroppedBytes(v) > 0
    ensures 0x8000 <= Word(v) < SIGN_BIT
  {
    SmallPowers();
    WordLarge(v);
    NumBitsIs(v);
    var b, e := NumBits(v), 8 * DroppedBytes(v);
    ScaledQuot(v, b, e);
    Pow2Mono(15, b - e - 1);
    Pow2Mono(b - e, 23);
  }

  /** What the encoding can express of v. */
  function Rounded(v: nat): int {
    Times(Quot(v, Pow2(8 * DroppedBytes(v))), Pow2(8 * DroppedBytes(v)))
  }

  /** The encoding never exceeds v and loses less than one part in 2^15. */
  lemma Loss(v: nat)
    ensures 0 <= Rounded(v) <= v
    ensures v > 0 ==> (v - Rounded(v)) * 0x8000 < v
    ensures v < 0x80_0000 ==> Rounded(v) == v
  {
    var p := Pow2(8 * DroppedBytes(v));
    QuotMod(v, p);
    if DroppedBytes(v) == 0 {
      TimesIs(Quot(v, p), 1);
    } else {
      WordBounds(v);
      WordLarge(v);
      TimesMono(0x8000, Quot(v, p), p);
      TimesIs(0x8000, p);
    }
    if v < 0x80_0000 {
      SmallPowers();
      NumBitsBelow(v, 23);
    }
  }

  /** The parts of an encoding do not overlap. */
  lemma Fields(w: nat, n: nat)
    requires w < SIGN_BIT && n < 256
    ensures var c := w + EXPONENT * n;
      0 <= c < B && c / EXPONENT == n && c % SIGN_BIT == w && c / SIGN_BIT % 2 == 0
  {
  }

  lemma SizeFits(v: nat, width: nat)
    requires v < PowB(width) && width == 8
    ensures NumBits(v) <= 256 && Size(v) <= 33
  {
    PowBIsPow2(width);
    NumBitsBelow(v, 32 * width);
    if v > 0 { SignBitTest(v); }
  }

  /** Decoding an encoded target gives it back rounded down, with no flag
      raised; both assertions of the source hold. */
  lemma RoundTrip(v: nat, m: nat)
    requires v < m == PowB(8)
    ensures Word(v) < SIGN_BIT && Size(v) < 256 && 0 <= Encode(v, false) < B
    ensures 0 <= Rounded(v) && Decode(Encode(v, false), m) == Decoded(Rounded(v), false, false)
  {
    SizeFits(v, 8);
    if v == 0 {
      RoundTripZero(v);
      DecodeZero(Encode(v, false), m);
    } else if DroppedBytes(v) == 0 {
      RoundTripSmall(v, m);
      RoundedSmall(v);
    } else {
      RoundTripLarge(v, m);
    }
  }

  /** Setting the sign bit of an encoding changes the sign of what it stands for,
      unless that is 0. */
  lemma SignSets(c: uint32, m: nat)
    requires c / SIGN_BIT % 2 == 0 && m > 0
    ensures c + SIGN_BIT < B && Mantissa(c + SIGN_BIT) == Mantissa(c)
    ensures Decode(c + SIGN_BIT, m) == Decode(c, m).(negative := Mantissa(c) != 0)
  {
    assert (c + SIGN_BIT) / EXPONENT == c / EXPONENT && (c + SIGN_BIT) % SIGN_BIT == c % SIGN_BIT;
    assert (c + SIGN_BIT) / SIGN_BIT % 2 == 1;
  }

  lemma NoMantissa(c: uint32, m: nat)
    requires m > 0
    ensures Mantissa(c) == 0 ==> Decode(c, m).value == 0
    ensures c % SIGN_BIT == 0 ==> Mantissa(c) == 0
  {
    if Mantissa(c) == 0 && c / EXPONENT > 3 { TimesIs(0, Pow2(8 * (c / EXPONENT - 3))); }
  }

  /** The sign comes back as well, but for 0. */
  lemma SignRoundTrip(v: nat, negative: bool, m: nat)
    requires v < m == PowB(8)
    ensures 0 <= Encode(v, negative) < B && 0 <= Rounded(v)
    ensures Decode(Encode(v, negative), m) == Decoded(Rounded(v), negative && v != 0, false)
  {
    RoundTrip(v, m);
    if v == 0 {
      RoundTripZero(v);
    } else {
      Loss(v);
      SignedParts(Word(v), Size(v), Encode(v, false), Rounded(v), m);
    }
  }

  lemma SignedParts(w: nat, n: nat, c: nat, r: nat, m: nat)
    requires w < SIGN_BIT && n < 256 && c == w + EXPONENT * n && c < B && m > 0 && r > 0
    requires Decode(c, m) == Decoded(r, false, false)
    ensures w != 0 && c + SIGN_BIT < B && Decode(c + SIGN_BIT, m) == Decoded(r, true, false)
  {
    Fields(w, n);
    NoMantissa(c, m);
    SignSets(c, m);
  }

  lemma RoundTripZero(v: nat)
    requires v == 0
    ensures Word(v) == 0 && Encode(v, false) == 0 && Rounded(v) == 0
  {
    TimesIs(0, Pow2(8 * (3 - FirstSize(v))));
    TimesIs(0, Pow2(8 * DroppedBytes(v)));
  }

  lemma DecodeZero(c: uint32, m: nat)
    requires c == 0 && m > 0
    ensures Decode(c, m) == Decoded(0, false, false)
  {
    DecodeSmall(c, c, c, m);
  }

  lemma DecodeLarge(c: uint32, n: nat, w: nat, m: nat)
    requires m == PowB(8) && 3 < n == c / EXPONENT && w == c % SIGN_BIT && c / SIGN_BIT % 2 == 0
    requires 0 <= Times(w, Pow2(8 * (n - 3))) < m
    ensures Decode(c, m) == Decoded(Times(w, Pow2(8 * (n - 3))), false, false)
  {
    OverflowExact(c, m);
    DecodedValue(c, m);
  }

  lemma DecodeSmall(c: uint32, n: nat, w: nat, m: nat)
    requires m > 0 && 3 >= n == c / EXPONENT && w == c % SIGN_BIT && c / SIGN_BIT % 2 == 0
    ensures Decode(c, m) == Decoded(Quot(w, Pow2(8 * (3 - n))), false, false)
  {
  }

  lemma PartsSmall(v: nat, w: nat, n: nat, c: nat, m: nat)
    requires m > 0 && n <= 3 && w == Times(v, Pow2(8 * (3 - n))) && w < SIGN_BIT && c == w + EXPONENT * n
    ensures c < B && Decode(c, m) == Decoded(v, false, false)
  {
    Fields(w, n);
    QuotMultiple(v, 0, Pow2(8 * (3 - n)));
    DecodeSmall(c, n, w, m);
  }

  lemma PartsLarge(w: nat, n: nat, c: nat, m: nat)
    requires m == PowB(8) && 3 < n < 256 && w < SIGN_BIT && c == w + EXPONENT * n
    requires 0 <= Times(w, Pow2(8 * (n - 3))) < m
    ensures c < B && Decode(c, m) == Decoded(Times(w, Pow2(8 * (n - 3))), false, false)
  {
    Fields(w, n);
    DecodeLarge(c, n, w, m);
  }

  lemma RoundTripSmall(v: nat, m: nat)
    requires 0 < v < m && DroppedBytes(v) == 0
    ensures Word(v) < SIGN_BIT && 0 <= Encode(v, false) < B
    ensures Decode(Encode(v, false), m) == Decoded(v, false, false)
  {
    WordSmall(v);
    PartsSmall(v, Word(v), Size(v), Encode(v, false), m);
  }

  lemma RoundTripLarge(v: nat, m: nat)
    requires 0 < v < m == PowB(8) && DroppedBytes(v) > 0 && Size(v) < 256
    ensures Word(v) < SIGN_BIT && 0 <= Encode(v, false) < B
    ensures 0 <= Rounded(v) && Decode(Encode(v, false), m) == Decoded(Rounded(v), false, false)
  {
    WordBounds(v);
    WordLarge(v);
    Loss(v);
    PartsLarge(Word(v), Size(v), Encode(v, false), m);
  }

  lemma RoundedSmall(v: nat)
    requires DroppedBytes(v) == 0
    ensures Rounded(v) == v
  {
    TimesIs(Quot(v, 1), 1);
    QuotMod(v, 1);
  }

  /** Numbers that lose more bytes are larger than all that lose fewer, also
      after rounding. */
  lemma Separated(v: nat, w: nat)
    requires DroppedBytes(v) < DroppedBytes(w)
    ensures v <= Rounded(w)
  {
    var k := DroppedBytes(w);
    WordBounds(w);
    WordLarge(w);
    SmallPowers();
    ScaledAbove(Word(w), 15, 8 * k);
    NumBitsIs(v);
    Pow2Mono(NumBits(v), 15 + 8 * k);
  }

  /** Rounding is monotone. */
  lemma RoundedMonotone(v: nat, w: nat)
    requires v <= w
    ensures Rounded(v) <= Rounded(w)
  {
    Loss(v);
    NumBitsIs(v);
    NumBitsIs(w);
    BitsWithin(v, NumBits(v), NumBits(w));
    if DroppedBytes(v) < DroppedBytes(w) {
      Separated(v, w);
    } else {
      QuotMonotone(v, w, Pow2(8 * DroppedBytes(v)));
      TimesMono(Quot(v, Pow2(8 * DroppedBytes(v))), Quot(w, Pow2(8 * DroppedBytes(v))), Pow2(8 * DroppedBytes(v)));
    }
  }

  // ----- On 256-bit objects -----

  method SetCompact(u: Uint, nCompact: uint32) returns (fNegative: bool, fOverflow: bool)
    requires u.pn.Length >= 2
    modifies u.pn
    ensures Decoded(u.Value(), fNegative, fOverflow) == Decode(nCompact, u.Modulus())
  {
    var nSize := nCompact / EXPONENT;
    var nWord := nCompact % SIGN_BIT;
    if nSize <= 3 {
      QuotIs(nWord, Pow2(8 * (3 - nSize)));
      nWord := RightWord(nWord, 8 * (3 - nSize));
      u.SetWord(nWord);
    } else {
      u.SetWord(nWord);
      u.ShlAssign(8 * (nSize - 3));
    }
    fNegative := nWord != 0 && nCompact / SIGN_BIT % 2 == 1;
    fOverflow := nWord != 0 && (nSize > 34 || (nWord > 0xff && nSize > 33) || (nWord > 0xffff && nSize > 32));
  }

  /** The mantissa before the sign bit is made free, as a 32-bit word. */
  method SmallMantissa(u: Uint, nSize: nat) returns (nCompact: uint32)
    requires u.pn.Length >= 2 && nSize <= 3 && u.Value() < EXPONENT && 0 <= Times(u.Value(), Pow2(8 * (3 - nSize))) < B
    ensures nCompact == Times(u.Value(), Pow2(8 * (3 - nSize)))
  {
    var low := u.GetLow64();
    TimesIs(low, Pow2(8 * (3 - nSize)));
    nCompact := (low * Pow2(8 * (3 - nSize))) % B;
  }

  method LargeMantissa(u: Uint, nSize: nat) returns (nCompact: uint32)
    requires u.pn.Length >= 2 && nSize > 3 && Quot(u.Value(), Pow2(8 * (nSize - 3))) < B
    ensures nCompact == Quot(u.Value(), Pow2(8 * (nSize - 3)))
  {
    var bn := new Uint.Copy(u);
    bn.ShrAssign(8 * (nSize - 3));
    var low := bn.GetLow64();
    nCompact := low % B;
  }

  method FirstMantissa(u: Uint, nSize: nat) returns (nCompact: uint32)
    requires u.pn.Length >= 2 && nSize == FirstSize(u.Value())
    ensures nCompact == FirstWord(u.Value()) && nCompact < EXPONENT
  {
    WordOrSign(u.Value());
    if nSize <= 3 {
      LowSize(u.Value());
      nCompact := SmallMantissa(u, nSize);
    } else {
      nCompact := LargeMantissa(u, nSize);
    }
  }

  lemma LowSize(v: nat)
    requires FirstSize(v) <= 3
    ensures v < EXPONENT
  {
    SmallPowers();
    NumBitsIs(v);
    Pow2Mono(NumBits(v), 24);
  }

  /** The fields are put together with or. */
  lemma OrFields(w: nat, n: nat)
    requires w < SIGN_BIT
    ensures Or(w, n * EXPONENT) == w + EXPONENT * n
  {
    SmallPowers();
    OrDisjoint(w, n, 24);
    TimesIs(n, EXPONENT);
  }

  lemma OrSign(c: nat)
    requires c / SIGN_BIT % 2 == 0
    ensures Or(c, SIGN_BIT) == c + SIGN_BIT
  {
    SmallPowers();
    OrBit(c, 23);
  }

  method Join(w: nat, n: nat, fNegative: bool) returns (r: nat)
    requires w < SIGN_BIT
    ensures r == w + EXPONENT * n + if fNegative && w != 0 then SIGN_BIT else 0
  {
    OrFields(w, n);
    r := Or(w, n * EXPONENT);
    if fNegative && r % SIGN_BIT != 0 {
      OrSign(r);
      r := Or(r, SIGN_BIT);
    }
  }

  /** Frees the sign bit and puts the fields together. */
  method Assemble(first: nat, firstSize: nat, fNegative: bool) returns (r: nat)
    requires first < EXPONENT
    ensures var w, n := if first >= SIGN_BIT then first / 256 else first, if first >= SIGN_BIT then
      firstSize + 1 else firstSize;
      w < SIGN_BIT && r == w + EXPONENT * n + if fNegative && w != 0 then SIGN_BIT else 0
  {
    var nCompact, nSize := first, firstSize;
    if nCompact / SIGN_BIT % 2 == 1 {
      nCompact := nCompact / 256;
      nSize := nSize + 1;
    }
    r := Join(nCompact, nSize, fNegative);
  }

  method GetCompact(u: Uint, fNegative: bool) returns (r: nat)
    requires u.pn.Length >= 2
    ensures r == Encode(u.Value(), fNegative)
  {
    var bits := u.Bits();
    NumBitsIs(u.Value());
    BitLengthUnique(u.Value(), bits, NumBits(u.Value()));
    var nSize := (bits + 7) / 8;
    var nCompact := FirstMantissa(u, nSize);
    r := Assemble(nCompact, nSize, fNegative);
  }

  lemma WordOrSign(v: nat)
    ensures FirstWord(v) < EXPONENT
  {
    if v > 0 { SignBitTest(v); } else { TimesIs(0, Pow2(8 * (3 - FirstSize(v)))); }
  }

  // ----- The work of a block -----

  /** How many hashes a block with this target takes on average. */
  function Work(nBits: uint32, m: nat): nat
    requires m > 0
  {
    var d := Decode(nBits, m);
    if d.negative || d.overflow || d.value == 0 then 0 else Quot(m, d.value + 1)
  }

  /** The work times the target plus one is as near to 2^256 as it can be from
      below; a smaller target is never less work. */
  lemma WorkMeans(nBits: uint32, nBits': uint32, m: nat)
    requires m > 0
    ensures var t, w := Decode(nBits, m), Work(nBits, m);
      if t.negative || t.overflow || t.value == 0 then w == 0
      else Times(w, t.value + 1) <= m < Times(w + 1, t.value + 1)
    ensures var t, t' := Decode(nBits, m), Decode(nBits', m);
      !t.negative && !t.overflow && !t'.negative && !t'.overflow && 0 < t.value <= t'.value ==>
        Work(nBits', m) <= Work(nBits, m)
  {
    var t, t' := Decode(nBits, m).value, Decode(nBits', m).value;
    QuotMod(m, t + 1);
    TimesAdds(Quot(m, t + 1), 1, t + 1);
    TimesIs(1, t + 1);
    if t <= t' { QuotAntitone(m, t + 1, t' + 1); }
  }

  lemma QuotAntitone(x: nat, p: nat, q: nat)
    requires 0 < p <= q
    ensures Quot(x, q) <= Quot(x, p)
  {
    var a, b := Quot(x, q), Quot(x, p);
    QuotMod(x, q);
    QuotMod(x, p);
    if b < a {
      TimesAdds(b, 1, p);
      TimesIs(1, p);
      TimesMono(b + 1, a, p);
      TimesCommutes(a, p);
      TimesCommutes(a, q);
      TimesMono(p, q, a);
    }
  }

  /** A target never reaches the top of the range: adding one cannot wrap. */
  lemma TargetBelowTop(nBits: uint32, m: nat)
    requires m == PowB(8) && !Decode(nBits, m).overflow
    ensures Decode(nBits, m).value + 1 < m
  {
    if nBits / EXPONENT <= 3 {
      SmallBelowTop(8);
    } else {
      LargeBelowTop(nBits, m);
    }
  }

  lemma SmallBelowTop(width: nat)
    requires width > 0
    ensures SIGN_BIT + 1 < PowB(width) && PowB(width) % 2 == 0
  {
  }

  lemma LargeBelowTop(nBits: uint32, m: nat)
    requires m == PowB(8) && !Decode(nBits, m).overflow && nBits / EXPONENT > 3
    ensures Decode(nBits, m).value + 1 < m
  {
    OverflowExact(nBits, m);
    DecodedValue(nBits, m);
    SmallBelowTop(8);
    EvenScale(Mantissa(nBits), 8 * (nBits / EXPONENT - 3));
  }

  lemma EvenScale(w: nat, e: nat)
    requires e > 0
    ensures Times(w, Pow2(e)) % 2 == 0
  {
    TimesScales(w, 2, Pow2(e - 1));
  }

  lemma WorkByComplement(m: nat, t: nat)
    requires 0 < t && t + 1 < m
    ensures Mod(t + 1, m) == t + 1
    ensures Mod(Quot(m - 1 - t, t + 1) + 1, m) == Quot(m, t + 1)
  {
    ModSmall(t + 1, m);
    ModSmall(Quot(m, t + 1), m);
  }

  method AddOne(x: Uint)
    requires x.pn.Length >= 2 && x.Value() + 1 < x.Modulus()
    modifies x.pn
    ensures x.Value() == old(x.Value()) + 1
  {
    var one := new Uint(x.pn.Length);
    one.SetWord(1);
    x.PlusAssign(one);
    ModSmall(old(x.Value()) + 1, x.Modulus());
  }

  /** ~target / (target + 1) + 1. */
  method ProofOf(target: Uint) returns (r: Uint)
    requires target.pn.Length >= 2 && 0 < target.Value() && target.Value() + 1 < target.Modulus()
    modifies target.pn
    ensures fresh(r) && fresh(r.pn) && r.pn.Length == target.pn.Length &&
      r.Value() == Quot(target.Modulus(), old(target.Value()) + 1)
  {
    ghost var m, t := target.Modulus(), target.Value();
    WorkByComplement(m, t);
    r := target.Complement();
    NotVal(target.pn[..]);
    AddOne(target);
    assert r.Value() == m - 1 - t;
    var ok := r.DivAssign(target);
    assert ok && r.Value() == Quot(m - 1 - t, t + 1);
    AddOne(r);
  }

  /** GetBlockProof is the floor of 2^256 / (target + 1), and neither wraps nor
      divides by zero. */
  method GetBlockProof(nBits: uint32, width: nat) returns (r: Uint)
    requires width == 8
    ensures fresh(r) && fresh(r.pn) && r.pn.Length == width
    ensures r.Value() == Work(nBits, r.Modulus())
  {
    r := new Uint(width);
    ZerosVal(width);
    var target := new Uint(width);
    var fNegative, fOverflow := SetCompact(target, nBits);
    var zero := target.EqualTo(0);
    if !(fNegative || fOverflow || zero) {
      TargetBelowTop(nBits, target.Modulus());
      r := ProofOf(target);
    }
  }
}
