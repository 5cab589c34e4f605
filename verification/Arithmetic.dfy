/** Facts about products, quotients and powers that the solver does not find
    by itself, each proved by a short induction or a chain of linear steps. */
module Arithmetic {

  lemma {:induction false} MulNonNegative(x: nat, y: nat)
    ensures 0 <= x * y
  {
    if x > 0 {
      MulNonNegative(x - 1, y);
      assert x * y == (x - 1) * y + y;
    }
  }

  lemma {:induction false} MulMono(x: int, y: int, z: nat)
    requires x <= y
    ensures x * z <= y * z
  {
    MulNonNegative(y - x, z);
    assert y * z == x * z + (y - x) * z;
  }

  /** A quotient is determined by its defining equation. */
  lemma DivModUnique(a: int, b: int, q: int, r: int)
    requires b > 0 && a == b * q + r && 0 <= r < b
    ensures a / b == q && a % b == r
  {
    QuotientUnique(b, q, r, a / b, a % b);
  }

  lemma QuotientUnique(b: int, q: int, r: int, q': int, r': int)
    requires b > 0 && b * q + r == b * q' + r' && 0 <= r < b && 0 <= r' < b
    ensures q == q' && r == r'
  {
    MulOrder(b, q, q');
    MulOrder(b, q', q);
  }

  lemma MulOrder(b: int, q: int, q': int)
    requires b > 0
    ensures q < q' ==> b * q + b <= b * q'
  {
    if q < q' {
      MulMono(1, q' - q, b);
      assert b * q' == b * q + (q' - q) * b;
    }
  }

  lemma DivBound(a: nat, b: int)
    requires b >= 1
    ensures 0 <= a / b <= a
  {
    QuotientBound(a, b, a / b, a % b);
  }

  lemma QuotientBound(a: nat, b: int, q: int, r: int)
    requires b >= 1 && a == b * q + r && 0 <= r < b
    ensures 0 <= q <= a
  {
    MulOrder(b, q, 0);
    if q > 0 { MulMono(1, b, q); }
  }

  function Pow2(n: nat): (p: nat)
    ensures p > n
  {
    if n == 0 then 1 else 2 * Pow2(n - 1)
  }

  /** Rounding a quotient up: position p exists iff p full shares stay below a. */
  lemma CeilDiv(a: nat, b: int, p: nat)
    requires b >= 1
    ensures p < (a + b - 1) / b <==> p * b < a
  {
    CeilQuotient(a, b, (a + b - 1) / b, (a + b - 1) % b, p);
  }

  lemma CeilQuotient(a: nat, b: int, q: int, r: int, p: nat)
    requires b >= 1 && a + b - 1 == b * q + r && 0 <= r < b
    ensures p < q <==> p * b < a
  {
    MulOrder(b, p, q);
    if q <= p { MulMono(q, p, b); }
  }

  // ----- Products the solver does not look into -----

  /** k * p. */
  function Times(k: int, p: int): int
    decreases if k < 0 then -k else k
  {
    if k == 0 then 0 else if k > 0 then Times(k - 1, p) + p else Times(k + 1, p) - p
  }

  lemma {:induction false} TimesIs(k: int, p: int)
    ensures Times(k, p) == k * p
    decreases if k < 0 then -k else k
  {
    if k > 0 {
      TimesIs(k - 1, p);
      assert k * p == (k - 1) * p + p;
    } else if k < 0 {
      TimesIs(k + 1, p);
      assert k * p == (k + 1) * p - p;
    }
  }

  lemma TimesCommutes(k: int, p: int)
    ensures Times(k, p) == Times(p, k)
  {
    TimesIs(k, p);
    TimesIs(p, k);
  }

  lemma TimesAdds(j: int, k: int, p: int)
    ensures Times(j + k, p) == Times(j, p) + Times(k, p)
  {
    TimesIs(j, p);
    TimesIs(k, p);
    TimesIs(j + k, p);
    assert (j + k) * p == j * p + k * p;
  }

  lemma TimesDistributes(k: int, p: int, q: int)
    ensures Times(k, p + q) == Times(k, p) + Times(k, q)
  {
    TimesCommutes(k, p + q);
    TimesAdds(p, q, k);
    TimesCommutes(k, p);
    TimesCommutes(k, q);
  }

  lemma ProductAssociates(j: int, k: int, p: int)
    ensures j * (k * p) == (j * k) * p
  {
  }

  lemma TimesAssociates(j: int, k: int, p: int)
    ensures Times(j, Times(k, p)) == Times(Times(j, k), p)
  {
    TimesIs(k, p);
    TimesIs(j, k);
    TimesIs(j, Times(k, p));
    TimesIs(Times(j, k), p);
    ProductAssociates(j, k, p);
  }

  /** A factor moves out of the second argument. */
  lemma TimesScales(k: int, c: int, p: int)
    ensures Times(k, c * p) == c * Times(k, p)
  {
    TimesIs(c, p);
    TimesIs(c, Times(k, p));
    TimesAssociates(k, c, p);
    TimesCommutes(k, c);
    TimesAssociates(c, k, p);
  }

  lemma TimesNonNegative(k: nat, p: nat)
    ensures Times(k, p) >= 0
  {
    TimesIs(k, p);
    MulNonNegative(k, p);
  }

  lemma TimesMono(j: int, k: int, p: nat)
    requires j <= k
    ensures Times(j, p) <= Times(k, p)
  {
    TimesAdds(j, k - j, p);
    TimesNonNegative(k - j, p);
  }

  /** The remainder x % p, by repeated addition or subtraction of p. */
  function Mod(x: int, p: nat): (r: nat)
    requires p > 0
    ensures r < p
    decreases if x < 0 then p - x else x
  {
    if x < 0 then Mod(x + p, p) else if x < p then x else Mod(x - p, p)
  }

  lemma {:induction false} ModMultiple(v: nat, k: int, p: nat)
    requires v < p
    ensures Mod(v + Times(k, p), p) == v
    decreases if k < 0 then -k else k
  {
    if k > 0 {
      ModMultiple(v, k - 1, p);
      TimesNonNegative(k - 1, p);
    } else if k < 0 {
      ModMultiple(v, k + 1, p);
      TimesNonNegative(-k - 1, p);
      TimesIs(k + 1, p);
      TimesIs(-k - 1, p);
      assert (k + 1) * p == -((-k - 1) * p);
    }
  }

  lemma ModIsRemainder(x: int, p: nat)
    requires p > 0
    ensures Mod(x, p) == x % p
  {
    RemainderByQuotient(x, p, x / p, x % p);
  }

  lemma RemainderByQuotient(x: int, p: nat, q: int, r: int)
    requires 0 <= r < p && x == p * q + r
    ensures Mod(x, p) == r
  {
    TimesIs(p, q);
    TimesCommutes(p, q);
    ModMultiple(r, q, p);
  }

  /** A value below the modulus that differs from the total by a multiple of it
      is the remainder. */
  lemma Remainder(v: nat, k: int, p: nat, total: int)
    requires v < p && v + Times(k, p) == total
    ensures v == Mod(total, p)
  {
    ModMultiple(v, k, p);
  }

  lemma ModSmall(v: nat, p: nat)
    requires v < p
    ensures Mod(v, p) == v
  {
  }

  /** The quotient x / p, by repeated subtraction. */
  function Quot(x: nat, p: nat): (q: nat)
    requires p > 0
    ensures q <= x
  {
    if x < p then 0 else 1 + Quot(x - p, p)
  }

  lemma {:induction false} QuotMod(x: nat, p: nat)
    requires p > 0
    ensures x == Times(Quot(x, p), p) + Mod(x, p)
  {
    if x >= p { QuotMod(x - p, p); }
  }

  lemma {:induction false} QuotMultiple(q: nat, r: nat, p: nat)
    requires r < p
    ensures Times(q, p) + r >= 0 && Quot(Times(q, p) + r, p) == q && Mod(Times(q, p) + r, p) == r
  {
    TimesNonNegative(q, p);
    if q > 0 {
      QuotMultiple(q - 1, r, p);
      TimesNonNegative(q - 1, p);
    }
  }

  lemma {:induction false} QuotMonotone(v: nat, w: nat, p: nat)
    requires v <= w && p > 0
    ensures Quot(v, p) <= Quot(w, p)
  {
    if v >= p { QuotMonotone(v - p, w - p, p); }
  }

  lemma QuotIs(x: nat, p: nat)
    requires p > 0
    ensures Quot(x, p) == x / p && Mod(x, p) == x % p
  {
    ModIsRemainder(x, p);
    QuotMod(x, p);
    TimesIs(Quot(x, p), p);
    QuotientUnique(p, x / p, x % p, Quot(x, p), Mod(x, p));
  }

  lemma {:induction false} Pow2Add(m: nat, n: nat)
    ensures Pow2(m + n) == Times(Pow2(m), Pow2(n))
  {
    if m == 0 {
      TimesIs(1, Pow2(n));
    } else {
      Pow2Add(m - 1, n);
      TimesCommutes(Pow2(m), Pow2(n));
      TimesScales(Pow2(n), 2, Pow2(m - 1));
      TimesCommutes(Pow2(n), Pow2(m - 1));
    }
  }

  lemma {:induction false} Pow2Mono(a: nat, b: nat)
    requires a <= b
    ensures Pow2(a) <= Pow2(b)
  {
    if a < b { Pow2Mono(a, b - 1); }
  }

  // ----- Bits -----

  /** Bitwise or of two non-negative integers. */
  function Or(a: nat, b: nat): nat {
    if a == 0 then b else if b == 0 then a
    else 2 * Or(a / 2, b / 2) + (if a % 2 == 1 || b % 2 == 1 then 1 else 0)
  }

  /** Bitwise and. */
  function And(a: nat, b: nat): (r: nat)
    ensures r <= a && r <= b
  {
    if a == 0 || b == 0 then 0 else 2 * And(a / 2, b / 2) + (if a % 2 == 1 && b % 2 == 1 then 1 else 0)
  }

  /** Bitwise exclusive or. */
  function Xor(a: nat, b: nat): nat
    decreases a + b
  {
    if a == 0 then b else if b == 0 then a
    else 2 * Xor(a / 2, b / 2) + (if a % 2 != b % 2 then 1 else 0)
  }

  /** Bit k of a number. */
  predicate Bit(x: nat, k: nat) {
    if k == 0 then x % 2 == 1 else Bit(x / 2, k - 1)
  }

  lemma {:induction false} ZeroBit(k: nat)
    ensures !Bit(0, k)
  {
    if k > 0 { ZeroBit(k - 1); }
  }

  lemma {:induction false} AndBit(a: nat, b: nat, k: nat)
    ensures Bit(And(a, b), k) == (Bit(a, k) && Bit(b, k))
    decreases k
  {
    if a == 0 || b == 0 { ZeroBit(k); } else if k > 0 { AndBit(a / 2, b / 2, k - 1); }
  }

  lemma {:induction false} OrBits(a: nat, b: nat, k: nat)
    ensures Bit(Or(a, b), k) == (Bit(a, k) || Bit(b, k))
    decreases k
  {
    if a == 0 || b == 0 { ZeroBit(k); } else if k > 0 { OrBits(a / 2, b / 2, k - 1); }
  }

  lemma {:induction false} XorBit(a: nat, b: nat, k: nat)
    ensures Bit(Xor(a, b), k) == (Bit(a, k) != Bit(b, k))
    decreases k
  {
    if a == 0 || b == 0 { ZeroBit(k); } else if k > 0 { XorBit(a / 2, b / 2, k - 1); }
  }

  lemma {:induction false} PowBit(n: nat, k: nat)
    ensures Bit(Pow2(n), k) == (k == n)
    decreases k
  {
    if n == 0 {
      if k > 0 { ZeroBit(k - 1); }
    } else if k > 0 {
      PowBit(n - 1, k - 1);
    }
  }

  lemma {:induction false} OnesBit(n: nat, k: nat)
    ensures Bit(Pow2(n) - 1, k) == (k < n)
    decreases k
  {
    if n == 0 {
      ZeroBit(k);
    } else if k > 0 {
      assert (Pow2(n) - 1) / 2 == Pow2(n - 1) - 1;
      OnesBit(n - 1, k - 1);
    }
  }

  /** Or adds where the second number has no bits below 2^s and the first none above. */
  lemma {:induction false} OrDisjoint(c: nat, t: nat, s: nat)
    requires c < Pow2(s)
    ensures Times(t, Pow2(s)) >= 0
    ensures Or(c, Times(t, Pow2(s))) == c + Times(t, Pow2(s))
  {
    TimesNonNegative(t, Pow2(s));
    if s > 0 {
      TimesScales(t, 2, Pow2(s - 1));
      OrDisjoint(c / 2, t, s - 1);
    } else {
      TimesIs(t, 1);
    }
  }

  lemma {:induction false} OrBound(a: nat, b: nat, n: nat)
    requires a < Pow2(n) && b < Pow2(n)
    ensures Or(a, b) < Pow2(n)
  {
    if n > 0 { OrBound(a / 2, b / 2, n - 1); }
  }

  lemma {:induction false} OrCommutes(a: nat, b: nat)
    ensures Or(a, b) == Or(b, a)
  {
    if a != 0 && b != 0 { OrCommutes(a / 2, b / 2); }
  }

  /** Or with a bit that is clear adds it. */
  lemma {:induction false} OrBit(x: nat, s: nat)
    requires (x / Pow2(s)) % 2 == 0
    ensures Or(x, Pow2(s)) == x + Pow2(s)
  {
    if x != 0 && s > 0 {
      DivTwice(x, Pow2(s - 1));
      OrBit(x / 2, s - 1);
      assert Pow2(s) / 2 == Pow2(s - 1);
    } else if x != 0 {
      assert x / 1 == x;
      assert Or(x / 2, 0) == x / 2;
    }
  }

  lemma DivTwice(x: nat, p: nat)
    requires p > 0
    ensures x / (2 * p) == (x / 2) / p
  {
    var q, r := (x / 2) / p, (x / 2) % p;
    assert x / 2 == p * q + r;
    var low := 2 * r + x % 2;
    assert (2 * p) * q == 2 * (p * q);
    DivModUnique(x, 2 * p, q, low);
  }
}
