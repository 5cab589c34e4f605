/**
  Base58 (src/base58.cpp): byte strings as numbers written with 58 characters,
  and a leading '1' for every leading zero byte.

  Bytes are numbers below 256. A text is the characters of a C string before its
  terminator.
*/
module Base58 {
  import opened Arithmetic
  import opened Ascii
  import opened Radix

  datatype Option<T> = None | Some(value: T)

  // ----- The alphabet: digits and letters except 0, I, O and l -----

  function CharOf(d: nat): char
    requires d < 58
  {
    if d < 9 then ('1' as int + d) as char
    else if d < 17 then ('A' as int + d - 9) as char
    else if d < 22 then ('J' as int + d - 17) as char
    else if d < 33 then ('P' as int + d - 22) as char
    else if d < 44 then ('a' as int + d - 33) as char
    else ('m' as int + d - 44) as char
  }

  /** The position of a character in the alphabet; -1 if it has none. */
  function DigitOf(c: char): int {
    if '1' <= c <= '9' then c as int - '1' as int
    else if 'A' <= c <= 'H' then c as int - 'A' as int + 9
    else if 'J' <= c <= 'N' then c as int - 'J' as int + 17
    else if 'P' <= c <= 'Z' then c as int - 'P' as int + 22
    else if 'a' <= c <= 'k' then c as int - 'a' as int + 33
    else if 'm' <= c <= 'z' then c as int - 'm' as int + 44
    else -1
  }

  lemma CharDigit(d: nat)
    requires d < 58
    ensures DigitOf(CharOf(d)) == d && !IsSpace(CharOf(d))
  {
  }

  lemma DigitChar(c: char)
    requires DigitOf(c) >= 0
    ensures DigitOf(c) < 58 && CharOf(DigitOf(c)) == c
  {
  }

  /** The alphabet is all letters and digits but four, in the order of their
      codes. */
  lemma AlphabetIs(c: char, c': char)
    ensures DigitOf(c) >= 0 <==>
      ('0' <= c <= '9' || 'A' <= c <= 'Z' || 'a' <= c <= 'z') && c != '0' && c != 'I' && c != 'O' && c != 'l'
    ensures DigitOf(c) >= 0 && DigitOf(c') >= 0 && c < c' ==> DigitOf(c) < DigitOf(c')
  {
  }

  function Chars(d: seq<nat>): (s: string)
    requires Digits(d, 58)
    ensures |s| == |d|
  {
    if d == [] then "" else Chars(d[..|d| - 1]) + [CharOf(d[|d| - 1])]
  }

  predicate AllDigits(s: string) {
    forall i :: 0 <= i < |s| ==> DigitOf(s[i]) >= 0
  }

  function Values(s: string): (d: seq<nat>)
    requires AllDigits(s)
    ensures |d| == |s|
  {
    if s == "" then [] else Values(s[..|s| - 1]) + [DigitOf(s[|s| - 1])]
  }

  ghost predicate Spaceless(s: string) {
    forall i :: 0 <= i < |s| ==> !IsSpace(s[i])
  }

  lemma {:induction false} ValuesOfChars(d: seq<nat>)
    requires Digits(d, 58)
    ensures AllDigits(Chars(d)) && Values(Chars(d)) == d
  {
    if d != [] {
      var p, l := d[..|d| - 1], d[|d| - 1];
      ValuesOfChars(p);
      CharDigit(l);
      assert Chars(d)[..|p|] == Chars(p);
      assert d == p + [l];
    }
  }

  lemma {:induction false} CharsAt(d: seq<nat>, i: nat)
    requires Digits(d, 58) && i < |d|
    ensures Chars(d)[i] == CharOf(d[i])
  {
    if i < |d| - 1 { CharsAt(d[..|d| - 1], i); }
  }

  lemma {:induction false} ValuesAt(s: string, i: nat)
    requires AllDigits(s) && i < |s|
    ensures Values(s)[i] == DigitOf(s[i])
  {
    if i < |s| - 1 { ValuesAt(s[..|s| - 1], i); }
  }

  lemma SpacelessChars(d: seq<nat>)
    requires Digits(d, 58)
    ensures Spaceless(Chars(d))
  {
    forall i | 0 <= i < |d| ensures !IsSpace(Chars(d)[i]) {
      CharsAt(d, i);
      CharDigit(d[i]);
    }
  }

  lemma {:induction false} CharsOfValues(s: string)
    requires AllDigits(s)
    ensures Digits(Values(s), 58) && Chars(Values(s)) == s
  {
    if s != "" {
      var p, c := s[..|s| - 1], s[|s| - 1];
      CharsOfValues(p);
      DigitChar(c);
      assert Values(s)[..|p|] == Values(p);
      assert s == p + [c];
    }
  }

  // ----- What the code computes -----

  function LeadingZeros(b: seq<nat>): (z: nat)
    ensures z <= |b|
  {
    if b != [] && b[0] == 0 then 1 + LeadingZeros(b[1..]) else 0
  }

  function LeadingOnes(s: string): (z: nat)
    ensures z <= |s|
  {
    if s != "" && s[0] == '1' then 1 + LeadingOnes(s[1..]) else 0
  }

  function Zeros(n: nat): (b: seq<nat>)
    ensures |b| == n && forall i :: 0 <= i < n ==> b[i] == 0
  {
    seq(n, i => 0)
  }

  function Ones(n: nat): (s: string)
    ensures |s| == n && forall i :: 0 <= i < n ==> s[i] == '1'
  {
    seq(n, i => '1')
  }

  /** The leading zeros one by one, the rest as a number. */
  function Encode(b: seq<nat>): string {
    var z := LeadingZeros(b);
    CanonNormal(Num(b[z..], 256), 58);
    Ones(z) + Chars(Canon(Num(b[z..], 256), 58))
  }

  function LeadingSpaces(s: string): (z: nat)
    ensures z <= |s|
    ensures forall i :: 0 <= i < z ==> IsSpace(s[i])
    ensures z < |s| ==> !IsSpace(s[z])
  {
    if s != "" && IsSpace(s[0]) then 1 + LeadingSpaces(s[1..]) else 0
  }

  /** The length of the part before the first space. */
  function Body(s: string): (n: nat)
    ensures n <= |s|
    ensures forall i :: 0 <= i < n ==> !IsSpace(s[i])
    ensures n < |s| ==> IsSpace(s[n])
  {
    if s != "" && !IsSpace(s[0]) then 1 + Body(s[1..]) else 0
  }

  function DecodeBody(z: nat, body: string): seq<nat>
    requires AllDigits(body)
  {
    Zeros(z) + Canon(Num(Values(body), 58), 256)
  }

  /** Spaces are skipped on both ends; nothing else may follow. */
  function Decode(s: string): Option<seq<nat>> {
    var text := s[LeadingSpaces(s)..];
    var z := LeadingOnes(text);
    var rest := text[z..];
    var n := Body(rest);
    var tail := rest[n..];
    if AllDigits(rest[..n]) && LeadingSpaces(tail) == |tail| then Some(DecodeBody(z, rest[..n])) else None
  }

  // ----- Round trips -----

  lemma {:induction false} CountZeros(z: nat, d: seq<nat>)
    requires d == [] || d[0] != 0
    ensures LeadingZeros(Zeros(z) + d) == z && (Zeros(z) + d)[z..] == d
    decreases z
  {
    var b := Zeros(z) + d;
    if z > 0 {
      assert b[1..] == Zeros(z - 1) + d;
      CountZeros(z - 1, d);
    }
  }

  lemma {:induction false} CountOnes(z: nat, s: string)
    requires s == "" || s[0] != '1'
    ensures LeadingOnes(Ones(z) + s) == z && (Ones(z) + s)[z..] == s
    decreases z
  {
    var b := Ones(z) + s;
    if z > 0 {
      assert b[1..] == Ones(z - 1) + s;
      CountOnes(z - 1, s);
    }
  }

  lemma {:induction false} ZerosThenRest(b: seq<nat>)
    ensures var z := LeadingZeros(b);
      b == Zeros(z) + b[z..] && (b[z..] == [] || b[z..][0] != 0)
  {
    if b != [] && b[0] == 0 {
      ZerosThenRest(b[1..]);
      var z := LeadingZeros(b[1..]);
      assert b[1..][z..] == b[z + 1..];
      assert Zeros(z + 1) == [0] + Zeros(z);
    }
  }

  lemma {:induction false} OnesThenRest(s: string)
    ensures var z := LeadingOnes(s);
      s == Ones(z) + s[z..] && (s[z..] == "" || s[z..][0] != '1')
  {
    if s != "" && s[0] == '1' {
      OnesThenRest(s[1..]);
      var z := LeadingOnes(s[1..]);
      assert s[1..][z..] == s[z + 1..];
      assert Ones(z + 1) == ['1'] + Ones(z);
    }
  }

  lemma {:induction false} NoSpaces(s: string)
    requires Spaceless(s)
    ensures LeadingSpaces(s) == 0 && Body(s) == |s|
  {
    if s != "" { NoSpaces(s[1..]); }
  }

  /** Decoding a text of ones and a body without spaces. */
  lemma DecodePlain(z: nat, body: string)
    requires AllDigits(body) && Spaceless(body) && (body == "" || body[0] != '1')
    ensures Decode(Ones(z) + body) == Some(DecodeBody(z, body))
  {
    var s := Ones(z) + body;
    NoSpaces(s);
    assert s[0..] == s;
    CountOnes(z, body);
    NoSpaces(body);
    assert body[..|body|] == body;
    assert LeadingSpaces(body[|body|..]) == 0;
  }

  /** The first character of a number without leading zeros is not '1'. */
  lemma FirstChar(d: seq<nat>)
    requires Normal(d, 58)
    ensures Chars(d) == "" || Chars(d)[0] != '1'
  {
    if d != [] {
      CharsAt(d, 0);
      CharDigit(d[0]);
    }
  }

  /** Every byte string comes back. */
  lemma DecodeEncode(b: seq<nat>)
    requires Digits(b, 256)
    ensures Decode(Encode(b)) == Some(b)
  {
    var z := LeadingZeros(b);
    ZerosThenRest(b);
    var rest := b[z..];
    var d := Canon(Num(rest, 256), 58);
    CanonNormal(Num(rest, 256), 58);
    FirstChar(d);
    ValuesOfChars(d);
    SpacelessChars(d);
    DecodePlain(z, Chars(d));
    CanonUnique(rest, 256);
  }

  function TrimEnd(s: string): string {
    if s != "" && IsSpace(s[|s| - 1]) then TrimEnd(s[..|s| - 1]) else s
  }

  /** The text without the spaces at its ends. */
  function Trim(s: string): string {
    TrimEnd(s[LeadingSpaces(s)..])
  }

  ghost predicate AllSpace(s: string) {
    forall i :: 0 <= i < |s| ==> IsSpace(s[i])
  }

  lemma {:induction false} TrimEndCuts(w: string, tail: string)
    requires Spaceless(w) && AllSpace(tail)
    ensures TrimEnd(w + tail) == w
    decreases |tail|
  {
    if tail == "" {
      assert w + tail == w;
      assert w != "" ==> !IsSpace(w[|w| - 1]);
    } else {
      var s := w + tail;
      assert s[|s| - 1] == tail[|tail| - 1];
      assert s[..|s| - 1] == w + tail[..|tail| - 1];
      TrimEndCuts(w, tail[..|tail| - 1]);
    }
  }

  lemma {:induction false} TrimEndRest(s: string) returns (tail: string)
    ensures s == TrimEnd(s) + tail && AllSpace(tail)
  {
    tail := "";
    if s != "" && IsSpace(s[|s| - 1]) {
      var last := s[|s| - 1];
      var more := TrimEndRest(s[..|s| - 1]);
      tail := more + [last];
      assert s == s[..|s| - 1] + [last];
    }
  }

  lemma DigitsNoSpace(s: string)
    requires AllDigits(s)
    ensures Spaceless(s)
  {
  }

  lemma OnesAre(z: nat, body: string)
    ensures Spaceless(body) ==> Spaceless(Ones(z) + body)
    ensures AllDigits(Ones(z) + body) <==> AllDigits(body)
  {
    var w := Ones(z) + body;
    assert forall i :: 0 <= i < |body| ==> w[z + i] == body[i];
  }

  /** The first word of a text is where its spaces begin. */
  lemma SameWord(w: string, tail: string, w': string, tail': string)
    requires w + tail == w' + tail' && Spaceless(w) && Spaceless(w')
    requires (tail == "" || IsSpace(tail[0])) && (tail' == "" || IsSpace(tail'[0]))
    ensures w == w' && tail == tail'
  {
    var s := w + tail;
    WordEnds(w, tail);
    WordEnds(w', tail');
    assert |w| == |w'|;
    assert w == s[..|w|] && w' == s[..|w|] && tail == s[|w|..] && tail' == s[|w|..];
  }

  lemma WordEnds(w: string, tail: string)
    requires Spaceless(w) && (tail == "" || IsSpace(tail[0]))
    ensures forall i :: 0 <= i < |w| ==> !IsSpace((w + tail)[i])
    ensures |w| < |w + tail| ==> IsSpace((w + tail)[|w|])
  {
  }

  lemma BodyParts(rest: string)
    ensures var n := Body(rest);
      && rest == rest[..n] + rest[n..] && Spaceless(rest[..n]) && (rest[n..] == "" || IsSpace(rest[n..][0]))
  {
  }

  lemma SpacesAre(tail: string)
    ensures AllSpace(tail) <==> LeadingSpaces(tail) == |tail|
  {
  }

  /** Leading spaces, ones, a word and what follows it decide the decoding. */
  lemma Parts(s: string) returns (z: nat, body: string, tail: string)
    ensures s[LeadingSpaces(s)..] == Ones(z) + body + tail && Spaceless(body) && (tail == "" || IsSpace(tail[0]))
    ensures body == "" || body[0] != '1'
    ensures Decode(s) == if AllDigits(body) && AllSpace(tail) then Some(DecodeBody(z, body)) else None
  {
    var text := s[LeadingSpaces(s)..];
    z := LeadingOnes(text);
    var rest := text[z..];
    OnesThenRest(text);
    var n := Body(rest);
    body, tail := rest[..n], rest[n..];
    BodyParts(rest);
    SpacesAre(tail);
    Regroup(Ones(z), body, tail);
  }

  lemma Regroup(a: string, b: string, c: string)
    ensures a + (b + c) == a + b + c
  {
  }

  /** A text decodes exactly if it has nothing but characters of the alphabet
      between the spaces at its ends. */
  lemma DecodesExactly(s: string)
    ensures Decode(s).Some? <==> AllDigits(Trim(s))
  {
    var z, body, tail := Parts(s);
    OnesAre(z, body);
    var word := Ones(z) + body;
    if AllSpace(tail) { TrimEndCuts(word, tail); }
    if AllDigits(Trim(s)) {
      var more := TrimEndRest(word + tail);
      DigitsNoSpace(Trim(s));
      SameWord(word, tail, Trim(s), more);
    }
  }

  lemma EncodeBody(z: nat, rest: string)
    requires AllDigits(rest) && (rest == "" || rest[0] != '1')
    ensures Encode(DecodeBody(z, rest)) == Ones(z) + rest && Digits(DecodeBody(z, rest), 256)
  {
    CharsOfValues(rest);
    if rest != "" {
      ValuesAt(rest, 0);
      DigitChar(rest[0]);
    }
    var v := Num(Values(rest), 58);
    CanonNormal(v, 256);
    CountZeros(z, Canon(v, 256));
    CanonUnique(Values(rest), 58);
  }

  /** Every valid text comes back without the spaces at its ends. */
  lemma EncodeDecode(s: string)
    requires Decode(s).Some?
    ensures Encode(Decode(s).value) == Trim(s) && Digits(Decode(s).value, 256)
  {
    var z, body, tail := Parts(s);
    OnesAre(z, body);
    TrimEndCuts(Ones(z) + body, tail);
    EncodeBody(z, body);
  }

  /** So the texts of a byte string differ in those spaces only. */
  lemma SameBytes(s: string, s': string)
    requires Decode(s).Some? && Decode(s').Some?
    ensures Decode(s).value == Decode(s').value <==> Trim(s) == Trim(s')
  {
    EncodeDecode(s);
    EncodeDecode(s');
    DecodeEncode(Decode(s).value);
    DecodeEncode(Decode(s').value);
  }

  // ----- The buffers -----

  /** The first k digits are still to be pushed, and fit. */
  ghost predicate Ahead(d: seq<nat>, r: seq<nat>, base: nat, mult: nat, carry: nat, k: nat)
    requires base > 0 && k <= |d| == |r|
  {
    r[..k] == Push(d[..k], base, mult, carry) && Out(d[..k], base, mult, carry) == 0
  }

  lemma PushUnfold(d: seq<nat>, base: nat, mult: nat, carry: nat, k: nat, r: seq<nat>)
    requires base > 0 && k < |d| == |r| && Ahead(d, r, base, mult, carry, k + 1)
    ensures var n := Next(d[k], mult, carry);
      r[k] == Mod(n, base) && Ahead(d, r, base, mult, Quot(n, base), k)
  {
    var p := d[..k + 1];
    assert p[..k] == d[..k] && p[k] == d[k];
    var q := Push(d[..k], base, mult, Quot(Next(d[k], mult, carry), base));
    assert r[..k] == r[..k + 1][..k] == q;
    assert r[k] == r[..k + 1][k];
  }

  /** One digit: carry + mult * digit, split into a digit and a carry. */
  method StepDigit(digit: nat, mult: nat, carry: nat, base: nat) returns (r: nat, q: nat)
    requires base > 0
    ensures r == Mod(Next(digit, mult, carry), base) && q == Quot(Next(digit, mult, carry), base)
  {
    TimesIs(digit, mult);
    QuotIs(Next(digit, mult, carry), base);
    var n := carry + mult * digit;
    r := n % base;
    q := n / base;
  }

  /** a * mult + c, from the last digit up; `length` digits are in use. The
      final assertion of the source holds if the result fits. */
  method PushInPlace(a: array<nat>, length: nat, base: nat, mult: nat, c: nat) returns (newLength: nat)
    requires base > 0 && length <= a.Length && (forall j :: 0 <= j < a.Length - length ==> a[j] == 0)
    requires Out(a[..], base, mult, c) == 0
    modifies a
    ensures a[..] == Push(old(a[..]), base, mult, c)
    ensures length <= newLength <= a.Length && forall j :: 0 <= j < a.Length - newLength ==> a[j] == 0
  {
    ghost var r := Push(a[..], base, mult, c);
    assert a[..][..a.Length] == a[..] && r[..a.Length] == r;
    newLength := PushDigits(a, length, base, mult, c, a[..], r);
    assert a[..] == r;
  }

  method PushDigits(a: array<nat>, length: nat, base: nat, mult: nat, c: nat, ghost d: seq<nat>, ghost r: seq<nat>)
    returns (newLength: nat)
    requires base > 0 && length <= a.Length && a[..] == d && |r| == |d|
    requires forall j :: 0 <= j < a.Length - length ==> a[j] == 0
    requires Ahead(d, r, base, mult, c, |d|)
    modifies a
    ensures forall j :: 0 <= j < a.Length ==> a[j] == r[j]
    ensures length <= newLength <= a.Length && forall j :: 0 <= j < a.Length - newLength ==> a[j] == 0
  {
    var size := a.Length;
    var carry := c;
    var i := 0;
    while (carry != 0 || i < length) && i < size
      invariant 0 <= i <= size && 0 <= carry
      invariant forall j :: 0 <= j < size - i ==> a[j] == d[j]
      invariant forall j :: size - i <= j < size ==> a[j] == r[j]
      invariant Ahead(d, r, base, mult, carry, size - i)
    {
      PushUnfold(d, base, mult, carry, size - 1 - i, r);
      var digit;
      digit, carry := StepDigit(a[size - 1 - i], mult, carry, base);
      a[size - 1 - i] := digit;
      i := i + 1;
    }
    NoCarry(d, r, base, mult, carry, size - i);
    newLength := i;
    PushDone(d, r, base, mult, size - i);
  }

  lemma NoCarry(d: seq<nat>, r: seq<nat>, base: nat, mult: nat, carry: nat, k: nat)
    requires base > 0 && k <= |d| == |r| && Ahead(d, r, base, mult, carry, k) && (carry == 0 || k == 0)
    ensures carry == 0
  {
  }

  lemma PushDone(d: seq<nat>, r: seq<nat>, base: nat, mult: nat, k: nat)
    requires base > 0 && k <= |d| == |r| && (forall j :: 0 <= j < k ==> d[j] == 0) && Ahead(d, r, base, mult, 0, k)
    ensures forall j :: 0 <= j < k ==> r[j] == 0
  {
    PushZeros(d[..k], base, mult);
    forall j | 0 <= j < k ensures r[j] == 0 {
      assert r[j] == r[..k][j];
    }
  }

  /** Skips the leading zeros of the buffer. */
  method StripBuffer(a: array<nat>, length: nat) returns (d: seq<nat>)
    requires length <= a.Length && forall j :: 0 <= j < a.Length - length ==> a[j] == 0
    ensures d == Strip(a[..])
  {
    var it := a.Length - length;
    StripPrefix(a[..], it);
    while it != a.Length && a[it] == 0
      invariant 0 <= it <= a.Length && Strip(a[..]) == Strip(a[it..])
    {
      assert a[it..][1..] == a[it + 1..];
      it := it + 1;
    }
    d := a[it..];
  }

  lemma {:induction false} StripPrefix(d: seq<nat>, n: nat)
    requires n <= |d| && forall j :: 0 <= j < n ==> d[j] == 0
    ensures Strip(d) == Strip(d[n..])
    decreases n
  {
    if n > 0 {
      StripPrefix(d[1..], n - 1);
      assert d[1..][n - 1..] == d[n..];
    } else {
      assert d[0..] == d;
    }
  }

  /** Converts digits from one base to another in a buffer of sufficient size. */
  method Convert(digits: seq<nat>, from: nat, to: nat, size: nat) returns (d: seq<nat>)
    requires from > 0 && to > 1 && Digits(digits, from) && Pow(from, |digits|) <= Pow(to, size)
    ensures d == Canon(Num(digits, from), to)
  {
    var b := new nat[size](i => 0);
    var length := 0;
    ZerosNum(b[..], to);
    for k := 0 to |digits|
      invariant 0 <= length <= size == b.Length && Digits(b[..], to)
      invariant forall j :: 0 <= j < size - length ==> b[j] == 0
      invariant Num(b[..], to) == Num(digits[..k], from)
    {
      assert digits[..k + 1][..k] == digits[..k];
      NumBound(digits[..k + 1], from);
      PowMono(from, k + 1, |digits|);
      PushFits(b[..], to, from, digits[k]);
      length := PushInPlace(b, length, to, from, digits[k]);
    }
    assert digits[..|digits|] == digits;
    StripIsCanon(b[..], to);
    d := StripBuffer(b, length);
  }

  lemma {:induction false} ZerosNum(d: seq<nat>, base: nat)
    requires forall j :: 0 <= j < |d| ==> d[j] == 0
    ensures Num(d, base) == 0
  {
    if d != [] {
      ZerosNum(d[..|d| - 1], base);
      TimesIs(0, base);
    }
  }

  method EncodeBase58(b: seq<nat>) returns (str: string)
    requires Digits(b, 256)
    ensures str == Encode(b)
  {
    var zeroes := 0;
    assert b[0..] == b;
    while zeroes < |b| && b[zeroes] == 0
      invariant 0 <= zeroes <= |b| && LeadingZeros(b) == zeroes + LeadingZeros(b[zeroes..])
    {
      assert b[zeroes..][1..] == b[zeroes + 1..];
      zeroes := zeroes + 1;
    }
    var rest := b[zeroes..];
    var size := |rest| * 138 / 100 + 1;
    Estimate58(|rest|, size, 58, 256);
    var d := Convert(rest, 256, 58, size);
    CanonNormal(Num(rest, 256), 58);
    str := Ones(zeroes) + Chars(d);
  }

  method DecodeBase58(s: string) returns (r: Option<seq<nat>>)
    ensures r == Decode(s)
  {
    var start := SkipSpaces(s);
    var text := s[start..];
    var zeroes := SkipOnes(text);
    r := DecodeRest(text[zeroes..], zeroes);
  }

  method SkipOnes(s: string) returns (n: nat)
    ensures n == LeadingOnes(s)
  {
    n := 0;
    assert s[0..] == s;
    while n < |s| && s[n] == '1'
      invariant n <= |s| && LeadingOnes(s) == n + LeadingOnes(s[n..])
    {
      assert s[n..][1..] == s[n + 1..];
      n := n + 1;
    }
  }

  method SkipSpaces(s: string) returns (n: nat)
    ensures n == LeadingSpaces(s)
  {
    n := 0;
    assert s[0..] == s;
    while n < |s| && IsSpace(s[n])
      invariant n <= |s| && LeadingSpaces(s) == n + LeadingSpaces(s[n..])
    {
      assert s[n..][1..] == s[n + 1..];
      n := n + 1;
    }
  }

  /** Reads up to the first space; an unknown character ends the decoding. */
  method ReadBody(rest: string) returns (known: bool, n: nat)
    ensures known ==> n == Body(rest)
    ensures known <==> AllDigits(rest[..Body(rest)])
  {
    n := 0;
    assert rest[0..] == rest;
    while n < |rest| && !IsSpace(rest[n])
      invariant n <= |rest| && Body(rest) == n + Body(rest[n..]) && AllDigits(rest[..n])
    {
      if DigitOf(rest[n]) < 0 {
        assert rest[..Body(rest)][n] == rest[n];
        return false, n;
      }
      assert rest[n..][1..] == rest[n + 1..];
      n := n + 1;
    }
    known := true;
  }

  method DecodeRest(rest: string, zeroes: nat) returns (r: Option<seq<nat>>)
    ensures var n := Body(rest);
      r == if AllDigits(rest[..n]) && LeadingSpaces(rest[n..]) == |rest[n..]| then
        Some(DecodeBody(zeroes, rest[..n])) else None
  {
    var known, n := ReadBody(rest);
    if !known {
      return None;
    }
    var tail := SkipSpaces(rest[n..]);
    if tail != |rest[n..]| {
      return None;
    }
    var size := |rest| * 733 / 1000 + 1;
    var d := ConvertBody(rest[..n], |rest|, size);
    r := Some(Zeros(zeroes) + d);
  }

  method ConvertBody(body: string, length: nat, size: nat) returns (d: seq<nat>)
    requires AllDigits(body) && |body| <= length && size == length * 733 / 1000 + 1
    ensures d == Canon(Num(Values(body), 58), 256)
  {
    CharsOfValues(body);
    Estimate256(length, size, 58, 256);
    PowMono(58, |body|, length);
    d := Convert(Values(body), 58, 256, size);
  }

  // ----- With a checksum -----

  type Hash = seq<nat> -> seq<nat>

  /** The hash has at least four bytes. */
  ghost predicate GoodHash(hash: Hash) {
    forall b :: |hash(b)| >= 4 && Digits(hash(b)[..4], 256)
  }

  function EncodeCheck(b: seq<nat>, hash: Hash): string
    requires |hash(b)| >= 4
  {
    Encode(b + hash(b)[..4])
  }

  function DecodeCheck(s: string, hash: Hash): Option<seq<nat>> {
    var d := Decode(s);
    if d.None? || |d.value| < 4 then None
    else
      var data, sum := d.value[..|d.value| - 4], d.value[|d.value| - 4..];
      if |hash(data)| >= 4 && hash(data)[..4] == sum then Some(data) else None
  }

  /** A text with a checksum decodes to exactly the bytes it was made from, and
      a text that decodes is, without the spaces at its ends, the encoding of the
      result. */
  lemma CheckRoundTrip(b: seq<nat>, hash: Hash)
    requires GoodHash(hash) && Digits(b, 256)
    ensures DecodeCheck(EncodeCheck(b, hash), hash) == Some(b)
  {
    var all := b + hash(b)[..4];
    DecodeEncode(all);
    assert all[..|all| - 4] == b && all[|all| - 4..] == hash(b)[..4];
  }

  lemma CheckUnique(s: string, hash: Hash)
    requires GoodHash(hash) && DecodeCheck(s, hash).Some?
    ensures EncodeCheck(DecodeCheck(s, hash).value, hash) == Trim(s)
  {
    EncodeDecode(s);
    var d := Decode(s).value;
    assert d == d[..|d| - 4] + d[|d| - 4..];
  }
}
