/**
 Decimal printing of 128-bit integers (_include/int128.h:144-183): the input is
 shifted out bit by bit from the top, and a buffer of 43 decimal digits is doubled
 in place and given each bit as its carry.
 */
module Int128Decimal {
  import opened Basics
  import opened Words
  import opened Int128

  const BUFLEN: nat := 44
  const DIGITS: nat := 43

  predicate IsDigit(c: char) { '0' <= c <= '9' }

  ghost predicate AllDigits(s: seq<char>) {
    forall k :: 0 <= k < |s| ==> IsDigit(s[k])
  }

  /** The number a digit string denotes. */
  ghost function NumeralValue(s: seq<char>): int {
    if s == [] then 0 else (s[0] as int - '0' as int) * Pow10(|s| - 1) + NumeralValue(s[1..])
  }

  /** The decimal numeral of n, without leading zeros. */
  function Decimal(n: nat): string {
    if n < 10 then [('0' as int + n) as char] else Decimal(n / 10) + [('0' as int + n % 10) as char]
  }

  function SignedDecimal(x: int): string {
    if x < 0 then "-" + Decimal(-x) else Decimal(x)
  }

  // ------------------------------------------------------- numerals and values

  lemma {:induction false} ValueOfAppend(s: seq<char>, c: char)
    ensures NumeralValue(s + [c]) == 10 * NumeralValue(s) + (c as int - '0' as int)
  {
    if s == [] {
      assert (s + [c])[1..] == [];
    } else {
      assert (s + [c])[1..] == s[1..] + [c];
      ValueOfAppend(s[1..], c);
      ScaleDigit(s[0] as int - '0' as int, Pow10(|s| - 1));
    }
  }

  lemma ScaleDigit(d: int, p: int)
    ensures d * (10 * p) == 10 * (d * p)
  {
  }

  lemma {:induction false} ValueIsNonNegative(s: seq<char>)
    requires AllDigits(s)
    ensures 0 <= NumeralValue(s) < Pow10(|s|)
  {
    if s != [] {
      ValueIsNonNegative(s[1..]);
      var d, p := s[0] as int - '0' as int, Pow10(|s| - 1);
      MulMono(p, d, 9);
      assert d * p == p * d;
      MulMono(p, 0, d);
    }
  }

  lemma {:induction false} LeadingZeros(s: seq<char>, k: nat)
    requires k <= |s| && forall i :: 0 <= i < k ==> s[i] == '0'
    ensures NumeralValue(s) == NumeralValue(s[k..])
  {
    if k > 0 {
      LeadingZeros(s[1..], k - 1);
      assert s[1..][k - 1..] == s[k..];
    } else {
      assert s[0..] == s;
    }
  }

  lemma {:induction false} ZerosHaveNoValue(s: seq<char>)
    requires forall i :: 0 <= i < |s| ==> s[i] == '0'
    ensures NumeralValue(s) == 0
  {
    if s != [] { ZerosHaveNoValue(s[1..]); }
  }

  /** A numeral without a superfluous leading zero is the numeral of its value. */
  lemma {:induction false} CanonicalNumeral(s: seq<char>)
    requires s != [] && AllDigits(s) && (|s| == 1 || s[0] != '0')
    ensures NumeralValue(s) >= 0 && Decimal(NumeralValue(s)) == s
    ensures |s| > 1 ==> NumeralValue(s) >= 10
  {
    var init, last := s[..|s| - 1], s[|s| - 1];
    assert s == init + [last];
    if |s| == 1 {
      OneDigit(s);
    } else {
      ValueOfAppend(init, last);
      CanonicalNumeral(init);
      if |init| == 1 { OneDigit(init); }
      DecimalAppend(NumeralValue(init), last);
    }
  }

  lemma OneDigit(s: seq<char>)
    requires |s| == 1 && IsDigit(s[0])
    ensures NumeralValue(s) == s[0] as int - '0' as int && Decimal(NumeralValue(s)) == s
  {
    assert s[1..] == [];
  }

  lemma DecimalAppend(n: nat, c: char)
    requires n >= 1 && IsDigit(c)
    ensures Decimal(10 * n + (c as int - '0' as int)) == Decimal(n) + [c]
  {
    var m := 10 * n + (c as int - '0' as int);
    assert m / 10 == n && m % 10 == c as int - '0' as int;
  }

  /** The converse: Decimal denotes its argument. */
  lemma {:induction false} DecimalDenotes(n: nat)
    ensures NumeralValue(Decimal(n)) == n
    ensures AllDigits(Decimal(n)) && (|Decimal(n)| == 1 || Decimal(n)[0] != '0')
  {
    if n >= 10 {
      DecimalDenotes(n / 10);
      ValueOfAppend(Decimal(n / 10), ('0' as int + n % 10) as char);
    } else {
      assert Decimal(n)[1..] == [];
    }
  }

  // ------------------------------------------------------------------ printing

  lemma DoubleDigit(v: int, old_v: int, d: int, e: int, c: int, c': int, p: int, c0: int)
    requires v + c * p == 2 * old_v + c0
    requires d + 10 * c' == 2 * e + c
    ensures (d * p + v) + c' * (10 * p) == 2 * (e * p + old_v) + c0
  {
    assert (d + 10 * c') * p == (2 * e + c) * p;
    assert (d + 10 * c') * p == d * p + c' * (10 * p);
    assert (2 * e + c) * p == 2 * (e * p) + c * p;
  }

  lemma ValueOfPrepend(s: seq<char>, rest: seq<char>)
    requires s != [] && s[1..] == rest
    ensures NumeralValue(s) == (s[0] as int - '0' as int) * Pow10(|rest|) + NumeralValue(rest)
  {
  }

  /** Digit j has been doubled; the digits behind it had been before. */
  lemma DoubleStep(was: seq<char>, before: seq<char>, now: seq<char>, j: nat, c: int, c': int, c0: int)
    requires j < |was| == |before| == |now| && now == before[j := now[j]]
    requires before[..j + 1] == was[..j + 1]
    requires NumeralValue(before[j + 1..]) + c * Pow10(|was| - j - 1) == 2 * NumeralValue(was[j + 1..]) + c0
    requires (now[j] as int - '0' as int) + 10 * c' == 2 * (before[j] as int - '0' as int) + c
    ensures now[..j] == was[..j]
    ensures NumeralValue(now[j..]) + c' * Pow10(|was| - j) == 2 * NumeralValue(was[j..]) + c0
  {
    assert was[j] == was[..j + 1][j] == before[..j + 1][j] == before[j];
    assert now[..j] == before[..j + 1][..j] && was[..j] == was[..j + 1][..j];
    assert now[j..][1..] == before[j + 1..] && was[j..][1..] == was[j + 1..];
    ValueOfPrepend(now[j..], before[j + 1..]);
    ValueOfPrepend(was[j..], was[j + 1..]);
    DoubleDigit(NumeralValue(before[j + 1..]), NumeralValue(was[j + 1..]), now[j] as int - '0' as int,
                was[j] as int - '0' as int, c, c', Pow10(|was| - j - 1), c0);
  }

  /** The digits of the buffer: everything before the terminator. */
  ghost function Digits(p: array<char>): seq<char>
    requires p.Length > 0
    reads p
  {
    p[..p.Length - 1]
  }

  /** p[j] += p[j] - '0' + carry, with the decimal carry taken off again. */
  method DoubleOne(p: array<char>, j: nat, carryIn: nat) returns (carry: nat)
    requires j < p.Length && IsDigit(p[j]) && carryIn <= 1
    modifies p
    ensures p[..] == old(p[..])[j := p[j]] && IsDigit(p[j]) && carry <= 1
    ensures (p[j] as int - '0' as int) + 10 * carry == 2 * (old(p[j]) as int - '0' as int) + carryIn
  {
    p[j] := (p[j] as int + (p[j] as int - '0' as int + carryIn)) as char;
    carry := if p[j] > '9' then 1 else 0;
    if carry != 0 {
      p[j] := (p[j] as int - 10) as char;
    }
  }

  /** Doubles the number in place and adds the carry-in, from the last digit to the
      first; what leaves the buffer is the carry-out. */
  method DoubleDigits(p: array<char>, carryIn: nat) returns (carry: nat)
    requires p.Length > 0 && AllDigits(Digits(p)) && carryIn <= 1
    modifies p
    ensures carry <= 1 && AllDigits(Digits(p)) && p[p.Length - 1] == old(p[p.Length - 1])
    ensures NumeralValue(Digits(p)) + carry * Pow10(p.Length - 1) == 2 * old(NumeralValue(Digits(p))) + carryIn
  {
    ghost var was := Digits(p);
    var n := p.Length - 1;
    carry := carryIn;
    var j := n;
    while j > 0
      invariant 0 <= j <= n && carry <= 1
      invariant AllDigits(Digits(p)) && p[n] == old(p[n])
      invariant Digits(p)[..j] == was[..j]
      invariant NumeralValue(Digits(p)[j..]) + carry * Pow10(n - j) == 2 * NumeralValue(was[j..]) + carryIn
    {
      j := j - 1;
      ghost var before, c := Digits(p), carry;
      carry := DoubleOne(p, j, carry);
      ghost var now := Digits(p);
      assert now == before[j := p[j]];
      DoubleStep(was, before, now, j, c, carry, carryIn);
    }
    assert Digits(p)[0..] == Digits(p) && was[0..] == was;
  }

  lemma Pow10Add(a: nat, b: nat)
    ensures Pow10(a + b) == Pow10(a) * Pow10(b)
  {
    if a > 0 {
      Pow10Add(a - 1, b);
      assert (10 * Pow10(a - 1)) * Pow10(b) == 10 * (Pow10(a - 1) * Pow10(b));
    }
  }

  lemma Pow10Mono(a: nat, b: nat)
    requires a <= b
    ensures Pow10(a) <= Pow10(b)
  {
    if a < b { Pow10Mono(a, b - 1); }
  }

  lemma Pow10Triple(n: nat, m: nat, v: int)
    requires m == 3 * n && Pow10(n) == v
    ensures Pow10(m) == v * v * v
  {
    Pow10Add(n, n);
    Pow10Add(2 * n, n);
  }

  /** Every 128-bit number has at most 39 digits. */
  lemma Pow10Of39(k: nat)
    requires k == 39
    ensures Pow10(k) == 1_000_000_000_000_000_000_000_000_000_000_000_000_000 > BASE128
  {
    var n: nat := k / 3;
    assert Pow10(n - 10) == 1000 by { Pow10Add(n - 12, 2); }
    Pow10Triple(n - 10, n - 4, 1000);
    Pow10Add(n - 4, n - 9);
    assert Pow10(n - 9) == 10_000;
    Pow10Triple(n, k, 10_000_000_000_000);
  }

  /** Shifting the next bit out of n and doubling v keep x * 2^i = v * 2^128 + n. */
  lemma NextBit(x: int, i: nat, v: int, n: int, v': int, n': int, c: int)
    requires x * Pow2(i) == v * BASE128 + n
    requires v' == 2 * v + c && n' == 2 * n - c * BASE128
    ensures x * Pow2(i + 1) == v' * BASE128 + n'
  {
    assert x * (2 * Pow2(i)) == 2 * (x * Pow2(i));
  }

  lemma BitsBound(x: int, i: nat, v: int, n: int)
    requires 0 <= x < BASE128 && i <= 128 && 0 <= n
    requires x * Pow2(i) == v * BASE128 + n
    ensures v < BASE128
  {
    var k: nat := 128;
    Pow2Of128(k);
    Pow2Mono(i, k);
    MulMono(x, Pow2(i), BASE128);
  }

  /** The top bit of a number in two words, and the number shifted left by one. */
  method TakeTopBit(high: u64, low: u64) returns (carry: nat, high': u64, low': u64)
    ensures carry <= 1
    ensures high' * BASE64 + low' == 2 * (high * BASE64 + low) - carry * BASE128
  {
    carry := if high > 0x7FFF_FFFF_FFFF_FFFF then 1 else 0;
    high' := AddW(Shl1(high), if low > 0x7FFF_FFFF_FFFF_FFFF then 1 else 0);
    low' := Shl1(low);
  }

  /** One of the 128 rounds: the top bit of n moves into the decimal number. */
  method ShiftOutBit(p: array<char>, high: u64, low: u64, i: nat, ghost x: int) returns (high': u64, low': u64)
    requires p.Length == BUFLEN && AllDigits(Digits(p)) && i < 128 && 0 <= x < BASE128
    requires x * Pow2(i) == NumeralValue(Digits(p)) * BASE128 + (high * BASE64 + low)
    modifies p
    ensures AllDigits(Digits(p)) && p[p.Length - 1] == old(p[p.Length - 1])
    ensures x * Pow2(i + 1) == NumeralValue(Digits(p)) * BASE128 + (high' * BASE64 + low')
  {
    var carry;
    carry, high', low' := TakeTopBit(high, low);
    ghost var v, c := NumeralValue(Digits(p)), carry;
    carry := DoubleDigits(p, carry);
    RoundDone(x, i, v, high * BASE64 + low, high' * BASE64 + low', c, Digits(p), carry);
  }

  /** After a round: no carry has left the buffer, and the next bit has moved over. */
  lemma RoundDone(x: int, i: nat, v: int, n: int, n': int, c: int, now: seq<char>, carry: nat)
    requires 0 <= x < BASE128 && i < 128 && 0 <= n' && |now| == DIGITS && AllDigits(now)
    requires x * Pow2(i) == v * BASE128 + n && n' == 2 * n - c * BASE128
    requires NumeralValue(now) + carry * Pow10(|now|) == 2 * v + c
    ensures carry == 0 && x * Pow2(i + 1) == NumeralValue(now) * BASE128 + n'
  {
    NextBit(x, i, v, n, 2 * v + c, n', c);
    BitsBound(x, i + 1, 2 * v + c, n');
    NoCarryOut(now, carry, 2 * v + c);
  }

  /** No carry ever leaves the buffer. */
  lemma NoCarryOut(s: seq<char>, carry: nat, v: int)
    requires |s| == DIGITS && AllDigits(s) && v < BASE128
    requires NumeralValue(s) + carry * Pow10(|s|) == v
    ensures carry == 0
  {
    ValueIsNonNegative(s);
    var k: nat := 39;
    Pow10Of39(k);
    Pow10Mono(k, |s|);
    AtLeastWeight(Pow10(|s|), carry);
  }

  lemma AtLeastWeight(w: nat, c: nat)
    ensures c >= 1 ==> c * w >= w
  {
    if c >= 1 { MulMono(w, 1, c); }
  }

  /** Digits that denote a 128-bit number start with four zeros. */
  lemma FourLeadingZeros(s: seq<char>, k: nat)
    requires |s| == DIGITS && AllDigits(s) && k < |s|
    requires forall i :: 0 <= i < k ==> s[i] == '0'
    requires s[k] != '0' && NumeralValue(s) < BASE128
    ensures k >= 4
  {
    if k < 4 { EarlyDigitIsLarge(s, k); }
  }

  /** A digit other than 0 in one of the first four places makes the number too large. */
  lemma EarlyDigitIsLarge(s: seq<char>, k: nat)
    requires |s| == DIGITS && AllDigits(s) && k < 4
    requires forall i :: 0 <= i < k ==> s[i] == '0'
    requires s[k] != '0'
    ensures NumeralValue(s) >= BASE128
  {
    LeadingZeros(s, k);
    assert s[k..][1..] == s[k + 1..] && s[k..][0] == s[k];
    ValueOfPrepend(s[k..], s[k + 1..]);
    ValueIsNonNegative(s[k + 1..]);
    LargePlace(|s| - k - 1, s[k] as int - '0' as int, NumeralValue(s[k + 1..]));
  }

  lemma LargePlace(n: nat, d: nat, v: nat)
    requires n >= 39 && d >= 1
    ensures d * Pow10(n) + v >= BASE128
  {
    var m: nat := 39;
    Pow10Of39(m);
    Pow10Mono(m, n);
    AtLeastWeight(Pow10(n), d);
  }

  /** Unsigned printing: the returned offset is where the numeral starts; at least four
      places of the buffer are free before it. */
  method Deco(x: Word128, p: array<char>) returns (off: nat)
    requires p.Length == BUFLEN
    modifies p
    ensures 4 <= off < DIGITS && p[DIGITS] == '\0'
    ensures p[off..DIGITS] == Decimal(x.U())
  {
    FillZeros(p);
    var high: u64, low: u64 := x.high, x.low;
    ZerosHaveNoValue(Digits(p));
    var i := 0;
    while i < 128
      invariant 0 <= i <= 128 && p[p.Length - 1] == '\0' && AllDigits(Digits(p))
      invariant x.U() * Pow2(i) == NumeralValue(Digits(p)) * BASE128 + (high * BASE64 + low)
    {
      high, low := ShiftOutBit(p, high, low, i, x.U());
      i := i + 1;
    }
    Pow2Of128(i);
    off := SkipZeros(p, x.U());
  }

  /** memset and terminator. */
  method FillZeros(p: array<char>)
    requires p.Length == BUFLEN
    modifies p
    ensures forall k :: 0 <= k < p.Length - 1 ==> p[k] == '0'
    ensures p[p.Length - 1] == '\0'
  {
    for k := 0 to p.Length - 1
      invariant forall i :: 0 <= i < k ==> p[i] == '0'
    {
      p[k] := '0';
    }
    p[p.Length - 1] := '\0';
  }

  method SkipZeros(p: array<char>, ghost x: int) returns (off: nat)
    requires p.Length == BUFLEN && AllDigits(Digits(p)) && NumeralValue(Digits(p)) == x
    requires 0 <= x < BASE128
    ensures 4 <= off < DIGITS && p[off..DIGITS] == Decimal(x)
  {
    ghost var s := Digits(p);
    off := 0;
    var max := DIGITS - 1;
    while p[off] == '0' && off < max
      invariant off <= max && forall i :: 0 <= i < off ==> s[i] == '0'
    {
      off := off + 1;
    }
    LeadingZeros(s, off);
    CanonicalNumeral(s[off..]);
    assert s[off..] == p[off..DIGITS];
    if off < max { FourLeadingZeros(s, off); }
  }

  /** Signed printing, down to the most negative value: the sign always fits. */
  method SDeco(x: Word128, p: array<char>) returns (off: nat)
    requires p.Length == BUFLEN
    modifies p
    ensures 3 <= off < DIGITS && p[DIGITS] == '\0'
    ensures p[off..DIGITS] == SignedDecimal(x.S())
  {
    ghost var z := x.S();
    var a := new Word128(0, 0);
    var negative := Abs(x, a);
    off := Deco(a, p);
    if negative {
      ghost var numeral := p[off..DIGITS];
      off := off - 1;
      p[off] := '-';
      assert p[off..DIGITS] == "-" + numeral;
    }
  }
}
