/**
 128-bit integer arithmetic (_include/int128.h).

 uint128_t and int128_t have the same layout and the C code casts pointers between
 them, so both are one class of two words; U() and S() are the unsigned and the
 two's-complement reading.  Output pointers may be the same object as an input:
 no method asks its arguments to be different, and every contract speaks of the
 inputs' old values.
 */
module Int128 {
  import opened Basics
  import opened Words

  const SIGN: int := 0x8000_0000_0000_0000_0000_0000_0000_0000
  const SIGN64: int := 0x8000_0000_0000_0000
  const MAX64: int := 0xFFFF_FFFF_FFFF_FFFF

  class Word128 {
    var low: u64
    var high: u64

    constructor (low: u64, high: u64)
      ensures this.low == low && this.high == high
    {
      this.low, this.high := low, high;
    }

    ghost function U(): (u: int)
      reads this
      ensures 0 <= u < BASE128
    {
      high * BASE64 + low
    }

    ghost function S(): (s: int)
      reads this
      ensures -SIGN <= s < SIGN
    {
      Signed(U())
    }
  }

  /** The two's-complement reading of a 128-bit pattern. */
  ghost function Signed(u: int): int
    requires 0 <= u < BASE128
  {
    if u < SIGN then u else u - BASE128
  }

  /** The 128-bit two's-complement number congruent to x modulo 2^128. */
  ghost function WrapSigned(x: int): int { Signed(x % BASE128) }

  /** int64_t reading of the high word. */
  function SignedHigh(h: u64): int { if h < SIGN64 then h else h - BASE64 }

  // -------------------------------------------------------------- comparisons

  predicate ULt(a: Word128, b: Word128)
    reads a, b
    ensures ULt(a, b) <==> a.U() < b.U()
  {
    if a.high == b.high then a.low < b.low else a.high < b.high
  }

  predicate UGt(a: Word128, b: Word128)
    reads a, b
    ensures UGt(a, b) <==> a.U() > b.U()
  {
    if a.high == b.high then a.low > b.low else a.high > b.high
  }

  predicate SLt(a: Word128, b: Word128)
    reads a, b
    ensures SLt(a, b) <==> a.S() < b.S()
  {
    if a.high == b.high then a.low < b.low else SignedHigh(a.high) < SignedHigh(b.high)
  }

  predicate SGt(a: Word128, b: Word128)
    reads a, b
    ensures SGt(a, b) <==> a.S() > b.S()
  {
    if a.high == b.high then a.low > b.low else SignedHigh(a.high) > SignedHigh(b.high)
  }

  // ------------------------------------------------------- addition, subtraction

  /** The sum is exact modulo 2^128.  The returned flag announces an overflow only
      truthfully, and misses one exactly when b.high is all ones and the low words carry. */
  method Add(a: Word128, b: Word128, ans: Word128) returns (flag: bool)
    modifies ans
    ensures ans.U() == (old(a.U()) + old(b.U())) % BASE128
    ensures flag ==> old(a.U()) + old(b.U()) >= BASE128
    ensures (flag <==> old(a.U()) + old(b.U()) >= BASE128)
       <==> !(old(b.high) == MAX64 && old(a.low) + old(b.low) >= BASE64)
  {
    ghost var x, y := a.U(), b.U();
    AddSubAreModular(a.low, b.low);
    AddSubAreModular(a.high, b.high);
    var aaLow, aaHigh := a.low, a.high;
    ans.low := AddW(a.low, b.low);
    ans.high := AddW(a.high, b.high);
    if ans.low < aaLow {
      ans.high := AddW(ans.high, 1);
    }
    flag := ans.high < aaHigh;
    assert ans.U() == x + y || ans.U() == x + y - BASE128;
    DivModUnique(x + y, BASE128, if ans.U() == x + y then 0 else 1, ans.U());
  }

  /** The difference is exact modulo 2^128; the flag misses a borrow exactly when
      b.high is all ones and the low words borrow. */
  method Sub(a: Word128, b: Word128, ans: Word128) returns (flag: bool)
    modifies ans
    ensures ans.U() == (old(a.U()) - old(b.U())) % BASE128
    ensures old(a.U()) >= old(b.U()) ==> ans.U() == old(a.U()) - old(b.U())
    ensures flag ==> old(a.U()) < old(b.U())
    ensures (flag <==> old(a.U()) < old(b.U()))
       <==> !(old(b.high) == MAX64 && old(a.low) < old(b.low))
  {
    ghost var x, y := a.U(), b.U();
    AddSubAreModular(a.low, b.low);
    AddSubAreModular(a.high, b.high);
    var aaLow, aaHigh := a.low, a.high;
    ans.low := SubW(a.low, b.low);
    ans.high := SubW(a.high, b.high);
    if ans.low > aaLow {
      ans.high := SubW(ans.high, 1);
    }
    flag := ans.high > aaHigh;
    assert ans.U() == x - y || ans.U() == x - y + BASE128;
    DivModUnique(x - y, BASE128, if ans.U() == x - y then 0 else -1, ans.U());
  }

  /** Two's-complement negation: ~a + 1 with the carry into the high word. */
  method Minus(a: Word128, ans: Word128)
    modifies ans
    ensures ans.U() == (-old(a.U())) % BASE128
    ensures ans.U() == if old(a.U()) == 0 then 0 else BASE128 - old(a.U())
    ensures ans.S() == WrapSigned(-old(a.S()))
  {
    ghost var x := a.U();
    ans.high := Not(a.high);
    ans.low := Not(a.low);
    ans.low := AddW(ans.low, 1);
    if ans.low == 0 {
      ans.high := AddW(ans.high, 1);
    }
    DivModUnique(-x, BASE128, if x == 0 then 0 else -1, ans.U());
    ModPlusMultiple(-x, if x < SIGN then 0 else 1, BASE128);
  }

  /** Magnitude and sign; the most negative value keeps its pattern, which read
      unsigned is its magnitude. */
  method Abs(x: Word128, r: Word128) returns (negative: bool)
    modifies r
    ensures negative <==> old(x.S()) < 0
    ensures r.U() == if old(x.S()) < 0 then -old(x.S()) else old(x.S())
  {
    if SignedHigh(x.high) >= 0 {
      if x != r {
        r.low, r.high := x.low, x.high;
      }
      return false;
    }
    Minus(x, r);
    return true;
  }

  // --------------------------------------------------------------------- shifts

  /** C's remainder, which truncates toward zero. */
  function CRem(n: int, d: int): int
    requires d > 0
  {
    if n >= 0 then n % d else -((-n) % d)
  }

  /** The count the shifts use: CRem brought into 0 .. 127, which is n modulo 128. */
  function ShiftCount(n: int): (nn: nat)
    ensures nn == n % 128
  {
    var nn := CRem(n, 128);
    assert n < 0 ==> n == (-((-n) / 128)) * 128 - (-n) % 128;
    if nn < 0 then nn + 128 else nn
  }

  lemma ShlOrShr(h: u64, l: u64, n: nat)
    requires 0 < n < 64
    ensures Or(Shl(h, n), Shr(l, 64 - n)) == (h % Pow2(64 - n)) * Pow2(n) + l / Pow2(64 - n) < BASE64
  {
    ShiftCounts(n);
    ShiftSplit(h, Pow2(n), Pow2(64 - n), BASE64);
    ShiftSplit(l, Pow2(n), Pow2(64 - n), BASE64);
    OrDisjoint(Shl(h, n), Shr(l, 64 - n), n);
  }

  lemma ShrOrShl(h: u64, l: u64, n: nat)
    requires 0 < n < 64
    ensures Or(Shr(l, n), Shl(h, 64 - n)) == (h % Pow2(n)) * Pow2(64 - n) + l / Pow2(n) < BASE64
  {
    ShlOrShr(h, l, 64 - n);
    OrCommutes(Shr(l, n), Shl(h, 64 - n));
  }

  /** The two words of a product by p, from the words' own products. */
  lemma JoinProducts(h: int, l: int, p: int, hq: int, hr: int, lq: int, lr: int)
    requires h * p == hq * BASE64 + hr && l * p == lq * BASE64 + lr
    requires 0 <= hr + lq < BASE64 && 0 <= lr < BASE64
    ensures ((h * BASE64 + l) * p) % BASE128 == (hr + lq) * BASE64 + lr
  {
    assert (h * BASE64 + l) * p == (h * p) * BASE64 + l * p;
    DivModUnique((h * BASE64 + l) * p, BASE128, hq, (hr + lq) * BASE64 + lr);
  }

  lemma LeftShiftSmall(h: u64, l: u64, n: nat)
    requires 0 < n < 64
    ensures Or(Shl(h, n), Shr(l, 64 - n)) * BASE64 + Shl(l, n)
         == ((h * BASE64 + l) * Pow2(n)) % BASE128
  {
    var p, q := Pow2(n), Pow2(64 - n);
    ShiftCounts(n);
    ShiftSplit(h, p, q, BASE64);
    ShiftSplit(l, p, q, BASE64);
    ShlOrShr(h, l, n);
    JoinProducts(h, l, p, h / q, (h % q) * p, l / q, (l % q) * p);
  }

  lemma LeftShiftLarge(h: u64, l: u64, m: nat)
    requires m < 64
    ensures Shl(l, m) * BASE64 == ((h * BASE64 + l) * Pow2(64 + m)) % BASE128
  {
    var p := Pow2(m);
    Pow2Add(64, m);
    Pow2Of64(64);
    var q, r := (l * p) / BASE64, (l * p) % BASE64;
    var x := (h * BASE64 + l) * Pow2(64 + m);
    calc {
      x;
      (h * BASE64 + l) * (BASE64 * p);
      { assert (h * BASE64 + l) * (BASE64 * p) == ((h * p) * BASE64 + l * p) * BASE64; }
      ((h * p) * BASE64 + l * p) * BASE64;
      (h * p + q) * BASE128 + r * BASE64;
    }
    DivModUnique(x, BASE128, h * p + q, r * BASE64);
  }

  lemma JoinQuotients(h: int, l: int, p: int, q: int)
    requires 0 < p && p * q == BASE64
    ensures (h * BASE64 + l) / p == (h / p) * BASE64 + (h % p) * q + l / p
  {
    var a, b, c, d := h / p, h % p, l / p, l % p;
    assert h == a * p + b && l == c * p + d;
    QuotientIdentity(a, b, c, d, p, q);
    DivModUnique(h * BASE64 + l, p, a * BASE64 + b * q + c, d);
  }

  lemma QuotientIdentity(a: int, b: int, c: int, d: int, p: int, q: int)
    requires p * q == BASE64
    ensures (a * p + b) * BASE64 + (c * p + d) == (a * BASE64 + b * q + c) * p + d
  {
    assert (b * q) * p == b * (p * q);
    assert (a * BASE64 + b * q + c) * p == (a * p) * BASE64 + (b * q) * p + c * p;
  }

  lemma RightShiftSmall(h: u64, l: u64, n: nat)
    requires 0 < n < 64
    ensures Shr(h, n) * BASE64 + Or(Shr(l, n), Shl(h, 64 - n)) == (h * BASE64 + l) / Pow2(n)
  {
    ShiftCounts(n);
    ShrOrShl(h, l, n);
    JoinQuotients(h, l, Pow2(n), Pow2(64 - n));
  }

  lemma RightShiftLarge(h: u64, l: u64, m: nat)
    requires m < 64
    ensures Shr(h, m) == (h * BASE64 + l) / Pow2(64 + m)
  {
    var p, k: nat := Pow2(m), 64;
    Pow2Add(k, m);
    Pow2Of64(k);
    HighQuotient(h, l, h / p, h % p, p);
  }

  /** Dividing two words by 2^64 * p divides the high word by p. */
  lemma HighQuotient(h: int, l: int, a: int, b: int, p: int)
    requires h == a * p + b && 0 <= b < p && 0 <= l < BASE64
    ensures (h * BASE64 + l) / (BASE64 * p) == a
  {
    MulMono(BASE64, b + 1, p);
    assert h * BASE64 + l == a * (BASE64 * p) + (b * BASE64 + l) by {
      assert a * (BASE64 * p) == (a * p) * BASE64;
    }
    DivModUnique(h * BASE64 + l, BASE64 * p, a, b * BASE64 + l);
  }

  /** Left shift: multiplication by 2^(n mod 128), modulo 2^128.  A count that is a
      multiple of 128 would shift a word by 64, which C leaves undefined. */
  method LeftShift(x: Word128, n: int, r: Word128)
    requires n % 128 != 0
    modifies r
    ensures r.U() == (old(x.U()) * Pow2(n % 128)) % BASE128
  {
    ghost var h, l := x.high, x.low;
    var nn := ShiftCount(n);
    if nn > 63 {
      r.high := Shl(x.low, nn - 64);
      r.low := 0;
      LeftShiftLarge(h, l, nn - 64);
    } else {
      LeftShiftSmall(h, l, nn);
      ShlOrShr(h, l, nn);
      r.high := Or(Shl(x.high, nn), Shr(x.low, 64 - nn));
      r.low := Shl(x.low, nn);
    }
  }

  /** Logical right shift: floor division by 2^(n mod 128). */
  method RightShift(x: Word128, n: int, r: Word128)
    requires n % 128 != 0
    modifies r
    ensures r.U() == old(x.U()) / Pow2(n % 128)
  {
    ghost var h, l := x.high, x.low;
    var nn := ShiftCount(n);
    if nn > 63 {
      r.low := Shr(x.high, nn - 64);
      r.high := 0;
      RightShiftLarge(h, l, nn - 64);
    } else {
      RightShiftSmall(h, l, nn);
      ShrOrShl(h, l, nn);
      r.low := Or(Shr(x.low, nn), Shl(x.high, 64 - nn));
      r.high := Shr(x.high, nn);
    }
  }

  /** Shift by a signed count: left for positive, right for negative. */
  method Shift(x: Word128, n: int, r: Word128)
    requires n % 128 != 0
    modifies r
    ensures n > 0 ==> r.U() == (old(x.U()) * Pow2(n % 128)) % BASE128
    ensures n < 0 ==> r.U() == old(x.U()) / Pow2((-n) % 128)
  {
    if n < 0 {
      assert (-n) % 128 != 0;
      RightShift(x, -n, r);
    } else {
      LeftShift(x, n, r);
    }
  }

  /** Shifting left and then right by n (0 < n < 128) keeps exactly the low 128-n bits. */
  lemma ShiftRoundTrip(x: int, n: nat)
    requires 0 <= x < BASE128 && 0 < n < 128
    ensures ((x * Pow2(n)) % BASE128) / Pow2(n) == x % Pow2(128 - n)
  {
    var p, q := Pow2(n), Pow2(128 - n);
    Pow2Add(n, 128 - n);
    Pow2Of128(n + (128 - n));
    ShiftSplit(x, p, q, BASE128);
    DivModUnique((x % q) * p, p, x % q, 0);
  }
}
