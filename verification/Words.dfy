/**
 C's unsigned 64-bit words, as the integers 0 .. 2^64-1 with every wrap-around,
 truncation and bitwise operation written out.  `&` and `|` are defined bit by bit;
 the lemmas say when they act as arithmetic (masks, and disjoint bit fields).
 */
module Words {
  import opened Basics

  const BASE32: int := 0x1_0000_0000
  const BASE64: int := 0x1_0000_0000_0000_0000
  const BASE128: int := 0x1_0000_0000_0000_0000_0000_0000_0000_0000

  type u64 = x: int | 0 <= x < 0x1_0000_0000_0000_0000

  function Pow2(n: nat): (p: nat)
    ensures p >= 1
  {
    if n == 0 then 1 else 2 * Pow2(n - 1)
  }

  /** Reduction modulo 2^64, which every unsigned operation performs. */
  function Wrap(x: int): u64 { x % 0x1_0000_0000_0000_0000 }

  /** Sum and difference as the machine forms them, modulo 2^64. */
  function AddW(x: u64, y: u64): u64 { if x + y < BASE64 then x + y else x + y - BASE64 }

  function SubW(x: u64, y: u64): u64 { if x >= y then x - y else x - y + BASE64 }

  lemma AddSubAreModular(x: u64, y: u64)
    ensures AddW(x, y) == Wrap(x + y) && SubW(x, y) == Wrap(x - y)
  {
  }

  function Not(x: u64): u64 { 0xFFFF_FFFF_FFFF_FFFF - x }

  /** Shifts.  A count of 64 is undefined in C, hence the precondition. */
  function Shl(x: u64, n: nat): u64
    requires n < 64
  {
    Wrap(x * Pow2(n))
  }

  function Shr(x: u64, n: nat): u64
    requires n < 64
  {
    DivBounds(x, Pow2(n));
    x / Pow2(n)
  }

  function Or(a: nat, b: nat): nat
    decreases a + b
  {
    if a == 0 && b == 0 then 0
    else 2 * Or(a / 2, b / 2) + (if a % 2 == 1 || b % 2 == 1 then 1 else 0)
  }

  function And(a: nat, b: nat): nat
    decreases a + b
  {
    if a == 0 && b == 0 then 0
    else 2 * And(a / 2, b / 2) + (if a % 2 == 1 && b % 2 == 1 then 1 else 0)
  }

  // ---------------------------------------------------------------- arithmetic

  lemma DivBounds(x: int, d: int)
    requires 0 <= x && 1 <= d
    ensures 0 <= x / d <= x
  {
    if x / d > x { MulMono(x / d, 1, d); }
  }

  /** Quotient and remainder are determined by the division equation. */
  lemma DivModUnique(x: int, d: int, q: int, r: int)
    requires 0 < d && x == q * d + r && 0 <= r < d
    ensures x / d == q && x % d == r
  {
    var k := x / d - q;
    assert x == (x / d) * d + x % d;
    assert k * d == (x / d) * d - q * d;
    if k >= 1 { MulMono(d, 1, k); }
    if k <= -1 { MulMono(d, k, -1); }
  }

  /** Adding a multiple of the modulus changes nothing. */
  lemma ModPlusMultiple(x: int, k: int, d: int)
    requires 0 < d
    ensures (x + k * d) % d == x % d
  {
    assert x + k * d == (x / d + k) * d + x % d by {
      assert (x / d + k) * d == (x / d) * d + k * d;
    }
    DivModUnique(x + k * d, d, x / d + k, x % d);
  }

  lemma DivLess(x: int, d: int, b: int)
    requires 0 <= x < b * d && 0 < d
    ensures 0 <= x / d < b
  {
    DivBounds(x, d);
    if x / d >= b { MulMono(d, b, x / d); }
  }

  lemma Pow2Add(a: nat, b: nat)
    ensures Pow2(a + b) == Pow2(a) * Pow2(b)
  {
    if a == 0 {
    } else {
      Pow2Add(a - 1, b);
      assert 2 * Pow2(a - 1) * Pow2(b) == 2 * (Pow2(a - 1) * Pow2(b));
    }
  }

  lemma Pow2Mono(a: nat, b: nat)
    requires a <= b
    ensures Pow2(a) <= Pow2(b)
  {
    if a < b { Pow2Mono(a, b - 1); }
  }

  lemma Pow2Square(n: nat, m: nat, v: int)
    requires m == 2 * n && Pow2(n) == v
    ensures Pow2(m) == v * v
  {
    Pow2Add(n, n);
  }

  /** The powers the C code uses as constants.  The exponents are variables so that
      the verifier looks the value up here instead of unfolding Pow2. */
  lemma Pow2Of32(k: nat)
    requires k == 32
    ensures Pow2(k) == BASE32
  {
    var n: nat := k / 8;
    assert Pow2(n) == 16 by { Pow2Add(n - 2, 2); }
    Pow2Square(n, 2 * n, 16);
    Pow2Square(2 * n, 4 * n, 256);
    Pow2Square(4 * n, 8 * n, 65536);
  }

  lemma Pow2Of64(k: nat)
    requires k == 64
    ensures Pow2(k) == BASE64
  {
    Pow2Of32(k / 2);
    Pow2Square(k / 2, k, BASE32);
  }

  lemma Pow2Of128(k: nat)
    requires k == 128
    ensures Pow2(k) == BASE128
  {
    Pow2Of64(k / 2);
    Pow2Square(k / 2, k, BASE64);
  }

  // ---------------------------------------------------------------- bit fields

  lemma {:induction false} OrZero(a: nat)
    ensures Or(a, 0) == a
  {
    if a != 0 { OrZero(a / 2); }
  }

  /** A field that starts at bit k and one that ends below it combine by addition. */
  lemma {:induction false} OrDisjoint(a: nat, b: nat, k: nat)
    requires a % Pow2(k) == 0 && b < Pow2(k)
    ensures Or(a, b) == a + b
  {
    if k == 0 {
      OrZero(a);
    } else {
      HalfMultiple(a, k);
      OrDisjoint(a / 2, b / 2, k - 1);
    }
  }

  lemma HalfMultiple(a: nat, k: nat)
    requires k > 0 && a % Pow2(k) == 0
    ensures a % 2 == 0 && (a / 2) % Pow2(k - 1) == 0
  {
    var p, q := Pow2(k - 1), a / Pow2(k);
    assert a == q * (2 * p) == 2 * (q * p);
    DivModUnique(a / 2, p, q, 0);
  }

  lemma MultipleMod(q: int, d: int)
    requires 0 < d
    ensures (q * d) % d == 0
  {
    DivModUnique(q * d, d, q, 0);
  }

  /** The low k bits are the low k-1 bits of the upper part, then the last bit. */
  lemma LowBitsStep(a: nat, k: nat)
    requires k > 0
    ensures a % Pow2(k) == 2 * ((a / 2) % Pow2(k - 1)) + a % 2
  {
    var p := Pow2(k - 1);
    var q, r := (a / 2) / p, (a / 2) % p;
    assert a / 2 == q * p + r;
    assert q * (2 * p) == 2 * (q * p);
    DivModUnique(a, 2 * p, q, 2 * r + a % 2);
  }

  /** And, bit by bit: b is a number with the last bit c and the upper part h. */
  lemma AndStep(a: nat, b: nat, h: nat, c: nat)
    requires b == 2 * h + c && c <= 1
    ensures And(a, b) == 2 * And(a / 2, h) + if c == 1 then a % 2 else 0
  {
    assert b / 2 == h && b % 2 == c;
  }

  lemma {:induction false} AndZero(a: nat)
    ensures And(a, 0) == 0
  {
    if a != 0 { AndZero(a / 2); }
  }

  /** The low k bits, and the number with k low bits set, bit by bit. */
  ghost function LowBits(a: nat, k: nat): nat {
    if k == 0 then 0 else 2 * LowBits(a / 2, k - 1) + a % 2
  }

  ghost function Ones(k: nat): nat { if k == 0 then 0 else 2 * Ones(k - 1) + 1 }

  lemma {:induction false} OnesIs(k: nat)
    ensures Ones(k) == Pow2(k) - 1
  {
    if k > 0 { OnesIs(k - 1); }
  }

  lemma {:induction false} LowBitsIs(a: nat, k: nat)
    ensures LowBits(a, k) == a % Pow2(k)
  {
    if k > 0 {
      LowBitsIs(a / 2, k - 1);
      LowBitsStep(a, k);
    }
  }

  lemma {:induction false} AndOnes(a: nat, k: nat)
    ensures And(a, Ones(k)) == LowBits(a, k)
  {
    if k == 0 {
      AndZero(a);
    } else {
      AndOnes(a / 2, k - 1);
      AndStep(a, Ones(k), Ones(k - 1), 1);
    }
  }

  /** Masking with 2^k - 1 keeps the low k bits. */
  lemma AndLow(a: nat, k: nat)
    ensures And(a, Pow2(k) - 1) == a % Pow2(k)
  {
    OnesIs(k);
    AndOnes(a, k);
    LowBitsIs(a, k);
  }

  /** The bits k .. m-1. */
  ghost function UpperOnes(k: nat, m: nat): nat
    requires k <= m
  {
    if k == 0 then Ones(m) else 2 * UpperOnes(k - 1, m - 1)
  }

  lemma {:induction false} UpperOnesIs(k: nat, m: nat)
    requires k <= m
    ensures UpperOnes(k, m) == Pow2(m) - Pow2(k)
  {
    if k == 0 { OnesIs(m); } else { UpperOnesIs(k - 1, m - 1); }
  }

  lemma {:induction false} AndUpperOnes(a: nat, k: nat, m: nat)
    requires k <= m && LowBits(a, m) == a
    ensures And(a, UpperOnes(k, m)) == a - LowBits(a, k)
    decreases k
  {
    if k == 0 {
      AndOnes(a, m);
    } else {
      AndUpperOnes(a / 2, k - 1, m - 1);
      AndStep(a, UpperOnes(k, m), UpperOnes(k - 1, m - 1), 0);
    }
  }

  /** Masking an m-bit number with the bits k .. m-1 clears the low k bits. */
  lemma AndHigh(a: nat, k: nat, m: nat)
    requires k <= m && a < Pow2(m)
    ensures Pow2(k) <= Pow2(m)
    ensures And(a, Pow2(m) - Pow2(k)) == a - a % Pow2(k)
  {
    Pow2Mono(k, m);
    UpperOnesIs(k, m);
    LowBitsIs(a, m);
    LowBitsIs(a, k);
    DivModUnique(a, Pow2(m), 0, a);
    AndUpperOnes(a, k, m);
  }

  lemma SplitProduct(x: int, xq: int, q: int, xr: int, p: int, m: int)
    requires x == xq * q + xr && p * q == m
    ensures x * p == xq * m + xr * p
  {
    assert (xq * q) * p == xq * (q * p);
  }

  lemma ScaledRemainder(r: int, q: int, p: int, m: int)
    requires 0 <= r < q && 0 < p && p * q == m
    ensures 0 <= r * p <= m - p
  {
    MulMono(p, r, q - 1);
    assert p * (q - 1) == p * q - p;
  }

  /** How a number below m = p * q splits when it is multiplied by p modulo m:
      the quotient by q leaves the word, the remainder moves up. */
  lemma ShiftSplit(x: int, p: int, q: int, m: int)
    requires 0 < p && 0 < q && p * q == m && 0 <= x < m
    ensures 0 <= x / q < p
    ensures x * p == (x / q) * m + (x % q) * p
    ensures 0 <= (x % q) * p <= m - p
    ensures (x * p) % m == (x % q) * p
    ensures ((x % q) * p) % p == 0
  {
    var xq, xr := x / q, x % q;
    DivLess(x, q, p);
    SplitProduct(x, xq, q, xr, p, m);
    ScaledRemainder(xr, q, p, m);
    DivModUnique(x * p, m, xq, xr * p);
    MultipleMod(xr, p);
  }

  lemma ShiftCounts(n: nat)
    requires 0 < n < 64
    ensures Pow2(n) * Pow2(64 - n) == BASE64
  {
    Pow2Add(n, 64 - n);
    Pow2Of64(n + (64 - n));
  }

  // ------------------------------------------- the constant shifts of the C code

  function Shl1(x: u64): (r: u64)
    ensures r == if x < 0x8000_0000_0000_0000 then 2 * x else 2 * x - BASE64
  {
    var k: nat := 1;
    Shl(x, k)
  }

  function Shr1(x: u64): (r: u64)
    ensures r == x / 2
  {
    var k: nat := 1;
    Shr(x, k)
  }

  lemma Pow2Of63(k: nat)
    requires k == 63
    ensures Pow2(k) == 0x8000_0000_0000_0000
  {
    Pow2Of64(k + 1);
  }

  function Shl63(x: u64): (r: u64)
    ensures r == (x % 2) * 0x8000_0000_0000_0000
  {
    var k: nat := 63;
    Pow2Of63(k);
    ShiftSplit(x, Pow2(k), 2, BASE64);
    Shl(x, k)
  }

  function Shr63(x: u64): (r: u64)
    ensures r == if x < 0x8000_0000_0000_0000 then 0 else 1
  {
    var k: nat := 63;
    Pow2Of63(k);
    Shr(x, k)
  }

  /** A field that is q times 2^k and one below 2^k combine by addition. */
  lemma OrField(a: nat, b: nat, k: nat, p: nat, q: nat)
    requires Pow2(k) == p && a == q * p && b < p
    ensures Or(a, b) == a + b
  {
    MultipleMod(q, p);
    OrDisjoint(a, b, k);
  }

  lemma OrOneUp(h: u64, l: u64, k: nat)
    requires k == 1
    ensures Or(Shl1(h), Shr63(l)) == Shl1(h) + Shr63(l) < BASE64
  {
    var q := if h < 0x8000_0000_0000_0000 then h else h - 0x8000_0000_0000_0000;
    OrField(Shl1(h), Shr63(l), k, 2, q);
  }

  lemma OrOneDown(h: u64, l: u64, k: nat)
    requires k == 63
    ensures Or(Shr1(l), Shl63(h)) == Shr1(l) + Shl63(h) < BASE64
  {
    Pow2Of63(k);
    OrField(Shl63(h), Shr1(l), k, 0x8000_0000_0000_0000, h % 2);
    OrCommutes(Shr1(l), Shl63(h));
  }

  /** The two words of a number shifted by one place. */
  lemma OrOnePlace(h: u64, l: u64)
    ensures Or(Shl1(h), Shr63(l)) == Shl1(h) + Shr63(l) < BASE64
    ensures Or(Shr1(l), Shl63(h)) == Shr1(l) + Shl63(h) < BASE64
  {
    OrOneUp(h, l, 1);
    OrOneDown(h, l, 63);
  }

  lemma {:induction false} OrCommutes(a: nat, b: nat)
    ensures Or(a, b) == Or(b, a)
    decreases a + b
  {
    if a != 0 || b != 0 { OrCommutes(a / 2, b / 2); }
  }
}
