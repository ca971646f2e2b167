/**
 Binary long division (_include/int128.h:308-382).

 The divisor is doubled while it still fits below x, then halved back.  The first
 loop works on n = x - d: comparing n with d asks whether 2d <= x without forming
 2d, so the doubling never overflows.
 */
module Int128Divide {
  import opened Basics
  import opened Words
  import opened Int128
  import opened Int128Multiply

  /** d := 2d, by moving the top bit of the low word into the high word. */
  method Double(d: Word128)
    requires 2 * d.U() < BASE128
    modifies d
    ensures d.U() == 2 * old(d.U())
  {
    OrOnePlace(d.high, d.low);
    d.high := Or(Shl1(d.high), Shr63(d.low));
    d.low := Shl1(d.low);
  }

  /** d := d / 2, by moving the last bit of the high word into the low word. */
  method Halve(d: Word128)
    modifies d
    ensures d.U() == old(d.U()) / 2
  {
    OrOnePlace(d.high, d.low);
    d.low := Or(Shr1(d.low), Shl63(d.high));
    d.high := Shr1(d.high);
  }

  lemma MultipleOfDouble(w: nat, p: int, q: int)
    requires 0 < p && w == q * (2 * p)
    ensures (w + p) % p == 0
  {
    assert w + p == (2 * q + 1) * p;
    DivModUnique(w + p, p, 2 * q + 1, 0);
  }

  /** Setting bit k of a word whose bits 0 .. k are clear adds 2^k. */
  lemma SetBit(w: u64, k: nat)
    requires k < 64 && w % Pow2(k + 1) == 0
    ensures Or(w, Pow2(k)) == w + Pow2(k) < BASE64
    ensures (w + Pow2(k)) % Pow2(k) == 0
  {
    OrDisjoint(w, Pow2(k), k + 1);
    MultipleOfDouble(w, Pow2(k), w / Pow2(k + 1));
    RoomForBit(w, k);
  }

  /** A multiple of 2^(k+1) below 2^64 is at least 2^(k+1) below it. */
  lemma RoomForBit(w: u64, k: nat)
    requires k < 64 && w % Pow2(k + 1) == 0
    ensures w + Pow2(k) < BASE64
  {
    Pow2Add(k + 1, 63 - k);
    Pow2Of64((k + 1) + (63 - k));
    NextMultiple(w, Pow2(k + 1), Pow2(63 - k));
  }

  lemma NextMultiple(w: int, p: int, r: int)
    requires 0 < p && 0 <= w < r * p && w % p == 0
    ensures w + p <= p * r
  {
    DivLess(w, p, r);
    MulMono(p, w / p, r - 1);
    assert p * (r - 1) == p * r - p;
  }

  lemma Pow2Less(p: nat, k: nat)
    requires Pow2(p) < Pow2(k)
    ensures p < k
  {
    if k <= p { Pow2Mono(k, p); }
  }

  /** One halving of the scaled divisor. */
  lemma HalveScaled(y: int, p: nat)
    ensures y * Pow2(p + 1) == 2 * (y * Pow2(p))
    ensures (y * Pow2(p + 1)) / 2 == y * Pow2(p)
  {
    assert y * (2 * Pow2(p)) == 2 * (y * Pow2(p));
  }

  /** Subtracting the scaled divisor is worth one quotient bit. */
  lemma TakeBit(q: int, y: int, n: int, b: int)
    ensures (q + b) * y + (n - y * b) == q * y + n
  {
    assert (q + b) * y == q * y + b * y;
  }

  lemma ScaleBound(y: int, p: nat)
    requires 2 <= y && y * Pow2(p) < BASE128
    ensures p < 127
  {
    MulMono(Pow2(p), 2, y);
    assert Pow2(p) * y == y * Pow2(p);
    var k: nat := 128;
    Pow2Of128(k);
    assert Pow2(p + 1) < Pow2(k);
    Pow2Less(p + 1, k);
  }

  /** First loop: d becomes y * 2^p with d <= x < 2d, kept as n = x - d. */
  method ScaleUp(n: Word128, d: Word128, ghost x: int, ghost y: int) returns (p: nat)
    requires n != d && 2 <= y <= x < BASE128
    requires d.U() == y && n.U() == x - y
    modifies n, d
    ensures d.U() == y * Pow2(p) && n.U() == x - d.U() < d.U()
    ensures p < 127
  {
    p := 0;
    while !ULt(n, d)
      invariant d.U() == y * Pow2(p) && n.U() == x - d.U()
      invariant d.U() > 0
      decreases n.U()
    {
      HalveScaled(y, p);
      var _ := Sub(n, d, n);
      Double(d);
      p := p + 1;
    }
    ScaleBound(y, p);
  }

  /** The state of the second loop before it looks at bit p: the quotient bits above p
      are known, d is the divisor scaled by 2^p, and n is what is left of x. */
  ghost predicate Dividing(n: Word128, d: Word128, ans: Word128, p: int, x: int, y: int)
    reads n, d, ans
  {
    && n != d && n != ans && d != ans && 0 < y && -1 <= p < 127
    && d.U() == (y * Pow2(p + 1)) / 2
    && n.U() < y * Pow2(p + 1)
    && ans.U() * y + n.U() == x
    && ans.U() % Pow2(p + 1) == 0
  }

  lemma MultipleMinusMultiple(u: int, h: int, l: int, r: int, p: int)
    requires 0 < p && u == h * (r * p) + l && u % p == 0
    ensures l % p == 0
  {
    assert h * (r * p) == (h * r) * p;
    assert l == u + (-(h * r)) * p;
    ModPlusMultiple(u, -(h * r), p);
  }

  lemma LowWordOfMultiple(u: int, h: u64, l: u64, k: nat)
    requires u == h * BASE64 + l && u % Pow2(k) == 0 && k <= 64
    ensures l % Pow2(k) == 0
  {
    Pow2Add(64 - k, k);
    Pow2Of64((64 - k) + k);
    MultipleMinusMultiple(u, h, l, Pow2(64 - k), Pow2(k));
  }

  lemma HighWordOfMultiple(u: int, h: u64, l: u64, k: nat)
    requires u == h * BASE64 + l && u % Pow2(k + 64) == 0
    ensures l == 0 && h % Pow2(k) == 0
  {
    var q, m: nat := u / Pow2(k + 64), 64;
    Pow2Add(k, m);
    Pow2Of64(m);
    assert u == q * (Pow2(k) * BASE64) == (q * Pow2(k)) * BASE64;
    DivModUnique(u, BASE64, q * Pow2(k), 0);
    DivModUnique(u, BASE64, h, l);
    MultipleMod(q, Pow2(k));
  }

  method SetLowBit(ans: Word128, p: nat)
    requires p < 64 && ans.U() % Pow2(p + 1) == 0
    modifies ans
    ensures ans.U() == old(ans.U()) + Pow2(p) && ans.U() % Pow2(p) == 0
  {
    LowWordOfMultiple(ans.U(), ans.high, ans.low, p + 1);
    MultipleOfDouble(ans.U(), Pow2(p), ans.U() / Pow2(p + 1));
    SetBit(ans.low, p);
    ans.low := Or(ans.low, Pow2(p));
  }

  method SetHighBit(ans: Word128, p: nat)
    requires 64 <= p < 128 && ans.U() % Pow2(p + 1) == 0
    modifies ans
    ensures ans.U() == old(ans.U()) + Pow2(p) && ans.U() % Pow2(p) == 0
  {
    var k, m: nat := p - 64, 64;
    HighWordOfMultiple(ans.U(), ans.high, ans.low, k + 1);
    MultipleOfDouble(ans.U(), Pow2(p), ans.U() / Pow2(p + 1));
    SetBit(ans.high, k);
    Pow2Add(k, m);
    Pow2Of64(m);
    ans.high := Or(ans.high, Pow2(k));
  }

  lemma KeepMultiple(u: nat, p: nat)
    requires u % Pow2(p + 1) == 0
    ensures u % Pow2(p) == 0
  {
    var q := u / Pow2(p + 1);
    assert u == q * (2 * Pow2(p)) == (2 * q) * Pow2(p);
    DivModUnique(u, Pow2(p), 2 * q, 0);
  }

  /** If the scaled divisor fits, it is subtracted; either way less than it is left. */
  method TrySubtract(n: Word128, d: Word128, ans: Word128, p: nat, ghost x: int, ghost y: int) returns (fits: bool)
    requires Dividing(n, d, ans, p, x, y)
    modifies n
    ensures d.U() == y * Pow2(p) && n.U() < y * Pow2(p)
    ensures (ans.U() + (if fits then Pow2(p) else 0)) * y + n.U() == x
  {
    HalveScaled(y, p);
    fits := !ULt(n, d);
    if fits {
      TakeBit(ans.U(), y, n.U(), Pow2(p));
      var _ := Sub(n, d, n);
    }
  }

  /** The quotient bits of the high word. */
  method HighBits(n: Word128, d: Word128, ans: Word128, top: nat, ghost x: int, ghost y: int) returns (p: int)
    requires Dividing(n, d, ans, top, x, y)
    modifies n, d, ans
    ensures p < 64 && Dividing(n, d, ans, p, x, y)
  {
    p := top;
    while p >= 64
      invariant Dividing(n, d, ans, p, x, y)
    {
      KeepMultiple(ans.U(), p);
      var fits := TrySubtract(n, d, ans, p, x, y);
      if fits {
        SetHighBit(ans, p);
      }
      Halve(d);
      p := p - 1;
    }
  }

  /** Second loop, high then low quotient word. */
  method QuotientBits(n: Word128, d: Word128, ans: Word128, top: nat, ghost x: int, ghost y: int)
    requires Dividing(n, d, ans, top, x, y)
    modifies n, d, ans
    ensures ans.U() * y + n.U() == x && n.U() < y
  {
    var p := HighBits(n, d, ans, top, x, y);
    while p >= 0
      invariant -1 <= p < 64 && Dividing(n, d, ans, p, x, y)
    {
      KeepMultiple(ans.U(), p);
      var fits := TrySubtract(n, d, ans, p, x, y);
      if fits {
        SetLowBit(ans, p);
      }
      Halve(d);
      p := p - 1;
    }
  }

  /** The general case: scale the divisor up, then take the quotient bits. */
  method LongDivide(x: Word128, y: Word128, ans: Word128) returns (exact: bool)
    requires 2 <= y.U() <= x.U()
    modifies ans
    ensures ans.U() == old(x.U()) / old(y.U())
    ensures exact <==> old(x.U()) % old(y.U()) == 0
  {
    ghost var xv, yv := x.U(), y.U();
    var n := new Word128(x.low, x.high);
    var d := new Word128(y.low, y.high);
    var _ := Sub(n, d, n);
    var p := ScaleUp(n, d, xv, yv);
    HalveScaled(yv, p);
    SumBelow(n.U() + d.U());
    var _ := Add(n, d, n);
    ans.low, ans.high := 0, 0;
    DivModUnique(0, Pow2(p + 1), 0, 0);
    QuotientBits(n, d, ans, p, xv, yv);
    DivModUnique(xv, yv, ans.U(), n.U());
    exact := n.low == 0 && n.high == 0;
  }

  lemma SumBelow(x: int)
    requires 0 <= x < BASE128
    ensures x % BASE128 == x
  {
  }

  /** Exact quotient for every x and every y >= 1; dividing by zero gives zero.
      The flag says "y divides x" only for x >= y: it is 1 for y <= 1 and 0 for x = 0 < y - 1. */
  method Div(x: Word128, y: Word128, ans: Word128) returns (exact: bool)
    modifies ans
    ensures ans.U() == if old(y.U()) == 0 then 0 else old(x.U()) / old(y.U())
    ensures exact <==> old(y.U()) <= 1 || (old(x.U()) >= old(y.U()) && old(x.U()) % old(y.U()) == 0)
  {
    ghost var xv, yv := x.U(), y.U();
    if y.low == 0 && y.high == 0 {
      ans.low := 0;
      ans.high := 0;
      return true;
    }
    if y.low == 1 && y.high == 0 {
      ans.low, ans.high := x.low, x.high;
      return true;
    }
    if ULt(x, y) {
      DivModUnique(xv, yv, 0, xv);
      ans.low := 0;
      ans.high := 0;
      return false;
    }
    exact := LongDivide(x, y, ans);
  }

  // ------------------------------------------------------------------ signed

  /** Division that truncates toward zero, as C's does. */
  ghost function TruncDiv(x: int, d: int): int
    requires d != 0
  {
    var q := Magnitude(x) / Magnitude(d);
    if (x < 0) != (d < 0) then -q else q
  }

  /** What makes TruncDiv the quotient C promises: the remainder is smaller than the
      divisor and has the sign of the dividend. */
  lemma TruncDivRemainder(x: int, d: int)
    requires d != 0
    ensures var r := x - d * TruncDiv(x, d);
      Magnitude(r) < Magnitude(d) && (r == 0 || (r < 0 <==> x < 0))
  {
    var q, r := Magnitude(x) / Magnitude(d), Magnitude(x) % Magnitude(d);
    assert Magnitude(x) == Magnitude(d) * q + r;
    assert d * TruncDiv(x, d) == if x < 0 then -(Magnitude(d) * q) else Magnitude(d) * q by {
      assert (-d) * q == -(d * q) && d * (-q) == -(d * q) && (-d) * (-q) == d * q;
    }
  }

  /** Only the most negative value over -1 leaves the range; it wraps to itself. */
  lemma TruncDivRange(x: int, d: int)
    requires -SIGN <= x < SIGN && d != 0
    ensures WrapSigned(TruncDiv(x, d)) == if x == -SIGN && d == -1 then x else TruncDiv(x, d)
  {
    var q := Magnitude(x) / Magnitude(d);
    DivBounds(Magnitude(x), Magnitude(d));
    if d == -1 || d == 1 {
      assert q == Magnitude(x);
    } else {
      assert q <= Magnitude(x) / 2 by {
        if 2 * q > Magnitude(x) { MulMono(q, 2, Magnitude(d)); }
      }
    }
    var t := TruncDiv(x, d);
    DivModUnique(t, BASE128, if t < 0 then -1 else 0, if t < 0 then t + BASE128 else t);
  }

  /** The quotient of the magnitudes, negated when the signs differ. */
  lemma SignedQuotient(x: int, d: int, q: int, u: int)
    requires d != 0 && q == Magnitude(x) / Magnitude(d) && 0 <= q < BASE128
    requires u == if (x < 0) != (d < 0) then (-q) % BASE128 else q
    ensures Signed(u) == WrapSigned(TruncDiv(x, d))
  {
    DivModUnique(q, BASE128, 0, q);
  }

  /** Signed quotient: truncation toward zero, wrapped to 128 bits; zero for a zero divisor. */
  method SDiv(x: Word128, d: Word128, ans: Word128)
    modifies ans
    ensures ans.S() == if old(d.S()) == 0 then 0 else WrapSigned(TruncDiv(old(x.S()), old(d.S())))
  {
    var ux := new Word128(0, 0);
    var ud := new Word128(0, 0);
    var xNegative := Abs(x, ux);
    var dNegative := Abs(d, ud);
    var _ := Div(ux, ud, ans);
    ghost var q := ans.U();
    if xNegative != dNegative {
      Minus(ans, ans);
    }
    if old(d.S()) != 0 { SignedQuotient(old(x.S()), old(d.S()), q, ans.U()); }
  }
}
