/**
 Schoolbook multiplication on 32-bit limbs (_include/int128.h:261-306).

 Limb 0 is the most significant.  Column j collects the products a[i] * b[j-i+3]
 with i >= j; the columns left of column 0 only hold multiples of 2^128.
 */
module Int128Multiply {
  import opened Basics
  import opened Words
  import opened Int128

  const HI_INT: u64 := 0xFFFF_FFFF_0000_0000
  const LO_INT: u64 := 0xFFFF_FFFF

  lemma MaskLow(x: u64)
    ensures And(x, LO_INT) == x % BASE32
  {
    var k: nat := 32;
    Pow2Of32(k);
    AndLow(x, k);
  }

  lemma MaskHigh(x: u64)
    ensures And(x, HI_INT) == x - x % BASE32
  {
    var k: nat, m: nat := 32, 64;
    Pow2Of32(k);
    Pow2Of64(m);
    AndHigh(x, k, m);
  }

  /** The high and the low half of a word. */
  method Halves(x: u64) returns (hi: u64, lo: u64)
    ensures hi == x / BASE32 && lo == x % BASE32
    ensures hi < BASE32 && lo < BASE32 && x == hi * BASE32 + lo
  {
    MaskLow(x);
    MaskHigh(x);
    hi := Shr32(And(x, HI_INT));
    lo := And(x, LO_INT);
  }

  function Shr32(x: u64): (r: u64)
    ensures r == x / BASE32
  {
    var k: nat := 32;
    Pow2Of32(k);
    Shr(x, k)
  }

  /** The four limbs of x, most significant first. */
  method SplitLimbs(x: Word128) returns (a: array<u64>)
    ensures fresh(a) && a.Length == 4
    ensures forall i :: 0 <= i < 4 ==> a[i] < BASE32
    ensures a[..] == Limbs(x.U())
  {
    a := new u64[4];
    a[0], a[1] := Halves(x.high);
    a[2], a[3] := Halves(x.low);
    DivModUnique(x.U(), BASE64, x.high, x.low);
  }

  ghost function LimbValue(a0: int, a1: int, a2: int, a3: int): int {
    a0 * 0x1_0000_0000_0000_0000_0000_0000 + a1 * BASE64 + a2 * BASE32 + a3
  }

  /** The part of column j that the inner loop has added when it has come down to i. */
  ghost function Column(a: seq<int>, b: seq<int>, j: int, i: int): int
    requires |a| == |b| == 4 && 0 <= j <= i <= 4
    decreases 4 - i
  {
    if i == 4 then 0 else a[i] * b[j - i + 3] + Column(a, b, j, i + 1)
  }

  /** Ends a column: the accumulator's low limb is a digit of the result, the rest and
      the carries move on to the next column. */
  method CarryOut(acc: u64, carry: u64) returns (limb: u64, next: u64)
    requires carry <= 4
    ensures limb < BASE32 && next < 5 * BASE32 && (carry == 0 <==> next < BASE32)
    ensures acc + carry * BASE64 == limb + BASE32 * next
  {
    var k: nat := 32;
    Pow2Of32(k);
    MaskLow(acc);
    MultipleMod(carry, BASE32);
    assert acc / BASE32 < BASE32;
    OrDisjoint(carry * BASE32, acc / BASE32, k);
    OrCommutes(carry * BASE32, acc / BASE32);
    limb := And(acc, LO_INT);
    next := Or(Shr32(acc), carry * BASE32);
  }

  function Join(hi: u64, lo: u64): (w: u64)
    requires hi < BASE32 && lo < BASE32
    ensures w == hi * BASE32 + lo
  {
    var k: nat := 32;
    Pow2Of32(k);
    MultipleMod(hi, BASE32);
    OrDisjoint(hi * BASE32, lo, k);
    Or(hi * BASE32, lo)
  }

  lemma ProductBound(x: int, y: int)
    requires 0 <= x < BASE32 && 0 <= y < BASE32
    ensures 0 <= x * y <= BASE64 - 2 * BASE32 + 1
  {
    var m := BASE32 - 1;
    MulMono(x, y, m);
    MulMono(m, x, m);
    assert x * m == m * x;
    MulMono(x, 0, y);
  }

  /** One limb times a number in limb form. */
  lemma Distribute(a: int, b0: int, b1: int, b2: int, b3: int)
    ensures a * LimbValue(b0, b1, b2, b3) == LimbValue(a * b0, a * b1, a * b2, a * b3)
  {
  }

  /** The columns the loop keeps, as one number. */
  ghost function KeptSum(a: seq<int>, b: seq<int>): int
    requires |a| == |b| == 4
  {
    LimbValue(Column(a, b, 0, 0), Column(a, b, 1, 1), Column(a, b, 2, 2), Column(a, b, 3, 3))
  }

  /** The columns it drops, in units of 2^128. */
  ghost function DroppedSum(a: seq<int>, b: seq<int>): int
    requires |a| == |b| == 4
  {
    LimbValue(0, a[0] * b[0], a[0] * b[1] + a[1] * b[0], a[0] * b[2] + a[1] * b[1] + a[2] * b[0])
  }

  /** The full product, grouped by columns. */
  lemma ProductParts(a: seq<int>, b: seq<int>)
    requires |a| == |b| == 4
    ensures LimbValue(a[0], a[1], a[2], a[3]) * LimbValue(b[0], b[1], b[2], b[3])
         == KeptSum(a, b) + DroppedSum(a, b) * BASE128
  {
    var y := LimbValue(b[0], b[1], b[2], b[3]);
    ColumnsWrittenOut(a, b);
    Distribute(a[0], b[0], b[1], b[2], b[3]);
    Distribute(a[1], b[0], b[1], b[2], b[3]);
    Distribute(a[2], b[0], b[1], b[2], b[3]);
    Distribute(a[3], b[0], b[1], b[2], b[3]);
    assert LimbValue(a[0], a[1], a[2], a[3]) * y == LimbValue(a[0] * y, a[1] * y, a[2] * y, a[3] * y) by {
      Distribute(y, a[0], a[1], a[2], a[3]);
    }
  }

  /** The columns beyond 2^128 are one multiple of it. */
  lemma ProductByColumns(a: seq<int>, b: seq<int>)
    requires |a| == |b| == 4
    ensures (LimbValue(a[0], a[1], a[2], a[3]) * LimbValue(b[0], b[1], b[2], b[3])) % BASE128
         == KeptSum(a, b) % BASE128
  {
    ProductParts(a, b);
    ModPlusMultiple(KeptSum(a, b), DroppedSum(a, b), BASE128);
  }

  /** The limbs of a number, most significant first. */
  ghost function Limbs(x: int): (a: seq<int>)
    requires 0 <= x < BASE128
    ensures |a| == 4 && forall i :: 0 <= i < 4 ==> 0 <= a[i] < BASE32
    ensures LimbValue(a[0], a[1], a[2], a[3]) == x
  {
    var h, l := x / BASE64, x % BASE64;
    [h / BASE32, h % BASE32, l / BASE32, l % BASE32]
  }

  /** What the loop keeps of a product. */
  ghost function Kept(x: int, y: int): int
    requires 0 <= x < BASE128 && 0 <= y < BASE128
  {
    KeptSum(Limbs(x), Limbs(y))
  }

  /** The returned flag says that what is kept stays below 2^160.  So it never denies a
      product that fits, and it misses exactly the overflows of which too little is kept. */
  lemma FlagNeverDeniesAFit(x: int, y: int)
    requires 0 <= x < BASE128 && 0 <= y < BASE128
    ensures Kept(x, y) <= x * y
    ensures x * y < BASE128 ==> Kept(x, y) < BASE128 * BASE32
  {
    var a, b := Limbs(x), Limbs(y);
    ProductParts(a, b);
    MulMono(a[0], 0, b[0]);
    MulMono(a[0], 0, b[1]);
    MulMono(a[1], 0, b[0]);
    MulMono(a[0], 0, b[2]);
    MulMono(a[1], 0, b[1]);
    MulMono(a[2], 0, b[0]);
  }

  /** An overflow of which nothing is kept. */
  lemma MissedOverflow()
    ensures BASE64 * BASE64 >= BASE128 && Kept(BASE64, BASE64) == 0
  {
    var a := Limbs(BASE64);
    assert a == [0, 1, 0, 0];
    ColumnsWrittenOut(a, a);
  }

  lemma ColumnsWrittenOut(a: seq<int>, b: seq<int>)
    requires |a| == |b| == 4
    ensures Column(a, b, 3, 3) == a[3] * b[3]
    ensures Column(a, b, 2, 2) == a[2] * b[3] + a[3] * b[2]
    ensures Column(a, b, 1, 1) == a[1] * b[3] + a[2] * b[2] + a[3] * b[1]
    ensures Column(a, b, 0, 0) == a[0] * b[3] + a[1] * b[2] + a[2] * b[1] + a[3] * b[0]
  {
    assert Column(a, b, 3, 4) == Column(a, b, 2, 4) == Column(a, b, 1, 4) == Column(a, b, 0, 4) == 0;
    assert Column(a, b, 2, 3) == a[3] * b[2];
    assert Column(a, b, 1, 3) == a[3] * b[1];
    assert Column(a, b, 0, 3) == a[3] * b[0];
    assert Column(a, b, 1, 2) == a[2] * b[2] + Column(a, b, 1, 3);
    assert Column(a, b, 0, 2) == a[2] * b[1] + Column(a, b, 0, 3);
    assert Column(a, b, 0, 1) == a[1] * b[2] + Column(a, b, 0, 2);
  }

  /** One column of the schoolbook product, added from i = 3 down to i = j. */
  method AddColumn(a: array<u64>, b: array<u64>, j: nat, start: u64) returns (acc: u64, carry: u64)
    requires a.Length == 4 && b.Length == 4 && j < 4
    requires forall k :: 0 <= k < 4 ==> a[k] < BASE32 && b[k] < BASE32
    ensures carry <= 4 - j
    ensures acc + carry * BASE64 == start + Column(a[..], b[..], j, j)
  {
    carry := 0;
    acc := start;
    var i := 4;
    while i > j
      invariant j <= i <= 4 && carry <= 4 - i
      invariant acc + carry * BASE64 == start + Column(a[..], b[..], j, i)
    {
      i := i - 1;
      ProductBound(a[i], b[j - i + 3]);
      assert Column(a[..], b[..], j, i) == a[i] * b[j - i + 3] + Column(a[..], b[..], j, i + 1);
      var ac2 := AddW(acc, a[i] * b[j - i + 3]);
      if ac2 < acc {
        carry := carry + 1;
      }
      acc := ac2;
    }
  }

  /** What the columns from j on have given: their digits and what moves on. */
  ghost predicate Collected(A: seq<int>, acc: int, j: int, c0: int, c1: int, c2: int, c3: int)
    requires |A| == 4
  {
    match j
    case 4 => acc == 0
    case 3 => A[3] + BASE32 * acc == c3
    case 2 => A[3] + BASE32 * A[2] + BASE64 * acc == c3 + BASE32 * c2
    case 1 => LimbValue(acc, A[1], A[2], A[3]) == LimbValue(0, c1, c2, c3)
    case _ => LimbValue(A[0], A[1], A[2], A[3]) + BASE128 * acc == LimbValue(c0, c1, c2, c3)
  }

  lemma CollectOne(A: seq<int>, acc: int, A': seq<int>, acc': int, j: int, c0: int, c1: int, c2: int, c3: int)
    requires |A| == 4 && 0 < j <= 4 && Collected(A, acc, j, c0, c1, c2, c3)
    requires |A'| == 4 && A' == A[j - 1 := A'[j - 1]]
    requires acc + (if j == 4 then c3 else if j == 3 then c2 else if j == 2 then c1 else c0)
          == A'[j - 1] + BASE32 * acc'
    ensures Collected(A', acc', j - 1, c0, c1, c2, c3)
  {
  }

  /** The loop over the columns. */
  method Columns(a: array<u64>, b: array<u64>) returns (A: array<u64>, acc: u64, carry: u64)
    requires a.Length == 4 && b.Length == 4
    requires forall k :: 0 <= k < 4 ==> a[k] < BASE32 && b[k] < BASE32
    ensures fresh(A) && A.Length == 4 && forall k :: 0 <= k < 4 ==> A[k] < BASE32
    ensures acc < 6 * BASE32 && (carry == 0 <==> acc < BASE32)
    ensures LimbValue(A[0], A[1], A[2], A[3]) + BASE128 * acc == KeptSum(a[..], b[..])
  {
    A := new u64[4];
    carry, acc := 0, 0;
    ghost var s, t := a[..], b[..];
    ghost var c0, c1, c2, c3 := Column(s, t, 0, 0), Column(s, t, 1, 1), Column(s, t, 2, 2), Column(s, t, 3, 3);
    var j := 4;
    while j > 0
      invariant 0 <= j <= 4 && a[..] == s && b[..] == t
      invariant forall k :: j <= k < 4 ==> A[k] < BASE32
      invariant acc < 6 * BASE32 && (carry == 0 <==> acc < BASE32)
      invariant Collected(A[..], acc, j, c0, c1, c2, c3)
    {
      ghost var before, start := A[..], acc;
      j := j - 1;
      acc, carry := AddColumn(a, b, j, acc);
      A[j], acc := CarryOut(acc, carry);
      CollectOne(before, start, A[..], acc, j + 1, c0, c1, c2, c3);
    }
  }

  /** The product is exact modulo 2^128, whichever of x, y and ans are the same object.
      The returned flag looks only at the columns that are kept. */
  method Mul(x: Word128, y: Word128, ans: Word128) returns (flag: bool)
    modifies ans
    ensures ans.U() == (old(x.U()) * old(y.U())) % BASE128
    ensures flag <==> Kept(old(x.U()), old(y.U())) < BASE128 * BASE32
  {
    var a := SplitLimbs(x);
    var b := SplitLimbs(y);
    ghost var xv, yv := x.U(), y.U();
    var A, acc, carry := Columns(a, b);
    ans.high := Join(A[0], A[1]);
    ans.low := Join(A[2], A[3]);
    flag := carry == 0 && HighIsZero(acc);
    DigitsOfProduct(xv, yv, A[0], A[1], A[2], A[3], acc);
  }

  predicate HighIsZero(acc: u64)
    ensures HighIsZero(acc) <==> acc < BASE32
  {
    MaskHigh(acc);
    And(acc, HI_INT) == 0
  }

  /** The four digits are the product modulo 2^128; what is left over tells its size. */
  lemma DigitsOfProduct(x: int, y: int, A0: int, A1: int, A2: int, A3: int, acc: int)
    requires 0 <= x < BASE128 && 0 <= y < BASE128 && 0 <= acc
    requires 0 <= A0 < BASE32 && 0 <= A1 < BASE32 && 0 <= A2 < BASE32 && 0 <= A3 < BASE32
    requires LimbValue(A0, A1, A2, A3) + BASE128 * acc == Kept(x, y)
    ensures LimbValue(A0, A1, A2, A3) == (x * y) % BASE128
    ensures acc < BASE32 <==> Kept(x, y) < BASE128 * BASE32
  {
    ProductByColumns(Limbs(x), Limbs(y));
    DivModUnique(Kept(x, y), BASE128, acc, LimbValue(A0, A1, A2, A3));
  }

  lemma NegateReduced(p: int)
    ensures (-(p % BASE128)) % BASE128 == (-p) % BASE128
  {
    ModPlusMultiple(-p, p / BASE128, BASE128);
  }

  lemma ProductOfMagnitudes(x: int, y: int)
    ensures x * y == if (x < 0) != (y < 0) then -(Magnitude(x) * Magnitude(y)) else Magnitude(x) * Magnitude(y)
  {
  }

  ghost function Magnitude(x: int): nat { if x < 0 then -x else x }

  /** The product of the magnitudes, negated when the signs differ. */
  lemma SignedProduct(x: int, d: int, u: int)
    requires 0 <= u < BASE128
    requires var m := (Magnitude(x) * Magnitude(d)) % BASE128; u == if (x < 0) != (d < 0) then (-m) % BASE128 else m
    ensures Signed(u) == WrapSigned(x * d)
  {
    ProductOfMagnitudes(x, d);
    NegateReduced(Magnitude(x) * Magnitude(d));
  }

  /** Signed product: the two's-complement product modulo 2^128. */
  method SMul(x: Word128, d: Word128, ans: Word128)
    modifies ans
    ensures ans.S() == WrapSigned(old(x.S()) * old(d.S()))
  {
    ghost var a, b := x.S(), d.S();
    var ux := new Word128(0, 0);
    var ud := new Word128(0, 0);
    var xNegative := Abs(x, ux);
    var dNegative := Abs(d, ud);
    assert ux.U() == Magnitude(a) && ud.U() == Magnitude(b);
    var _ := Mul(ux, ud, ans);
    assert ans.U() == (Magnitude(a) * Magnitude(b)) % BASE128;
    if xNegative != dNegative {
      Minus(ans, ans);
    }
    SignedProduct(a, b, ans.U());
  }
}
