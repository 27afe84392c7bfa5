/**
 The portable wide multiplications and the divisions by a constant of fmt. Unsigned
 integers are naturals below a power of two; a shift is a multiplication or a division by
 a power of two, a mask a remainder, and every operation that can wrap is reduced.
 */
module WideMul {
  const B32: nat := 0x1_0000_0000
  const B64: nat := 0x1_0000_0000_0000_0000

  type U32 = x: nat | x < 0x1_0000_0000
  type U64 = x: nat | x < 0x1_0000_0000_0000_0000

  datatype U128 = U128(hi: U64, lo: U64)

  function Value(x: U128): nat { x.hi * B64 + x.lo }

  function Wrap(x: nat): U64 { x % 0x1_0000_0000_0000_0000 }

  /** The branch of umul128 without a native 128-bit type. */
  function Umul128(x: U64, y: U64): U128 {
    var a, b, c, d := x / B32, x % B32, y / B32, y % B32;
    Combine(Wrap(a * c), Wrap(b * c), Wrap(a * d), Wrap(b * d))
  }

  /** The second half of umul128: the four partial products, put together. */
  function Combine(ac: U64, bc: U64, ad: U64, bd: U64): U128 {
    var intermediate := Wrap(bd / B32 + ad % B32 + bc % B32);
    U128(Wrap(ac + intermediate / B32 + ad / B32 + bc / B32), Wrap(Wrap(intermediate * B32) + bd % B32))
  }

  lemma ProductBound(a: nat, b: nat, A: nat, B: nat)
    requires a <= A && b <= B
    ensures a * b <= A * B
  {
    assert a * b <= A * b;
    assert A * b <= A * B;
  }

  lemma SplitProduct(a: nat, b: nat, c: nat, d: nat)
    ensures (a * B32 + b) * (c * B32 + d) == a * c * B64 + (a * d + b * c) * B32 + b * d
  {
    calc {
      (a * B32 + b) * (c * B32 + d);
      (a * B32 + b) * (c * B32) + (a * B32 + b) * d;
      { assert (a * B32 + b) * (c * B32) == a * c * B64 + b * c * B32; }
      a * c * B64 + b * c * B32 + (a * B32 + b) * d;
      { assert (a * B32 + b) * d == a * d * B32 + b * d; }
      a * c * B64 + b * c * B32 + a * d * B32 + b * d;
    }
  }

  /** The linear identity behind the recombination, on halves; nothing wraps. */
  lemma Halves(ac: nat, bc1: nat, bc0: nat, ad1: nat, ad0: nat, bd1: nat, bd0: nat, i1: nat, i0: nat)
    requires bc0 < B32 && ad0 < B32 && bd0 < B32 && i0 < B32
    requires ac <= (B32 - 1) * (B32 - 1) && bc1 <= B32 - 2 && ad1 <= B32 - 2 && bd1 <= B32 - 2
    requires i1 * B32 + i0 == bd1 + ad0 + bc0
    ensures ac + i1 + ad1 + bc1 < B64 && i0 * B32 + bd0 < B64
    ensures (ac + i1 + ad1 + bc1) * B64 + i0 * B32 + bd0
            == ac * B64 + ((ad1 * B32 + ad0) + (bc1 * B32 + bc0)) * B32 + (bd1 * B32 + bd0)
  {
  }

  lemma ShiftWraps(i: nat)
    ensures (i * B32) % B64 == (i % B32) * B32
  {
  }

  lemma NoWrap(x: nat)
    requires x < B64
    ensures Wrap(x) == x
  {
  }

  lemma UpperHalf(x: nat)
    requires x <= (B32 - 1) * (B32 - 1)
    ensures x / B32 <= B32 - 2 && x < B64
  {
  }

  lemma CombineExact(ac: U64, bc: U64, ad: U64, bd: U64)
    requires ac <= (B32 - 1) * (B32 - 1) && bc <= (B32 - 1) * (B32 - 1)
    requires ad <= (B32 - 1) * (B32 - 1) && bd <= (B32 - 1) * (B32 - 1)
    ensures Value(Combine(ac, bc, ad, bd)) == ac * B64 + (ad + bc) * B32 + bd
  {
    var bc1, bc0, ad1, ad0, bd1, bd0 := bc / B32, bc % B32, ad / B32, ad % B32, bd / B32, bd % B32;
    UpperHalf(bc);
    UpperHalf(ad);
    UpperHalf(bd);
    var i := bd1 + ad0 + bc0;
    var i1, i0 := i / B32, i % B32;
    ShiftWraps(i);
    Halves(ac, bc1, bc0, ad1, ad0, bd1, bd0, i1, i0);
    NoWrap(i);
    NoWrap(ac + i1 + ad1 + bc1);
    NoWrap(i0 * B32 + bd0);
  }

  /** Nothing wraps, and the two halves are the exact product. */
  lemma UmulExact(x: U64, y: U64)
    ensures Value(Umul128(x, y)) == x * y
  {
    var a, b, c, d := x / B32, x % B32, y / B32, y % B32;
    var M := B32 - 1;
    ProductBound(a, c, M, M);
    ProductBound(a, d, M, M);
    ProductBound(b, c, M, M);
    ProductBound(b, d, M, M);
    SplitProduct(a, b, c, d);
    Parts(a * c, b * c, a * d, b * d);
  }

  lemma Parts(ac: nat, bc: nat, ad: nat, bd: nat)
    requires ac <= (B32 - 1) * (B32 - 1) && bc <= (B32 - 1) * (B32 - 1)
    requires ad <= (B32 - 1) * (B32 - 1) && bd <= (B32 - 1) * (B32 - 1)
    ensures Value(Combine(Wrap(ac), Wrap(bc), Wrap(ad), Wrap(bd))) == ac * B64 + (ad + bc) * B32 + bd
  {
    UpperHalf(ac);
    UpperHalf(bc);
    UpperHalf(ad);
    UpperHalf(bd);
    NoWrap(ac);
    NoWrap(bc);
    NoWrap(ad);
    NoWrap(bd);
    CombineExact(ac, bc, ad, bd);
  }

  lemma UmulUpper(x: U64, y: U64)
    ensures Umul128(x, y).hi == x * y / B64
    ensures Umul128(x, y).lo == x * y % B64
  {
    UmulExact(x, y);
  }

  /** uint128_fallback += uint64_t, with the carry found by comparison. */
  function AddTo(r: U128, n: U64): U128 {
    var lo := Wrap(r.lo + n);
    U128(Wrap(r.hi + if lo < n then 1 else 0), lo)
  }

  lemma AddToExact(r: U128, n: U64)
    requires Value(r) + n < B64 * B64
    ensures Value(AddTo(r, n)) == Value(r) + n
  {
  }

  function Umul192Upper128(x: U64, y: U128): U128 {
    AddTo(Umul128(x, y.hi), Umul128(x, y.lo).hi)
  }

  lemma Distribute(x: nat, hi: nat, lo: nat)
    ensures x * (hi * B64 + lo) == x * hi * B64 + x * lo
  {
  }

  lemma UpperOf(h: U128, l: U64, high: nat, low: nat)
    requires Value(h) == high <= (B64 - 1) * (B64 - 1) && l == low / B64
    ensures Value(AddTo(h, l)) == (high * B64 + low) / B64
  {
    AddToExact(h, l);
  }

  /** The upper 128 of the 192 bits of the product, exactly. */
  lemma Umul192UpperExact(x: U64, y: U128)
    ensures Value(Umul192Upper128(x, y)) == x * Value(y) / B64
  {
    UmulExact(x, y.hi);
    UmulUpper(x, y.lo);
    ProductBound(x, y.hi, B64 - 1, B64 - 1);
    Distribute(x, y.hi, y.lo);
    UpperOf(Umul128(x, y.hi), Umul128(x, y.lo).hi, x * y.hi, x * y.lo);
  }

  function Umul192Lower128(x: U64, y: U128): U128 {
    WithHighLow(Wrap(x * y.hi), Umul128(x, y.lo))
  }

  function WithHighLow(high: U64, highLow: U128): U128 {
    U128(Wrap(high + highLow.hi), highLow.lo)
  }

  lemma LowerOf(high: nat, low: nat, p: U128)
    requires p.hi == low / B64 && p.lo == low % B64
    ensures Value(U128(Wrap(Wrap(high) + p.hi), p.lo)) == (high * B64 + low) % (B64 * B64)
  {
    assert (high * B64 + low) / B64 == high + low / B64;
  }

  /** The lower 128 bits, exactly. */
  lemma Umul192LowerExact(x: U64, y: U128)
    ensures Value(Umul192Lower128(x, y)) == x * Value(y) % (B64 * B64)
  {
    UmulUpper(x, y.lo);
    LowerWith(x, y, Umul128(x, y.lo));
  }

  lemma LowerWith(x: U64, y: U128, p: U128)
    requires p.hi == x * y.lo / B64 && p.lo == x * y.lo % B64
    ensures Value(WithHighLow(Wrap(x * y.hi), p)) == x * Value(y) % (B64 * B64)
  {
    Distribute(x, y.hi, y.lo);
    LowerOf(x * y.hi, x * y.lo, p);
  }

  function Umul96Upper64(x: U32, y: U64): U64 { Umul128(x * B32, y).hi }

  function Umul96Lower64(x: U32, y: U64): U64 { Wrap(x * y) }

  lemma Umul96Exact(x: U32, y: U64)
    ensures Umul96Upper64(x, y) == x * y / B32
    ensures Umul96Lower64(x, y) == x * y % B64
  {
    UmulUpper(x * B32, y);
    Commute(x, y);
    Unscale(x * y);
  }

  lemma Commute(x: nat, y: nat)
    ensures x * B32 * y == x * y * B32
  {
  }

  lemma Unscale(p: nat)
    ensures p * B32 / B64 == p / B32
  {
  }

  // ----- division by a constant -----

  function DivideFloat(n: U32): U32 { Wrap(n * 1374389535) / 0x20_0000_0000 % 0x1_0000_0000 }

  lemma DivideFloatExact(n: U32)
    ensures DivideFloat(n) == n / 100
  {
  }

  function DivideDouble(n: U64): U64 { Umul128(n, MAGIC_1000).hi / 128 }

  /** The multiplication by ceil(2^71 / 1000) divides by 1000 exactly for every n up to
      15534100272597517998, and above that fails for the numbers ending in 999 alone. */
  lemma DivideDoubleExact(n: U64)
    ensures DivideDouble(n) == n / 1000 <==> n <= 15534100272597517998 || n % 1000 != 999
  {
    var a, r := n / 1000, n % 1000;
    DividesBy71(n);
    Excess(a, r);
    QuotientOf(a, 152 * a + r * MAGIC_1000);
  }

  /** Where it fails it is one too large. */
  lemma OneTooLarge(n: U64)
    requires n > 15534100272597517998 && n % 1000 == 999
    ensures DivideDouble(n) == n / 1000 + 1
  {
    var a, r := n / 1000, n % 1000;
    DividesBy71(n);
    Excess(a, r);
    QuotientOf(a, 152 * a + r * MAGIC_1000);
  }

  /** The first such number. */
  lemma DivideDoubleFails()
    ensures DivideDouble(15534100272597517999) == 15534100272597518
  {
    var n := 15534100272597517999;
    assert n % 1000 == 999 && n / 1000 == 15534100272597517;
    OneTooLarge(n);
  }

  lemma DividesBy71(n: U64)
    ensures DivideDouble(n) == n * MAGIC_1000 / POW_71
  {
    UmulUpper(n, MAGIC_1000);
    Shifted(n * MAGIC_1000);
  }

  /** 1000 times the factor exceeds 2^71 by 152. */
  lemma Excess(a: nat, r: nat)
    requires 1000 * a + r < B64 && r < 1000
    ensures (1000 * a + r) * MAGIC_1000 == a * POW_71 + (152 * a + r * MAGIC_1000)
    ensures 152 * a + r * MAGIC_1000 < 2 * POW_71
    ensures 152 * a + r * MAGIC_1000 < POW_71 <==> 1000 * a + r <= 15534100272597517998 || r != 999
  {
  }

  const MAGIC_1000: nat := 2361183241434822607
  const POW_71: nat := 2361183241434822606848

  lemma QuotientOf(a: nat, t: nat)
    requires t < 2 * POW_71
    ensures (a * POW_71 + t) / POW_71 == if t < POW_71 then a else a + 1
  {
  }

  lemma Shifted(x: nat)
    ensures x / B64 / 128 == x / POW_71
  {
  }
}
