/**
 remove_trailing_zeros of fmt: divisibility is decided by multiplying with the inverse of
 5 modulo the word size, rotating, and comparing.
 */
module TrailingZeros {
  import opened WideMul
  import Modulo

  const MAX32: nat := 0xffff_ffff
  const MAX64: nat := 0xffff_ffff_ffff_ffff
  const INV5_32: nat := 0xcccccccd
  const INV25_32: nat := INV5_32 * INV5_32 % 0x1_0000_0000
  const INV5_64: nat := 0xcccc_cccc_cccc_cccd
  const INV25_64: nat := INV5_64 * INV5_64 % 0x1_0000_0000_0000_0000
  const MAGIC: U64 := 12379400392853802749 // ceil(2^90 / 10^8)

  function Pow10(s: nat): nat { if s == 0 then 1 else 10 * Pow10(s - 1) }

  // rotr as the source writes it. Its two parts have no bit in common, so | adds them, and the
  // rotations by one and by two below are sums.

  function Rotr32(n: bv32, r: bv32): bv32
    requires 1 <= r <= 31
  {
    (n >> r) | (n << (32 - r))
  }

  function Rotr64(n: bv64, r: bv64): bv64
    requires 1 <= r <= 63
  {
    (n >> r) | (n << (64 - r))
  }

  lemma RotrAdds32(n: bv32)
    ensures Rotr32(n, 1) == n / 2 + n * 0x8000_0000 && Rotr32(n, 2) == n / 4 + n * 0x4000_0000
  {
  }

  lemma RotrAdds64(n: bv64)
    ensures Rotr64(n, 1) == n / 2 + n * 0x8000_0000_0000_0000 && Rotr64(n, 2) == n / 4 + n * 0x4000_0000_0000_0000
  {
  }

  /** rotr(n, 1) and rotr(n, 2) on numbers. */
  function RotrOnce32(n: U32): nat { n / 2 + n * 0x8000_0000 % 0x1_0000_0000 }

  function RotrTwice32(n: U32): nat { n / 4 + n * 0x4000_0000 % 0x1_0000_0000 }

  /** Rotating moves the low bits to the top. */
  lemma RotrMovesLowBits32(n: U32)
    ensures RotrOnce32(n) == n / 2 + (n % 2) * 0x8000_0000 < 0x1_0000_0000
    ensures RotrTwice32(n) == n / 4 + (n % 4) * 0x4000_0000 < 0x1_0000_0000
  {
    Modulo.Unique(n * 0x8000_0000, 0x1_0000_0000, n / 2, (n % 2) * 0x8000_0000);
    Modulo.Unique(n * 0x4000_0000, 0x1_0000_0000, n / 4, (n % 4) * 0x4000_0000);
  }

  /** The same in 64 bits. */
  function RotrOnce64(n: U64): nat { n / 2 + n * 0x8000_0000_0000_0000 % 0x1_0000_0000_0000_0000 }

  function RotrTwice64(n: U64): nat { n / 4 + n * 0x4000_0000_0000_0000 % 0x1_0000_0000_0000_0000 }

  /** Rotating moves the low bits to the top. */
  lemma RotrMovesLowBits64(n: U64)
    ensures RotrOnce64(n) == n / 2 + (n % 2) * 0x8000_0000_0000_0000 < 0x1_0000_0000_0000_0000
    ensures RotrTwice64(n) == n / 4 + (n % 4) * 0x4000_0000_0000_0000 < 0x1_0000_0000_0000_0000
  {
    Modulo.Unique(n * 0x8000_0000_0000_0000, 0x1_0000_0000_0000_0000, n / 2, (n % 2) * 0x8000_0000_0000_0000);
    Modulo.Unique(n * 0x4000_0000_0000_0000, 0x1_0000_0000_0000_0000, n / 4, (n % 4) * 0x4000_0000_0000_0000);
  }

  lemma Inverses()
    ensures INV25_32 == 0xc28f_5c29 && 25 * INV25_32 == 0x1_0000_0000 * 19 + 1 && 5 * INV5_32 == 0x1_0000_0000 * 4 + 1
    ensures INV25_64 == 0x8f5c_28f5_c28f_5c29 && 25 * INV25_64 == 0x1_0000_0000_0000_0000 * 14 + 1
    ensures 5 * INV5_64 == 0x1_0000_0000_0000_0000 * 4 + 1
  {
  }

  // The four tests decide divisibility exactly, and then give the quotient.

  lemma By100In32(n: U32, t: nat, r: nat)
    requires n * 0xc28f5c29 == t * 0x1_0000_0000 + r && r < 0x1_0000_0000
    ensures n % 100 == 0 ==> r == 4 * (n / 100)
    ensures r % 4 == 0 && r / 4 <= MAX32 / 100 ==> n % 100 == 0
  {
    if n % 100 == 0 {
      Modulo.Unique(t * 0x1_0000_0000 + r, 0x1_0000_0000, 76 * (n / 100), 4 * (n / 100));
      Modulo.Unique(t * 0x1_0000_0000 + r, 0x1_0000_0000, t, r);
    } else if r % 4 == 0 && r / 4 <= MAX32 / 100 {
      Modulo.SameResidue(n, 25 * r, 0x1_0000_0000, 19 * n - 25 * t);
    }
  }

  lemma Decide100In32(n: U32, r: U32, q: nat)
    requires q == r / 4 + (r % 4) * 0x4000_0000
    requires n % 100 == 0 ==> r == 4 * (n / 100)
    requires r % 4 == 0 && r / 4 <= MAX32 / 100 ==> n % 100 == 0
    ensures (q <= MAX32 / 100 <==> n % 100 == 0) && (n % 100 == 0 ==> q == n / 100)
  {
  }

  lemma TestBy100In32(n: U32)
    ensures var q := RotrTwice32(n * INV25_32 % 0x1_0000_0000);
            (q <= MAX32 / 100 <==> n % 100 == 0) && (n % 100 == 0 ==> q == n / 100)
  {
    Inverses();
    var p := n * 0xc28f5c29;
    RotrMovesLowBits32(p % 0x1_0000_0000);
    By100In32(n, p / 0x1_0000_0000, p % 0x1_0000_0000);
    Decide100In32(n, p % 0x1_0000_0000, RotrTwice32(p % 0x1_0000_0000));
  }

  lemma By10In32(n: U32, t: nat, r: nat)
    requires n * 0xcccccccd == t * 0x1_0000_0000 + r && r < 0x1_0000_0000
    ensures n % 10 == 0 ==> r == 2 * (n / 10)
    ensures r % 2 == 0 && r / 2 <= MAX32 / 10 ==> n % 10 == 0
  {
    if n % 10 == 0 {
      Modulo.Unique(t * 0x1_0000_0000 + r, 0x1_0000_0000, 8 * (n / 10), 2 * (n / 10));
      Modulo.Unique(t * 0x1_0000_0000 + r, 0x1_0000_0000, t, r);
    } else if r % 2 == 0 && r / 2 <= MAX32 / 10 {
      Modulo.SameResidue(n, 5 * r, 0x1_0000_0000, 4 * n - 5 * t);
    }
  }

  lemma Decide10In32(n: U32, r: U32, q: nat)
    requires q == r / 2 + (r % 2) * 0x8000_0000
    requires n % 10 == 0 ==> r == 2 * (n / 10)
    requires r % 2 == 0 && r / 2 <= MAX32 / 10 ==> n % 10 == 0
    ensures (q <= MAX32 / 10 <==> n % 10 == 0) && (n % 10 == 0 ==> q == n / 10)
  {
  }

  lemma TestBy10In32(n: U32)
    ensures var q := RotrOnce32(n * INV5_32 % 0x1_0000_0000);
            (q <= MAX32 / 10 <==> n % 10 == 0) && (n % 10 == 0 ==> q == n / 10)
  {
    Inverses();
    var p := n * 0xcccccccd;
    RotrMovesLowBits32(p % 0x1_0000_0000);
    By10In32(n, p / 0x1_0000_0000, p % 0x1_0000_0000);
    Decide10In32(n, p % 0x1_0000_0000, RotrOnce32(p % 0x1_0000_0000));
  }

  lemma By100In64(n: U64, t: nat, r: nat)
    requires n * 0x8f5c28f5c28f5c29 == t * 0x1_0000_0000_0000_0000 + r && r < 0x1_0000_0000_0000_0000
    ensures n % 100 == 0 ==> r == 4 * (n / 100)
    ensures r % 4 == 0 && r / 4 <= MAX64 / 100 ==> n % 100 == 0
  {
    if n % 100 == 0 {
      Modulo.Unique(t * 0x1_0000_0000_0000_0000 + r, 0x1_0000_0000_0000_0000, 56 * (n / 100), 4 * (n / 100));
      Modulo.Unique(t * 0x1_0000_0000_0000_0000 + r, 0x1_0000_0000_0000_0000, t, r);
    } else if r % 4 == 0 && r / 4 <= MAX64 / 100 {
      Modulo.SameResidue(n, 25 * r, 0x1_0000_0000_0000_0000, 14 * n - 25 * t);
    }
  }

  lemma Decide100In64(n: U64, r: U64, q: nat)
    requires q == r / 4 + (r % 4) * 0x4000_0000_0000_0000
    requires n % 100 == 0 ==> r == 4 * (n / 100)
    requires r % 4 == 0 && r / 4 <= MAX64 / 100 ==> n % 100 == 0
    ensures (q <= MAX64 / 100 <==> n % 100 == 0) && (n % 100 == 0 ==> q == n / 100)
  {
  }

  lemma TestBy100In64(n: U64)
    ensures var q := RotrTwice64(n * INV25_64 % 0x1_0000_0000_0000_0000);
            (q <= MAX64 / 100 <==> n % 100 == 0) && (n % 100 == 0 ==> q == n / 100)
  {
    Inverses();
    var p := n * 0x8f5c28f5c28f5c29;
    RotrMovesLowBits64(p % 0x1_0000_0000_0000_0000);
    By100In64(n, p / 0x1_0000_0000_0000_0000, p % 0x1_0000_0000_0000_0000);
    Decide100In64(n, p % 0x1_0000_0000_0000_0000, RotrTwice64(p % 0x1_0000_0000_0000_0000));
  }

  lemma By10In64(n: U64, t: nat, r: nat)
    requires n * 0xcccccccccccccccd == t * 0x1_0000_0000_0000_0000 + r && r < 0x1_0000_0000_0000_0000
    ensures n % 10 == 0 ==> r == 2 * (n / 10)
    ensures r % 2 == 0 && r / 2 <= MAX64 / 10 ==> n % 10 == 0
  {
    if n % 10 == 0 {
      Modulo.Unique(t * 0x1_0000_0000_0000_0000 + r, 0x1_0000_0000_0000_0000, 8 * (n / 10), 2 * (n / 10));
      Modulo.Unique(t * 0x1_0000_0000_0000_0000 + r, 0x1_0000_0000_0000_0000, t, r);
    } else if r % 2 == 0 && r / 2 <= MAX64 / 10 {
      Modulo.SameResidue(n, 5 * r, 0x1_0000_0000_0000_0000, 4 * n - 5 * t);
    }
  }

  lemma Decide10In64(n: U64, r: U64, q: nat)
    requires q == r / 2 + (r % 2) * 0x8000_0000_0000_0000
    requires n % 10 == 0 ==> r == 2 * (n / 10)
    requires r % 2 == 0 && r / 2 <= MAX64 / 10 ==> n % 10 == 0
    ensures (q <= MAX64 / 10 <==> n % 10 == 0) && (n % 10 == 0 ==> q == n / 10)
  {
  }

  lemma TestBy10In64(n: U64)
    ensures var q := RotrOnce64(n * INV5_64 % 0x1_0000_0000_0000_0000);
            (q <= MAX64 / 10 <==> n % 10 == 0) && (n % 10 == 0 ==> q == n / 10)
  {
    Inverses();
    var p := n * 0xcccccccccccccccd;
    RotrMovesLowBits64(p % 0x1_0000_0000_0000_0000);
    By10In64(n, p / 0x1_0000_0000_0000_0000, p % 0x1_0000_0000_0000_0000);
    Decide10In64(n, p % 0x1_0000_0000_0000_0000, RotrOnce64(p % 0x1_0000_0000_0000_0000));
  }

  /** nm mod 2^90 < MAGIC, spelled as the code spells it, for the 128-bit product nm. */
  predicate TestBy1E8(nm: U128) {
    nm.hi % 0x400_0000 == 0 && nm.lo < MAGIC
  }

  lemma TestBy1E8IsExact(n: U64)
    ensures TestBy1E8(Umul128(n, MAGIC)) <==> n % 100000000 == 0
    ensures n % 100000000 == 0 ==> Umul128(n, MAGIC).hi / 0x400_0000 == n / 100000000
  {
    UmulExact(n, MAGIC);
    var a, b := n / 100000000, n % 100000000;
    var rest := a * 875776 + b * MAGIC; // n * MAGIC == a * 2^90 + rest
    var nm := Umul128(n, MAGIC);
    assert nm.hi * B64 + nm.lo == a * 0x400_0000 * B64 + rest;
    assert rest < 0x400_0000 * B64;
    SplitHigh(nm.hi, nm.lo, a, rest);
  }

  lemma SplitHigh(hi: nat, lo: nat, a: nat, rest: nat)
    requires lo < B64 && rest < 0x400_0000 * B64 && hi * B64 + lo == a * 0x400_0000 * B64 + rest
    ensures hi / 0x400_0000 == a && (hi % 0x400_0000) * B64 + lo == rest
  {
    var h := rest / B64;
    assert hi == a * 0x400_0000 + h;
  }

  // ----- powers of ten -----

  /** n0 is n with s zeros behind it. */
  ghost predicate WithZeros(n0: nat, n: nat, s: nat) {
    n0 == n * Pow10(s)
  }

  lemma NoZeros(n: nat)
    ensures WithZeros(n, n, 0)
  {
  }

  lemma TakeOne(n0: nat, n: nat, q: nat, s: nat)
    requires WithZeros(n0, n, s) && n == 10 * q
    ensures WithZeros(n0, q, s + 1)
  {
    assert Pow10(s + 1) == 10 * Pow10(s);
    assert 10 * q * Pow10(s) == q * (10 * Pow10(s));
  }

  lemma TakeTwo(n0: nat, n: nat, q: nat, s: nat)
    requires WithZeros(n0, n, s) && n == 100 * q
    ensures WithZeros(n0, q, s + 2)
  {
    TakeOne(n0, n, 10 * q, s);
    TakeOne(n0, 10 * q, q, s + 1);
  }

  /** n0 without its trailing zeros is n, and it had s of them. */
  ghost predicate Stripped(n0: nat, n: nat, s: nat) {
    WithZeros(n0, n, s) && n % 10 != 0
  }

  lemma TenDivides(n0: nat, n: nat, s: nat)
    requires WithZeros(n0, n, s) && s > 0
    ensures n0 % 10 == 0 && WithZeros(n0 / 10, n, s - 1)
  {
    assert n * (10 * Pow10(s - 1)) == 10 * (n * Pow10(s - 1));
  }

  /** The answer is unique. */
  lemma {:induction false} StrippedUnique(n0: nat, n: nat, s: nat, n': nat, s': nat)
    requires Stripped(n0, n, s) && Stripped(n0, n', s')
    ensures n == n' && s == s'
    decreases s
  {
    if s > 0 { TenDivides(n0, n, s); }
    if s' > 0 { TenDivides(n0, n', s'); }
    if s > 0 && s' > 0 {
      StrippedUnique(n0 / 10, n, s - 1, n', s' - 1);
    }
  }

  /** s |= 1 */
  function SetLowBit(s: nat): nat { if s % 2 == 0 then s + 1 else s }

  // The expressions rotr(n * mod_inv_25, 2) and rotr(n * mod_inv_5, 1).

  method Rotated25In32(n: U32) returns (q: U32)
    ensures (q <= MAX32 / 100 <==> n % 100 == 0) && (n % 100 == 0 ==> n == 100 * q)
  {
    TestBy100In32(n);
    RotrMovesLowBits32(n * INV25_32 % 0x1_0000_0000);
    q := RotrTwice32(n * INV25_32 % 0x1_0000_0000);
  }

  method Rotated5In32(n: U32) returns (q: U32)
    ensures (q <= MAX32 / 10 <==> n % 10 == 0) && (n % 10 == 0 ==> n == 10 * q)
  {
    TestBy10In32(n);
    RotrMovesLowBits32(n * INV5_32 % 0x1_0000_0000);
    q := RotrOnce32(n * INV5_32 % 0x1_0000_0000);
  }

  method Rotated25In64(n: U64) returns (q: U64)
    ensures (q <= MAX64 / 100 <==> n % 100 == 0) && (n % 100 == 0 ==> n == 100 * q)
  {
    TestBy100In64(n);
    RotrMovesLowBits64(n * INV25_64 % 0x1_0000_0000_0000_0000);
    q := RotrTwice64(n * INV25_64 % 0x1_0000_0000_0000_0000);
  }

  method Rotated5In64(n: U64) returns (q: U64)
    ensures (q <= MAX64 / 10 <==> n % 10 == 0) && (n % 10 == 0 ==> n == 10 * q)
  {
    TestBy10In64(n);
    RotrMovesLowBits64(n * INV5_64 % 0x1_0000_0000_0000_0000);
    q := RotrOnce64(n * INV5_64 % 0x1_0000_0000_0000_0000);
  }

  /** The last digit of what the pair loop leaves. */
  lemma LastOne(n0: nat, n: nat, q: nat, s: nat)
    requires WithZeros(n0, n, s) && n % 100 != 0 && n == 10 * q
    ensures Stripped(n0, q, s + 1)
  {
    TakeOne(n0, n, q, s);
    assert q % 10 != 0;
  }

  /** The pair loop on 32 bits; s starts at k. */
  method StripPairs32(n0: U32, k: nat) returns (n: U32, s: nat)
    requires n0 != 0 && k % 2 == 0
    ensures s >= k && s % 2 == 0 && WithZeros(n0, n, s - k) && n % 100 != 0
  {
    n, s := n0, k;
    NoZeros(n0);
    while true
      invariant n >= 1 && s >= k && s % 2 == 0 && WithZeros(n0, n, s - k)
      decreases n
    {
      var q := Rotated25In32(n);
      if q > MAX32 / 100 {
        break;
      }
      TakeTwo(n0, n, q, s - k);
      n := q;
      s := s + 2;
    }
  }

  /** The pair loop and the last test, shared by both functions of the source. */
  method Strip32(n0: U32, k: nat) returns (n: U32, s: nat)
    requires n0 != 0 && k % 2 == 0
    ensures s >= k && Stripped(n0, n, s - k)
  {
    n, s := StripPairs32(n0, k);
    var q := Rotated5In32(n);
    if q <= MAX32 / 10 {
      LastOne(n0, n, q, s - k);
      n := q;
      s := SetLowBit(s);
    }
  }

  /** The pair loop on 64 bits. */
  method StripPairs64(n0: U64) returns (n: U64, s: nat)
    requires n0 != 0
    ensures s % 2 == 0 && WithZeros(n0, n, s) && n % 100 != 0
  {
    n, s := n0, 0;
    NoZeros(n0);
    while true
      invariant n >= 1 && s % 2 == 0 && WithZeros(n0, n, s)
      decreases n
    {
      var q := Rotated25In64(n);
      if q > MAX64 / 100 {
        break;
      }
      TakeTwo(n0, n, q, s);
      n := q;
      s := s + 2;
    }
  }

  method Strip64(n0: U64) returns (n: U64, s: nat)
    requires n0 != 0
    ensures Stripped(n0, n, s)
  {
    n, s := StripPairs64(n0);
    var q := Rotated5In64(n);
    if q <= MAX64 / 10 {
      LastOne(n0, n, q, s);
      n := q;
      s := SetLowBit(s);
    }
  }

  method RemoveTrailingZeros32(n0: U32) returns (n: U32, s: nat)
    requires n0 != 0
    ensures Stripped(n0, n, s)
  {
    n, s := Strip32(n0, 0);
  }

  datatype Outcome = Result(n: U64, s: nat) | Diverges

  /** What RemoveTrailingZeros64 computes. */
  ghost predicate Promised(n0: U64, r: Outcome) {
    && (r.Diverges? <==> n0 % 100000000 == 0 && n0 / 100000000 % 0x1_0000_0000 == 0)
    && (r.Result? && n0 % 100000000 == 0 ==>
          r.s >= 8 && Stripped(n0 / 100000000 % 0x1_0000_0000, r.n, r.s - 8))
    && (r.Result? && n0 % 100000000 != 0 ==> Stripped(n0, r.n, r.s))
  }

  /** When the quotient by 10^8 does not fit 32 bits, the cast loses its upper part; when it
      casts to 0, the loop keeps finding 0 divisible and never ends. */
  method RemoveTrailingZeros64(n0: U64) returns (r: Outcome)
    requires n0 != 0
    ensures Promised(n0, r)
  {
    var nm := Umul128(n0, MAGIC);
    TestBy1E8IsExact(n0);
    if TestBy1E8(nm) {
      var n32: U32 := nm.hi / 0x400_0000 % 0x1_0000_0000;
      if n32 == 0 {
        return Diverges;
      }
      var m, t := Strip32(n32, 8);
      return Result(m, t);
    }
    var n, s := Strip64(n0);
    r := Result(n, s);
  }

  /** What the loop does with 0: it finds it divisible by 100 again and again. */
  lemma ZeroLoops()
    ensures RotrTwice32(0 * INV25_32 % 0x1_0000_0000) == 0 <= MAX32 / 100
  {
    TestBy100In32(0);
  }

  /** Given what RemoveTrailingZeros64 promises, its result is the right one exactly when the
      number is not divisible by 10^8 or the quotient fits 32 bits. */
  lemma RightExactlyWhen(n0: U64, r: Outcome)
    requires n0 != 0 && Promised(n0, r)
    ensures r.Result? && Stripped(n0, r.n, r.s) <==> n0 % 100000000 != 0 || n0 < 100000000 * 0x1_0000_0000
  {
    if n0 % 100000000 == 0 && r.Result? {
      var q32 := n0 / 100000000 % 0x1_0000_0000;
      EightMore(q32, r.n, r.s - 8);
    }
  }

  /** The least number for which it never ends, 10^8 * 2^32. */
  lemma DivergesAt(r: Outcome)
    requires Promised(429496729600000000, r)
    ensures r.Diverges?
  {
  }

  /** The next multiple of 10^8 is stripped to 1 with eight zeros: the upper part is lost. */
  lemma WrongAt(r: Outcome)
    requires Promised(429496729700000000, r)
    ensures r == Result(1, 8) && !Stripped(429496729700000000, r.n, r.s)
  {
    assert 429496729700000000 / 100000000 % 0x1_0000_0000 == 1;
    NoZeros(1);
    StrippedUnique(1, 1, 0, r.n, r.s - 8);
    RightExactlyWhen(429496729700000000, r);
  }

  lemma EightMore(q: nat, n: nat, s: nat)
    requires WithZeros(q, n, s)
    ensures WithZeros(100000000 * q, n, s + 8)
  {
    assert Pow10(s + 2) == 100 * Pow10(s);
    assert Pow10(s + 4) == 100 * Pow10(s + 2);
    assert Pow10(s + 6) == 100 * Pow10(s + 4);
    assert Pow10(s + 8) == 100 * Pow10(s + 6);
    assert 100000000 * (n * Pow10(s)) == n * (100000000 * Pow10(s));
  }
}
