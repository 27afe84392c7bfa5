/** UTF-8 and UTF-16, as RFC 3629 and RFC 2781 define them, and the library's conversions: the branchless
    UTF-8 decoder, the UTF-16 encoder and the loop that joins surrogates and emits UTF-8 bytes. */
module Unicode {
  import opened Options
  import opened Sequences

  type Byte = bv8
  type Unit = bv16

  predicate Scalar(c: bv32) { c <= 0xd7ff || 0xe000 <= c <= 0x10ffff }

  predicate AllScalars(cs: seq<bv32>) { forall i :: 0 <= i < |cs| ==> Scalar(cs[i]) }

  // ----- the standards -----

  /** Section 3 of RFC 3629. */
  function Utf8(c: bv32): seq<Byte>
    requires Scalar(c)
  {
    if c < 0x80 then [c as bv8]
    else if c < 0x800 then [(0xc0 + c / 64) as bv8, (0x80 + c % 64) as bv8]
    else if c < 0x10000 then [(0xe0 + c / 4096) as bv8, (0x80 + c / 64 % 64) as bv8, (0x80 + c % 64) as bv8]
    else [(0xf0 + c / 262144) as bv8, (0x80 + c / 4096 % 64) as bv8, (0x80 + c / 64 % 64) as bv8, (0x80 + c % 64) as bv8]
  }

  function Encode(cs: seq<bv32>): seq<Byte>
    requires AllScalars(cs)
  {
    if cs == [] then [] else Utf8(cs[0]) + Encode(cs[1..])
  }

  predicate IsTail(b: Byte) { 0x80 <= b <= 0xbf }

  /** The syntax of section 4 of RFC 3629: the length of the one character that starts these
      four bytes, or 0. */
  function WellFormed(a: Byte, b: Byte, c: Byte, d: Byte): nat {
    if a <= 0x7f then 1
    else if 0xc2 <= a <= 0xdf && IsTail(b) then 2
    else if (if a == 0xe0 then 0xa0 <= b <= 0xbf
             else if a == 0xed then 0x80 <= b <= 0x9f
             else 0xe1 <= a <= 0xef && IsTail(b)) && IsTail(c) then 3
    else if (if a == 0xf0 then 0x90 <= b <= 0xbf
             else if a == 0xf4 then 0x80 <= b <= 0x8f
             else 0xf1 <= a <= 0xf3 && IsTail(b)) && IsTail(c) && IsTail(d) then 4
    else 0
  }

  /** Its value: the bits of the bytes in order. */
  function ValueOf(n: nat, a: Byte, b: Byte, c: Byte, d: Byte): bv32 {
    var w, x, y, z := a as bv32, (b & 0x3f) as bv32, (c & 0x3f) as bv32, (d & 0x3f) as bv32;
    if n == 1 then w
    else if n == 2 then ((w & 0x1f) << 6) | x
    else if n == 3 then ((w & 0x0f) << 12) | (x << 6) | y
    else ((w & 0x07) << 18) | (x << 12) | (y << 6) | z
  }

  function At(s: seq<Byte>, i: nat): Byte { if i < |s| then s[i] else 0 }

  function Lead(s: seq<Byte>): (n: nat)
    ensures n <= |s| || s == []
    ensures n <= 4
  {
    WellFormed(At(s, 0), At(s, 1), At(s, 2), At(s, 3))
  }

  function First(s: seq<Byte>): bv32 {
    ValueOf(Lead(s), At(s, 0), At(s, 1), At(s, 2), At(s, 3))
  }

  /** The characters of a well-formed byte string. */
  function Parse(s: seq<Byte>): (r: Option<seq<bv32>>)
    ensures r.Some? ==> AllScalars(r.value)
    decreases |s|
  {
    if s == [] then Some([])
    else if Lead(s) == 0 then None
    else
      WellFormedIsUtf8(At(s, 0), At(s, 1), At(s, 2), At(s, 3));
      Ahead([First(s)], Parse(s[Lead(s)..]))
  }

  function Ahead(a: seq<bv32>, r: Option<seq<bv32>>): Option<seq<bv32>> {
    if r.None? then None else Some(a + r.value)
  }

  /** The surrogates of a 20-bit number, as section 2.1 of RFC 2781 fills them. */
  function High(v: bv32): Unit
    requires v <= 0xfffff
  {
    (0xd800 | (v >> 10)) as bv16
  }

  function Low(v: bv32): Unit { (0xdc00 | (v & 0x3ff)) as bv16 }

  function Utf16(c: bv32): seq<Unit>
    requires Scalar(c)
  {
    if c < 0x10000 then [c as bv16] else [High(c - 0x10000), Low(c - 0x10000)]
  }

  function Units(cs: seq<bv32>): seq<Unit>
    requires AllScalars(cs)
  {
    if cs == [] then [] else Utf16(cs[0]) + Units(cs[1..])
  }

  /** The ten low bits of each surrogate. */
  function Halves(hi: Unit, lo: Unit): bv32 {
    (((hi & 0x3ff) as bv32) << 10) | ((lo & 0x3ff) as bv32)
  }

  function PairValue(hi: Unit, lo: Unit): bv32 { 0x10000 + Halves(hi, lo) }

  predicate Surrogates(hi: Unit, lo: Unit) { 0xd800 <= hi <= 0xdbff && 0xdc00 <= lo <= 0xdfff }

  /** Section 2.2 of RFC 2781; None when a surrogate stands alone. */
  function Join(us: seq<Unit>): (r: Option<seq<bv32>>)
    ensures r.Some? ==> AllScalars(r.value)
    decreases |us|
  {
    if us == [] then Some([])
    else if us[0] < 0xd800 || us[0] > 0xdfff then UnitIsUtf16(us[0]); Ahead([us[0] as bv32], Join(us[1..]))
    else if |us| == 1 || !Surrogates(us[0], us[1]) then None
    else
      PairIsUtf16(us[0], us[1]);
      Ahead([PairValue(us[0], us[1])], Join(us[2..]))
  }

  // ----- the code, one character at a time -----

  datatype Decoded = Decoded(next: nat, cp: bv32, error: bv32)

  function Bit(b: bool): bv32 { if b then 1 else 0 }

  /** The length the first byte announces: a table indexed by its upper five bits. */
  function CodePointLength(a: Byte): nat {
    if a >> 3 < 16 then 1
    else if a >> 3 < 24 then 0
    else if a >> 3 < 28 then 2
    else if a >> 3 < 30 then 3
    else if a >> 3 == 30 then 4
    else 0
  }

  function LeadMask(len: nat): bv32 {
    if len == 0 then 0 else if len == 1 then 0x7f else if len == 2 then 0x1f else if len == 3 then 0x0f else 0x07
  }

  function Least(len: nat): bv32 {
    if len == 0 then 4194304 else if len == 1 then 0 else if len == 2 then 128 else if len == 3 then 2048 else 65536
  }

  function Drop(x: bv32, len: nat): bv32 {
    if len == 1 then x >> 18 else if len == 2 then x >> 12 else if len == 3 then x >> 6 else x
  }

  function DropErrors(e: bv32, len: nat): bv32 {
    if len == 1 then e >> 6 else if len == 2 then e >> 4 else if len == 3 then e >> 2 else e
  }

  /** Four bytes gathered as if they were a four-byte character, then shifted to their length. */
  function Gather(a: Byte, b: Byte, c: Byte, d: Byte, len: nat): bv32 {
    var w, x, y, z := a as bv32, b as bv32, c as bv32, d as bv32;
    Drop(((w & LeadMask(len)) << 18) | ((x & 0x3f) << 12) | ((y & 0x3f) << 6) | (z & 0x3f), len)
  }

  /** The error conditions, one bit or bit pair each. */
  function Errors(cp: bv32, b: Byte, c: Byte, d: Byte, len: nat): bv32 {
    var x, y, z := b as bv32, c as bv32, d as bv32;
    var e := (Bit(cp < Least(len)) << 6)
           | (Bit((cp >> 11) == 0x1b) << 7)
           | (Bit(cp > 0x10ffff) << 8)
           | ((x & 0xc0) >> 2)
           | ((y & 0xc0) >> 4)
           | (z >> 6);
    DropErrors(e ^ 0x2a, len)
  }

  /** utf8_decode: four bytes are always read, without branching on what they hold. */
  function Utf8Decode(a: Byte, b: Byte, c: Byte, d: Byte): Decoded {
    var len := CodePointLength(a);
    var cp := Gather(a, b, c, d, len);
    Decoded(if len == 0 then 1 else len, cp, Errors(cp, b, c, d, len))
  }

  function ToChar(x: bv32): Byte { (x & 0xff) as bv8 }

  function ToWchar(x: bv32): Unit { (x & 0xffff) as bv16 }

  /** The units the encoder appends for a code point. */
  function AppendUnits(cp: bv32): seq<Unit> {
    if cp <= 0xffff then [ToWchar(cp)]
    else [ToWchar(0xd800 + ((cp - 0x10000) >> 10)), ToWchar(0xdc00 + ((cp - 0x10000) & 0x3ff))]
  }

  /** The bytes the loop appends for a code point; None is the thrown error. */
  function EmitBytes(c: bv32): Option<seq<Byte>> {
    if c < 0x80 then Some([ToChar(c)])
    else if c < 0x800 then Some([ToChar(0xc0 | (c >> 6)), ToChar(0x80 | (c & 0x3f))])
    else if (c >= 0x800 && c <= 0xd7ff) || (c >= 0xe000 && c <= 0xffff) then
      Some([ToChar(0xe0 | (c >> 12)), ToChar(0x80 | ((c & 0xfff) >> 6)), ToChar(0x80 | (c & 0x3f))])
    else if c >= 0x10000 && c <= 0x10ffff then
      Some([ToChar(0xf0 | (c >> 18)), ToChar(0x80 | ((c & 0x3ffff) >> 12)),
            ToChar(0x80 | ((c & 0xfff) >> 6)), ToChar(0x80 | (c & 0x3f))])
    else None
  }

  /** Joining two surrogates: one shift and one subtraction, modulo 2^32. */
  function JoinPair(hi: Unit, lo: Unit): bv32 { ((hi as bv32) << 10) + (lo as bv32) - 0x35fdc00 }

  predicate InRange(cp: bv32, len: nat) {
    if len == 2 then cp >= 128
    else if len == 3 then cp >= 2048 && (cp < 0xd800 || cp > 0xdfff)
    else 65536 <= cp <= 0x10ffff
  }

  lemma Errors1(cp: bv32, b: Byte, c: Byte, d: Byte)
    requires cp <= 0x7f
    ensures Errors(cp, b, c, d, 1) == 0
  {
  }

  lemma Errors2(cp: bv32, b: Byte, c: Byte, d: Byte)
    requires cp <= 0x7ff
    ensures Errors(cp, b, c, d, 2) == 0 <==> InRange(cp, 2) && IsTail(b)
  {
  }

  lemma Errors3(cp: bv32, b: Byte, c: Byte, d: Byte)
    requires cp <= 0xffff
    ensures Errors(cp, b, c, d, 3) == 0 <==> InRange(cp, 3) && IsTail(b) && IsTail(c)
  {
  }

  lemma Errors4(cp: bv32, b: Byte, c: Byte, d: Byte)
    requires cp <= 0x1fffff
    ensures Errors(cp, b, c, d, 4) == 0 <==> InRange(cp, 4) && IsTail(b) && IsTail(c) && IsTail(d)
  {
  }

  lemma Errors0(a: Byte, b: Byte, c: Byte, d: Byte)
    ensures Errors(Gather(a, b, c, d, 0), b, c, d, 0) != 0
  {
  }

  lemma Gather1(a: Byte, b: Byte, c: Byte, d: Byte)
    requires a <= 0x7f
    ensures Gather(a, b, c, d, 1) == ValueOf(1, a, b, c, d) && ValueOf(1, a, b, c, d) <= 0x7f
  {
  }

  lemma Gather2(a: Byte, b: Byte, c: Byte, d: Byte)
    ensures Gather(a, b, c, d, 2) == ValueOf(2, a, b, c, d) && ValueOf(2, a, b, c, d) <= 0x7ff
  {
  }

  lemma Gather3(a: Byte, b: Byte, c: Byte, d: Byte)
    ensures Gather(a, b, c, d, 3) == ValueOf(3, a, b, c, d) && ValueOf(3, a, b, c, d) <= 0xffff
  {
  }

  lemma Gather4(a: Byte, b: Byte, c: Byte, d: Byte)
    ensures Gather(a, b, c, d, 4) == ValueOf(4, a, b, c, d) && ValueOf(4, a, b, c, d) <= 0x1fffff
  {
  }

  lemma Lengths(a: Byte)
    ensures CodePointLength(a) == if a <= 0x7f then 1 else if 0xc0 <= a <= 0xdf then 2 else if 0xe0 <= a <= 0xef then 3
                                  else if 0xf0 <= a <= 0xf7 then 4 else 0
  {
  }

  /** The ranges of values are the ranges of bytes. */
  lemma Range2(a: Byte, b: Byte, c: Byte, d: Byte)
    requires 0xc0 <= a <= 0xdf
    ensures InRange(ValueOf(2, a, b, c, d), 2) <==> 0xc2 <= a
  {
  }

  lemma Range3(a: Byte, b: Byte, c: Byte, d: Byte)
    requires 0xe0 <= a <= 0xef && IsTail(b)
    ensures InRange(ValueOf(3, a, b, c, d), 3) <==> (a == 0xe0 ==> 0xa0 <= b) && (a == 0xed ==> b <= 0x9f)
  {
  }

  lemma Range4(a: Byte, b: Byte, c: Byte, d: Byte)
    requires 0xf0 <= a <= 0xf7 && IsTail(b)
    ensures InRange(ValueOf(4, a, b, c, d), 4) <==> a <= 0xf4 && (a == 0xf0 ==> 0x90 <= b) && (a == 0xf4 ==> b <= 0x8f)
  {
  }

  predicate DecodedRight(a: Byte, b: Byte, c: Byte, d: Byte) {
    var r := Utf8Decode(a, b, c, d);
    && (r.error == 0 <==> WellFormed(a, b, c, d) != 0)
    && (r.error == 0 ==> r.next == WellFormed(a, b, c, d) && r.cp == ValueOf(r.next, a, b, c, d))
  }

  lemma Decode1(a: Byte, b: Byte, c: Byte, d: Byte)
    requires a <= 0x7f
    ensures DecodedRight(a, b, c, d)
  {
    Lengths(a);
    Gather1(a, b, c, d);
    Errors1(ValueOf(1, a, b, c, d), b, c, d);
  }

  lemma Decode2(a: Byte, b: Byte, c: Byte, d: Byte)
    requires 0xc0 <= a <= 0xdf
    ensures DecodedRight(a, b, c, d)
  {
    Lengths(a);
    Gather2(a, b, c, d);
    Errors2(ValueOf(2, a, b, c, d), b, c, d);
    Range2(a, b, c, d);
  }

  lemma Decode3(a: Byte, b: Byte, c: Byte, d: Byte)
    requires 0xe0 <= a <= 0xef
    ensures DecodedRight(a, b, c, d)
  {
    Lengths(a);
    Gather3(a, b, c, d);
    Errors3(ValueOf(3, a, b, c, d), b, c, d);
    if IsTail(b) { Range3(a, b, c, d); }
  }

  lemma Decode4(a: Byte, b: Byte, c: Byte, d: Byte)
    requires 0xf0 <= a <= 0xf7
    ensures DecodedRight(a, b, c, d)
  {
    Lengths(a);
    Gather4(a, b, c, d);
    Errors4(ValueOf(4, a, b, c, d), b, c, d);
    if IsTail(b) { Range4(a, b, c, d); }
  }

  lemma Decode0(a: Byte, b: Byte, c: Byte, d: Byte)
    requires 0x80 <= a <= 0xbf || 0xf8 <= a
    ensures DecodedRight(a, b, c, d)
  {
    Lengths(a);
    Errors0(a, b, c, d);
  }

  /** The decoder accepts exactly the byte sequences the standard's syntax allows, with their
      length and value. */
  lemma DecodeIsExact(a: Byte, b: Byte, c: Byte, d: Byte)
    ensures var r := Utf8Decode(a, b, c, d);
            && (r.error == 0 <==> WellFormed(a, b, c, d) != 0)
            && (r.error == 0 ==> r.next == WellFormed(a, b, c, d) && r.cp == ValueOf(r.next, a, b, c, d))
  {
    assert DecodedRight(a, b, c, d) by {
      if a <= 0x7f { Decode1(a, b, c, d); }
      else if 0xc0 <= a <= 0xdf { Decode2(a, b, c, d); }
      else if 0xe0 <= a <= 0xef { Decode3(a, b, c, d); }
      else if 0xf0 <= a <= 0xf7 { Decode4(a, b, c, d); }
      else { Decode0(a, b, c, d); }
    }
  }

  /** The shifts and masks of the loop give the standard's bytes, and it throws on everything else. */
  lemma EmitsUtf8(c: bv32)
    ensures EmitBytes(c) == if Scalar(c) then Some(Utf8(c)) else None
  {
  }

  lemma Emits1(a: Byte, b: Byte, c: Byte, d: Byte)
    requires a <= 0x7f && WellFormed(a, b, c, d) == 1
    ensures EmitBytes(ValueOf(1, a, b, c, d)) == Some([a])
  {
    assert EmitBytes(ValueOf(1, a, b, c, d)).value == [a];
  }

  lemma Bits2(a: Byte, b: Byte, x: bv32)
    requires 0xc2 <= a <= 0xdf && 0x80 <= b <= 0xbf && x == (((a as bv32) & 0x1f) << 6) | ((b & 0x3f) as bv32)
    ensures 0x80 <= x <= 0x7ff
    ensures ((0xc0 | (x >> 6)) & 0xff) as bv8 == a && ((0x80 | (x & 0x3f)) & 0xff) as bv8 == b
  {
  }

  lemma EmitsTwo(x: bv32, a: Byte, b: Byte)
    requires 0x80 <= x <= 0x7ff
    requires ((0xc0 | (x >> 6)) & 0xff) as bv8 == a && ((0x80 | (x & 0x3f)) & 0xff) as bv8 == b
    ensures EmitBytes(x) == Some([a, b])
  {
    assert EmitBytes(x).value == [a, b];
  }

  lemma Emits2(a: Byte, b: Byte, c: Byte, d: Byte)
    requires a <= 0xdf && WellFormed(a, b, c, d) == 2
    ensures EmitBytes(ValueOf(2, a, b, c, d)) == Some([a, b])
  {
    var x := (((a as bv32) & 0x1f) << 6) | ((b & 0x3f) as bv32);
    Bits2(a, b, x);
    EmitsTwo(x, a, b);
    Value2(a, b, c, d, x);
  }

  lemma Value2(a: Byte, b: Byte, c: Byte, d: Byte, x: bv32)
    requires x == (((a as bv32) & 0x1f) << 6) | ((b & 0x3f) as bv32)
    ensures ValueOf(2, a, b, c, d) == x
  {
  }

  lemma Bits3(a: Byte, b: Byte, c: Byte, x: bv32)
    requires 0xe0 <= a <= 0xef && 0x80 <= b <= 0xbf && 0x80 <= c <= 0xbf
    requires (a == 0xe0 ==> b >= 0xa0) && (a == 0xed ==> b <= 0x9f)
    requires x == (((a as bv32) & 0x0f) << 12) | (((b & 0x3f) as bv32) << 6) | ((c & 0x3f) as bv32)
    ensures 0x800 <= x <= 0xd7ff || 0xe000 <= x <= 0xffff
    ensures ((0xe0 | (x >> 12)) & 0xff) as bv8 == a
    ensures ((0x80 | ((x & 0xfff) >> 6)) & 0xff) as bv8 == b && ((0x80 | (x & 0x3f)) & 0xff) as bv8 == c
  {
  }

  lemma EmitsThree(x: bv32, a: Byte, b: Byte, c: Byte)
    requires 0x800 <= x <= 0xd7ff || 0xe000 <= x <= 0xffff
    requires ((0xe0 | (x >> 12)) & 0xff) as bv8 == a
    requires ((0x80 | ((x & 0xfff) >> 6)) & 0xff) as bv8 == b && ((0x80 | (x & 0x3f)) & 0xff) as bv8 == c
    ensures EmitBytes(x) == Some([a, b, c])
  {
    assert EmitBytes(x).value == [a, b, c];
  }

  lemma Emits3(a: Byte, b: Byte, c: Byte, d: Byte)
    requires 0xe0 <= a <= 0xef && WellFormed(a, b, c, d) == 3
    ensures EmitBytes(ValueOf(3, a, b, c, d)) == Some([a, b, c])
  {
    var x := (((a as bv32) & 0x0f) << 12) | (((b & 0x3f) as bv32) << 6) | ((c & 0x3f) as bv32);
    Bits3(a, b, c, x);
    EmitsThree(x, a, b, c);
    Value3(a, b, c, d, x);
  }

  lemma Value3(a: Byte, b: Byte, c: Byte, d: Byte, x: bv32)
    requires x == (((a as bv32) & 0x0f) << 12) | (((b & 0x3f) as bv32) << 6) | ((c & 0x3f) as bv32)
    ensures ValueOf(3, a, b, c, d) == x
  {
  }

  lemma Bits4(a: Byte, b: Byte, c: Byte, d: Byte)
    requires 0xf0 <= a <= 0xf4 && 0x80 <= b <= 0xbf && 0x80 <= c <= 0xbf && 0x80 <= d <= 0xbf
    requires (a == 0xf0 ==> b >= 0x90) && (a == 0xf4 ==> b <= 0x8f)
    ensures var x := (((a as bv32) & 0x07) << 18) | (((b & 0x3f) as bv32) << 12) | (((c & 0x3f) as bv32) << 6) | ((d & 0x3f) as bv32);
            && 0x10000 <= x <= 0x10ffff
            && ((0xf0 | (x >> 18)) & 0xff) as bv8 == a
            && ((0x80 | ((x & 0x3ffff) >> 12)) & 0xff) as bv8 == b
            && ((0x80 | ((x & 0xfff) >> 6)) & 0xff) as bv8 == c
            && ((0x80 | (x & 0x3f)) & 0xff) as bv8 == d
  {
  }

  lemma Emits4(a: Byte, b: Byte, c: Byte, d: Byte)
    requires 0xf0 <= a && WellFormed(a, b, c, d) == 4
    ensures EmitBytes(ValueOf(4, a, b, c, d)) == Some([a, b, c, d])
  {
    var x := (((a as bv32) & 0x07) << 18) | (((b & 0x3f) as bv32) << 12) | (((c & 0x3f) as bv32) << 6) | ((d & 0x3f) as bv32);
    Bits4(a, b, c, d);
    EmitsFour(x, a, b, c, d);
    Value4(a, b, c, d, x);
  }

  lemma Value4(a: Byte, b: Byte, c: Byte, d: Byte, x: bv32)
    requires x == (((a as bv32) & 0x07) << 18) | (((b & 0x3f) as bv32) << 12) | (((c & 0x3f) as bv32) << 6) | ((d & 0x3f) as bv32)
    ensures ValueOf(4, a, b, c, d) == x
  {
  }

  lemma EmitsFour(x: bv32, a: Byte, b: Byte, c: Byte, d: Byte)
    requires 0x10000 <= x <= 0x10ffff
    requires ((0xf0 | (x >> 18)) & 0xff) as bv8 == a && ((0x80 | ((x & 0x3ffff) >> 12)) & 0xff) as bv8 == b
    requires ((0x80 | ((x & 0xfff) >> 6)) & 0xff) as bv8 == c && ((0x80 | (x & 0x3f)) & 0xff) as bv8 == d
    ensures EmitBytes(x) == Some([a, b, c, d])
  {
    assert EmitBytes(x).value == [a, b, c, d];
  }

  lemma EmittedIsUtf8(x: bv32, bytes: seq<Byte>)
    requires EmitBytes(x) == Some(bytes)
    ensures Scalar(x) && Utf8(x) == bytes
  {
    EmitsUtf8(x);
  }

  /** Well-formed bytes are the encoding of their value. */
  lemma WellFormedIsUtf8(a: Byte, b: Byte, c: Byte, d: Byte)
    requires WellFormed(a, b, c, d) != 0
    ensures var n := WellFormed(a, b, c, d);
            Scalar(ValueOf(n, a, b, c, d)) && Utf8(ValueOf(n, a, b, c, d)) == [a, b, c, d][..n]
  {
    var n := WellFormed(a, b, c, d);
    var x := ValueOf(n, a, b, c, d);
    if n == 1 {
      Emits1(a, b, c, d);
      EmittedIsUtf8(x, [a]);
    } else if n == 2 {
      Emits2(a, b, c, d);
      EmittedIsUtf8(x, [a, b]);
    } else if n == 3 {
      Emits3(a, b, c, d);
      EmittedIsUtf8(x, [a, b, c]);
    } else {
      Emits4(a, b, c, d);
      EmittedIsUtf8(x, [a, b, c, d]);
    }
  }

  predicate ReadBack(n: nat, a: Byte, b: Byte, c: Byte, d: Byte, x: bv32) {
    WellFormed(a, b, c, d) == n && ValueOf(n, a, b, c, d) == x
  }

  lemma Read2(x: bv32, c: Byte, d: Byte)
    requires 0x80 <= x < 0x800
    ensures ReadBack(2, (0xc0 + x / 64) as bv8, (0x80 + x % 64) as bv8, c, d, x)
  {
  }

  lemma Read3(x: bv32, d: Byte)
    requires 0x800 <= x < 0x10000 && Scalar(x)
    ensures ReadBack(3, (0xe0 + x / 4096) as bv8, (0x80 + x / 64 % 64) as bv8, (0x80 + x % 64) as bv8, d, x)
  {
  }

  lemma Read4(x: bv32)
    requires 0x10000 <= x <= 0x10ffff
    ensures ReadBack(4, (0xf0 + x / 262144) as bv8, (0x80 + x / 4096 % 64) as bv8,
                     (0x80 + x / 64 % 64) as bv8, (0x80 + x % 64) as bv8, x)
  {
  }

  /** An encoded character is well formed and has that character's value, whatever follows it. */
  lemma Utf8IsWellFormed(x: bv32, b: Byte, c: Byte, d: Byte)
    requires Scalar(x)
    ensures var s := Utf8(x);
            ReadBack(|s|, s[0], if |s| > 1 then s[1] else b, if |s| > 2 then s[2] else c, if |s| > 3 then s[3] else d, x)
  {
    if x < 0x80 {
    } else if x < 0x800 {
      Read2(x, c, d);
    } else if x < 0x10000 {
      Read3(x, d);
    } else {
      Read4(x);
    }
  }

  lemma AppendsUtf16(c: bv32)
    requires Scalar(c)
    ensures AppendUnits(c) == Utf16(c)
  {
  }

  lemma JoinsBits(hi: Unit, lo: Unit, v: bv32)
    requires Surrogates(hi, lo) && v == Halves(hi, lo)
    ensures v <= 0xfffff && High(v) == hi && Low(v) == lo
  {
  }

  lemma Above(v: bv32)
    requires v <= 0xfffff
    ensures 0x10000 <= 0x10000 + v <= 0x10ffff && (0x10000 + v) - 0x10000 == v
  {
  }

  lemma Below(c: bv32)
    requires 0x10000 <= c <= 0x10ffff
    ensures c - 0x10000 <= 0xfffff && 0x10000 + (c - 0x10000) == c
  {
  }

  lemma Utf16Of(v: bv32)
    requires v <= 0xfffff
    ensures Scalar(0x10000 + v) && Utf16(0x10000 + v) == [High(v), Low(v)]
  {
    Above(v);
  }

  /** A character beyond 16 bits becomes a high and a low surrogate with its value. */
  lemma PairSplits(c: bv32, v: bv32)
    requires v <= 0xfffff && 0x10000 + v == c && Scalar(c)
    ensures Utf16(c) == [High(v), Low(v)] && Surrogates(High(v), Low(v)) && PairValue(High(v), Low(v)) == c
  {
    Utf16Of(v);
    SplitsValue(v);
  }

  lemma SplitsValue(v: bv32)
    requires v <= 0xfffff
    ensures Surrogates(High(v), Low(v)) && PairValue(High(v), Low(v)) == 0x10000 + v
  {
  }

  /** The one-step join agrees with the standard's. */
  lemma JoinsPair(hi: Unit, lo: Unit)
    requires Surrogates(hi, lo)
    ensures JoinPair(hi, lo) == PairValue(hi, lo)
  {
  }

  /** A pair is the encoding of its value. */
  lemma PairIsUtf16(hi: Unit, lo: Unit)
    requires Surrogates(hi, lo)
    ensures 0x10000 <= PairValue(hi, lo) <= 0x10ffff && Utf16(PairValue(hi, lo)) == [hi, lo]
  {
    assert PairValue(hi, lo) == 0x10000 + Halves(hi, lo);
    PairWith(hi, lo, Halves(hi, lo));
  }

  lemma PairWith(hi: Unit, lo: Unit, v: bv32)
    requires Surrogates(hi, lo) && v == Halves(hi, lo)
    ensures 0x10000 <= 0x10000 + v <= 0x10ffff && Utf16(0x10000 + v) == [hi, lo]
  {
    JoinsBits(hi, lo, v);
    PairFrom(v, hi, lo);
  }

  lemma PairFrom(v: bv32, hi: Unit, lo: Unit)
    requires v <= 0xfffff && High(v) == hi && Low(v) == lo
    ensures 0x10000 <= 0x10000 + v <= 0x10ffff && Utf16(0x10000 + v) == [hi, lo]
  {
    Utf16Of(v);
    Above(v);
  }

  /** A unit that is no surrogate is the encoding of its value. */
  lemma UnitIsUtf16(u: Unit)
    requires u < 0xd800 || u > 0xdfff
    ensures Scalar(u as bv32) && Utf16(u as bv32) == [u]
  {
  }

  // ----- strings -----

  lemma ParsesOne(x: bv32, rest: seq<Byte>)
    requires Scalar(x)
    ensures var s := Utf8(x) + rest; Lead(s) == |Utf8(x)| && First(s) == x && s[Lead(s)..] == rest && s != []
  {
    var s := Utf8(x) + rest;
    Utf8IsWellFormed(x, At(s, 1), At(s, 2), At(s, 3));
  }

  /** Parsing gives back every encoded string. */
  lemma {:induction false} ParseEncode(cs: seq<bv32>)
    requires AllScalars(cs)
    ensures Parse(Encode(cs)) == Some(cs)
  {
    if cs != [] {
      ParsesOne(cs[0], Encode(cs[1..]));
      ParseEncode(cs[1..]);
      assert [cs[0]] + cs[1..] == cs;
    }
  }

  /** Different strings have different bytes. */
  lemma EncodeInjective(cs: seq<bv32>, ds: seq<bv32>)
    requires AllScalars(cs) && AllScalars(ds) && Encode(cs) == Encode(ds)
    ensures cs == ds
  {
    ParseEncode(cs);
    ParseEncode(ds);
  }

  lemma FirstIsUtf8(s: seq<Byte>)
    requires s != [] && Lead(s) != 0
    ensures Scalar(First(s)) && Utf8(First(s)) == s[..Lead(s)]
  {
    var a, b, c, d := At(s, 0), At(s, 1), At(s, 2), At(s, 3);
    WellFormedIsUtf8(a, b, c, d);
    Prefix(s, Lead(s));
  }

  lemma Prefix(s: seq<Byte>, n: nat)
    requires n <= 4 && n <= |s|
    ensures [At(s, 0), At(s, 1), At(s, 2), At(s, 3)][..n] == s[..n]
  {
  }

  /** Nothing but encoded strings is parsed. */
  lemma {:induction false} EncodeParse(s: seq<Byte>)
    requires Parse(s).Some?
    ensures Encode(Parse(s).value) == s
    decreases |s|
  {
    if s != [] {
      var n, x := Lead(s), First(s);
      FirstIsUtf8(s);
      EncodeParse(s[n..]);
      EncodeStep(s, x, n, Parse(s[n..]).value);
    }
  }

  lemma EncodeStep(s: seq<Byte>, x: bv32, n: nat, cs: seq<bv32>)
    requires n <= |s| && Scalar(x) && AllScalars(cs) && Utf8(x) == s[..n] && Encode(cs) == s[n..]
    ensures AllScalars([x] + cs) && Encode([x] + cs) == s
  {
    EncodeCons(x, cs);
    assert s[..n] + s[n..] == s;
  }

  lemma EncodeCons(x: bv32, cs: seq<bv32>)
    requires Scalar(x) && AllScalars(cs)
    ensures AllScalars([x] + cs) && Encode([x] + cs) == Utf8(x) + Encode(cs)
    ensures Units([x] + cs) == Utf16(x) + Units(cs)
  {
    assert ([x] + cs)[1..] == cs;
  }

  lemma JoinsOne(c: bv32, rest: seq<Unit>)
    requires Scalar(c)
    ensures Join(Utf16(c) + rest) == Ahead([c], Join(rest))
  {
    if c < 0x10000 {
      JoinsSmall(c, rest);
    } else {
      Below(c);
      JoinsTwo(c, c - 0x10000, rest);
    }
  }

  lemma JoinsSmall(c: bv32, rest: seq<Unit>)
    requires Scalar(c) && c < 0x10000
    ensures Join(Utf16(c) + rest) == Ahead([c], Join(rest))
  {
    var u := NoSurrogate(c);
    JoinsUnit(u, rest);
  }

  lemma JoinsUnit(u: Unit, rest: seq<Unit>)
    requires u < 0xd800 || u > 0xdfff
    ensures Join([u] + rest) == Ahead([u as bv32], Join(rest))
  {
    assert ([u] + rest)[1..] == rest;
  }

  lemma NoSurrogate(c: bv32) returns (u: Unit)
    requires Scalar(c) && c < 0x10000
    ensures Utf16(c) == [u] && (u < 0xd800 || u > 0xdfff) && u as bv32 == c
  {
    u := Narrow(c);
  }

  lemma Narrow(c: bv32) returns (u: Unit)
    requires c < 0x10000
    ensures u == c as bv16 && u as bv32 == c
  {
    u := c as bv16;
  }

  lemma JoinsTwo(c: bv32, v: bv32, rest: seq<Unit>)
    requires v <= 0xfffff && 0x10000 + v == c && Scalar(c)
    ensures Join(Utf16(c) + rest) == Ahead([c], Join(rest))
  {
    PairSplits(c, v);
    var hi, lo := High(v), Low(v);
    JoinsPairWith(hi, lo, rest);
  }

  lemma JoinsPairWith(hi: Unit, lo: Unit, rest: seq<Unit>)
    requires Surrogates(hi, lo)
    ensures Join([hi, lo] + rest) == Ahead([PairValue(hi, lo)], Join(rest))
  {
    assert ([hi, lo] + rest)[2..] == rest;
  }

  /** Decoding gives back every string encoded in UTF-16. */
  lemma {:induction false} JoinUnits(cs: seq<bv32>)
    requires AllScalars(cs)
    ensures Join(Units(cs)) == Some(cs)
  {
    if cs != [] {
      JoinUnits(cs[1..]);
      JoinsOne(cs[0], Units(cs[1..]));
      assert [cs[0]] + cs[1..] == cs;
    }
  }

  /** What the byte-emitting loop computes for 16-bit units, and for whole code points. */
  function Emitted16(us: seq<Unit>): Option<seq<Byte>> {
    if Join(us).None? then None else Some(Encode(Join(us).value))
  }

  /** There and back: a byte string that converts to UTF-16 comes back as itself. */
  lemma ThereAndBack(s: seq<Byte>)
    requires Parse(s).Some?
    ensures Emitted16(Units(Parse(s).value)) == Some(s)
  {
    JoinUnits(Parse(s).value);
    EncodeParse(s);
  }

  // ----- the loops -----

  lemma {:induction false} Appends(cs: seq<bv32>, x: bv32)
    requires AllScalars(cs) && Scalar(x)
    ensures AllScalars(cs + [x]) && Encode(cs + [x]) == Encode(cs) + Utf8(x) && Units(cs + [x]) == Units(cs) + Utf16(x)
  {
    if cs == [] {
      assert cs + [x] == [x] + [];
      EncodeCons(x, []);
    } else {
      Appends(cs[1..], x);
      assert cs + [x] == [cs[0]] + (cs[1..] + [x]);
      EncodeCons(cs[0], cs[1..] + [x]);
      Regroup(Utf8(cs[0]), Encode(cs[1..]), Utf8(x));
      Regroup(Utf16(cs[0]), Units(cs[1..]), Utf16(x));
    }
  }

  lemma AheadTwice(a: seq<bv32>, x: bv32, r: Option<seq<bv32>>)
    ensures Ahead(a, Ahead([x], r)) == Ahead(a + [x], r)
  {
    if r.Some? {
      Regroup(a, [x], r.value);
    }
  }

  lemma AheadNothing(done: seq<bv32>, r: Option<seq<bv32>>)
    ensures Ahead([], r) == r && Ahead(done, Some([])) == Some(done)
  {
    if r.Some? { assert [] + r.value == r.value; }
    assert done + [] == done;
  }

  lemma MasksTell(hi: Unit, lo: Unit)
    ensures ((hi as bv32) & 0xfc00 == 0xd800 && (lo as bv32) & 0xfc00 == 0xdc00) <==> Surrogates(hi, lo)
  {
  }

  ghost predicate Written(us: seq<Unit>, p: nat, done: seq<bv32>, buf: seq<Byte>) {
    p <= |us| && AllScalars(done) && buf == Encode(done) && Join(us) == Ahead(done, Join(us[p..]))
  }

  lemma WritesOne(us: seq<Unit>, p: nat, q: nat, done: seq<bv32>, buf: seq<Byte>, c: bv32)
    requires Written(us, p, done, buf) && p < q <= |us| && Scalar(c)
    requires Join(us[p..]) == Ahead([c], Join(us[q..]))
    ensures EmitBytes(c) == Some(Utf8(c)) && Written(us, q, done + [c], buf + Utf8(c))
  {
    EmitsUtf8(c);
    Appends(done, c);
    AheadTwice(done, c, Join(us[q..]));
  }

  /** The code point at a position, a surrogate pair joined, and where the next one starts;
      None is the thrown error. */
  method TakeUnit(us: seq<Unit>, p: nat, ghost done: seq<bv32>, ghost buf: seq<Byte>) returns (r: Option<bv32>, q: nat)
    requires p < |us| && Written(us, p, done, buf)
    ensures r.None? ==> Emitted16(us) == None
    ensures r.Some? ==> p < q <= |us| && Scalar(r.value) && Join(us[p..]) == Ahead([r.value], Join(us[q..]))
  {
    q := p + 1;
    if !(us[p] >= 0xd800 && us[p] <= 0xdfff) {
      JoinAtUnit(us, p);
      UnitIsUtf16(us[p]);
      return Some(us[p] as bv32), q;
    }
    if q == |us| {
      JoinAtLone(us, p, done, buf);
      return None, q;
    }
    r := JoinSurrogates(us[p], us[q]);
    if r.None? {
      JoinAtLone(us, p, done, buf);
    } else {
      JoinAtPair(us, p);
      q := q + 1;
    }
  }

  /** The test on both surrogates and the one-step join. */
  method JoinSurrogates(hi: Unit, lo: Unit) returns (r: Option<bv32>)
    ensures r == if Surrogates(hi, lo) then Some(PairValue(hi, lo)) else None
  {
    MasksTell(hi, lo);
    if (hi as bv32) & 0xfc00 != 0xd800 || (lo as bv32) & 0xfc00 != 0xdc00 {
      return None;
    }
    JoinsPair(hi, lo);
    return Some(JoinPair(hi, lo));
  }

  /** The encoding loop over 16-bit units; None is the thrown error. */
  method WriteEncoded16(us: seq<Unit>) returns (r: Option<seq<Byte>>)
    ensures r == Emitted16(us)
  {
    var buf := [];
    var p := 0;
    ghost var done: seq<bv32> := [];
    assert us[0..] == us;
    AheadNothing(done, Join(us));
    while p < |us|
      invariant Written(us, p, done, buf)
    {
      var c, q := TakeUnit(us, p, done, buf);
      if c.None? {
        return None;
      }
      var bytes := EmitBytes(c.value);
      WritesOne(us, p, q, done, buf, c.value);
      buf, p := buf + bytes.value, q;
      done := done + [c.value];
    }
    assert us[p..] == [];
    AheadNothing(done, None);
    return Some(buf);
  }

  lemma JoinAtUnit(us: seq<Unit>, p: nat)
    requires p < |us| && (us[p] < 0xd800 || us[p] > 0xdfff)
    ensures Join(us[p..]) == Ahead([us[p] as bv32], Join(us[p + 1..]))
  {
    assert us[p..] == [us[p]] + us[p + 1..];
    JoinsUnit(us[p], us[p + 1..]);
  }

  lemma JoinAtPair(us: seq<Unit>, p: nat)
    requires p + 1 < |us| && Surrogates(us[p], us[p + 1])
    ensures Scalar(PairValue(us[p], us[p + 1])) && Join(us[p..]) == Ahead([PairValue(us[p], us[p + 1])], Join(us[p + 2..]))
  {
    assert us[p..] == [us[p], us[p + 1]] + us[p + 2..];
    JoinsPairWith(us[p], us[p + 1], us[p + 2..]);
    PairIsUtf16(us[p], us[p + 1]);
  }

  lemma JoinAtLone(us: seq<Unit>, p: nat, done: seq<bv32>, buf: seq<Byte>)
    requires p < |us| && 0xd800 <= us[p] <= 0xdfff && (p + 1 == |us| || !Surrogates(us[p], us[p + 1]))
    requires Written(us, p, done, buf)
    ensures Emitted16(us) == None
  {
    var rest := us[p..];
    assert rest[0] == us[p] && (|rest| == 1 || rest[1] == us[p + 1]);
    assert Join(rest) == None;
  }

  /** The encoding loop over whole code points: it throws unless all are Unicode scalar values. */
  method WriteEncoded32(cs: seq<bv32>) returns (r: Option<seq<Byte>>)
    ensures r == if AllScalars(cs) then Some(Encode(cs)) else None
  {
    var buf := [];
    var p := 0;
    while p < |cs|
      invariant p <= |cs| && AllScalars(cs[..p]) && buf == Encode(cs[..p])
    {
      var bytes := EmitBytes(cs[p]);
      EmitsUtf8(cs[p]);
      if bytes.None? {
        return None;
      }
      Appends(cs[..p], cs[p]);
      assert cs[..p + 1] == cs[..p] + [cs[p]];
      buf, p := buf + bytes.value, p + 1;
    }
    assert cs[..p] == cs;
    return Some(buf);
  }

  ghost predicate Read(s: seq<Byte>, p: nat, done: seq<bv32>, units: seq<Unit>) {
    p <= |s| && AllScalars(done) && units == Units(done) && Parse(s) == Ahead(done, Parse(s[p..]))
  }

  lemma DecodedParses(s: seq<Byte>, p: nat, a: Byte, b: Byte, c: Byte, d: Byte)
    requires p < |s| && a == s[p] && b == At(s, p + 1) && c == At(s, p + 2) && d == At(s, p + 3)
    ensures var decoded := Utf8Decode(a, b, c, d);
            if decoded.error != 0 then Parse(s[p..]) == None
            else p < p + decoded.next <= |s| && Scalar(decoded.cp)
                 && Parse(s[p..]) == Ahead([decoded.cp], Parse(s[p + decoded.next..]))
  {
    ParseAt(s, p);
    DecodeIsExact(a, b, c, d);
  }

  /** One call of the branchless decoder at a position, bytes past the end read as zero. */
  method DecodeAt(s: seq<Byte>, p: nat, a: Byte, b: Byte, c: Byte, d: Byte, ghost done: seq<bv32>, units: seq<Unit>)
    returns (r: Option<seq<Unit>>, next: nat, ghost done': seq<bv32>)
    requires p < |s| && Read(s, p, done, units)
    requires a == s[p] && b == At(s, p + 1) && c == At(s, p + 2) && d == At(s, p + 3)
    ensures r.None? ==> Parse(s) == None
    ensures r.Some? ==> p < p + next <= |s| && Read(s, p + next, done', r.value)
  {
    var decoded := Utf8Decode(a, b, c, d);
    next, done' := decoded.next, done;
    DecodedParses(s, p, a, b, c, d);
    if decoded.error != 0 {
      return None, next, done;
    }
    AppendsUtf16(decoded.cp);
    ReadsOne(s, p, next, done, units, decoded.cp);
    done' := done + [decoded.cp];
    r := Some(units + AppendUnits(decoded.cp));
  }

  lemma ParseAt(s: seq<Byte>, p: nat)
    requires p < |s|
    ensures var n := WellFormed(At(s, p), At(s, p + 1), At(s, p + 2), At(s, p + 3));
            && (n == 0 ==> Parse(s[p..]) == None)
            && (n != 0 ==> var x := ValueOf(n, At(s, p), At(s, p + 1), At(s, p + 2), At(s, p + 3));
                           p + n <= |s| && Scalar(x) && Parse(s[p..]) == Ahead([x], Parse(s[p + n..])))
  {
    var rest := s[p..];
    assert At(rest, 0) == At(s, p) && At(rest, 1) == At(s, p + 1) && At(rest, 2) == At(s, p + 2) && At(rest, 3) == At(s, p + 3);
    if Lead(rest) != 0 {
      FirstIsUtf8(rest);
      assert rest[Lead(rest)..] == s[p + Lead(rest)..];
    }
  }

  lemma ReadsOne(s: seq<Byte>, p: nat, n: nat, done: seq<bv32>, units: seq<Unit>, x: bv32)
    requires Read(s, p, done, units) && p + n <= |s| && Scalar(x)
    requires Parse(s[p..]) == Ahead([x], Parse(s[p + n..]))
    ensures Read(s, p + n, done + [x], units + Utf16(x))
  {
    Appends(done, x);
    AheadTwice(done, x, Parse(s[p + n..]));
  }

  /** The last one to three bytes, read from a buffer padded with zeros. */
  method ReadTail(s: seq<Byte>, start: nat, ghost done: seq<bv32>, units: seq<Unit>)
    returns (r: Option<seq<Unit>>, ghost done': seq<bv32>)
    requires start < |s| <= start + 3 && Read(s, start, done, units)
    ensures r.None? ==> Parse(s) == None
    ensures r.Some? ==> Read(s, |s|, done', r.value)
  {
    var left := |s| - start;
    var buf := s[start..] + seq(7 - left, _ => 0 as bv8);
    var q, next := 0, 0;
    r, done' := Some(units), done;
    while q < left
      invariant q <= left && r.Some? && Read(s, start + q, done', r.value)
    {
      r, next, done' := DecodeAt(s, start + q, buf[q], buf[q + 1], buf[q + 2], buf[q + 3], done', r.value);
      if r.None? {
        return;
      }
      q := q + next;
    }
  }

  /** Blocks of four bytes while they last. */
  method ReadBlocks(s: seq<Byte>) returns (r: Option<seq<Unit>>, p: nat, ghost done: seq<bv32>)
    requires |s| >= 4
    ensures r.None? ==> Parse(s) == None
    ensures r.Some? ==> |s| <= p + 3 && Read(s, p, done, r.value)
  {
    r, p, done := Some([]), 0, [];
    assert s[0..] == s;
    AheadNothing(done, Parse(s));
    var end := |s| - 4 + 1;
    var next;
    while p < end
      invariant r.Some? && Read(s, p, done, r.value)
    {
      r, next, done := DecodeAt(s, p, s[p], s[p + 1], s[p + 2], s[p + 3], done, r.value);
      if r.None? {
        return;
      }
      p := p + next;
    }
  }

  lemma ReadEnds(s: seq<Byte>, done: seq<bv32>, units: seq<Unit>)
    requires Read(s, |s|, done, units)
    ensures Parse(s) == Some(done) && units == Units(done)
  {
    assert s[|s|..] == [];
    AheadNothing(done, None);
  }

  /** utf8_to_utf16: the blocks, then the padded tail; a terminating zero unit at the end.
      None is the thrown error. */
  method Utf8ToUtf16(s: seq<Byte>) returns (r: Option<seq<Unit>>)
    ensures r == if Parse(s).None? then None else Some(Units(Parse(s).value) + [0])
  {
    var units: Option<seq<Unit>>, p := Some([]), 0;
    ghost var done: seq<bv32> := [];
    if |s| >= 4 {
      units, p, done := ReadBlocks(s);
      if units.None? {
        return None;
      }
    } else {
      assert s[0..] == s;
      AheadNothing(done, Parse(s));
    }
    if |s| - p != 0 {
      units, done := ReadTail(s, p, done, units.value);
      if units.None? {
        return None;
      }
    }
    ReadEnds(s, done, units.value);
    return Some(units.value + [0]);
  }
}
