/**
 Byte encodings of numbers and slices (util/coding.h, util/coding.cc), and the checksum that
 guards log records and blocks (util/crc32c.h; CRC-32C as in section 12.1 of RFC 3720).
 */
module Coding {
  import opened DbFormat

  const TWO32: nat := 0x1_0000_0000
  const TWO64: nat := 0x1_0000_0000_0000_0000

  function Pow2(n: nat): (p: nat)
    ensures p > 0
  {
    if n == 0 then 1 else 2 * Pow2(n - 1)
  }

  lemma Pow2Seven(n: nat)
    ensures Pow2(n + 7) == 128 * Pow2(n)
  {
    assert Pow2(n + 7) == 2 * Pow2(n + 6) == 4 * Pow2(n + 5) == 8 * Pow2(n + 4);
    assert Pow2(n + 4) == 2 * Pow2(n + 3) == 4 * Pow2(n + 2) == 8 * Pow2(n + 1);
  }

  lemma {:induction false} Pow2Grows(n: nat, m: nat)
    requires n <= m
    ensures Pow2(n) <= Pow2(m)
  {
    if n < m {
      Pow2Grows(n, m - 1);
    }
  }

  lemma Pow2Widths()
    ensures Pow2(32) == TWO32 && Pow2(64) == TWO64
  {
    assert Pow2(8) == 256;
    Pow2Sum(8, 8);
    Pow2Sum(16, 16);
    Pow2Sum(32, 32);
  }

  lemma {:induction false} Pow2Sum(n: nat, m: nat)
    ensures Pow2(n + m) == Pow2(n) * Pow2(m)
  {
    if m > 0 {
      Pow2Sum(n, m - 1);
      assert Pow2(n + m) == 2 * Pow2(n + (m - 1));
    }
  }

  // ---------------------------------------------------------------------------
  // Pieces of byte strings

  lemma Assoc(a: Slice, b: Slice, c: Slice)
    ensures a + b + c == a + (b + c)
  {
  }

  /** A word of the middle part. */
  lemma WordInside(a: Slice, b: Slice, c: Slice, i: nat)
    requires 4 * i + 4 <= |b|
    ensures (a + b + c)[|a| + 4 * i..|a| + 4 * i + 4] == b[4 * i..4 * i + 4]
  {
  }

  // ---------------------------------------------------------------------------
  // Fixed width, little endian

  function Fixed(width: nat, v: nat): (s: Slice)
    ensures |s| == width
  {
    if width == 0 then [] else [v % 256] + Fixed(width - 1, v / 256)
  }

  function FromFixed(s: Slice): (v: nat)
  {
    if s == [] then 0 else s[0] + 256 * FromFixed(s[1..])
  }

  lemma {:induction false} FromFixedBound(s: Slice)
    ensures FromFixed(s) < Pow2(8 * |s|)
  {
    if s != [] {
      FromFixedBound(s[1..]);
      Pow2Sum(8, 8 * |s[1..]|);
      assert Pow2(8) == 256;
    }
  }

  lemma {:induction false} FixedRoundTrip(width: nat, v: nat)
    requires v < Pow2(8 * width)
    ensures FromFixed(Fixed(width, v)) == v
  {
    if width > 0 {
      Pow2Sum(8, 8 * (width - 1));
      assert Pow2(8) == 256;
      Quotient(v, Pow2(8 * (width - 1)));
      FixedRoundTrip(width - 1, v / 256);
      assert Fixed(width, v)[1..] == Fixed(width - 1, v / 256);
    }
  }

  lemma Quotient(v: nat, p: nat)
    requires v < 256 * p
    ensures v / 256 < p
  {
  }

  /** DecodeFixed32. */
  function DecodeFixed32(s: Slice): (v: nat)
    requires |s| == 4
    ensures v < TWO32
  {
    FromFixedBound(s);
    Pow2Widths();
    FromFixed(s)
  }

  lemma Fixed32RoundTrip(v: nat)
    requires v < TWO32
    ensures DecodeFixed32(Fixed(4, v)) == v
  {
    Pow2Widths();
    FixedRoundTrip(4, v);
  }

  /** EncodeFixed32, byte by byte. */
  method EncodeFixed32(value: nat) returns (buf: Slice)
    requires value < TWO32
    ensures buf == Fixed(4, value) && FromFixed(buf) == value
  {
    hide FromFixed, Pow2;
    Pow2Widths();
    FixedRoundTrip(4, value);
    buf := [value % 256, value / 256 % 256, value / 0x1_0000 % 256, value / 0x100_0000];
    assert value / 256 / 256 == value / 0x1_0000 && value / 256 / 256 / 256 == value / 0x100_0000;
    assert Fixed(4, value) == [value % 256] + Fixed(3, value / 256);
    assert Fixed(3, value / 256) == [value / 256 % 256] + Fixed(2, value / 256 / 256);
    assert Fixed(2, value / 256 / 256) == [value / 256 / 256 % 256] + Fixed(1, value / 256 / 256 / 256);
    assert Fixed(1, value / 256 / 256 / 256) == [value / 256 / 256 / 256 % 256] + Fixed(0, 0);
  }

  // ---------------------------------------------------------------------------
  // Varints

  function Varint(v: nat): (s: Slice)
    ensures |s| > 0
  {
    if v < 128 then [v] else [v % 128 + 128] + Varint(v / 128)
  }

  /** EncodeVarint64: seven bits at a time, the lowest first. */
  method EncodeVarint64(v0: nat) returns (dst: Slice)
    ensures dst == Varint(v0)
  {
    var v := v0;
    dst := [];
    while v >= 128
      invariant dst + Varint(v) == Varint(v0)
    {
      dst := dst + [v % 128 + 128];
      v := v / 128;
    }
    dst := dst + [v];
  }

  /** EncodeVarint32: one branch for every length. */
  method EncodeVarint32(v: nat) returns (dst: Slice)
    requires v < TWO32
    ensures dst == Varint(v)
  {
    var a, b, c := v / 128, v / 128 / 128, v / 128 / 128 / 128;
    assert Varint(v) == if v < 128 then [v] else [v % 128 + 128] + Varint(a);
    assert Varint(a) == if a < 128 then [a] else [a % 128 + 128] + Varint(b);
    assert Varint(b) == if b < 128 then [b] else [b % 128 + 128] + Varint(c);
    assert Varint(c) == if c < 128 then [c] else [c % 128 + 128] + Varint(c / 128);
    if v < 0x80 {
      dst := [v];
    } else if v < 0x4000 {
      dst := [v % 128 + 128, v / 128];
    } else if v < 0x20_0000 {
      dst := [v % 128 + 128, v / 128 % 128 + 128, v / 128 / 128];
    } else if v < 0x1000_0000 {
      dst := [v % 128 + 128, v / 128 % 128 + 128, v / 128 / 128 % 128 + 128, v / 128 / 128 / 128];
    } else {
      dst := [v % 128 + 128, v / 128 % 128 + 128, v / 128 / 128 % 128 + 128, v / 128 / 128 / 128 % 128 + 128,
              v / 128 / 128 / 128 / 128];
    }
  }

  /** A 32-bit number takes at most five bytes. */
  lemma VarintLength(v: nat)
    requires v < TWO32
    ensures |Varint(v)| <= 5
  {
    var a, b, c, d := v / 128, v / 128 / 128, v / 128 / 128 / 128, v / 128 / 128 / 128 / 128;
    assert |Varint(v)| <= 1 + |Varint(a)| && |Varint(a)| <= 1 + |Varint(b)| && |Varint(b)| <= 1 + |Varint(c)|;
    assert d < 128 && |Varint(d)| == 1 && |Varint(c)| <= 1 + |Varint(d)|;
  }

  lemma {:induction false} VarintLengthUpTo(v: nat, n: nat)
    requires n > 0 && v < Pow2(7 * n)
    ensures |Varint(v)| <= n
  {
    if v >= 128 {
      assert Pow2(7) == 128 * Pow2(0) by { Pow2Seven(0); }
      if n == 1 {
        assert false;
      }
      Pow2Seven(7 * (n - 1));
      VarintLengthUpTo(v / 128, n - 1);
    }
  }

  /** A 64-bit number takes at most ten bytes. */
  lemma VarintLength64(v: nat)
    requires v < TWO64
    ensures |Varint(v)| <= 10
  {
    Pow2Widths();
    Pow2Grows(64, 70);
    VarintLengthUpTo(v, 10);
  }

  /** The first varint of the input and what follows it; at most as many groups of seven bits as fit. */
  function TakeVarint(s: Slice, shift: nat, bits: nat): (r: Option<(nat, Slice)>)
    ensures r.Some? ==> |r.value.1| < |s| && r.value.1 == s[|s| - |r.value.1|..]
  {
    if shift >= bits || s == [] then None
    else if s[0] < 128 then Some((s[0] * Pow2(shift) % Pow2(bits), s[1..]))
    else
      var t := TakeVarint(s[1..], shift + 7, bits);
      if t.None? then None else Some(((s[0] - 128) * Pow2(shift) % Pow2(bits) + t.value.0, t.value.1))
  }

  /** GetVarint32Ptr and GetVarint64Ptr: shifts 0, 7, .. up to the width. */
  method GetVarint(input: Slice, bits: nat) returns (r: Option<(nat, Slice)>)
    ensures r == TakeVarint(input, 0, bits)
  {
    var result: nat, p, shift := 0, 0, 0;
    while shift < bits && p < |input|
      invariant p <= |input|
      invariant var t := TakeVarint(input[p..], shift, bits);
                TakeVarint(input, 0, bits) == if t.None? then None else Some((result + t.value.0, t.value.1))
      decreases |input| - p
    {
      var byte := input[p];
      assert input[p..][1..] == input[p + 1..];
      p := p + 1;
      if byte >= 128 {
        result := result + (byte - 128) * Pow2(shift) % Pow2(bits);
      } else {
        result := result + byte * Pow2(shift) % Pow2(bits);
        return Some((result, input[p..]));
      }
      shift := shift + 7;
    }
    r := None;
  }

  lemma SplitDigits(v: nat, p: nat)
    ensures v % 128 * p + v / 128 * (128 * p) == v * p
    ensures v % 128 * p <= v * p && v / 128 * (128 * p) <= v * p
  {
    var q, r := v / 128, v % 128;
    assert v == q * 128 + r;
    assert q * (128 * p) == (q * 128) * p;
    assert (q * 128) * p + r * p == (q * 128 + r) * p;
    assert r * p >= 0 && (q * 128) * p >= 0;
  }

  lemma SmallMod(x: nat, p: nat)
    requires x < p
    ensures x % p == x
  {
  }

  lemma {:induction false} VarintRoundTripFrom(v: nat, rest: Slice, shift: nat, bits: nat)
    requires v * Pow2(shift) < Pow2(bits) && shift < bits
    ensures TakeVarint(Varint(v) + rest, shift, bits) == Some((v * Pow2(shift), rest))
    decreases v
  {
    var s := Varint(v) + rest;
    if v < 128 {
      assert s[1..] == rest;
      SmallMod(v * Pow2(shift), Pow2(bits));
    } else {
      Groups(v, shift, bits);
      assert s[0] == v % 128 + 128 && s[1..] == Varint(v / 128) + rest;
      VarintRoundTripFrom(v / 128, rest, shift + 7, bits);
      hide Pow2;
      SmallMod(v % 128 * Pow2(shift), Pow2(bits));
    }
  }

  /** The lowest seven bits and the rest, at their places. */
  lemma Groups(v: nat, shift: nat, bits: nat)
    requires v * Pow2(shift) < Pow2(bits) && v >= 128
    ensures v % 128 * Pow2(shift) + v / 128 * Pow2(shift + 7) == v * Pow2(shift)
    ensures v % 128 * Pow2(shift) < Pow2(bits) && v / 128 * Pow2(shift + 7) < Pow2(bits)
    ensures shift + 7 < bits
  {
    SplitDigits(v, Pow2(shift));
    Pow2Seven(shift);
    AtLeast(v / 128, Pow2(shift + 7));
    if bits <= shift + 7 {
      Pow2Grows(bits, shift + 7);
    }
  }

  lemma AtLeast(q: nat, p: nat)
    requires q >= 1
    ensures q * p >= p
  {
  }

  /** Decoding an encoded number gives it back, with whatever follows untouched. */
  lemma VarintRoundTrip(v: nat, rest: Slice, bits: nat)
    requires v < Pow2(bits) && bits > 0
    ensures TakeVarint(Varint(v) + rest, 0, bits) == Some((v, rest))
  {
    assert v * Pow2(0) == v;
    hide Pow2;
    VarintRoundTripFrom(v, rest, 0, bits);
  }

  // ---------------------------------------------------------------------------
  // Length-prefixed slices

  function LengthPrefixed(s: Slice): (r: Slice)
  {
    Varint(|s|) + s
  }

  /** GetLengthPrefixedSlice. */
  function TakeSlice(s: Slice): (r: Option<(Slice, Slice)>)
    ensures r.Some? ==> |r.value.1| < |s|
  {
    var n := TakeVarint(s, 0, 32);
    if n.None? || n.value.0 > |n.value.1| then None
    else Some((n.value.1[..n.value.0], n.value.1[n.value.0..]))
  }

  lemma SliceRoundTrip(s: Slice, rest: Slice)
    requires |s| < TWO32
    ensures TakeSlice(LengthPrefixed(s) + rest) == Some((s, rest))
  {
    Pow2Widths();
    VarintRoundTrip(|s|, s + rest, 32);
    assert LengthPrefixed(s) + rest == Varint(|s|) + (s + rest);
    assert (s + rest)[..|s|] == s && (s + rest)[|s|..] == rest;
  }

  // ---------------------------------------------------------------------------
  // Checksums

  /** Bitwise exclusive or. */
  function Xor(a: nat, b: nat): (r: nat)
    decreases a + b
  {
    if a == 0 && b == 0 then 0 else (a % 2 + b % 2) % 2 + 2 * Xor(a / 2, b / 2)
  }

  lemma XorStep(a: nat, b: nat)
    ensures Xor(a, b) == (a % 2 + b % 2) % 2 + 2 * Xor(a / 2, b / 2)
  {
  }

  lemma Parity(p: nat, q: nat, y: nat)
    requires p < 2 && q < 2
    ensures var x := (p + q) % 2 + 2 * y; x / 2 == y && (x % 2 + q) % 2 == p
  {
  }

  lemma {:induction false} XorTwice(a: nat, b: nat)
    ensures Xor(Xor(a, b), b) == a
    decreases a + b
  {
    if a != 0 || b != 0 {
      hide Xor;
      XorTwice(a / 2, b / 2);
      XorStep(a, b);
      XorStep(Xor(a, b), b);
      var y := Xor(a / 2, b / 2);
      Parity(a % 2, b % 2, y);
    }
  }

  lemma {:induction false} XorBound(a: nat, b: nat, n: nat)
    requires a < Pow2(n) && b < Pow2(n)
    ensures Xor(a, b) < Pow2(n)
    decreases n
  {
    if n > 0 {
      XorBound(a / 2, b / 2, n - 1);
    }
  }

  const CRC_POLYNOMIAL: nat := 0x82f6_3b78
  const ALL_ONES: nat := 0xffff_ffff

  function CrcBits(c: nat, n: nat): (r: nat)
    decreases n
  {
    if n == 0 then c
    else CrcBits(if c % 2 == 1 then Xor(c / 2, CRC_POLYNOMIAL) else c / 2, n - 1)
  }

  function CrcFold(c: nat, data: Slice): (r: nat)
    decreases |data|
  {
    if data == [] then c else CrcFold(CrcBits(Xor(c, data[0]), 8), data[1..])
  }

  /** crc32c::Extend, bit by bit instead of by table. */
  function Extend(crc: nat, data: Slice): (r: nat)
  {
    Xor(CrcFold(Xor(crc, ALL_ONES), data), ALL_ONES)
  }

  lemma {:induction false} CrcBitsBound(c: nat, n: nat)
    requires c < TWO32
    ensures CrcBits(c, n) < TWO32
    decreases n
  {
    hide Xor, Pow2;
    if n > 0 {
      Pow2Widths();
      XorBound(c / 2, CRC_POLYNOMIAL, 32);
      CrcBitsBound(if c % 2 == 1 then Xor(c / 2, CRC_POLYNOMIAL) else c / 2, n - 1);
    }
  }

  lemma {:induction false} CrcFoldBound(c: nat, data: Slice)
    requires c < TWO32
    ensures CrcFold(c, data) < TWO32
    decreases |data|
  {
    hide Xor, Pow2, CrcBits;
    if data != [] {
      Pow2Widths();
      XorBound(c, data[0], 32);
      CrcBitsBound(Xor(c, data[0]), 8);
      CrcFoldBound(CrcBits(Xor(c, data[0]), 8), data[1..]);
    }
  }

  lemma ExtendBound(crc: nat, data: Slice)
    requires crc < TWO32
    ensures Extend(crc, data) < TWO32
  {
    Pow2Widths();
    XorBound(crc, ALL_ONES, 32);
    CrcFoldBound(Xor(crc, ALL_ONES), data);
    XorBound(CrcFold(Xor(crc, ALL_ONES), data), ALL_ONES, 32);
  }

  lemma {:induction false} CrcFoldJoin(c: nat, a: Slice, b: Slice)
    ensures CrcFold(CrcFold(c, a), b) == CrcFold(c, a + b)
    decreases |a|
  {
    if a == [] {
      assert a + b == b;
    } else {
      assert (a + b)[1..] == a[1..] + b;
      CrcFoldJoin(CrcBits(Xor(c, a[0]), 8), a[1..], b);
    }
  }

  /** A checksum can be computed piece by piece: the record type first, the payload later. */
  lemma ExtendJoin(crc: nat, a: Slice, b: Slice)
    ensures Extend(Extend(crc, a), b) == Extend(crc, a + b)
  {
    XorTwice(CrcFold(Xor(crc, ALL_ONES), a), ALL_ONES);
    CrcFoldJoin(Xor(crc, ALL_ONES), a, b);
  }

  const MASK_DELTA: nat := 0xa282_ead8

  /** Rotate right by 15 bits and add a constant. */
  function Mask(crc: nat): (m: nat)
    requires crc < TWO32
    ensures m < TWO32
  {
    (crc / 0x8000 + crc % 0x8000 * 0x2_0000 + MASK_DELTA) % TWO32
  }

  function Unmask(m: nat): (crc: nat)
    requires m < TWO32
  {
    var rot := (m + TWO32 - MASK_DELTA) % TWO32;
    rot / 0x2_0000 + rot % 0x2_0000 * 0x8000
  }

  lemma UnmaskOfMask(crc: nat)
    requires crc < TWO32
    ensures Unmask(Mask(crc)) == crc
  {
    var hi, lo := crc / 0x8000, crc % 0x8000;
    var rot := hi + lo * 0x2_0000;
    assert rot < TWO32;
    assert (Mask(crc) + TWO32 - MASK_DELTA) % TWO32 == rot;
    assert rot / 0x2_0000 == lo && rot % 0x2_0000 == hi;
  }
}
