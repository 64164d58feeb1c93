/**
 The wire format of protocol buffers as nanopb reads and writes it (pb_encode.c, pb_decode.c):
 the sections "Base 128 Varints", "Signed Integers" and "Length-Delimited Records" of the Protocol
 Buffers Encoding specification.
 */
module PbWire {
  import opened DbFormat
  import opened Coding

  const TWO31: int := 0x8000_0000
  const TWO63: int := 0x8000_0000_0000_0000

  const WT_VARINT: nat := 0
  const WT_64BIT: nat := 1
  const WT_STRING: nat := 2
  const WT_32BIT: nat := 5

  // ---------------------------------------------------------------------------
  // Integers

  /** A 64-bit signed number as the unsigned one with the same bits. */
  function AsUnsigned(n: int): (u: nat)
    requires -TWO63 <= n < TWO64
    ensures u < TWO64
  {
    if n < 0 then n + TWO64 else n
  }

  /** How many values an integer of `size` bytes has, for the sizes that C has. */
  function Width(size: nat): (m: nat)
  {
    if size == 1 then 0x100 else if size == 2 then 0x1_0000 else if size == 4 then TWO32 else TWO64
  }

  /** The signed integer of `size` bytes with the low bits of `u`. */
  function AsSigned(u: nat, size: nat): (n: int)
    ensures -(Width(size) as int) <= 2 * n < Width(size)
  {
    var low := u % Width(size);
    if low < Width(size) / 2 then low else low - Width(size)
  }

  /** pb_encode_svarint: numbers of small magnitude get small codes. */
  function ZigZag(n: int): (u: nat)
    requires -TWO63 <= n < TWO63
    ensures u < TWO64
  {
    if n < 0 then TWO64 - 1 - (n + TWO64) * 2 % TWO64 else n * 2
  }

  /** pb_decode_svarint. */
  function UnZigZag(u: nat): (n: int)
    requires u < TWO64
    ensures -TWO63 <= n < TWO63
  {
    if u % 2 == 1 then -(u / 2) - 1 else u / 2
  }

  lemma ZigZagBack(n: int)
    requires -TWO63 <= n < TWO63
    ensures UnZigZag(ZigZag(n)) == n
    ensures n < 0 ==> ZigZag(n) == -2 * n - 1
  {
    if n < 0 {
      assert (n + TWO64) * 2 == (2 * n + TWO64) + TWO64;
      assert (n + TWO64) * 2 % TWO64 == 2 * n + TWO64;
    }
  }

  lemma Remainder(r: nat, q: nat, m: nat)
    requires r < m
    ensures (q * m + r) % m == r
  {
    var x := q * m + r;
    var d := x / m;
    assert x == d * m + x % m;
    Product(d + 1, q, m);
    Product(q + 1, d, m);
  }

  lemma Product(a: nat, b: nat, m: nat)
    ensures a <= b ==> a * m <= b * m
    ensures a * m == (a - 1) * m + m
  {
  }

  /** How often `size` bytes fit into 64 bits' worth of values, less one. */
  function Rest(size: nat): (q: nat)
    requires size in {1, 2, 4, 8}
    ensures (q + 1) * Width(size) == TWO64
  {
    if size == 1 then 0xff_ffff_ffff_ffff else if size == 2 then 0xffff_ffff_ffff else if size == 4 then 0xffff_ffff
        else 0
  }

  /** The low bytes of a sign-extended integer are the integer. */
  lemma LowBytes(n: int, size: nat)
    requires size in {1, 2, 4, 8} && -(Width(size) as int) <= 2 * n < Width(size)
    ensures -TWO63 <= n < TWO63 && AsSigned(AsUnsigned(n), size) == n
  {
    hide Rest;
    if n < 0 {
      Remainder(n + Width(size), Rest(size), Width(size));
      assert AsUnsigned(n) == Rest(size) * Width(size) + (n + Width(size));
    } else {
      SmallMod(n, Width(size));
    }
  }

  // ---------------------------------------------------------------------------
  // Lengths and tags: the 32-bit varint decoder

  /** The rest of a varint, from the byte for bits `bitpos` and up. */
  function TakeMore(s: Slice, bitpos: nat, result: nat): (r: Option<(nat, Slice)>)
    ensures r.Some? ==> |r.value.1| < |s|
    decreases |s|
  {
    if s == [] then None
    else
      var byte := s[0];
      if bitpos >= 32 && byte % 128 != 0 && (result / TWO31 == 0 || byte != (if bitpos < 63 then 0xff else 0x01)) then
          None
      else
        var more := if bitpos >= 32 then result else result + byte % 128 * Pow2(bitpos) % TWO32;
        if byte >= 128 then TakeMore(s[1..], bitpos + 7, more)
        else if bitpos == 28 && byte / 16 != 0 then None
        else Some((more, s[1..]))
  }

  /** pb_decode_varint32. */
  function Take32(s: Slice): (r: Option<(nat, Slice)>)
    ensures r.Some? ==> |r.value.1| < |s|
  {
    if s == [] then None
    else if s[0] < 128 then Some((s[0], s[1..]))
    else TakeMore(s[1..], 7, s[0] % 128)
  }

  lemma Widths()
    ensures Pow2(28) == 0x1000_0000 && Pow2(7) == 128 && Pow2(32) == TWO32
  {
    Pow2Widths();
    Pow2Sum(8, 20);
    Pow2Sum(8, 12);
  }

  lemma {:induction false} MoreBack(q: nat, rest: Slice, bitpos: nat, result: nat)
    requires q * Pow2(bitpos) < Pow2(32) && bitpos < 32
    ensures TakeMore(Varint(q) + rest, bitpos, result) == Some((result + q * Pow2(bitpos), rest))
    decreases q
  {
    hide Pow2;
    Widths();
    var s := Varint(q) + rest;
    if q < 128 {
      assert s[0] == q && s[1..] == rest;
      SmallMod(q * Pow2(bitpos), TWO32);
    } else {
      Groups(q, bitpos, 32);
      assert s[0] == q % 128 + 128 && s[1..] == Varint(q / 128) + rest;
      hide Varint;
      SmallMod(q % 128 * Pow2(bitpos), TWO32);
      MoreBack(q / 128, rest, bitpos + 7, result + q % 128 * Pow2(bitpos));
    }
  }

  /** A 32-bit number that was written is read back, with whatever follows untouched. */
  lemma Varint32Back(v: nat, rest: Slice)
    requires v < TWO32
    ensures Take32(Varint(v) + rest) == Some((v, rest))
  {
    hide Pow2;
    Widths();
    var s := Varint(v) + rest;
    if v < 128 {
      assert s[1..] == rest;
    } else {
      assert s[0] == v % 128 + 128 && s[1..] == Varint(v / 128) + rest;
      hide Varint, TakeMore;
      MoreBack(v / 128, rest, 7, v % 128);
    }
  }

  /** A length and as many bytes: they, and what follows. */
  function TakeString(s: Slice): (r: Option<(Slice, Slice)>)
    ensures r.Some? ==> |r.value.0| + |r.value.1| < |s|
  {
    var n := Take32(s);
    if n.None? || n.value.0 > |n.value.1| then None
    else Some((n.value.1[..n.value.0], n.value.1[n.value.0..]))
  }

  lemma StringBack(b: Slice, rest: Slice)
    requires |b| < TWO32
    ensures TakeString(LengthPrefixed(b) + rest) == Some((b, rest))
  {
    hide Take32, Varint;
    assert LengthPrefixed(b) + rest == Varint(|b|) + (b + rest);
    Varint32Back(|b|, b + rest);
    assert (b + rest)[..|b|] == b && (b + rest)[|b|..] == rest;
  }
}
