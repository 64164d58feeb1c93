/**
 Bloom filters and the block that holds them (util/hash.cc, util/bloom.cc, table/filter_block.cc).
 */
module Filter {
  import opened DbFormat
  import opened Coding
  import opened Comparators

  // ---------------------------------------------------------------------------
  // Hashing

  const HASH_M: nat := 0xc6a4_a793
  const BLOOM_SEED: nat := 0xbc9f_1d34

  function MixWord(h: nat, w: nat): (r: nat)
  {
    var x := (h + w) * HASH_M % TWO32;
    Xor(x, x / 0x1_0000) % TWO32
  }

  /** Hash: four bytes at a time, and then the rest. */
  function HashFrom(h: nat, data: Slice): (r: nat)
    decreases |data|
  {
    if |data| >= 4 then HashFrom(MixWord(h, DecodeFixed32(data[..4])), data[4..])
    else if data == [] then h
    else
      var x := (h + FromFixed(data)) * HASH_M % TWO32;
      Xor(x, x / 0x100_0000) % TWO32
  }

  function BloomHash(key: Slice): (h: nat)
    ensures h < TWO32
  {
    HashFrom(Xor(BLOOM_SEED, |key| * HASH_M % TWO32), key) % TWO32
  }

  /** The second hash: the first one rotated right by 17 bits. */
  function Delta(h: nat): (d: nat)
  {
    (h / 0x2_0000 + h % 0x2_0000 * 0x8000) % TWO32
  }

  /** The bit that probe `j` looks at. */
  function Probe(h: nat, j: nat, bits: nat): (p: nat)
    requires bits > 0
    ensures p < bits
  {
    (h + j * Delta(h)) % TWO32 % bits
  }

  // ---------------------------------------------------------------------------
  // Bits in an array of bytes

  function Pow2Small(i: nat): (p: nat)
    requires i < 8
    ensures 1 <= p <= 128
  {
    [1, 2, 4, 8, 16, 32, 64, 128][i]
  }

  predicate BitOf(b: Byte, i: nat)
    requires i < 8
  {
    b as nat / Pow2Small(i) % 2 == 1
  }

  /** b | (1 << i). */
  function OrBit(b: Byte, i: nat): (r: Byte)
    requires i < 8
    ensures BitOf(r, i)
    ensures forall j :: 0 <= j < 8 && BitOf(b, j) ==> BitOf(r, j)
  {
    if BitOf(b, i) then b
    else
      AddBit(b, i);
      b as nat + Pow2Small(i)
  }

  lemma AddBit(b: Byte, i: nat)
    requires i < 8 && !BitOf(b, i)
    ensures b as nat + Pow2Small(i) < 256
    ensures (b as nat + Pow2Small(i)) / Pow2Small(i) % 2 == 1
    ensures forall j :: 0 <= j < 8 && BitOf(b, j) ==> (b as nat + Pow2Small(i)) / Pow2Small(j) % 2 == 1
  {
    forall j | 0 <= j < 8 && BitOf(b, j) ensures (b as nat + Pow2Small(i)) / Pow2Small(j) % 2 == 1 {
      AddOtherBit(b as nat, i, j);
    }
  }

  lemma AddOtherBit(b: nat, i: nat, j: nat)
    requires b < 256 && i < 8 && j < 8 && b / Pow2Small(i) % 2 == 0 && b / Pow2Small(j) % 2 == 1
    ensures (b + Pow2Small(i)) / Pow2Small(j) % 2 == 1
  {
    if j < i {
      var m := Pow2Small(i - j - 1);
      PowersDivide(j, i);
      AddAbove(b, Pow2Small(j), 2 * m);
    } else if i < j {
      var m := Pow2Small(j - i - 1);
      PowersDivide(i, j);
      AddBelow(b, Pow2Small(i), m);
    }
  }

  lemma PowersDivide(i: nat, j: nat)
    requires i < j < 8
    ensures Pow2Small(j) == 2 * Pow2Small(j - i - 1) * Pow2Small(i)
  {
  }

  lemma AddAbove(b: nat, p: nat, k: nat)
    requires p > 0
    ensures (b + k * p) / p == b / p + k
  {
    var q, r := b / p, b % p;
    assert b + k * p == (q + k) * p + r;
    Quotient(q + k, r, p);
  }

  lemma Monotone(a: nat, b: nat, p: nat)
    ensures a <= b ==> a * p <= b * p
  {
  }

  lemma Quotient(q: nat, r: nat, p: nat)
    requires r < p
    ensures (q * p + r) / p == q
  {
    var x := q * p + r;
    var d := x / p;
    assert d * p <= x < d * p + p;
    Monotone(d + 1, q, p);
    Monotone(q + 1, d, p);
    assert (d + 1) * p == d * p + p && (q + 1) * p == q * p + p;
  }

  /** An addend below a bit that is clear does not carry into the bits above. */
  lemma AddBelow(b: nat, p: nat, m: nat)
    requires p > 0 && m > 0 && b / p % 2 == 0
    ensures (b + p) / (2 * m * p) == b / (2 * m * p)
  {
    var q, r := b / p, b % p;
    DivMod(b, p);
    var t, u := q / (2 * m), q % (2 * m);
    DivMod(q, 2 * m);
    EvenRest(q, t, m, u);
    assert b + p == (q + 1) * p + r;
    NestedQuotient(b, p, 2 * m, q, r, t, u);
    NestedQuotient(b + p, p, 2 * m, q + 1, r, t, u + 1);
  }

  lemma DivMod(x: nat, y: nat)
    requires y > 0
    ensures x == x / y * y + x % y && x % y < y
  {
  }

  lemma EvenRest(q: nat, t: nat, m: nat, u: nat)
    requires q % 2 == 0 && q == t * (2 * m) + u && u < 2 * m
    ensures u + 1 < 2 * m
  {
    assert t * (2 * m) == 2 * (t * m);
  }

  lemma NestedQuotient(b: nat, p: nat, m: nat, q: nat, r: nat, t: nat, u: nat)
    requires b == q * p + r && r < p && q == t * m + u && u < m
    ensures m * p > 0 && b / (m * p) == t
  {
    NestedParts(t, m, u, p, r);
    QuotientOf(b, t, u * p + r, m * p);
  }

  lemma QuotientOf(b: nat, t: nat, x: nat, w: nat)
    requires b == t * w + x && x < w
    ensures w > 0 && b / w == t
  {
    Quotient(t, x, w);
  }

  lemma NestedParts(t: nat, m: nat, u: nat, p: nat, r: nat)
    requires u + 1 <= m && r < p
    ensures (t * m + u) * p + r == t * (m * p) + (u * p + r) && u * p + r < m * p
  {
    Distribute(t, m, u, p);
    Monotone(u + 1, m, p);
    assert (u + 1) * p == u * p + p;
  }

  lemma Distribute(t: nat, m: nat, u: nat, p: nat)
    ensures (t * m + u) * p == t * (m * p) + u * p
  {
  }

  predicate BitSet(a: Slice, p: nat)
    requires p < 8 * |a|
  {
    BitOf(a[p / 8], p % 8)
  }

  // ---------------------------------------------------------------------------
  // Bloom filters over user keys

  function HashOf(key: Slice): (h: nat)
    requires |key| >= PACKED_SIZE
    ensures h < TWO32
  {
    BloomHash(ExtractUserKey(key))
  }

  /** All probed bits of a key are set. */
  ghost predicate Probed(a: Slice, h: nat, k: nat)
  {
    a != [] && forall j :: 0 <= j < k ==> BitSet(a, Probe(h, j, 8 * |a|))
  }

  ghost predicate WellFormedKeys(keys: seq<Slice>)
  {
    forall i :: 0 <= i < |keys| ==> |keys[i]| >= PACKED_SIZE
  }

  /** A filter made for the keys: bits, and then the number of probes. */
  ghost predicate FilterOf(f: Slice, keys: seq<Slice>)
  {
    && |f| >= 2 && f[|f| - 1] as nat <= 30 && WellFormedKeys(keys)
    && forall i :: 0 <= i < |keys| ==> Probed(f[..|f| - 1], HashOf(keys[i]), f[|f| - 1] as nat)
  }

  /** Setting more bits keeps those that are set. */
  ghost predicate Covers(a: Slice, b: Slice)
  {
    |a| == |b| && forall p :: 0 <= p < 8 * |a| && BitSet(a, p) ==> BitSet(b, p)
  }

  lemma CoversTwice(a: Slice, b: Slice, c: Slice)
    requires Covers(a, b) && Covers(b, c)
    ensures Covers(a, c)
  {
  }

  lemma ProbedStays(a: Slice, b: Slice, h: nat, k: nat)
    requires Probed(a, h, k) && Covers(a, b)
    ensures Probed(b, h, k)
  {
    forall j | 0 <= j < k ensures BitSet(b, Probe(h, j, 8 * |b|)) {
      assert BitSet(a, Probe(h, j, 8 * |a|));
    }
  }

  function SetBit(a: Slice, p: nat): (b: Slice)
    requires p < 8 * |a|
  {
    a[p / 8 := OrBit(a[p / 8], p % 8)]
  }

  lemma SetBitCovers(a: Slice, p: nat)
    requires p < 8 * |a|
    ensures Covers(a, SetBit(a, p)) && BitSet(SetBit(a, p), p)
  {
    hide OrBit, BitOf;
    var b := SetBit(a, p);
    forall q | 0 <= q < 8 * |a| && BitSet(a, q) ensures BitSet(b, q) {
      assert b[q / 8] == if q / 8 == p / 8 then OrBit(a[p / 8], p % 8) else a[q / 8];
    }
  }

  lemma NextProbe(h0: nat, j: nat, h: nat)
    requires h == (h0 + j * Delta(h0)) % TWO32
    ensures (h + Delta(h0)) % TWO32 == (h0 + (j + 1) * Delta(h0)) % TWO32
  {
    hide Delta;
    OneMore(j, Delta(h0));
    ModStep(h0 + j * Delta(h0), Delta(h0), TWO32);
  }

  lemma OneMore(j: nat, d: nat)
    ensures (j + 1) * d == j * d + d
  {
  }

  /** Adding after a reduction or before it is the same. */
  lemma ModStep(x: nat, d: nat, m: nat)
    requires m > 0
    ensures (x % m + d) % m == (x + d) % m
  {
    DivMod(x, m);
    DivMod(x % m + d, m);
    var q, r := (x % m + d) / m, (x % m + d) % m;
    assert x + d == (x / m + q) * m + r by {
      OneProduct(x / m, q, m);
    }
    Quotient(x / m + q, r, m);
    DivMod(x + d, m);
  }

  lemma OneProduct(a: nat, b: nat, m: nat)
    ensures (a + b) * m == a * m + b * m
  {
  }

  /** The bits of one key, by double hashing. */
  method AddToFilter(a: Slice, h0: nat, k: nat) returns (b: Slice)
    requires a != [] && h0 < TWO32
    ensures Covers(a, b) && Probed(b, h0, k)
  {
    hide Delta, BitSet, SetBit;
    b := a;
    var h := h0;
    var delta := Delta(h0);
    for j := 0 to k
      invariant h == (h0 + j * Delta(h0)) % TWO32
      invariant Covers(a, b) && Probed(b, h0, j)
    {
      var bitpos := h % (8 * |b|);
      SetBitCovers(b, bitpos);
      CoversTwice(a, b, SetBit(b, bitpos));
      ProbedStays(b, SetBit(b, bitpos), h0, j);
      b := SetBit(b, bitpos);
      NextProbe(h0, j, h);
      h := (h + delta) % TWO32;
    }
  }

  function ZeroBytes(n: nat): (s: Slice)
    ensures |s| == n
  {
    seq(n, _ => 0)
  }

  /** BloomFilterPolicy: k_ is bits_per_key * 0.69, rounded down, at least 1 and at most 30. */
  function ProbesFor(bitsPerKey: nat): (k: nat)
    ensures 1 <= k <= 30
  {
    var k := bitsPerKey * 69 / 100;
    if k < 1 then 1 else if k > 30 then 30 else k
  }

  /** BloomFilterPolicy::CreateFilter under InternalFilterPolicy::CreateFilter: the filter is appended to `dst`. */
  method CreateFilter(bitsPerKey: nat, keys: seq<Slice>, dst: Slice) returns (r: Slice)
    requires WellFormedKeys(keys)
    ensures |dst| <= |r| && r[..|dst|] == dst && FilterOf(r[|dst|..], keys)
  {
    var bits := |keys| * bitsPerKey;
    if bits < 64 {
      bits := 64;
    }
    var bytes := (bits + 7) / 8;
    var k := ProbesFor(bitsPerKey);
    var bitArray := ZeroBytes(bytes);
    hide Probed, Covers;
    for i := 0 to |keys|
      invariant |bitArray| == bytes
      invariant forall m :: 0 <= m < i ==> Probed(bitArray, HashOf(keys[m]), k)
    {
      ghost var before := bitArray;
      bitArray := AddToFilter(bitArray, HashOf(keys[i]), k);
      assert |before| == |bitArray| by {
        SameLength(before, bitArray);
      }
      forall m | 0 <= m < i ensures Probed(bitArray, HashOf(keys[m]), k) {
        ProbedStays(before, bitArray, HashOf(keys[m]), k);
      }
    }
    r := dst + (bitArray + [k]);
    assert r[|dst|..] == bitArray + [k];
    assert (bitArray + [k])[..bytes] == bitArray;
  }

  lemma SameLength(a: Slice, b: Slice)
    requires Covers(a, b)
    ensures |a| == |b|
  {
  }

  /** KeyMayMatch as the filter's bits decide it. */
  ghost predicate Matches(key: Slice, f: Slice)
    requires |key| >= PACKED_SIZE
  {
    |f| >= 2 && (f[|f| - 1] as nat > 30 || Probed(f[..|f| - 1], HashOf(key), f[|f| - 1] as nat))
  }

  method FilterMayMatch(key: Slice, f: Slice) returns (r: bool)
    requires |key| >= PACKED_SIZE
    ensures r <==> Matches(key, f)
  {
    hide Delta, BitSet, BloomHash;
    var len := |f|;
    if len < 2 {
      return false;
    }
    var bitArray := f[..len - 1];
    var bits := (len - 1) * 8;
    var k := f[len - 1] as nat;
    if k > 30 {
      return true;
    }
    var h0 := HashOf(key);
    var h := h0;
    var delta := Delta(h0);
    for j := 0 to k
      invariant h == (h0 + j * Delta(h0)) % TWO32
      invariant forall m :: 0 <= m < j ==> BitSet(bitArray, Probe(h0, m, bits))
    {
      var bitpos := h % bits;
      assert bitpos == Probe(h0, j, bits);
      if !BitSet(bitArray, bitpos) {
        return false;
      }
      NextProbe(h0, j, h);
      h := (h + delta) % TWO32;
    }
    r := true;
  }

  /** A filter never rejects a key whose user key it was made for. */
  lemma NoFalseNegatives(f: Slice, keys: seq<Slice>, i: nat, key: Slice)
    requires FilterOf(f, keys) && i < |keys| && |key| >= PACKED_SIZE && ExtractUserKey(key) == ExtractUserKey(keys[i])
    ensures Matches(key, f)
  {
  }

  // ---------------------------------------------------------------------------
  // Filter blocks

  const FILTER_BASE_LG: Byte := 11
  const FILTER_BASE: nat := 2048

  /** Where filter `i` starts among the filters, or where the filters end. */
  function StartOf(offsets: seq<nat>, size: nat, i: nat): (p: nat)
    requires i <= |offsets|
  {
    if i < |offsets| then offsets[i] else size
  }

  /** One filter after the other: empty for no keys, or else made for the keys. */
  ghost predicate FiltersFor(filters: Slice, offsets: seq<nat>, groups: seq<seq<Slice>>)
  {
    && |offsets| == |groups|
    && (forall i :: 0 <= i < |offsets| ==> offsets[i] <= StartOf(offsets, |filters|, i + 1) <= |filters|)
    && forall i :: 0 <= i < |offsets| && groups[i] != [] ==>
        FilterOf(filters[offsets[i]..StartOf(offsets, |filters|, i + 1)], groups[i])
  }

  lemma FiltersGrow(filters: Slice, offsets: seq<nat>, groups: seq<seq<Slice>>, more: Slice, keys: seq<Slice>)
    requires FiltersFor(filters, offsets, groups) && (keys != [] ==> FilterOf(more, keys))
    ensures FiltersFor(filters + more, offsets + [|filters|], groups + [keys])
  {
    hide FilterOf;
    var filters', offsets', groups' := filters + more, offsets + [|filters|], groups + [keys];
    var n := |offsets|;
    forall i | 0 <= i < |offsets'|
      ensures offsets'[i] <= StartOf(offsets', |filters'|, i + 1) <= |filters'|
      ensures groups'[i] != [] ==> FilterOf(filters'[offsets'[i]..StartOf(offsets', |filters'|, i + 1)], groups'[i])
    {
      if i < n {
        var end := StartOf(offsets, |filters|, i + 1);
        assert StartOf(offsets', |filters'|, i + 1) == end && offsets'[i] == offsets[i] <= end <= |filters|;
        assert filters'[offsets[i]..end] == filters[offsets[i]..end];
        assert groups'[i] == groups[i];
      } else {
        assert offsets'[n] == |filters| && StartOf(offsets', |filters'|, n + 1) == |filters'|;
        assert filters'[|filters|..|filters'|] == more;
        assert groups'[n] == keys;
      }
    }
  }

  /** Keys one after the other, and where each starts. */
  ghost predicate KeysAt(flat: Slice, start: seq<nat>, keys: seq<Slice>)
  {
    && |start| == |keys|
    && (forall i :: 0 <= i < |start| ==> start[i] <= StartOf(start, |flat|, i + 1) <= |flat|)
    && (forall i :: 0 <= i < |start| ==> flat[start[i]..StartOf(start, |flat|, i + 1)] == keys[i])
  }

  lemma KeysGrow(flat: Slice, start: seq<nat>, keys: seq<Slice>, key: Slice)
    requires KeysAt(flat, start, keys)
    ensures KeysAt(flat + key, start + [|flat|], keys + [key])
  {
    var flat', start', keys' := flat + key, start + [|flat|], keys + [key];
    forall i | 0 <= i < |start|
      ensures start'[i] <= StartOf(start', |flat'|, i + 1) <= |flat'|
      ensures flat'[start'[i]..StartOf(start', |flat'|, i + 1)] == keys'[i]
    {
      var end := StartOf(start, |flat|, i + 1);
      assert StartOf(start', |flat'|, i + 1) == end && start'[i] == start[i] <= end <= |flat|;
      assert flat'[start[i]..end] == flat[start[i]..end];
    }
    var n := |start|;
    assert start'[n] == |flat| && StartOf(start', |flat'|, n + 1) == |flat'|;
    assert flat'[|flat|..|flat'|] == key;
  }

  class FilterBlockBuilder {
    const bitsPerKey: nat
    /** The keys of the filter to come, one after the other, and where each starts. */
    var keys: Slice
    var start: seq<nat>
    var result: Slice
    var filterOffsets: seq<nat>
    ghost var groups: seq<seq<Slice>>
    ghost var pending: seq<Slice>

    ghost predicate Ok()
      reads this
    {
      && FiltersFor(result, filterOffsets, groups) && WellFormedKeys(pending)
      && KeysAt(keys, start, pending)
    }

    constructor (bits: nat)
      ensures Ok() && groups == [] && pending == []
    {
      bitsPerKey := bits;
      keys, start, result, filterOffsets := [], [], [], [];
      groups, pending := [], [];
    }

    method AddKey(key: Slice)
      requires Ok() && |key| >= PACKED_SIZE
      modifies this
      ensures Ok() && groups == old(groups) && pending == old(pending) + [key]
    {
      hide FiltersFor, KeysAt;
      KeysGrow(keys, start, pending, key);
      start := start + [|keys|];
      keys := keys + key;
      pending := pending + [key];
    }

    method GenerateFilter()
      requires Ok()
      modifies this
      ensures Ok() && groups == old(groups) + [old(pending)] && pending == []
    {
      hide FilterOf;
      if |start| == 0 {
        assert result + [] == result;
        FiltersGrow(result, filterOffsets, groups, [], []);
        filterOffsets := filterOffsets + [|result|];
        groups := groups + [[]];
        assert pending == [];
        return;
      }
      var tmpKeys := ListKeys();
      filterOffsets := filterOffsets + [|result|];
      var extended := CreateFilter(bitsPerKey, tmpKeys, result);
      FiltersGrow(result, filterOffsets[..|filterOffsets| - 1], groups, extended[|result|..], pending);
      assert extended == result + extended[|result|..];
      result := extended;
      groups := groups + [pending];
      keys, start, pending := [], [], [];
    }

    /** The list of keys back from the flattened form. */
    method ListKeys() returns (tmpKeys: seq<Slice>)
      requires Ok()
      ensures tmpKeys == pending
    {
      hide FiltersFor, WellFormedKeys;
      var starts := start + [|keys|];
      tmpKeys := [];
      for i := 0 to |start|
        invariant tmpKeys == pending[..i]
      {
        assert starts[i] == start[i] && starts[i + 1] == StartOf(start, |keys|, i + 1);
        assert pending[..i + 1] == pending[..i] + [pending[i]];
        tmpKeys := tmpKeys + [keys[starts[i]..starts[i + 1]]];
      }
      assert pending[..|start|] == pending;
    }

    /** The keys added from now on are those of blocks that start in this stretch of the file. */
    method StartBlock(blockOffset: nat)
      requires Ok() && |groups| <= blockOffset / FILTER_BASE
      modifies this
      ensures Ok() && |groups| == blockOffset / FILTER_BASE
      ensures if |old(groups)| == |groups| then groups == old(groups) && pending == old(pending)
              else |old(groups)| < |groups| && groups[..|old(groups)|] == old(groups)
                   && groups[|old(groups)|] == old(pending) && pending == []
    {
      hide FiltersFor;
      var filterIndex := blockOffset / FILTER_BASE;
      OneOffsetEach();
      while filterIndex > |filterOffsets|
        invariant Ok() && |old(groups)| <= |groups| <= filterIndex && |filterOffsets| == |groups|
        invariant if |old(groups)| == |groups| then groups == old(groups) && pending == old(pending)
                  else groups[..|old(groups)|] == old(groups) && groups[|old(groups)|] == old(pending) && pending == []
        decreases filterIndex - |groups|
      {
        GenerateFilter();
        OneOffsetEach();
      }
    }

    lemma OneOffsetEach()
      requires Ok()
      ensures |filterOffsets| == |groups|
    {
    }

    method Finish() returns (contents: Slice)
      requires Ok()
      modifies this
      ensures Ok() && groups == old(groups) + (if old(pending) == [] then [] else [old(pending)])
      ensures |contents| < TWO32 ==> IsFilterBlock(contents, groups)
    {
      hide FiltersFor, Fixed;
      if |start| > 0 {
        GenerateFilter();
      }
      var arrayOffset := |result|;
      contents := result;
      for i := 0 to |filterOffsets|
        invariant contents == result + OffsetBytes(filterOffsets, i)
      {
        contents := contents + Fixed(4, filterOffsets[i]);
      }
      contents := contents + Fixed(4, arrayOffset);
      contents := contents + [FILTER_BASE_LG];
      if |contents| < TWO32 {
        FinishedFilters(result, filterOffsets, groups, contents);
      }
    }
  }

  function OffsetBytes(offsets: seq<nat>, n: nat): (s: Slice)
    requires n <= |offsets|
    ensures |s| == 4 * n
  {
    if n == 0 then [] else OffsetBytes(offsets, n - 1) + Fixed(4, offsets[n - 1])
  }

  lemma {:induction false} OffsetWord(offsets: seq<nat>, n: nat, r: nat)
    requires r < n <= |offsets|
    ensures OffsetBytes(offsets, n)[4 * r..4 * r + 4] == Fixed(4, offsets[r])
  {
    if r < n - 1 {
      OffsetWord(offsets, n - 1, r);
    }
  }

  /** Word `i` of an array that starts at `base`. */
  function WordOf(data: Slice, base: nat, i: nat): (v: nat)
    requires base + 4 * i + 4 <= |data|
    ensures v < TWO32
  {
    DecodeFixed32(data[base + 4 * i..base + 4 * i + 4])
  }

  ghost predicate WordsAre(data: Slice, base: nat, words: seq<nat>)
    requires base + 4 * |words| <= |data|
  {
    forall i :: 0 <= i < |words| ==> WordOf(data, base, i) == words[i]
  }

  /** Filters, the offset of each, where the offsets start, and the width of a stretch. */
  ghost predicate IsFilterBlock(contents: Slice, groups: seq<seq<Slice>>)
  {
    var n := |contents|;
    var size := n - 5 - 4 * |groups|;
    && 0 <= size && n < TWO32 && contents[n - 1] == FILTER_BASE_LG && WordOf(contents, n - 5, 0) == size
    && exists offsets :: FiltersFor(contents[..size], offsets, groups) && |offsets| == |groups|
        && WordsAre(contents, size, offsets)
  }

  lemma FinishedWords(result: Slice, offsets: seq<nat>, groups: seq<seq<Slice>>, contents: Slice)
    requires FiltersFor(result, offsets, groups) && |contents| < TWO32
    requires contents == result + OffsetBytes(offsets, |offsets|) + Fixed(4, |result|) + [FILTER_BASE_LG]
    ensures WordsAre(contents, |result|, offsets)
  {
    hide Fixed, DecodeFixed32, FiltersFor, OffsetBytes;
    var size := |result|;
    assert contents == result + OffsetBytes(offsets, |offsets|) + (Fixed(4, size) + [FILTER_BASE_LG]);
    forall i | 0 <= i < |offsets| ensures WordOf(contents, size, i) == offsets[i] {
      OffsetWord(offsets, |offsets|, i);
      OffsetBound(result, offsets, groups, i);
      WordInside(result, OffsetBytes(offsets, |offsets|), Fixed(4, size) + [FILTER_BASE_LG], i);
      Fixed32RoundTrip(offsets[i]);
    }
  }

  lemma FinishedFilters(result: Slice, offsets: seq<nat>, groups: seq<seq<Slice>>, contents: Slice)
    requires FiltersFor(result, offsets, groups) && |contents| < TWO32
    requires contents == result + OffsetBytes(offsets, |offsets|) + Fixed(4, |result|) + [FILTER_BASE_LG]
    ensures IsFilterBlock(contents, groups)
  {
    hide Fixed, DecodeFixed32, FiltersFor, OffsetBytes, WordsAre;
    var n, size := |contents|, |result|;
    OneEach(result, offsets, groups);
    assert contents[..size] == result;
    assert contents[n - 5..n - 1] == Fixed(4, size);
    Fixed32RoundTrip(size);
    FinishedWords(result, offsets, groups, contents);
    assert FiltersFor(contents[..size], offsets, groups);
  }

  lemma OneEach(result: Slice, offsets: seq<nat>, groups: seq<seq<Slice>>)
    requires FiltersFor(result, offsets, groups)
    ensures |offsets| == |groups|
  {
  }

  lemma OffsetBound(result: Slice, offsets: seq<nat>, groups: seq<seq<Slice>>, i: nat)
    requires FiltersFor(result, offsets, groups) && i < |offsets|
    ensures offsets[i] <= StartOf(offsets, |result|, i + 1) <= |result|
  {
  }

  // ---------------------------------------------------------------------------
  // Asking a filter block

  lemma NoNegativeQuotient(x: nat, y: nat)
    requires y > 0
    ensures x / y >= 0
  {
  }

  class FilterBlockReader {
    const contents: Slice
    /** No filters for contents that are not a filter block. */
    const offset: nat
    const num: nat
    const baseLg: nat

    ghost predicate Ok()
    {
      num > 0 ==> offset + 4 * num + 5 <= |contents|
    }

    /** The contents are a filter block for these groups of keys, and were found to be. */
    ghost predicate Reads(groups: seq<seq<Slice>>)
    {
      IsFilterBlock(contents, groups) && num == |groups| && offset == |contents| - 5 - 4 * |groups| && baseLg == 11
    }

    constructor (block: Slice, ghost groups: seq<seq<Slice>>)
      ensures Ok() && contents == block && (IsFilterBlock(block, groups) ==> Reads(groups))
    {
      hide DecodeFixed32, FiltersFor;
      contents := block;
      offset, num, baseLg := 0, 0, 0;
      var n := |block|;
      if n >= 5 {
        baseLg := block[n - 1] as nat;
        var lastWord := WordOf(block, n - 5, 0);
        if lastWord <= n - 5 {
          offset := lastWord;
          num := (n - 5 - lastWord) / 4;
        }
      }
    }

    /** Only the bits between two words of the array rule out a key, or two equal words that are not in order. */
    ghost predicate Admits(index: nat, key: Slice)
      requires Ok() && |key| >= PACKED_SIZE
    {
      index < num ==>
        var start, limit := WordOf(contents, offset, index), WordOf(contents, offset, index + 1);
        if start <= limit <= offset then Matches(key, contents[start..limit]) else start != limit
    }

    function IndexOf(blockOffset: nat): (index: nat)
    {
      var width := Pow2(baseLg);
      NoNegativeQuotient(blockOffset, width);
      blockOffset / width
    }

    /** Never false for a key whose user key is in the filter of the block's stretch of the file. */
    method KeyMayMatch(blockOffset: nat, key: Slice, ghost groups: seq<seq<Slice>>, ghost i: nat) returns (r: bool)
      requires Ok() && |key| >= PACKED_SIZE
      ensures r <==> Admits(IndexOf(blockOffset), key)
      ensures Reads(groups) && InGroup(groups, blockOffset / FILTER_BASE, i, key) ==> r
    {
      hide DecodeFixed32, Matches, IsFilterBlock, Pow2;
      r := true;
      var index := IndexOf(blockOffset);
      if index < num {
        var start := WordOf(contents, offset, index);
        var limit := WordOf(contents, offset, index + 1);
        if Reads(groups) && InGroup(groups, blockOffset / FILTER_BASE, i, key) {
          StretchWidth();
          FilterFound(contents, groups, index, i, key);
        }
        if start <= limit && limit <= offset {
          r := FilterMayMatch(key, contents[start..limit]);
        } else if start == limit {
          r := false;
        }
      }
    }
  }

  lemma StretchWidth()
    ensures Pow2(11) == FILTER_BASE
  {
    assert Pow2(3) == 8;
    Pow2Sum(8, 3);
  }

  ghost predicate InGroup(groups: seq<seq<Slice>>, g: nat, i: nat, key: Slice)
    requires |key| >= PACKED_SIZE
  {
    g < |groups| && i < |groups[g]| && |groups[g][i]| >= PACKED_SIZE
        && ExtractUserKey(groups[g][i]) == ExtractUserKey(key)
  }

  /** The filter between words `g` and `g + 1` may hold the key. */
  ghost predicate Encloses(contents: Slice, size: nat, g: nat, key: Slice)
    requires |key| >= PACKED_SIZE
  {
    && size + 4 * g + 8 <= |contents|
    && WordOf(contents, size, g) <= WordOf(contents, size, g + 1) <= size
    && Matches(key, contents[WordOf(contents, size, g)..WordOf(contents, size, g + 1)])
  }

  lemma OffsetsOf(contents: Slice, groups: seq<seq<Slice>>) returns (size: nat, offsets: seq<nat>)
    requires IsFilterBlock(contents, groups)
    ensures size == |contents| - 5 - 4 * |groups| && |offsets| == |groups|
    ensures FiltersFor(contents[..size], offsets, groups) && WordsAre(contents, size, offsets)
    ensures WordOf(contents, size, |groups|) == size
  {
    hide WordOf, FiltersFor, WordsAre;
    size := |contents| - 5 - 4 * |groups|;
    offsets :| FiltersFor(contents[..size], offsets, groups) && |offsets| == |groups|
        && WordsAre(contents, size, offsets);
    SameWord(contents, size, |groups|, |contents| - 5);
  }

  /** The two words at the index enclose the filter made for the group. */
  lemma FilterFound(contents: Slice, groups: seq<seq<Slice>>, g: nat, i: nat, key: Slice)
    requires IsFilterBlock(contents, groups) && |key| >= PACKED_SIZE && InGroup(groups, g, i, key)
    ensures var size := |contents| - 5 - 4 * |groups|;
            0 <= size && Encloses(contents, size, g, key)
  {
    hide IsFilterBlock, WordOf, Matches, FiltersFor, FilterOf, HashOf;
    var size, offsets := OffsetsOf(contents, groups);
    WordsAround(contents, size, offsets, g);
    GroupFilter(contents[..size], offsets, groups, g);
    NoFalseNegatives(contents[..size][offsets[g]..StartOf(offsets, size, g + 1)], groups[g], i, key);
    hide *;
    assert |contents[..size]| == size;
    assert contents[..size][offsets[g]..StartOf(offsets, size, g + 1)]
        == contents[offsets[g]..StartOf(offsets, size, g + 1)];
  }

  lemma WordsAround(contents: Slice, size: nat, offsets: seq<nat>, g: nat)
    requires size + 4 * |offsets| + 4 <= |contents| && g < |offsets|
    requires WordsAre(contents, size, offsets) && WordOf(contents, size, |offsets|) == size
    ensures WordOf(contents, size, g) == offsets[g] && WordOf(contents, size, g + 1) == StartOf(offsets, size, g + 1)
  {
    hide WordOf;
  }

  lemma SameWord(data: Slice, base: nat, i: nat, base': nat)
    requires base + 4 * i == base' && base' + 4 <= |data|
    ensures WordOf(data, base, i) == WordOf(data, base', 0)
  {
  }

  lemma GroupFilter(filters: Slice, offsets: seq<nat>, groups: seq<seq<Slice>>, g: nat)
    requires FiltersFor(filters, offsets, groups) && g < |groups| && groups[g] != []
    ensures g < |offsets| && offsets[g] <= StartOf(offsets, |filters|, g + 1) <= |filters|
    ensures FilterOf(filters[offsets[g]..StartOf(offsets, |filters|, g + 1)], groups[g])
  {
  }
}
