/**
 Table files: data blocks, an index block with shortened separators, and a filter block
 (table/table_builder.cc, table/table.cc, table/format.cc).
 */
module Table {
  import opened DbFormat
  import opened Coding
  import opened Comparators
  import opened Block
  import Filter

  // ---------------------------------------------------------------------------
  // Blocks in a file

  const BLOCK_TRAILER_SIZE: nat := 5
  const NO_COMPRESSION: Byte := 0

  datatype Handle = Handle(offset: nat, size: nat)

  function EncodeHandle(h: Handle): (s: Slice)
  {
    Varint(h.offset) + Varint(h.size)
  }

  function DecodeHandle(s: Slice): (r: Option<Handle>)
  {
    var a := TakeVarint(s, 0, 64);
    if a.None? then None
    else
      var b := TakeVarint(a.value.1, 0, 64);
      if b.None? then None else Some(Handle(a.value.0, b.value.0))
  }

  lemma HandleRoundTrip(h: Handle)
    requires h.offset < TWO64 && h.size < TWO64
    ensures DecodeHandle(EncodeHandle(h)) == Some(h)
  {
    Pow2Widths();
    hide TakeVarint, Varint, Pow2;
    VarintRoundTrip(h.offset, Varint(h.size), 64);
    assert Varint(h.size) + [] == Varint(h.size);
    VarintRoundTrip(h.size, [], 64);
  }

  /** Type and masked checksum of the contents and the type. */
  function Trailer(contents: Slice): (s: Slice)
    ensures |s| == BLOCK_TRAILER_SIZE
  {
    ExtendBound(0, contents + [NO_COMPRESSION]);
    [NO_COMPRESSION] + Fixed(4, Mask(Extend(0, contents + [NO_COMPRESSION])))
  }

  /** The bytes at the handle are the contents with their trailer. */
  ghost predicate Holds(file: Slice, h: Handle, contents: Slice)
  {
    && h.size == |contents| && h.offset + h.size + BLOCK_TRAILER_SIZE <= |file|
    && file[h.offset..h.offset + h.size + BLOCK_TRAILER_SIZE] == contents + Trailer(contents)
  }

  /** ReadBlock, with checksums verified.  Compressed blocks are not part of this model. */
  method ReadBlock(file: Slice, h: Handle) returns (r: Option<Slice>)
    ensures forall contents :: Holds(file, h, contents) ==> r == Some(contents)
  {
    hide Mask, Unmask, Extend, Fixed, DecodeFixed32;
    if h.offset + h.size + BLOCK_TRAILER_SIZE > |file| {
      return None;
    }
    var n := h.size;
    var data := file[h.offset..h.offset + n + BLOCK_TRAILER_SIZE];
    forall contents | Holds(file, h, contents)
      ensures data[..n] == contents && data[n] == NO_COMPRESSION
              && Unmask(DecodeFixed32(data[n + 1..n + 5])) == Extend(0, data[..n + 1])
    {
      TrailerChecks(data, contents);
    }
    var crc := Unmask(DecodeFixed32(data[n + 1..n + 5]));
    var actual := Extend(0, data[..n + 1]);
    if actual != crc {
      return None;
    }
    if data[n] != NO_COMPRESSION {
      return None;
    }
    r := Some(data[..n]);
  }

  lemma TrailerChecks(data: Slice, contents: Slice)
    requires data == contents + Trailer(contents)
    ensures var n := |contents|;
            data[..n] == contents && data[n] == NO_COMPRESSION
                && Unmask(DecodeFixed32(data[n + 1..n + 5])) == Extend(0, data[..n + 1])
  {
    hide Mask, Unmask, Extend, Fixed, DecodeFixed32;
    var n := |contents|;
    var crc := Extend(0, contents + [NO_COMPRESSION]);
    ExtendBound(0, contents + [NO_COMPRESSION]);
    assert data[n + 1..n + 5] == Fixed(4, Mask(crc));
    assert data[..n + 1] == contents + [NO_COMPRESSION];
    Fixed32RoundTrip(Mask(crc));
    UnmaskOfMask(crc);
  }

  lemma HoldsLater(file: Slice, more: Slice, h: Handle, contents: Slice)
    requires Holds(file, h, contents)
    ensures Holds(file + more, h, contents)
  {
    hide Trailer;
    assert (file + more)[h.offset..h.offset + h.size + BLOCK_TRAILER_SIZE]
        == file[h.offset..h.offset + h.size + BLOCK_TRAILER_SIZE];
  }

  // ---------------------------------------------------------------------------
  // What a table holds

  /** A data block: where it is, its bytes, its pairs and their layout. */
  datatype Info = Info(handle: Handle, contents: Slice, layout: Layout)

  ghost predicate StoredBlock(file: Slice, b: Info)
  {
    && Holds(file, b.handle, b.contents) && IsBlock(b.contents, b.layout) && b.layout.pairs != []
    && b.handle.offset < TWO64 && b.handle.size < TWO64
  }

  /** The pairs of the first `n` blocks. */
  ghost function PairsTo(blocks: seq<Info>, n: nat): (ps: seq<Pair>)
    requires n <= |blocks|
  {
    if n == 0 then [] else PairsTo(blocks, n - 1) + blocks[n - 1].layout.pairs
  }

  ghost function AllPairs(blocks: seq<Info>): (ps: seq<Pair>)
  {
    PairsTo(blocks, |blocks|)
  }

  function LastKey(b: Info): (k: Slice)
    requires b.layout.pairs != []
  {
    b.layout.pairs[|b.layout.pairs| - 1].key
  }

  /** The index key is at or after the last key of its block; if shortened, its user key is before the next one. */
  ghost predicate Separates(sep: Slice, last: Slice, next: Option<Slice>)
  {
    && WellFormedKey(Internal, sep) && WellFormedKey(Internal, last)
    && (sep == last || Precedes(Internal, last, sep))
    && (next.Some? ==> WellFormedKey(Internal, next.value) && Precedes(Internal, sep, next.value)
                       && (sep == last || Rank(UserPart(Internal, sep)) < Rank(UserPart(Internal, next.value))))
  }

  /** The index entry of every block: a separator and the handle. */
  ghost predicate IndexFor(index: seq<Pair>, blocks: seq<Info>, next: Option<Slice>)
  {
    |index| <= |blocks| && forall i :: 0 <= i < |index| ==> IndexEntry(index[i], blocks, i, next)
  }

  ghost predicate IndexEntry(p: Pair, blocks: seq<Info>, i: nat, next: Option<Slice>)
    requires i < |blocks|
  {
    && p.val == EncodeHandle(blocks[i].handle)
    && blocks[i].layout.pairs != []
    && (i + 1 < |blocks| ==> blocks[i + 1].layout.pairs != [])
    && Separates(p.key, LastKey(blocks[i]), if i + 1 < |blocks| then Some(blocks[i + 1].layout.pairs[0].key) else next)
  }

  /** Every key of a block is in the filter of the stretch of the file where the block starts. */
  ghost predicate FilteredBy(groups: seq<seq<Slice>>, blocks: seq<Info>)
  {
    forall i, j :: 0 <= i < |blocks| && 0 <= j < |blocks[i].layout.pairs| ==>
      var g := blocks[i].handle.offset / Filter.FILTER_BASE;
      g < |groups| && blocks[i].layout.pairs[j].key in groups[g]
  }

  ghost predicate SortedTable(ps: seq<Pair>)
  {
    SortedPairs(Internal, ps)
  }

  // ---------------------------------------------------------------------------
  // Positions

  lemma {:induction false} PairsPrefix(blocks: seq<Info>, i: nat, n: nat)
    requires i <= n <= |blocks|
    ensures |PairsTo(blocks, i)| <= |PairsTo(blocks, n)|
            && PairsTo(blocks, n)[..|PairsTo(blocks, i)|] == PairsTo(blocks, i)
  {
    if i < n {
      PairsPrefix(blocks, i, n - 1);
    }
  }

  lemma PairAt(blocks: seq<Info>, i: nat, d: nat)
    requires i < |blocks| && d < |blocks[i].layout.pairs|
    ensures |PairsTo(blocks, i)| + d < |AllPairs(blocks)|
            && AllPairs(blocks)[|PairsTo(blocks, i)| + d] == blocks[i].layout.pairs[d]
  {
    PairsPrefix(blocks, i + 1, |blocks|);
    var n, start := |PairsTo(blocks, i + 1)|, |PairsTo(blocks, i)|;
    assert AllPairs(blocks)[..n][start + d] == PairsTo(blocks, i + 1)[start + d];
  }

  lemma BlockOf(blocks: seq<Info>, p: nat) returns (i: nat, d: nat)
    requires p < |AllPairs(blocks)|
    ensures i < |blocks| && d < |blocks[i].layout.pairs| && p == |PairsTo(blocks, i)| + d
  {
    i := |blocks|;
    while p < |PairsTo(blocks, i)|
      invariant i <= |blocks| && (i < |blocks| ==> p < |PairsTo(blocks, i + 1)|)
      decreases i
    {
      i := i - 1;
    }
    d := p - |PairsTo(blocks, i)|;
  }

  // ---------------------------------------------------------------------------
  // Finding a key

  predicate Wf(k: Slice)
  {
    WellFormedKey(Internal, k)
  }

  /** At or before, and then strictly before; or the other way round. */
  lemma Chain(a: Slice, b: Slice, c: Slice)
    requires Wf(a) && Wf(b) && Wf(c)
    ensures !Precedes(Internal, b, a) && Precedes(Internal, b, c) ==> Precedes(Internal, a, c)
    ensures Precedes(Internal, a, b) && !Precedes(Internal, c, b) ==> Precedes(Internal, a, c)
    ensures !Precedes(Internal, b, a) && !Precedes(Internal, c, b) ==> !Precedes(Internal, c, a)
    ensures !(Precedes(Internal, a, b) && Precedes(Internal, b, a))
  {
    hide Rank, FromFixed;
  }

  lemma FirstIs(ps: seq<Pair>, k: Slice, n: nat)
    requires SortedTable(ps) && Wf(k) && n <= |ps|
    requires forall j :: 0 <= j < n ==> Precedes(Internal, ps[j].key, k)
    requires n < |ps| ==> !Precedes(Internal, ps[n].key, k)
    ensures FirstAtOrAfter(Internal, ps, k) == n
  {
    hide Precedes;
  }

  lemma BlockSorted(blocks: seq<Info>, i: nat)
    requires SortedTable(AllPairs(blocks)) && i < |blocks|
    ensures SortedTable(blocks[i].layout.pairs)
  {
    hide Precedes;
    var ps := blocks[i].layout.pairs;
    forall d | 0 <= d < |ps| ensures Wf(ps[d].key) {
      PairAt(blocks, i, d);
    }
    forall d, e | 0 <= d < e < |ps| ensures Precedes(Internal, ps[d].key, ps[e].key) {
      PairAt(blocks, i, d);
      PairAt(blocks, i, e);
    }
  }

  lemma AcrossBlocks(blocks: seq<Info>, i: nat, d: nat, j: nat, e: nat)
    requires SortedTable(AllPairs(blocks)) && i < j < |blocks| && d < |blocks[i].layout.pairs|
             && e < |blocks[j].layout.pairs|
    ensures Wf(blocks[i].layout.pairs[d].key) && Wf(blocks[j].layout.pairs[e].key)
    ensures Precedes(Internal, blocks[i].layout.pairs[d].key, blocks[j].layout.pairs[e].key)
  {
    hide Precedes;
    PairAt(blocks, i, d);
    PairAt(blocks, j, e);
    PairsPrefix(blocks, i + 1, j);
  }

  /** A block whose index key comes before the target holds nothing at or after it. */
  lemma PassedBlock(index: seq<Pair>, blocks: seq<Info>, b: nat, d: nat, k: Slice)
    requires IndexFor(index, blocks, None) && b < |index| && SortedTable(AllPairs(blocks)) && Wf(k)
    requires Wf(index[b].key) && Precedes(Internal, index[b].key, k) && d < |blocks[b].layout.pairs|
    ensures Wf(blocks[b].layout.pairs[d].key) && Precedes(Internal, blocks[b].layout.pairs[d].key, k)
  {
    hide Precedes;
    BlockSorted(blocks, b);
    assert IndexEntry(index[b], blocks, b, None);
    AtMostLast(blocks[b].layout.pairs, d);
    Chain(index[b].key, LastKey(blocks[b]), LastKey(blocks[b]));
    Chain(LastKey(blocks[b]), index[b].key, k);
    Chain(blocks[b].layout.pairs[d].key, LastKey(blocks[b]), k);
  }

  lemma AtMostLast(ps: seq<Pair>, d: nat)
    requires SortedTable(ps) && d < |ps|
    ensures Wf(ps[d].key) && Wf(ps[|ps| - 1].key) && !Precedes(Internal, ps[|ps| - 1].key, ps[d].key)
  {
    hide Precedes;
    Chain(ps[d].key, ps[|ps| - 1].key, ps[d].key);
  }

  /** What a seek in one block finds is what a scan of the whole table finds. */
  lemma FoundInBlock(index: seq<Pair>, blocks: seq<Info>, i: nat, d: nat, k: Slice)
    requires IndexFor(index, blocks, None) && |index| == |blocks| && SortedTable(AllPairs(blocks)) && Wf(k)
    requires forall b :: 0 <= b < |index| ==> Wf(index[b].key)
    requires i == FirstAtOrAfter(Internal, index, k) && i < |blocks|
    requires SortedTable(blocks[i].layout.pairs) && d == FirstAtOrAfter(Internal, blocks[i].layout.pairs, k)
             && d < |blocks[i].layout.pairs|
    ensures FirstAtOrAfter(Internal, AllPairs(blocks), k) == |PairsTo(blocks, i)| + d
    ensures |PairsTo(blocks, i)| + d < |AllPairs(blocks)|
            && AllPairs(blocks)[|PairsTo(blocks, i)| + d] == blocks[i].layout.pairs[d]
  {
    hide Precedes;
    var all, n := AllPairs(blocks), |PairsTo(blocks, i)| + d;
    PairAt(blocks, i, d);
    forall j | 0 <= j < n ensures Precedes(Internal, all[j].key, k) {
      var b, e := BlockOf(blocks, j);
      PairAt(blocks, b, e);
      if b < i {
        PassedBlock(index, blocks, b, e, k);
      } else if b > i {
        PairsPrefix(blocks, i + 1, b);
      }
    }
    FirstIs(all, k, n);
  }

  /** If the scan's answer is for the user key, the index leads to the block that holds it. */
  lemma LedToBlock(index: seq<Pair>, blocks: seq<Info>, i: nat, k: Slice)
    requires IndexFor(index, blocks, None) && |index| == |blocks| && SortedTable(AllPairs(blocks)) && Wf(k)
    requires SortedTable(index) && i == FirstAtOrAfter(Internal, index, k)
    requires var n := FirstAtOrAfter(Internal, AllPairs(blocks), k);
             n < |AllPairs(blocks)| && UserPart(Internal, AllPairs(blocks)[n].key) == UserPart(Internal, k)
    ensures i < |blocks| && SortedTable(blocks[i].layout.pairs)
    ensures FirstAtOrAfter(Internal, blocks[i].layout.pairs, k) < |blocks[i].layout.pairs|
  {
    hide Precedes;
    var n := FirstAtOrAfter(Internal, AllPairs(blocks), k);
    var b, d := BlockOf(blocks, n);
    PairAt(blocks, b, d);
    BlockSorted(blocks, b);
    var e := blocks[b].layout.pairs[d].key;
    if b < i {
      PassedBlock(index, blocks, b, d, k);
    }
    assert i <= b;
    BlockSorted(blocks, i);
    var m := FirstAtOrAfter(Internal, blocks[i].layout.pairs, k);
    if i == b {
      assert m <= d;
    } else if m == |blocks[i].layout.pairs| {
      ShortenedTooFar(index, blocks, i, b, d, k);
    }
  }

  /** An index key between a block and a later entry of the target's user key does not reach the target. */
  lemma ShortenedTooFar(index: seq<Pair>, blocks: seq<Info>, i: nat, b: nat, d: nat, k: Slice)
    requires IndexFor(index, blocks, None) && |index| == |blocks| && SortedTable(AllPairs(blocks)) && Wf(k)
    requires i < b < |blocks| && d < |blocks[b].layout.pairs|
    requires Wf(blocks[b].layout.pairs[d].key)
             && UserPart(Internal, blocks[b].layout.pairs[d].key) == UserPart(Internal, k)
    requires blocks[i].layout.pairs != [] && Wf(LastKey(blocks[i])) && Precedes(Internal, LastKey(blocks[i]), k)
    ensures Wf(index[i].key) && Precedes(Internal, index[i].key, k)
  {
    assert IndexEntry(index[i], blocks, i, None);
    var first := blocks[i + 1].layout.pairs[0].key;
    if i + 1 < b {
      AcrossBlocks(blocks, i + 1, 0, b, d);
    } else {
      BlockSorted(blocks, b);
      FirstIsLeast(blocks[b].layout.pairs, d);
    }
    hide Rank, FromFixed, IndexFor, SortedTable;
  }

  lemma FirstIsLeast(ps: seq<Pair>, d: nat)
    requires SortedTable(ps) && d < |ps|
    ensures Wf(ps[0].key) && Wf(ps[d].key) && (d == 0 || Precedes(Internal, ps[0].key, ps[d].key))
  {
  }

  /** A finished table: its data blocks, its index block and, if it has one, its filter block. */
  ghost predicate IsTable(file: Slice, index: Info, filter: Option<Slice>, blocks: seq<Info>, groups: seq<seq<Slice>>)
  {
    && IsBlock(index.contents, index.layout)
    && SortedTable(AllPairs(blocks)) && SortedTable(index.layout.pairs)
    && |index.layout.pairs| == |blocks| && IndexFor(index.layout.pairs, blocks, None)
    && (forall i :: 0 <= i < |blocks| ==> StoredBlock(file, blocks[i]))
    && (filter.Some? ==> Filter.IsFilterBlock(filter.value, groups) && FilteredBy(groups, blocks))
  }

  /** A block seek: the first pair at or after the key. */
  method SeekInBlock(contents: Slice, k: Slice, ghost l: Layout) returns (r: Option<Pair>)
    requires IsBlock(contents, l) && SortedTable(l.pairs) && Wf(k)
    ensures var n := FirstAtOrAfter(Internal, l.pairs, k);
            r == if n < |l.pairs| then Some(l.pairs[n]) else None
  {
    hide IsBlock, Precedes;
    var o := Open(contents);
    assert IsBlock(contents, l);
    var it := new Iter(Internal, contents, o.value.0, o.value.1, l);
    it.Seek(k);
    it.ValidIsAt();
    if it.Valid() {
      var key := it.Key();
      var val := it.Val();
      r := Some(Pair(key, val));
    } else {
      r := None;
    }
  }

  lemma IndexEntryAt(file: Slice, index: Info, filter: Option<Slice>, blocks: seq<Info>, groups: seq<seq<Slice>>,
                     i: nat)
    requires IsTable(file, index, filter, blocks, groups) && i < |blocks|
    ensures i < |index.layout.pairs| && DecodeHandle(index.layout.pairs[i].val) == Some(blocks[i].handle)
    ensures StoredBlock(file, blocks[i]) && SortedTable(blocks[i].layout.pairs)
  {
    hide IsBlock, SortedTable, FilteredBy, Holds;
    BlockSorted(blocks, i);
    assert IndexEntry(index.layout.pairs[i], blocks, i, None);
    assert StoredBlock(file, blocks[i]);
    HandleRoundTrip(blocks[i].handle);
  }

  /**
   Table::InternalGet: what is handed to the saver.  It is the first pair at or after the key in the
   whole table, whenever that pair is for the key's user key; and it is never any other pair.
   */
  method InternalGet(file: Slice, indexContents: Slice, filter: Option<Slice>, k: Slice,
                     ghost index: Info, ghost blocks: seq<Info>, ghost groups: seq<seq<Slice>>)
                       returns (r: Option<Pair>)
    requires IsTable(file, index, filter, blocks, groups) && index.contents == indexContents && Wf(k)
    ensures var all := AllPairs(blocks);
            && SortedTable(all)
            && var n := FirstAtOrAfter(Internal, all, k);
               && (r.Some? ==> n < |all| && r.value == all[n])
               && (n < |all| && UserPart(Internal, all[n].key) == UserPart(Internal, k) ==> r == Some(all[n]))
  {
    hide IsBlock, Precedes, Holds, DecodeHandle, FirstAtOrAfter;
    ghost var i := FirstAtOrAfter(Internal, index.layout.pairs, k);
    LedIf(index.layout.pairs, blocks, i, k);
    var entry := SeekInBlock(indexContents, k, index.layout);
    if entry.None? {
      return None;
    }
    IndexEntryAt(file, index, filter, blocks, groups, i);
    hide IsTable;
    var handle := DecodeHandle(entry.value.val);
    if filter.Some? {
      var may := AskFilter(filter.value, handle.value.offset, k, file, index, blocks, groups, i);
      if !may {
        return None;
      }
    }
    var contents := ReadBlock(file, handle.value);
    assert Holds(file, handle.value, blocks[i].contents);
    r := SeekInBlock(contents.value, k, blocks[i].layout);
    if r.Some? {
      FoundIn(file, index, filter, blocks, groups, i, k);
    }
  }

  /** The index leads to the pair if it is there. */
  lemma LedIf(index: seq<Pair>, blocks: seq<Info>, i: nat, k: Slice)
    requires IndexFor(index, blocks, None) && |index| == |blocks| && SortedTable(AllPairs(blocks)) && Wf(k)
    requires SortedTable(index) && i == FirstAtOrAfter(Internal, index, k)
    ensures var n := FirstAtOrAfter(Internal, AllPairs(blocks), k);
            n < |AllPairs(blocks)| && UserPart(Internal, AllPairs(blocks)[n].key) == UserPart(Internal, k)
            ==> && i < |blocks| && SortedTable(blocks[i].layout.pairs)
                && var d := FirstAtOrAfter(Internal, blocks[i].layout.pairs, k);
                   && d < |blocks[i].layout.pairs| && blocks[i].layout.pairs[d] == AllPairs(blocks)[n]
  {
    hide IndexFor, Precedes, PairsTo, FirstAtOrAfter;
    var n := FirstAtOrAfter(Internal, AllPairs(blocks), k);
    if n < |AllPairs(blocks)| && UserPart(Internal, AllPairs(blocks)[n].key) == UserPart(Internal, k) {
      LedToBlock(index, blocks, i, k);
      FoundInBlock(index, blocks, i, FirstAtOrAfter(Internal, blocks[i].layout.pairs, k), k);
    }
  }

  lemma FoundIn(file: Slice, index: Info, filter: Option<Slice>, blocks: seq<Info>, groups: seq<seq<Slice>>, i: nat,
                k: Slice)
    requires IsTable(file, index, filter, blocks, groups) && Wf(k) && i < |blocks|
    requires i == FirstAtOrAfter(Internal, index.layout.pairs, k)
    requires SortedTable(blocks[i].layout.pairs)
             && FirstAtOrAfter(Internal, blocks[i].layout.pairs, k) < |blocks[i].layout.pairs|
    ensures var n := FirstAtOrAfter(Internal, AllPairs(blocks), k);
            n < |AllPairs(blocks)| && AllPairs(blocks)[n]
                == blocks[i].layout.pairs[FirstAtOrAfter(Internal, blocks[i].layout.pairs, k)]
  {
    hide IsBlock, Precedes, StoredBlock, FilteredBy, IndexFor, FirstAtOrAfter, AllPairs, PairsTo, Filter.IsFilterBlock;
    FoundInBlock(index.layout.pairs, blocks, i, FirstAtOrAfter(Internal, blocks[i].layout.pairs, k), k);
  }

  /** The filter never hides a block that has a pair for the key's user key. */
  method AskFilter(contents: Slice, offset: nat, k: Slice, ghost file: Slice, ghost index: Info,
                   ghost blocks: seq<Info>,
                   ghost groups: seq<seq<Slice>>, ghost i: nat) returns (may: bool)
    requires IsTable(file, index, Some(contents), blocks, groups) && Wf(k) && i < |blocks|
             && offset == blocks[i].handle.offset
    ensures (exists d :: 0 <= d < |blocks[i].layout.pairs| && Wf(blocks[i].layout.pairs[d].key)
                         && UserPart(Internal, blocks[i].layout.pairs[d].key) == UserPart(Internal, k)) ==> may
  {
    hide IsBlock, SortedTable, StoredBlock, IndexFor, Filter.IsFilterBlock;
    var reader := new Filter.FilterBlockReader(contents, groups);
    ghost var m := 0;
    if d :| 0 <= d < |blocks[i].layout.pairs| && Wf(blocks[i].layout.pairs[d].key)
            && UserPart(Internal, blocks[i].layout.pairs[d].key) == UserPart(Internal, k) {
      var g := offset / Filter.FILTER_BASE;
      assert blocks[i].layout.pairs[d].key in groups[g];
      m :| 0 <= m < |groups[g]| && groups[g][m] == blocks[i].layout.pairs[d].key;
      assert Filter.InGroup(groups, g, m, k);
    }
    may := reader.KeyMayMatch(offset, k, groups, m);
  }
}
