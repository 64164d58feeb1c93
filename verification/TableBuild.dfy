/**
 Building a table file (table/table_builder.cc).
 */
module TableBuild {
  import opened DbFormat
  import opened Coding
  import opened Comparators
  import opened Block
  import opened Table

  /** The keys of the blocks so far are in the filters made, or among the keys waiting for the next one. */
  ghost function GroupsWith(groups: seq<seq<Slice>>, pending: seq<Slice>): (r: seq<seq<Slice>>)
  {
    groups + [pending]
  }

  lemma GroupsAdvance(groups: seq<seq<Slice>>, pending: seq<Slice>, groups': seq<seq<Slice>>, pending': seq<Slice>,
                      blocks: seq<Info>)
    requires FilteredBy(GroupsWith(groups, pending), blocks)
    requires if |groups| == |groups'| then groups' == groups && pending' == pending
             else |groups| < |groups'| && groups'[..|groups|] == groups && groups'[|groups|] == pending
    ensures FilteredBy(GroupsWith(groups', pending'), blocks)
  {
    var a, b := GroupsWith(groups, pending), GroupsWith(groups', pending');
    forall g | 0 <= g < |a| ensures g < |b| && a[g] == b[g] {
      assert g < |groups| ==> groups'[..|groups|][g] == groups[g];
    }
  }

  lemma GroupsFinish(groups: seq<seq<Slice>>, pending: seq<Slice>, blocks: seq<Info>)
    requires FilteredBy(GroupsWith(groups, pending), blocks)
    ensures FilteredBy(groups + (if pending == [] then [] else [pending]), blocks)
  {
    if pending == [] {
      forall i, j | 0 <= i < |blocks| && 0 <= j < |blocks[i].layout.pairs|
        ensures var g := blocks[i].handle.offset / Filter.FILTER_BASE;
                g < |groups| && blocks[i].layout.pairs[j].key in groups[g]
      {
        var g := blocks[i].handle.offset / Filter.FILTER_BASE;
        assert blocks[i].layout.pairs[j].key in GroupsWith(groups, pending)[g];
      }
      assert groups + [] == groups;
    }
  }

  class TableBuilder {
    const blockSize: nat
    var file: Slice
    const dataBlock: BlockBuilder
    const indexBlock: BlockBuilder
    const filter: Filter.FilterBlockBuilder
    var lastKey: Slice
    var numEntries: nat
    var pendingIndexEntry: bool
    var pendingHandle: Handle
    ghost var blocks: seq<Info>

    ghost predicate Parts()
      reads this, dataBlock, indexBlock, filter
    {
      && dataBlock != indexBlock
      && dataBlock.Ok() && !dataBlock.finished && indexBlock.Ok() && !indexBlock.finished && filter.Ok()
      && |file| < TWO64
    }

    /** Everything added so far. */
    ghost function Added(): (ps: seq<Pair>)
      reads this, dataBlock
    {
      AllPairs(blocks) + dataBlock.Pairs()
    }

    /** The first key of the block being built. */
    ghost function NextKey(): (k: Option<Slice>)
      reads this, dataBlock
    {
      if dataBlock.Pairs() == [] then None else Some(dataBlock.Pairs()[0].key)
    }

    ghost predicate Indexing()
      reads this, dataBlock, indexBlock
    {
      && IndexFor(indexBlock.Pairs(), blocks, NextKey())
      && (pendingIndexEntry ==> blocks != [] && |indexBlock.Pairs()| == |blocks| - 1 && dataBlock.Pairs() == []
                                && pendingHandle == blocks[|blocks| - 1].handle)
      && (!pendingIndexEntry ==> |indexBlock.Pairs()| == |blocks| && (dataBlock.Pairs() == [] ==> blocks == []))
    }

    ghost predicate Filtering()
      reads this, dataBlock, filter
    {
      && FilteredBy(GroupsWith(filter.groups, filter.pending), blocks)
      && |filter.groups| == |file| / Filter.FILTER_BASE
      && forall j :: 0 <= j < |dataBlock.Pairs()| ==> dataBlock.Pairs()[j].key in filter.pending
    }

    ghost predicate Ok()
      reads this, dataBlock, indexBlock, filter
    {
      && Parts() && Indexing() && Filtering()
      && SortedTable(Added()) && numEntries == |Added()|
      && (numEntries > 0 ==> lastKey == Added()[numEntries - 1].key)
      && forall i :: 0 <= i < |blocks| ==> StoredBlock(file, blocks[i])
    }

    constructor (size: nat, restartInterval: nat, bitsPerKey: nat)
      requires restartInterval >= 1
      ensures Ok() && Added() == [] && blockSize == size && fresh(dataBlock) && fresh(indexBlock) && fresh(filter)
      ensures dataBlock.CurrentSizeEstimate() == 8
    {
      blockSize := size;
      file := [];
      dataBlock := new BlockBuilder(restartInterval);
      indexBlock := new BlockBuilder(1);
      filter := new Filter.FilterBlockBuilder(bitsPerKey);
      lastKey, numEntries, pendingIndexEntry, pendingHandle := [], 0, false, Handle(0, 0);
      blocks := [];
      new;
      filter.StartBlock(0);
    }

    method WriteRawBlock(contents: Slice) returns (h: Handle)
      requires |file| + |contents| + BLOCK_TRAILER_SIZE < TWO64
      modifies this`file
      ensures h == Handle(|old(file)|, |contents|) && file == old(file) + contents + Trailer(contents)
      ensures Holds(file, h, contents)
    {
      hide Trailer;
      h := Handle(|file|, |contents|);
      file := file + contents;
      file := file + Trailer(contents);
      assert file[h.offset..h.offset + h.size + BLOCK_TRAILER_SIZE] == contents + Trailer(contents);
    }

    /** The index entry of the block before the one that starts with `next`, or of the last block. */
    method AddIndexEntry(sep: Slice, ghost next: Option<Slice>)
      requires Parts() && pendingIndexEntry && Indexing() && |sep| < TWO32
      requires blocks[|blocks| - 1].layout.pairs != [] && Separates(sep, LastKey(blocks[|blocks| - 1]), next)
      requires pendingHandle.offset < TWO64 && pendingHandle.size < TWO64
      modifies this`pendingIndexEntry, indexBlock
      ensures Parts() && !pendingIndexEntry && dataBlock.Pairs() == []
      ensures |indexBlock.Pairs()| == |blocks| && IndexFor(indexBlock.Pairs(), blocks, next)
      ensures indexBlock.CurrentSizeEstimate() <= old(indexBlock.CurrentSizeEstimate()) + |sep| + 39
    {
      hide LaidOut, Filter.FiltersFor, Separates;
      VarintLength64(pendingHandle.offset);
      VarintLength64(pendingHandle.size);
      ghost var index0 := indexBlock.Pairs();
      indexBlock.Add(sep, EncodeHandle(pendingHandle));
      pendingIndexEntry := false;
      IndexGrows(index0, blocks, Pair(sep, EncodeHandle(pendingHandle)), next);
    }

    /** WriteBlock: finish the block, write it, and start afresh. */
    method WriteDataBlock()
      requires Parts() && dataBlock.Pairs() != []
      requires dataBlock.CurrentSizeEstimate() < TWO32
               && |file| + dataBlock.CurrentSizeEstimate() + BLOCK_TRAILER_SIZE < TWO64
      modifies this`file, this`pendingHandle, this`blocks, dataBlock
      ensures Parts() && dataBlock.Pairs() == [] && dataBlock.CurrentSizeEstimate() == 8
      ensures exists b :: blocks == old(blocks) + [b] && StoredBlock(file, b)
                          && b.layout.pairs == old(dataBlock.Pairs())
                          && b.handle == pendingHandle && b.handle.offset == |old(file)|
      ensures exists more :: file == old(file) + more
    {
      hide LaidOut, IsBlock, Filter.FiltersFor, Holds, Trailer;
      ghost var l := dataBlock.layout;
      var raw := dataBlock.Finish();
      BlockSize(raw, l);
      pendingHandle := WriteRawBlock(raw);
      dataBlock.Reset();
      ghost var b := Info(pendingHandle, raw, l);
      blocks := blocks + [b];
      assert file == old(file) + (raw + Trailer(raw));
      assert StoredBlock(file, b);
    }
  
    /** Room for one more block in the file. */
    ghost predicate Fits()
      reads this, dataBlock
    {
      dataBlock.CurrentSizeEstimate() < TWO32 && |file| + dataBlock.CurrentSizeEstimate() + BLOCK_TRAILER_SIZE < TWO64
    }

    method Flush()
      requires Ok() && Fits() && (pendingIndexEntry ==> dataBlock.Pairs() == [])
      modifies this`file, this`pendingHandle, this`blocks, this`pendingIndexEntry, dataBlock, filter
      ensures Ok() && Added() == old(Added()) && dataBlock.Pairs() == []
      ensures old(dataBlock.Pairs()) != [] ==> pendingIndexEntry && dataBlock.CurrentSizeEstimate() == 8
      ensures old(dataBlock.Pairs()) == [] ==>
              pendingIndexEntry == old(pendingIndexEntry)
              && dataBlock.CurrentSizeEstimate() == old(dataBlock.CurrentSizeEstimate())
    {
      hide LaidOut, IsBlock, Filter.FiltersFor, Holds, Trailer, SortedTable, EncodeHandle, IndexFor, FilteredBy;
      if |dataBlock.buffer| == 0 {
        EmptyBuffer();
      } else {
        NonEmptyBuffer();
        FlushBlock();
      }
    }

    method FlushBlock()
      requires Ok() && Fits() && !pendingIndexEntry && dataBlock.Pairs() != []
      modifies this`file, this`pendingHandle, this`blocks, this`pendingIndexEntry, dataBlock, filter
      ensures Ok() && Added() == old(Added()) && dataBlock.Pairs() == []
      ensures pendingIndexEntry && dataBlock.CurrentSizeEstimate() == 8
    {
      hide LaidOut, IsBlock, Filter.FiltersFor, Filter.WellFormedKeys, Holds, Trailer, SortedTable, EncodeHandle,
          IndexFor, FilteredBy, StoredBlock,
           GroupsWith;
      TakeBlock();
      AdvanceFilter();
    }

    /** The block being built becomes the last of the blocks. */
    method TakeBlock()
      requires Ok() && Fits() && !pendingIndexEntry && dataBlock.Pairs() != []
      modifies this`file, this`pendingHandle, this`blocks, this`pendingIndexEntry, dataBlock
      ensures Parts() && Indexing() && Added() == old(Added()) && dataBlock.Pairs() == []
      ensures pendingIndexEntry && dataBlock.CurrentSizeEstimate() == 8
      ensures FilteredBy(GroupsWith(filter.groups, filter.pending), blocks)
              && |filter.groups| <= |file| / Filter.FILTER_BASE
      ensures forall i :: 0 <= i < |blocks| ==> StoredBlock(file, blocks[i])
    {
      hide LaidOut, IsBlock, Filter.FiltersFor, Filter.WellFormedKeys, Holds, Trailer, SortedTable, EncodeHandle,
          IndexFor, FilteredBy, StoredBlock,
           GroupsWith;
      ghost var blocks0, file0 := blocks, file;
      WriteDataBlock();
      ghost var b := blocks[|blocks0|];
      assert blocks == blocks0 + [b];
      IndexMoves(indexBlock.Pairs(), blocks0, b);
      AllPairsPlus(blocks0, b);
      FilteredMoves(filter.groups, filter.pending, blocks0, b);
      pendingIndexEntry := true;
      Later(file0, blocks0);
      assert AllPairs(blocks) + [] == AllPairs(blocks);
    }

    method AdvanceFilter()
      requires filter.Ok() && FilteredBy(GroupsWith(filter.groups, filter.pending), blocks)
      requires |filter.groups| <= |file| / Filter.FILTER_BASE
      modifies filter
      ensures filter.Ok() && FilteredBy(GroupsWith(filter.groups, filter.pending), blocks)
      ensures |filter.groups| == |file| / Filter.FILTER_BASE
    {
      hide Filter.FiltersFor, FilteredBy, GroupsWith;
      ghost var groups0, pending0 := filter.groups, filter.pending;
      filter.StartBlock(|file|);
      GroupsAdvance(groups0, pending0, filter.groups, filter.pending, blocks);
    }

    /** The first key of a new block makes the index entry of the one before. */
    method IndexPrevious(key: Slice)
      requires Ok() && Wf(key) && |lastKey| < TWO32
      requires numEntries > 0 ==> Wf(lastKey) && Precedes(Internal, lastKey, key)
      modifies this`pendingIndexEntry, indexBlock
      ensures Parts() && Filtering() && !pendingIndexEntry
      ensures |indexBlock.Pairs()| == |blocks|
              && IndexFor(indexBlock.Pairs(), blocks, if dataBlock.Pairs() == [] then Some(key) else NextKey())
    {
      hide LaidOut, IsBlock, Filter.FiltersFor, Filter.WellFormedKeys, Holds, EncodeHandle, FilteredBy, GroupsWith,
          Precedes;
      if pendingIndexEntry {
        ghost var b := blocks[|blocks| - 1];
        assert StoredBlock(file, b);
        LastAdded(b);
        var sep := FindShortestSeparator(Internal, lastKey, key);
        assert Separates(sep, LastKey(b), Some(key));
        AddIndexEntry(sep, Some(key));
      } else {
        NoEarlierBlocks(key);
      }
    }

    lemma LastAdded(b: Info)
      requires blocks != [] && b == blocks[|blocks| - 1] && b.layout.pairs != [] && dataBlock.Pairs() == []
      ensures Added() != [] && Added()[|Added()| - 1].key == LastKey(b)
    {
    }

    /** Without a pending entry, either a block is being built, or none has been finished. */
    lemma NoEarlierBlocks(key: Slice)
      requires Indexing() && !pendingIndexEntry
      ensures dataBlock.Pairs() == [] ==> IndexFor(indexBlock.Pairs(), blocks, Some(key))
    {
    }

    method Add(key: Slice, val: Slice)
      requires Ok() && Wf(key) && |lastKey| < TWO32
               && (numEntries > 0 ==> Wf(lastKey) && Precedes(Internal, lastKey, key))
      requires dataBlock.CurrentSizeEstimate() + |key| + |val| + 19 < TWO32
      requires |file| + dataBlock.CurrentSizeEstimate() + |key| + |val| + 19 + BLOCK_TRAILER_SIZE < TWO64
      modifies this`file, this`lastKey, this`numEntries, this`pendingIndexEntry, this`pendingHandle, this`blocks,
          dataBlock, indexBlock, filter
      ensures Ok() && Added() == old(Added()) + [Pair(key, val)] && lastKey == key
      ensures dataBlock.CurrentSizeEstimate() <= (if blockSize < 8 then 8 else blockSize)
    {
      hide LaidOut, IsBlock, Filter.FiltersFor, Filter.WellFormedKeys, Holds, EncodeHandle, FilteredBy, GroupsWith,
          Precedes, IndexFor, StoredBlock;
      IndexPrevious(key);
      AddToBlock(key, val);
      if dataBlock.CurrentSizeEstimate() >= blockSize {
        Flush();
      }
    }

    method AddToBlock(key: Slice, val: Slice)
      requires Parts() && Filtering() && !pendingIndexEntry && |indexBlock.Pairs()| == |blocks| && Wf(key)
      requires IndexFor(indexBlock.Pairs(), blocks, if dataBlock.Pairs() == [] then Some(key) else NextKey())
      requires SortedTable(Added()) && numEntries == |Added()|
      requires numEntries > 0 ==> lastKey == Added()[numEntries - 1].key && Precedes(Internal, lastKey, key)
      requires forall i :: 0 <= i < |blocks| ==> StoredBlock(file, blocks[i])
      requires dataBlock.CurrentSizeEstimate() + |key| + |val| + 19 < TWO32
      modifies this`lastKey, this`numEntries, dataBlock, filter
      ensures Ok() && Added() == old(Added()) + [Pair(key, val)] && lastKey == key && dataBlock.Pairs() != []
      ensures dataBlock.CurrentSizeEstimate() <= old(dataBlock.CurrentSizeEstimate()) + |key| + |val| + 19
    {
      hide LaidOut, IsBlock, Filter.FiltersFor, Filter.WellFormedKeys, Holds, EncodeHandle, FilteredBy, GroupsWith,
          IndexFor, StoredBlock;
      hide SortedTable, Precedes;
      ghost var pairs0 := dataBlock.Pairs();
      SortedPlus(AllPairs(blocks) + pairs0, Pair(key, val));
      FileKey(key);
      lastKey := key;
      numEntries := numEntries + 1;
      dataBlock.Add(key, val);
      assert AllPairs(blocks) + (pairs0 + [Pair(key, val)]) == AllPairs(blocks) + pairs0 + [Pair(key, val)];
    }

    method FileKey(key: Slice)
      requires filter.Ok() && FilteredBy(GroupsWith(filter.groups, filter.pending), blocks) && Wf(key)
      modifies filter
      ensures filter.Ok() && FilteredBy(GroupsWith(filter.groups, filter.pending), blocks)
      ensures filter.groups == old(filter.groups) && filter.pending == old(filter.pending) + [key]
    {
      hide Filter.FiltersFor, Filter.WellFormedKeys, FilteredBy, GroupsWith;
      ghost var groups0, pending0 := filter.groups, filter.pending;
      filter.AddKey(key);
      FilteredLater(groups0, pending0, key, blocks);
    }

    lemma EmptyBuffer()
      requires dataBlock.Ok() && |dataBlock.buffer| == 0
      ensures dataBlock.Pairs() == []
    {
      OffsetsIncrease(dataBlock.buffer, dataBlock.layout, 0, |dataBlock.layout.pairs|);
    }

    lemma NonEmptyBuffer()
      requires dataBlock.Ok() && |dataBlock.buffer| > 0
      ensures dataBlock.Pairs() != []
    {
    }

    /** Blocks already written stay where they are. */
    lemma Later(file0: Slice, blocks0: seq<Info>)
      requires |file0| <= |file| && exists more :: file == file0 + more
      requires forall i :: 0 <= i < |blocks0| ==> StoredBlock(file0, blocks0[i])
      ensures forall i :: 0 <= i < |blocks0| ==> StoredBlock(file, blocks0[i])
    {
      hide Holds, IsBlock;
      var more :| file == file0 + more;
      forall i | 0 <= i < |blocks0| ensures StoredBlock(file, blocks0[i]) {
        HoldsLater(file0, more, blocks0[i].handle, blocks0[i].contents);
      }
    }

    /** The last index entry, if one is pending. */
    method IndexLast()
      requires Ok() && dataBlock.Pairs() == [] && |lastKey| < TWO32
      modifies this`pendingIndexEntry, indexBlock
      ensures Parts() && Filtering() && dataBlock.Pairs() == []
      ensures |indexBlock.Pairs()| == |blocks| && IndexFor(indexBlock.Pairs(), blocks, None)
      ensures indexBlock.CurrentSizeEstimate() <= old(indexBlock.CurrentSizeEstimate()) + |lastKey| + 39
    {
      hide LaidOut, IsBlock, Filter.FiltersFor, Filter.WellFormedKeys, Holds, EncodeHandle, FilteredBy, GroupsWith,
          Precedes;
      if pendingIndexEntry {
        ghost var b := blocks[|blocks| - 1];
        assert StoredBlock(file, b);
        LastAdded(b);
        LastSorted();
        var sep := FindShortSuccessor(Internal, lastKey);
        assert Separates(sep, LastKey(b), None);
        AddIndexEntry(sep, None);
      }
    }

    lemma LastSorted()
      requires SortedTable(Added()) && Added() != []
      ensures Wf(Added()[|Added()| - 1].key)
    {
    }

    /**
     Finish: the remaining block, the filter block and the index block.  The metaindex block and the footer,
     which only say where these are, are not part of this model.
     */
    method Finish() returns (index: Slice, filterContents: Slice, ghost info: Info)
      requires Ok() && Fits() && |lastKey| < TWO32 && (pendingIndexEntry ==> dataBlock.Pairs() == [])
      requires indexBlock.CurrentSizeEstimate() + |lastKey| + 39 < TWO32
      modifies this, dataBlock, indexBlock, filter
      ensures AllPairs(blocks) == old(Added()) && info.contents == index
      ensures |filterContents| < TWO32 ==> IsTable(file, info, Some(filterContents), blocks, filter.groups)
    {
      hide LaidOut, IsBlock, Filter.FiltersFor, Filter.WellFormedKeys, Filter.IsFilterBlock, Holds, EncodeHandle,
          FilteredBy, GroupsWith, IndexFor, StoredBlock,
           SortedTable;
      Flush();
      assert Added() == AllPairs(blocks);
      IndexLast();
      ghost var groups0, pending0 := filter.groups, filter.pending;
      filterContents := filter.Finish();
      GroupsFinish(groups0, pending0, blocks);
      ghost var l := indexBlock.layout;
      IndexSorted(l.pairs, blocks);
      index := indexBlock.Finish();
      info := Info(Handle(0, 0), index, l);
    }
  }

  lemma FilteredLater(groups: seq<seq<Slice>>, pending: seq<Slice>, key: Slice, blocks: seq<Info>)
    requires FilteredBy(GroupsWith(groups, pending), blocks)
    ensures FilteredBy(GroupsWith(groups, pending + [key]), blocks)
  {
    var a, b := GroupsWith(groups, pending), GroupsWith(groups, pending + [key]);
    assert forall g, k :: 0 <= g < |a| && k in a[g] ==> k in b[g];
  }

  lemma SortedPlus(ps: seq<Pair>, p: Pair)
    requires SortedTable(ps) && Wf(p.key) && (ps != [] ==> Precedes(Internal, ps[|ps| - 1].key, p.key))
    ensures SortedTable(ps + [p])
  {
    hide Precedes;
    forall i | 0 <= i < |ps| ensures Precedes(Internal, ps[i].key, p.key) {
      if i < |ps| - 1 {
        Precede3(Internal, ps[i].key, ps[|ps| - 1].key, p.key);
      }
    }
  }

  lemma BlockSize(data: Slice, l: Layout)
    requires IsBlock(data, l)
    ensures |data| < TWO32
  {
  }

  /** One more index entry, for the last block. */
  lemma IndexGrows(index: seq<Pair>, blocks: seq<Info>, p: Pair, next: Option<Slice>)
    requires IndexFor(index, blocks, None) && |index| == |blocks| - 1
             && p.val == EncodeHandle(blocks[|blocks| - 1].handle)
    requires blocks[|blocks| - 1].layout.pairs != [] && Separates(p.key, LastKey(blocks[|blocks| - 1]), next)
    ensures IndexFor(index + [p], blocks, next)
  {
    hide Separates, EncodeHandle;
    forall i | 0 <= i < |blocks| ensures IndexEntry((index + [p])[i], blocks, i, next) {
      if i < |index| {
        assert IndexEntry(index[i], blocks, i, None);
      }
    }
  }

  /** The block that was being built is now the last of the blocks. */
  lemma IndexMoves(index: seq<Pair>, blocks: seq<Info>, b: Info)
    requires b.layout.pairs != [] && |index| == |blocks| && IndexFor(index, blocks, Some(b.layout.pairs[0].key))
    ensures IndexFor(index, blocks + [b], None)
  {
    hide Separates, EncodeHandle;
    var next := Some(b.layout.pairs[0].key);
    forall i | 0 <= i < |index| ensures IndexEntry(index[i], blocks + [b], i, None) {
      assert IndexEntry(index[i], blocks, i, next);
    }
  }

  lemma {:induction false} PairsToPrefix(blocks: seq<Info>, b: Info, n: nat)
    requires n <= |blocks|
    ensures PairsTo(blocks + [b], n) == PairsTo(blocks, n)
  {
    if n > 0 {
      PairsToPrefix(blocks, b, n - 1);
    }
  }

  lemma AllPairsPlus(blocks: seq<Info>, b: Info)
    ensures AllPairs(blocks + [b]) == AllPairs(blocks) + b.layout.pairs
  {
    PairsToPrefix(blocks, b, |blocks|);
  }

  lemma FilteredMoves(groups: seq<seq<Slice>>, pending: seq<Slice>, blocks: seq<Info>, b: Info)
    requires FilteredBy(GroupsWith(groups, pending), blocks)
    requires b.handle.offset / Filter.FILTER_BASE == |groups| && forall j :: 0 <= j < |b.layout.pairs| ==>
             b.layout.pairs[j].key in pending
    ensures FilteredBy(GroupsWith(groups, pending), blocks + [b])
  {
  }

  /** Index keys increase: each lies between its block and the next. */
  lemma IndexSorted(index: seq<Pair>, blocks: seq<Info>)
    requires IndexFor(index, blocks, None) && |index| == |blocks| && SortedTable(AllPairs(blocks))
    ensures SortedTable(index)
  {
    hide Precedes;
    forall i | 0 <= i < |index| ensures Wf(index[i].key) {
      assert IndexEntry(index[i], blocks, i, None);
    }
    forall i, j | 0 <= i < j < |index| ensures Precedes(Internal, index[i].key, index[j].key) {
      assert IndexEntry(index[i], blocks, i, None) && IndexEntry(index[j], blocks, j, None);
      var first, last := blocks[i + 1].layout.pairs[0].key, LastKey(blocks[j]);
      if i + 1 < j {
        AcrossBlocks(blocks, i + 1, 0, j, |blocks[j].layout.pairs| - 1);
      } else {
        BlockSorted(blocks, j);
        FirstIsLeast(blocks[j].layout.pairs, |blocks[j].layout.pairs| - 1);
      }
      Between(index[i].key, first, last, index[j].key);
    }
  }

  lemma Between(a: Slice, first: Slice, last: Slice, b: Slice)
    requires Wf(a) && Wf(first) && Wf(last) && Wf(b)
    requires Precedes(Internal, a, first) && (first == last || Precedes(Internal, first, last))
             && (b == last || Precedes(Internal, last, b))
    ensures Precedes(Internal, a, b)
  {
    hide Precedes;
    if first != last {
      Precede3(Internal, a, first, last);
    }
    if b != last {
      Precede3(Internal, a, last, b);
    }
  }
}
