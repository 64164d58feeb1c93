/**
 A cursor over the concatenation of blocks that an index points at (table/two_level_iterator.cc).
 It serves both the data blocks of a table and the files of a level above 0 (db/version_set.cc:
 LevelFileNumIterator, NewConcatenatingIterator).
 */
module TwoLevel {
  import opened DbFormat
  import opened VersionModel
  import opened Cursors

  // ---------------------------------------------------------------------------
  // Concatenations

  /** The entries of the first `n` blocks. */
  ghost function Flat(blocks: seq<seq<Entry>>, n: nat): (es: seq<Entry>)
    requires n <= |blocks|
  {
    if n == 0 then [] else Flat(blocks, n - 1) + blocks[n - 1]
  }

  ghost function Start(blocks: seq<seq<Entry>>, i: nat): (p: nat)
    requires i <= |blocks|
  {
    |Flat(blocks, i)|
  }

  /** Index keys separate the blocks: at or after everything in theirs, before everything in the next. */
  ghost predicate Indexed(blocks: seq<seq<Entry>>, index: seq<Entry>)
  {
    && |index| == |blocks| && Sorted(index)
    && (forall i :: 0 <= i < |blocks| ==> Sorted(blocks[i]))
    && (forall i, e :: 0 <= i < |blocks| && e in blocks[i] ==> !Less(index[i].key, e.key))
    && (forall i, j, e :: 0 <= i < j < |blocks| && e in blocks[j] ==> Less(index[i].key, e.key))
  }

  lemma {:induction false} FlatPrefix(blocks: seq<seq<Entry>>, i: nat, n: nat)
    requires i <= n <= |blocks|
    ensures Start(blocks, i) <= Start(blocks, n) && Flat(blocks, n)[..Start(blocks, i)] == Flat(blocks, i)
  {
    if i < n {
      FlatPrefix(blocks, i, n - 1);
    }
  }

  /** Entry `d` of block `i` is entry Start(i) + d of the whole. */
  lemma FlatAt(blocks: seq<seq<Entry>>, i: nat, d: nat)
    requires i < |blocks| && d < |blocks[i]|
    ensures Start(blocks, i) + d < Start(blocks, |blocks|)
    ensures Flat(blocks, |blocks|)[Start(blocks, i) + d] == blocks[i][d]
  {
    FlatPrefix(blocks, i + 1, |blocks|);
    var n := Start(blocks, i + 1);
    assert Flat(blocks, |blocks|)[..n][Start(blocks, i) + d] == Flat(blocks, i + 1)[Start(blocks, i) + d];
  }

  lemma {:induction false} FlatFrom(blocks: seq<seq<Entry>>, n: nat, e: Entry)
    requires n <= |blocks| && e in Flat(blocks, n)
    ensures exists i :: 0 <= i < n && e in blocks[i]
  {
    if e in Flat(blocks, n - 1) {
      FlatFrom(blocks, n - 1, e);
    }
  }

  lemma FlatElems(blocks: seq<seq<Entry>>, e: Entry)
    ensures e in Flat(blocks, |blocks|) <==> exists i :: 0 <= i < |blocks| && e in blocks[i]
  {
    if e in Flat(blocks, |blocks|) {
      FlatFrom(blocks, |blocks|, e);
    }
    if i :| 0 <= i < |blocks| && e in blocks[i] {
      var d :| 0 <= d < |blocks[i]| && blocks[i][d] == e;
      FlatAt(blocks, i, d);
    }
  }

  lemma Between(a: InternalKey, b: InternalKey, c: InternalKey)
    ensures !Less(b, a) && Less(b, c) ==> Less(a, c)
    ensures Less(a, b) && !Less(c, b) ==> Less(a, c)
  {
  }

  lemma SortedAppend(a: seq<Entry>, b: seq<Entry>)
    requires Sorted(a) && Sorted(b) && forall x, y :: x in a && y in b ==> Less(x.key, y.key)
    ensures Sorted(a + b)
  {
    assert forall i :: 0 <= i < |a| ==> a[i] in a;
    assert forall i :: 0 <= i < |b| ==> b[i] in b;
  }

  lemma {:induction false} FlatSorted(blocks: seq<seq<Entry>>, index: seq<Entry>, n: nat)
    requires Indexed(blocks, index) && n <= |blocks|
    ensures Sorted(Flat(blocks, n))
  {
    if n > 0 {
      FlatSorted(blocks, index, n - 1);
      var init := Flat(blocks, n - 1);
      forall a, b | a in init && b in blocks[n - 1] ensures Less(a.key, b.key) {
        FlatFrom(blocks, n - 1, a);
        var i :| 0 <= i < n - 1 && a in blocks[i];
        Between(a.key, index[i].key, b.key);
      }
      SortedAppend(init, blocks[n - 1]);
    }
  }

  lemma BoundOf(es: seq<Entry>, key: InternalKey, n: nat)
    requires n <= |es|
    requires forall j :: 0 <= j < n ==> Less(es[j].key, key)
    requires n < |es| ==> !Less(es[n].key, key)
    ensures LowerBound(es, key) == n
  {
  }

  /** Seeking in the index and then in one block finds the first entry at or after the target. */
  lemma SoughtBlock(blocks: seq<seq<Entry>>, index: seq<Entry>, target: InternalKey)
    requires Indexed(blocks, index)
    ensures var i := LowerBound(index, target);
            LowerBound(Flat(blocks, |blocks|), target) ==
              if i < |blocks| then Start(blocks, i) + LowerBound(blocks[i], target) else Start(blocks, |blocks|)
  {
    hide Indexed, Less, Flat, LowerBound;
    var i := LowerBound(index, target);
    var es := Flat(blocks, |blocks|);
    assert |index| == |blocks| by {
      OneIndexKeyEach(blocks, index);
    }
    var n := if i < |blocks| then Start(blocks, i) + LowerBound(blocks[i], target) else Start(blocks, |blocks|);
    FlatPrefix(blocks, if i < |blocks| then i + 1 else i, |blocks|);
    if i < |blocks| {
      OneMoreBlock(blocks, i);
    }
    forall j | 0 <= j < n ensures Less(es[j].key, target) {
      BeforeTarget(blocks, index, target, j);
    }
    if n < |es| {
      NotBeforeTarget(blocks, index, target, i, n);
    }
    BoundOf(es, target, n);
  }

  lemma OneIndexKeyEach(blocks: seq<seq<Entry>>, index: seq<Entry>)
    requires Indexed(blocks, index)
    ensures |index| == |blocks|
  {
  }

  lemma OneMoreBlock(blocks: seq<seq<Entry>>, i: nat)
    requires i < |blocks|
    ensures Start(blocks, i + 1) == Start(blocks, i) + |blocks[i]|
  {
  }

  /** Entries of earlier blocks, and of the block up to its own bound, come before the target. */
  lemma BeforeTarget(blocks: seq<seq<Entry>>, index: seq<Entry>, target: InternalKey, j: nat)
    requires Indexed(blocks, index) && |index| == |blocks| && j < Start(blocks, |blocks|)
    requires var i := LowerBound(index, target); i < |blocks| ==> j < Start(blocks, i) + LowerBound(blocks[i], target)
    ensures Less(Flat(blocks, |blocks|)[j].key, target)
  {
    hide Less, Flat, Indexed;
    var i := LowerBound(index, target);
    var b, d := BlockAt(blocks, j);
    FlatAt(blocks, b, d);
    if b < i {
      InIndexed(blocks, index, b, d, target);
    } else if i < b {
      FlatPrefix(blocks, i + 1, b);
      OneMoreBlock(blocks, i);
    }
  }

  lemma InIndexed(blocks: seq<seq<Entry>>, index: seq<Entry>, b: nat, d: nat, target: InternalKey)
    requires Indexed(blocks, index) && b < |blocks| && d < |blocks[b]| && Less(index[b].key, target)
    ensures Less(blocks[b][d].key, target)
  {
    assert blocks[b][d] in blocks[b];
    Between(blocks[b][d].key, index[b].key, target);
  }

  lemma NotBeforeTarget(blocks: seq<seq<Entry>>, index: seq<Entry>, target: InternalKey, i: nat, n: nat)
    requires Indexed(blocks, index) && i < |blocks| && i == LowerBound(index, target)
    requires n == Start(blocks, i) + LowerBound(blocks[i], target) && n < Start(blocks, |blocks|)
    ensures !Less(Flat(blocks, |blocks|)[n].key, target)
  {
    hide Indexed, Less, Flat;
    var m := LowerBound(blocks[i], target);
    if m < |blocks[i]| {
      FlatAt(blocks, i, m);
    } else {
      var j, d := BlockAt(blocks, n);
      FlatAt(blocks, j, d);
      LaterBlock(blocks, i, j, d);
      OneIndexKeyEach(blocks, index);
      NotBefore(blocks, index, i, j, d, target);
    }
  }

  /** What lies beyond a whole block lies in a later one. */
  lemma LaterBlock(blocks: seq<seq<Entry>>, i: nat, j: nat, d: nat)
    requires i < |blocks| && j < |blocks| && d < |blocks[j]|
    requires Start(blocks, j) + d >= Start(blocks, i) + |blocks[i]|
    ensures i < j
  {
    if j <= i {
      FlatPrefix(blocks, j + 1, i + 1);
    }
  }

  lemma NotBefore(blocks: seq<seq<Entry>>, index: seq<Entry>, i: nat, j: nat, d: nat, target: InternalKey)
    requires Indexed(blocks, index) && i < j < |blocks| && d < |blocks[j]| && !Less(index[i].key, target)
    ensures !Less(blocks[j][d].key, target)
  {
    assert blocks[j][d] in blocks[j];
    assert Less(index[i].key, blocks[j][d].key);
    hide Indexed;
  }

  lemma {:induction false} BlockAt(blocks: seq<seq<Entry>>, p: nat) returns (i: nat, d: nat)
    requires p < Start(blocks, |blocks|)
    ensures i < |blocks| && d < |blocks[i]| && p == Start(blocks, i) + d
  {
    i := |blocks|;
    while p < Start(blocks, i)
      invariant i <= |blocks|
      invariant i < |blocks| ==> p < Start(blocks, i + 1)
      decreases i
    {
      i := i - 1;
    }
    d := p - Start(blocks, i);
  }

  // ---------------------------------------------------------------------------
  // The iterator

  class TwoLevelIterator {
    const index: Cursor
    const blocks: seq<seq<Entry>>
    var data: Cursor?
    /** The block that `data` was made for. */
    var handle: nat

    ghost predicate Sound()
      reads this, index, data
    {
      && index.Ok() && Indexed(blocks, index.es)
      && (data != null ==> data != index && data.Ok() && handle < |blocks| && data.es == blocks[handle])
    }

    /** With a data iterator the index is at its block. */
    ghost predicate Ok()
      reads this, index, data
    {
      && Sound()
      && (data != null ==> data.Valid() && index.at == handle)
    }

    ghost function All(): (es: seq<Entry>)
      reads this
    {
      Flat(blocks, |blocks|)
    }

    /** The position in the concatenation. */
    ghost function At(): (p: nat)
      reads this, index, data
      requires Ok()
    {
      if data != null then Start(blocks, handle) + data.at else |All()|
    }

    predicate Valid()
      reads this, data
    {
      data != null && data.Valid()
    }

    constructor (indexIter: Cursor, bs: seq<seq<Entry>>)
      requires indexIter.Ok() && Indexed(bs, indexIter.es)
      ensures Ok() && !Valid() && index == indexIter && blocks == bs && data == null
    {
      index, blocks := indexIter, bs;
      data, handle := null, 0;
    }

    method Key() returns (k: InternalKey)
      requires Ok() && Valid()
      ensures At() < |All()| && k == All()[At()].key
    {
      FlatAt(blocks, handle, data.at);
      k := data.Key();
    }

    method Val() returns (v: Slice)
      requires Ok() && Valid()
      ensures At() < |All()| && v == All()[At()].val
    {
      FlatAt(blocks, handle, data.at);
      v := data.Val();
    }

    method InitDataBlock()
      requires Sound()
      modifies this
      ensures Sound() && (data != null <==> index.Valid()) && (data != null ==> handle == index.at)
      ensures data == old(data) || data == null || fresh(data)
    {
      if !index.Valid() {
        data := null;
      } else if data != null && handle == index.at {
        // The data iterator already is the one for this block.
      } else {
        handle := index.at;
        data := new Cursor(blocks[handle]);
      }
    }

    /** From the end of a block on to the first entry of a later block that is not empty. */
    method SkipEmptyDataBlocksForward()
      requires Sound() && (data != null <==> index.Valid()) && (data != null ==> handle == index.at)
      modifies this, index, data
      ensures Ok() && At() == old(if data != null then Start(blocks, handle) + data.at else Start(blocks, |blocks|))
      ensures data == old(data) || data == null || fresh(data)
    {
      ghost var p := if data != null then Start(blocks, handle) + data.at else Start(blocks, |blocks|);
      while data == null || !data.Valid()
        invariant Sound() && (data != null <==> index.Valid()) && (data != null ==> handle == index.at)
        invariant p == if data != null then Start(blocks, handle) + data.at else Start(blocks, |blocks|)
        invariant data == old(data) || data == null || fresh(data)
        decreases data != null, |blocks| - index.at
      {
        if !index.Valid() {
          data := null;
          return;
        }
        index.Next();
        InitDataBlock();
        if data != null {
          data.SeekToFirst();
        }
      }
    }

    /** Back to the last entry of an earlier block that is not empty. */
    method SkipEmptyDataBlocksBackward(ghost p: nat)
      requires Sound() && (data != null <==> index.Valid()) && (data != null ==> handle == index.at)
      requires p == if data == null then 0 else if data.Valid() then Start(blocks, handle) + data.at + 1
               else Start(blocks, handle)
      modifies this, index, data
      ensures Ok() && p <= |All()| && At() == Before(|All()|, p)
      ensures data == old(data) || data == null || fresh(data)
    {
      while data == null || !data.Valid()
        invariant Sound() && (data != null <==> index.Valid()) && (data != null ==> handle == index.at)
        invariant p == if data == null then 0 else if data.Valid() then Start(blocks, handle) + data.at + 1
                  else Start(blocks, handle)
        invariant data == old(data) || data == null || fresh(data)
        decreases data != null, index.at
      {
        if !index.Valid() {
          data := null;
          return;
        }
        index.Prev();
        InitDataBlock();
        if data != null {
          data.SeekToLast();
        }
      }
      FlatAt(blocks, handle, data.at);
    }

    method Seek(target: InternalKey)
      requires Ok()
      modifies this, index, data
      ensures Ok() && At() == LowerBound(All(), target)
      ensures data == old(data) || data == null || fresh(data)
    {
      index.Seek(target);
      InitDataBlock();
      if data != null {
        data.Seek(target);
      }
      SoughtBlock(blocks, index.es, target);
      SkipEmptyDataBlocksForward();
    }

    method SeekToFirst()
      requires Ok()
      modifies this, index, data
      ensures Ok() && At() == 0
      ensures data == old(data) || data == null || fresh(data)
    {
      index.SeekToFirst();
      InitDataBlock();
      if data != null {
        data.SeekToFirst();
      }
      SkipEmptyDataBlocksForward();
    }

    method SeekToLast()
      requires Ok()
      modifies this, index, data
      ensures Ok() && At() == Before(|All()|, |All()|)
      ensures data == old(data) || data == null || fresh(data)
    {
      index.SeekToLast();
      InitDataBlock();
      if data != null {
        data.SeekToLast();
      }
      SkipEmptyDataBlocksBackward(|All()|);
    }

    method Next()
      requires Ok() && Valid()
      modifies this, index, data
      ensures Ok() && At() == old(At()) + 1
      ensures data == old(data) || data == null || fresh(data)
    {
      data.Next();
      SkipEmptyDataBlocksForward();
    }

    method Prev()
      requires Ok() && Valid()
      modifies this, index, data
      ensures Ok() && old(At()) <= |All()| && At() == Before(|All()|, old(At()))
      ensures data == old(data) || data == null || fresh(data)
    {
      ghost var p := At();
      data.Prev();
      SkipEmptyDataBlocksBackward(p);
    }
  }

  // ---------------------------------------------------------------------------
  // The files of a level

  /** LevelFileNumIterator: for every file its largest key. */
  function LevelIndex(files: seq<File>): (index: seq<Entry>)
    ensures |index| == |files| && forall i :: 0 <= i < |files| ==> index[i].key == files[i].largest
  {
    seq(|files|, i requires 0 <= i < |files| => Entry(files[i].largest, []))
  }

  function FileBlocks(files: seq<File>): (blocks: seq<seq<Entry>>)
    ensures |blocks| == |files| && forall i :: 0 <= i < |files| ==> blocks[i] == files[i].entries
  {
    seq(|files|, i requires 0 <= i < |files| => files[i].entries)
  }

  lemma LevelIndexed(files: seq<File>)
    requires Disjoint(files) && forall f :: f in files ==> ValidFile(f)
    ensures Indexed(FileBlocks(files), LevelIndex(files))
  {
    var blocks, index := FileBlocks(files), LevelIndex(files);
    DisjointOrdered(files);
    assert Sorted(index);
    forall i | 0 <= i < |files| ensures Sorted(blocks[i]) {
      assert files[i] in files;
    }
    forall i: nat, e: Entry | i < |blocks| && e in blocks[i] ensures !Less(index[i].key, e.key) {
      assert files[i] in files;
      WithinFile(files[i], e);
    }
    forall i: nat, j: nat, e: Entry | i < j < |blocks| && e in blocks[j] ensures Less(index[i].key, e.key) {
      assert files[j] in files && Less(files[i].largest, files[j].smallest);
      WithinFile(files[j], e);
      Between(files[i].largest, files[j].smallest, e.key);
    }
  }

  lemma WithinFile(f: File, e: Entry)
    requires ValidFile(f) && e in f.entries
    ensures !Less(f.largest, e.key) && !Less(e.key, f.smallest)
  {
    InRange(f, e);
  }

  /** A level of disjoint files can be read as one sorted run. */
  lemma LevelRun(files: seq<File>)
    requires Disjoint(files) && forall f :: f in files ==> ValidFile(f)
    ensures Indexed(FileBlocks(files), LevelIndex(files))
    ensures Sorted(Flat(FileBlocks(files), |files|))
    ensures Elems(Flat(FileBlocks(files), |files|)) == EntriesOf(files)
  {
    LevelIndexed(files);
    FlatSorted(FileBlocks(files), LevelIndex(files), |files|);
    hide Indexed, Disjoint, ValidFile, Sorted, Flat;
    forall e ensures e in Elems(Flat(FileBlocks(files), |files|)) <==> e in EntriesOf(files) {
      LevelHolds(files, e);
    }
  }

  lemma LevelHolds(files: seq<File>, e: Entry)
    ensures e in Flat(FileBlocks(files), |files|) <==> e in EntriesOf(files)
  {
    hide Flat;
    var blocks := FileBlocks(files);
    FlatElems(blocks, e);
    if e in EntriesOf(files) {
      var f :| f in files && e in f.entries;
      var i :| 0 <= i < |files| && files[i] == f;
      assert e in blocks[i];
    }
  }
}
