/**
 The iterator interface (include/leveldb/iterator.h): a position in a sorted run of entries,
 or no position.  Iterators over tables, levels and merges are held to the same contract.
 */
module Cursors {
  import opened DbFormat
  import opened VersionModel

  /** The position before `p`, or none. */
  function Before(n: nat, p: nat): (q: nat)
    requires p <= n
    ensures q <= n
  {
    if p == 0 then n else p - 1
  }

  /** Which way an iterator that keeps neighbours in reserve is moving. */
  datatype Direction = Forward | Reverse

  class Cursor {
    const es: seq<Entry>
    var at: nat

    /** `at == |es|` stands for every invalid position: none of them may be advanced. */
    ghost predicate Ok()
      reads this
    {
      Sorted(es) && at <= |es|
    }

    predicate Valid()
      reads this
    {
      at < |es|
    }

    constructor (run: seq<Entry>)
      requires Sorted(run)
      ensures Ok() && es == run && !Valid()
    {
      es, at := run, |run|;
    }

    function Key(): InternalKey
      reads this
      requires Valid()
    {
      es[at].key
    }

    function Val(): Slice
      reads this
      requires Valid()
    {
      es[at].val
    }

    method SeekToFirst()
      requires Ok()
      modifies this
      ensures Ok() && at == 0
    {
      at := 0;
    }

    method SeekToLast()
      requires Ok()
      modifies this
      ensures Ok() && at == Before(|es|, |es|)
    {
      at := Before(|es|, |es|);
    }

    method Seek(target: InternalKey)
      requires Ok()
      modifies this
      ensures Ok() && at == LowerBound(es, target)
    {
      at := LowerBound(es, target);
    }

    method Next()
      requires Ok() && Valid()
      modifies this
      ensures Ok() && at == old(at) + 1
    {
      at := at + 1;
    }

    method Prev()
      requires Ok() && Valid()
      modifies this
      ensures Ok() && at == Before(|es|, old(at))
    {
      at := Before(|es|, at);
    }
  }
}
