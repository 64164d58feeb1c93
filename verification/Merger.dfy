/**
 Merging several sorted runs into one cursor (table/merger.cc).
 */
module Merger {
  import opened DbFormat
  import opened VersionModel
  import opened Cursors

  // ---------------------------------------------------------------------------
  // Merges of runs

  /** `all` is the sorted merge of runs that share no key. */
  ghost predicate Merges(all: seq<Entry>, runs: seq<seq<Entry>>)
  {
    && Sorted(all)
    && (forall i :: 0 <= i < |runs| ==> Sorted(runs[i]))
    && (forall i, e :: 0 <= i < |runs| && e in runs[i] ==> e in all)
    && (forall e :: e in all ==> exists i :: 0 <= i < |runs| && e in runs[i])
    && (forall i, j, a, b :: 0 <= i < j < |runs| && a in runs[i] && b in runs[j] ==> a.key != b.key)
  }

  /** How many entries of the run come before position `p` of the merge. */
  ghost function Upto(run: seq<Entry>, all: seq<Entry>, p: nat): (n: nat)
    ensures n <= |run|
  {
    if p < |all| then LowerBound(run, all[p].key) else |run|
  }

  lemma Trichotomy(a: InternalKey, b: InternalKey)
    ensures a == b || Less(a, b) || Less(b, a)
    ensures !(Less(a, b) && Less(b, a)) && !Less(a, a)
  {
  }

  /** The first entry at or after a key, by its neighbours. */
  lemma LowerBoundIs(es: seq<Entry>, key: InternalKey, n: nat)
    requires Sorted(es) && n <= |es|
    requires n > 0 ==> Less(es[n - 1].key, key)
    requires n < |es| ==> !Less(es[n].key, key)
    ensures LowerBound(es, key) == n
  {
    assert forall j :: 0 <= j < n - 1 ==> Less(es[j].key, es[n - 1].key);
  }

  lemma InMerge(all: seq<Entry>, runs: seq<seq<Entry>>, i: nat, n: nat) returns (q: nat)
    requires Merges(all, runs) && i < |runs| && n < |runs[i]|
    ensures q < |all| && all[q] == runs[i][n]
  {
    assert runs[i][n] in all;
    q :| 0 <= q < |all| && all[q] == runs[i][n];
  }

  lemma BoundSplits(es: seq<Entry>, target: InternalKey, q: nat)
    requires Sorted(es) && q < |es|
    ensures Less(es[q].key, target) <==> q < LowerBound(es, target)
  {
    var p := LowerBound(es, target);
    assert p < q ==> Less(es[p].key, es[q].key);
  }

  lemma SeekBefore(all: seq<Entry>, runs: seq<seq<Entry>>, i: nat, n: nat, target: InternalKey)
    requires Merges(all, runs) && i < |runs| && n < |runs[i]| && Less(runs[i][n].key, target)
    ensures var p := LowerBound(all, target); p < |all| ==> Less(runs[i][n].key, all[p].key)
  {
    var q := InMerge(all, runs, i, n);
    BoundSplits(all, target, q);
  }

  lemma SeekAfter(all: seq<Entry>, runs: seq<seq<Entry>>, i: nat, n: nat, target: InternalKey)
    requires Merges(all, runs) && i < |runs| && n < |runs[i]| && !Less(runs[i][n].key, target)
    ensures var p := LowerBound(all, target); p < |all| && !Less(runs[i][n].key, all[p].key)
  {
    var q := InMerge(all, runs, i, n);
    BoundSplits(all, target, q);
    BoundSplits(all, all[LowerBound(all, target)].key, q);
    Trichotomy(all[q].key, all[q].key);
    LowerBoundIs(all, all[LowerBound(all, target)].key, LowerBound(all, target));
  }

  lemma UptoSeek(all: seq<Entry>, runs: seq<seq<Entry>>, i: nat, target: InternalKey)
    requires Merges(all, runs) && i < |runs|
    ensures LowerBound(runs[i], target) == Upto(runs[i], all, LowerBound(all, target))
  {
    var p, n := LowerBound(all, target), LowerBound(runs[i], target);
    assert Sorted(runs[i]);
    hide Merges, Sorted;
    if n > 0 {
      SeekBefore(all, runs, i, n - 1, target);
    }
    if n < |runs[i]| {
      SeekAfter(all, runs, i, n, target);
    }
    if p < |all| {
      LowerBoundIs(runs[i], all[p].key, n);
    }
  }

  lemma UptoFirst(all: seq<Entry>, runs: seq<seq<Entry>>, i: nat)
    requires Merges(all, runs) && i < |runs|
    ensures Upto(runs[i], all, 0) == 0
  {
    if |runs[i]| > 0 {
      assert runs[i][0] in all;
      var q :| 0 <= q < |all| && all[q] == runs[i][0];
      assert q > 0 ==> Less(all[0].key, all[q].key);
      Trichotomy(all[0].key, all[q].key);
      LowerBoundIs(runs[i], all[0].key, 0);
    }
  }

  /** The entry at a position of the merge is the next one of exactly one run. */
  lemma Owner(all: seq<Entry>, runs: seq<seq<Entry>>, p: nat) returns (c: nat)
    requires Merges(all, runs) && p < |all|
    ensures c < |runs| && Upto(runs[c], all, p) < |runs[c]| && runs[c][Upto(runs[c], all, p)] == all[p]
  {
    assert all[p] in all;
    c :| 0 <= c < |runs| && all[p] in runs[c];
    InRun(all, runs, p, c);
  }

  lemma OwnerPassed(all: seq<Entry>, runs: seq<seq<Entry>>, p: nat, c: nat)
    requires Merges(all, runs) && 0 < p <= |all| && c < |runs| && all[p - 1] in runs[c]
    ensures Upto(runs[c], all, p) > 0
  {
    InRun(all, runs, p - 1, c);
    UptoStep(all, runs, p - 1, c, c);
  }

  lemma InRun(all: seq<Entry>, runs: seq<seq<Entry>>, p: nat, c: nat)
    requires Merges(all, runs) && p < |all| && c < |runs| && all[p] in runs[c]
    ensures Upto(runs[c], all, p) < |runs[c]| && runs[c][Upto(runs[c], all, p)] == all[p]
  {
    var n :| 0 <= n < |runs[c]| && runs[c][n] == all[p];
    Trichotomy(all[p].key, all[p].key);
    LowerBoundIs(runs[c], all[p].key, n);
  }

  /** Passing one position of the merge passes one entry of its run and none of the others. */
  lemma UptoStep(all: seq<Entry>, runs: seq<seq<Entry>>, p: nat, c: nat, i: nat)
    requires Merges(all, runs) && p < |all| && c < |runs| && i < |runs| && all[p] in runs[c]
    ensures Upto(runs[i], all, p + 1) == Upto(runs[i], all, p) + (if i == c then 1 else 0)
  {
    InRun(all, runs, p, c);
    var n := Upto(runs[i], all, p);
    if i == c {
      NotBeforeNext(all, runs, p, i, n + 1);
      assert p + 1 < |all| ==> Less(all[p].key, all[p + 1].key);
      UptoIs(all, runs, p + 1, i, n + 1);
    } else {
      if n < |runs[i]| {
        assert runs[i][n] in runs[i];
        assert runs[i][n].key != all[p].key;
        Trichotomy(runs[i][n].key, all[p].key);
      }
      NotBeforeNext(all, runs, p, i, n);
      UptoIs(all, runs, p + 1, i, n);
    }
  }

  /** An entry of a run after position `p` of the merge is not before position p + 1. */
  lemma NotBeforeNext(all: seq<Entry>, runs: seq<seq<Entry>>, p: nat, i: nat, n: nat)
    requires Merges(all, runs) && p < |all| && i < |runs|
    requires n < |runs[i]| ==> Less(all[p].key, runs[i][n].key) || (n > 0 && runs[i][n - 1] == all[p])
    ensures n < |runs[i]| ==> p + 1 < |all| && !Less(runs[i][n].key, all[p + 1].key)
  {
    if n < |runs[i]| {
      assert Less(all[p].key, runs[i][n].key);
      assert runs[i][n] in all;
      var q :| 0 <= q < |all| && all[q] == runs[i][n];
      Trichotomy(all[p].key, all[q].key);
      assert forall j :: 0 <= j < p ==> Less(all[j].key, all[p].key);
      assert p + 1 < q ==> Less(all[p + 1].key, all[q].key);
      Trichotomy(all[q].key, all[p + 1].key);
    }
  }

  lemma UptoIs(all: seq<Entry>, runs: seq<seq<Entry>>, p: nat, i: nat, n: nat)
    requires Merges(all, runs) && 0 < p <= |all| && i < |runs| && n <= |runs[i]|
    requires n > 0 ==> runs[i][n - 1] == all[p - 1] || Less(runs[i][n - 1].key, all[p - 1].key)
    requires n < |runs[i]| ==> p < |all| && !Less(runs[i][n].key, all[p].key)
    ensures Upto(runs[i], all, p) == n
  {
    if p < |all| {
      assert Less(all[p - 1].key, all[p].key);
      LowerBoundIs(runs[i], all[p].key, n);
    }
  }

  /** Every run's next entry is at or after position `p` of the merge. */
  lemma NextNotBefore(all: seq<Entry>, runs: seq<seq<Entry>>, p: nat, i: nat)
    requires Merges(all, runs) && p <= |all| && i < |runs| && Upto(runs[i], all, p) < |runs[i]|
    ensures p < |all| && !Less(runs[i][Upto(runs[i], all, p)].key, all[p].key)
  {
  }

  /** Every run's previous entry is before position `p` of the merge. */
  lemma PreviousBefore(all: seq<Entry>, runs: seq<seq<Entry>>, p: nat, i: nat)
    requires Merges(all, runs) && p <= |all| && i < |runs| && Upto(runs[i], all, p) > 0
    ensures p > 0 && !Less(all[p - 1].key, runs[i][Upto(runs[i], all, p) - 1].key)
  {
    var e := runs[i][Upto(runs[i], all, p) - 1];
    assert e in all;
    var q :| 0 <= q < |all| && all[q] == e;
    assert p < |all| ==> Less(e.key, all[p].key);
    if p <= q {
      assert p < q ==> Less(all[p].key, all[q].key);
      Trichotomy(all[p].key, all[q].key);
    }
    assert q < p - 1 ==> Less(all[q].key, all[p - 1].key);
    Trichotomy(all[q].key, all[p - 1].key);
  }

  /** An entry of a run that is not beyond any run's next entry is the one at position `p`. */
  lemma SmallestIs(all: seq<Entry>, runs: seq<seq<Entry>>, p: nat, c: nat)
    requires Merges(all, runs) && p <= |all| && c < |runs| && Upto(runs[c], all, p) < |runs[c]|
    requires forall i :: 0 <= i < |runs| && Upto(runs[i], all, p) < |runs[i]|
               ==> !Less(runs[i][Upto(runs[i], all, p)].key, runs[c][Upto(runs[c], all, p)].key)
    ensures p < |all| && all[p] == runs[c][Upto(runs[c], all, p)]
  {
    NextNotBefore(all, runs, p, c);
    var o := Owner(all, runs, p);
    var e := runs[c][Upto(runs[c], all, p)];
    Trichotomy(e.key, all[p].key);
    assert e in all;
    SameKey(all, e, all[p]);
  }

  lemma SameKey(all: seq<Entry>, a: Entry, b: Entry)
    requires Sorted(all) && a in all && b in all && a.key == b.key
    ensures a == b
  {
    var i :| 0 <= i < |all| && all[i] == a;
    var j :| 0 <= j < |all| && all[j] == b;
    Trichotomy(a.key, b.key);
  }

  lemma LargestIs(all: seq<Entry>, runs: seq<seq<Entry>>, p: nat, c: nat)
    requires Merges(all, runs) && p <= |all| && c < |runs| && Upto(runs[c], all, p) > 0
    requires forall i :: 0 <= i < |runs| && Upto(runs[i], all, p) > 0
               ==> !Less(runs[c][Upto(runs[c], all, p) - 1].key, runs[i][Upto(runs[i], all, p) - 1].key)
    ensures p > 0 && all[p - 1] == runs[c][Upto(runs[c], all, p) - 1]
  {
    PreviousBefore(all, runs, p, c);
    var o := Owner(all, runs, p - 1);
    UptoStep(all, runs, p - 1, o, o);
    var e := runs[c][Upto(runs[c], all, p) - 1];
    Trichotomy(e.key, all[p - 1].key);
    assert e in all;
    SameKey(all, e, all[p - 1]);
  }

  /** No other run holds the key of the current entry. */
  lemma NotTwice(all: seq<Entry>, runs: seq<seq<Entry>>, p: nat, c: nat, i: nat)
    requires Merges(all, runs) && p < |all| && c < |runs| && i < |runs| && i != c && all[p] in runs[c]
    ensures forall e :: e in runs[i] ==> e.key != all[p].key
  {
  }

  // ---------------------------------------------------------------------------
  // The iterator

  class MergingIterator {
    const children: seq<Cursor>
    var current: Option<nat>
    var direction: Direction
    ghost const all: seq<Entry>
    ghost var at: nat

    ghost function Runs(): (r: seq<seq<Entry>>)
      ensures |r| == |children| && forall i :: 0 <= i < |children| ==> r[i] == children[i].es
    {
      seq(|children|, i requires 0 <= i < |children| => children[i].es)
    }

    /** The children are sound, distinct, and together hold exactly `all`. */
    ghost predicate Sound()
      reads children
    {
      && (forall i :: 0 <= i < |children| ==> children[i].Ok())
      && (forall i, j :: 0 <= i < j < |children| ==> children[i] != children[j])
      && Merges(all, Runs())
    }

    /** Every child is at its first entry from position `p` of the merge on. */
    ghost predicate Ahead(p: nat)
      reads children
    {
      forall i :: 0 <= i < |children| ==> children[i].at == Upto(children[i].es, all, p)
    }

    /** Every child is at its last entry before position `p` of the merge. */
    ghost predicate Behind(p: nat)
      reads children
    {
      forall i :: 0 <= i < |children| ==> children[i].at == Before(|children[i].es|, Upto(children[i].es, all, p))
    }

    /** The current child is at the current entry of the merge, the others next to it on the side we move to. */
    ghost predicate Ok()
      reads this, children
    {
      && Sound() && at <= |all|
      && (current.None? <==> at == |all|)
      && (current.Some? ==>
            && current.value < |children| && children[current.value].Valid()
            && children[current.value].es[children[current.value].at] == all[at]
            && if direction.Forward? then Ahead(at) else Behind(at + 1))
    }

    predicate Valid()
      reads this
    {
      current.Some?
    }

    constructor (iters: seq<Cursor>, ghost merged: seq<Entry>)
      requires forall i :: 0 <= i < |iters| ==> iters[i].Ok()
      requires forall i, j :: 0 <= i < j < |iters| ==> iters[i] != iters[j]
      requires Merges(merged, seq(|iters|, i requires 0 <= i < |iters| => iters[i].es))
      ensures Ok() && !Valid() && all == merged && children == iters
    {
      children := iters;
      all := merged;
      current, direction := None, Forward;
      at := |merged|;
      new;
      assert Runs() == seq(|iters|, i requires 0 <= i < |iters| => iters[i].es);
    }

    function Key(): (k: InternalKey)
      reads this, children
      requires Ok() && Valid()
      ensures k == all[at].key
    {
      children[current.value].Key()
    }

    function Val(): (v: Slice)
      reads this, children
      requires Ok() && Valid()
      ensures v == all[at].val
    {
      children[current.value].Val()
    }

    method SmallestChild() returns (smallest: Option<nat>)
      requires forall i :: 0 <= i < |children| ==> children[i].Ok()
      ensures smallest.None? ==> forall j :: 0 <= j < |children| ==> !children[j].Valid()
      ensures smallest.Some? ==> smallest.value < |children| && children[smallest.value].Valid()
      ensures smallest.Some? ==> forall j :: 0 <= j < |children| && children[j].Valid() ==>
              !Less(children[j].Key(), children[smallest.value].Key())
    {
      hide Sorted;
      smallest := None;
      for i := 0 to |children|
        invariant smallest.None? ==> forall j :: 0 <= j < i ==> !children[j].Valid()
        invariant smallest.Some? ==> smallest.value < i && children[smallest.value].Valid()
        invariant smallest.Some? ==> forall j :: 0 <= j < i && children[j].Valid() ==>
                  !Less(children[j].Key(), children[smallest.value].Key())
      {
        if children[i].Valid() {
          if smallest.None? || Less(children[i].Key(), children[smallest.value].Key()) {
            smallest := Some(i);
          }
        }
      }
    }

    method LargestChild() returns (largest: Option<nat>)
      requires forall i :: 0 <= i < |children| ==> children[i].Ok()
      ensures largest.None? ==> forall j :: 0 <= j < |children| ==> !children[j].Valid()
      ensures largest.Some? ==> largest.value < |children| && children[largest.value].Valid()
      ensures largest.Some? ==> forall j :: 0 <= j < |children| && children[j].Valid() ==>
              !Less(children[largest.value].Key(), children[j].Key())
    {
      hide Sorted;
      largest := None;
      for i := |children| downto 0
        invariant largest.None? ==> forall j :: i <= j < |children| ==> !children[j].Valid()
        invariant largest.Some? ==> i <= largest.value < |children| && children[largest.value].Valid()
        invariant largest.Some? ==> forall j :: i <= j < |children| && children[j].Valid() ==>
                  !Less(children[largest.value].Key(), children[j].Key())
      {
        if children[i].Valid() {
          if largest.None? || Less(children[largest.value].Key(), children[i].Key()) {
            largest := Some(i);
          }
        }
      }
    }

    method FindSmallest(ghost p: nat)
      requires Sound() && p <= |all| && Ahead(p) && direction.Forward?
      modifies this
      ensures Ok() && at == p && direction.Forward?
    {
      hide Merges, Upto;
      current := SmallestChild();
      at := p;
      if current.Some? {
        SmallestIs(all, Runs(), p, current.value);
      } else if p < |all| {
        var c := Owner(all, Runs(), p);
      }
    }

    method FindLargest(ghost p: nat)
      requires Sound() && p <= |all| && Behind(p) && direction.Reverse?
      modifies this
      ensures Ok() && at == Before(|all|, p) && direction.Reverse?
    {
      hide Merges, Upto;
      current := LargestChild();
      at := Before(|all|, p);
      if current.Some? {
        LargestIs(all, Runs(), p, current.value);
      } else if p > 0 {
        var c := Owner(all, Runs(), p - 1);
        OwnerPassed(all, Runs(), p, c);
      }
    }

    method Seek(target: InternalKey)
      requires Ok()
      modifies this, children
      ensures Ok() && at == LowerBound(all, target)
    {
      hide Merges, Sorted, Less, Upto, LowerBound;
      for i := 0 to |children|
        invariant Sound()
        invariant forall j :: 0 <= j < i ==> children[j].at == LowerBound(children[j].es, target)
      {
        children[i].Seek(target);
      }
      forall i | 0 <= i < |children| ensures children[i].at == Upto(children[i].es, all, LowerBound(all, target)) {
        UptoSeek(all, Runs(), i, target);
      }
      direction := Forward;
      FindSmallest(LowerBound(all, target));
    }

    method SeekToFirst()
      requires Ok()
      modifies this, children
      ensures Ok() && at == 0
    {
      hide Merges, Sorted, Less, Upto, LowerBound;
      for i := 0 to |children|
        invariant Sound()
        invariant forall j :: 0 <= j < i ==> children[j].at == 0
      {
        children[i].SeekToFirst();
      }
      forall i | 0 <= i < |children| ensures children[i].at == Upto(children[i].es, all, 0) {
        UptoFirst(all, Runs(), i);
      }
      direction := Forward;
      FindSmallest(0);
    }

    method SeekToLast()
      requires Ok()
      modifies this, children
      ensures Ok() && at == Before(|all|, |all|)
    {
      hide Merges, Sorted, Less;
      for i := 0 to |children|
        invariant Sound()
        invariant forall j :: 0 <= j < i ==> children[j].at == Before(|children[j].es|, |children[j].es|)
      {
        children[i].SeekToLast();
      }
      direction := Reverse;
      FindLargest(|all|);
    }

    /** Turning round to move forwards: every other child goes to its first entry after the current key. */
    method TurnForward()
      requires Ok() && Valid() && direction.Reverse?
      modifies this`direction, children
      ensures Ok() && direction.Forward? && at == old(at)
    {
      hide Merges, Sorted, Less, Upto, LowerBound;
      var key := Key();
      var c := current.value;
      CurrentPassed(c);
      for i := 0 to |children|
        invariant Sound() && children[c].at == old(children[c].at)
        invariant forall j :: 0 <= j < i && j != c ==> children[j].at == LowerBound(children[j].es, key)
      {
        if i != c {
          children[i].Seek(key);
          // The step past an equal key never runs: no two children hold the same key.
          NotTwice(all, Runs(), at, c, i);
          assert children[i].Valid() ==> children[i].es[children[i].at] in Runs()[i] && children[i].Key() != key;
        }
      }
      direction := Forward;
    }

    /** The child goes to its last entry before `key`. */
    method SeekBack(i: nat, key: InternalKey)
      requires i < |children| && children[i].Ok()
      modifies children[i]
      ensures children[i].Ok() && children[i].at == Before(|children[i].es|, LowerBound(children[i].es, key))
    {
      children[i].Seek(key);
      if children[i].Valid() {
        // At its first entry at or after the key: one step back.
        children[i].Prev();
      } else {
        children[i].SeekToLast();
      }
    }

    /** Every child but the current one goes to its last entry before the current key. */
    method SeekOthersBack(c: nat, key: InternalKey)
      requires Sound() && c < |children|
      modifies children
      ensures Sound() && children[c].at == old(children[c].at)
      ensures forall j :: 0 <= j < |children| && j != c ==>
              children[j].at == Before(|children[j].es|, LowerBound(children[j].es, key))
    {
      hide Merges, Sorted, Less, Upto, LowerBound;
      for i := 0 to |children|
        invariant Sound() && children[c].at == old(children[c].at)
        invariant forall j :: 0 <= j < i && j != c ==>
                  children[j].at == Before(|children[j].es|, LowerBound(children[j].es, key))
      {
        if i != c {
          SeekBack(i, key);
        }
      }
    }

    /** Turning round to move backwards. */
    method TurnReverse()
      requires Ok() && Valid() && direction.Forward?
      modifies this`direction, children
      ensures Ok() && direction.Reverse? && at == old(at)
    {
      hide Merges, Sorted, Less, Upto, LowerBound;
      var c := current.value;
      CurrentPassed(c);
      SeekOthersBack(c, Key());
      direction := Reverse;
      assert Behind(at + 1);
    }

    method Next()
      requires Ok() && Valid()
      modifies this, children
      ensures Ok() && at == old(at) + 1
    {
      if direction.Reverse? {
        TurnForward();
      }
      StepForward();
    }

    method StepForward()
      requires Ok() && Valid() && direction.Forward?
      modifies this, children
      ensures Ok() && at == old(at) + 1
    {
      hide Merges, Sorted, Less, Upto, LowerBound;
      var c := current.value;
      CurrentPassed(c);
      children[c].Next();
      forall i | 0 <= i < |children| ensures children[i].at == Upto(children[i].es, all, at + 1) {
        assert i != c ==> children[i].at == old(children[i].at);
      }
      FindSmallest(at + 1);
    }

    method Prev()
      requires Ok() && Valid()
      modifies this, children
      ensures Ok() && at == Before(|all|, old(at))
    {
      if direction.Forward? {
        TurnReverse();
      }
      StepBack();
    }

    method StepBack()
      requires Ok() && Valid() && direction.Reverse?
      modifies this, children
      ensures Ok() && at == Before(|all|, old(at))
    {
      hide Merges, Sorted, Less, Upto, LowerBound;
      var c := current.value;
      CurrentPassed(c);
      children[c].Prev();
      forall i | 0 <= i < |children| ensures children[i].at == Before(|children[i].es|, Upto(children[i].es, all, at)) {
        assert i != c ==> children[i].at == old(children[i].at);
      }
      FindLargest(at);
    }

    /** Where the children stand on both sides of the current entry. */
    lemma CurrentPassed(c: nat)
      requires Ok() && Valid() && c == current.value
      ensures children[c].at == Upto(children[c].es, all, at)
      ensures forall i :: 0 <= i < |children| ==>
              Upto(children[i].es, all, at) == LowerBound(children[i].es, all[at].key)
      ensures forall i :: 0 <= i < |children|
                ==> Upto(children[i].es, all, at + 1) == Upto(children[i].es, all, at) + (if i == c then 1 else 0)
    {
      hide Merges, Less;
      assert all[at] in Runs()[c];
      forall i | 0 <= i < |children|
        ensures Upto(children[i].es, all, at + 1) == Upto(children[i].es, all, at) + (if i == c then 1 else 0)
      {
        UptoStep(all, Runs(), at, c, i);
      }
      if direction.Reverse? {
        assert children[c].at == Before(|children[c].es|, Upto(children[c].es, all, at + 1));
      }
    }
  }
}
