/**
 The compaction loop: which entries of the inputs are rewritten and which are dropped
 (db/db_impl.cc: DoCompactionWork; db/version_set.cc: Compaction).
 */
module CompactionWork {
  import opened DbFormat
  import opened VersionModel

  // ---------------------------------------------------------------------------
  // The drop rules

  /** No file of level + 2 or deeper may hold the user key. */
  ghost predicate BaseLevelFor(v: Version, level: nat, k: UserKey)
  {
    forall l, f :: level + 2 <= l < |v.levels| && f in v.levels[l] ==> !Covers(f, k)
  }

  /** last_sequence_for_key when the loop reaches entry `i`. */
  function LastSequenceForKey(m: seq<Entry>, i: nat): (s: nat)
    requires i < |m|
  {
    if i > 0 && m[i - 1].key.ukey == m[i].key.ukey then m[i - 1].key.seqno else MAX_SEQUENCE
  }

  /** Rule (A), or an obsolete deletion marker. */
  ghost predicate Dropped(v: Version, level: nat, m: seq<Entry>, snapshot: nat, i: nat)
    requires i < |m|
  {
    || LastSequenceForKey(m, i) <= snapshot
    || (m[i].key.typ.Deletion? && m[i].key.seqno <= snapshot && BaseLevelFor(v, level, m[i].key.ukey))
  }

  /** The decision for every entry of the run. */
  ghost function Drops(v: Version, level: nat, m: seq<Entry>, snapshot: nat): (d: seq<bool>)
    ensures |d| == |m|
    ensures forall i :: 0 <= i < |m| ==> d[i] == Dropped(v, level, m, snapshot, i)
  {
    seq(|m|, i requires 0 <= i < |m| => Dropped(v, level, m, snapshot, i))
  }

  /** What remains of the first `n` entries. */
  function Kept(m: seq<Entry>, drops: seq<bool>, n: nat): (r: seq<Entry>)
    requires n <= |m| == |drops|
  {
    if n == 0 then []
    else if drops[n - 1] then Kept(m, drops, n - 1)
    else Kept(m, drops, n - 1) + [m[n - 1]]
  }

  /** Exactly the entries that some position keeps. */
  lemma {:induction false} KeptElems(m: seq<Entry>, drops: seq<bool>, n: nat)
    requires n <= |m| == |drops|
    ensures forall e :: e in Kept(m, drops, n) <==> exists i :: 0 <= i < n && !drops[i] && m[i] == e
  {
    if n > 0 {
      KeptElems(m, drops, n - 1);
    }
  }

  lemma {:induction false} KeptSorted(m: seq<Entry>, drops: seq<bool>, n: nat)
    requires n <= |m| == |drops| && Sorted(m)
    ensures Sorted(Kept(m, drops, n))
    ensures forall e :: e in Kept(m, drops, n) ==> e in m[..n]
  {
    if n > 0 {
      KeptSorted(m, drops, n - 1);
      var r := Kept(m, drops, n - 1);
      assert m[..n] == m[..n - 1] + [m[n - 1]];
      forall i | 0 <= i < |r| ensures Less(r[i].key, m[n - 1].key) {
        assert r[i] in m[..n - 1];
      }
    }
  }

  // ---------------------------------------------------------------------------
  // Output files

  function Flatten(fs: seq<File>): (es: seq<Entry>)
  {
    if fs == [] then [] else Flatten(fs[..|fs| - 1]) + fs[|fs| - 1].entries
  }

  lemma {:induction false} FlattenElems(fs: seq<File>)
    ensures Elems(Flatten(fs)) == EntriesOf(fs)
  {
    if fs != [] {
      var n := |fs| - 1;
      FlattenElems(fs[..n]);
      assert forall f :: f in fs <==> f in fs[..n] || f == fs[n];
      forall e ensures e in Elems(Flatten(fs)) <==> e in EntriesOf(fs) {
        assert e in Flatten(fs) <==> e in Flatten(fs[..n]) || e in fs[n].entries;
        assert e in EntriesOf(fs) <==> e in EntriesOf(fs[..n]) || e in fs[n].entries;
        assert e in Flatten(fs[..n]) <==> e in Elems(Flatten(fs[..n]));
      }
    }
  }

  /** The metadata of a file describes its entries, and file `i` got the i-th number. */
  ghost predicate Framed(fs: seq<File>, numbers: seq<nat>)
  {
    |fs| <= |numbers| && forall i :: 0 <= i < |fs| ==>
      && |fs[i].entries| > 0
      && fs[i].smallest == fs[i].entries[0].key
      && fs[i].largest == fs[i].entries[|fs[i].entries| - 1].key
      && fs[i].number == numbers[i]
  }

  lemma PieceInFlatten(fs: seq<File>, i: nat, e: Entry)
    requires i < |fs| && e in fs[i].entries
    ensures e in Flatten(fs)
  {
    FlattenElems(fs);
    assert fs[i] in fs;
    assert e in EntriesOf(fs);
    assert e in Elems(Flatten(fs));
  }

  lemma SplitSorted(a: seq<Entry>, b: seq<Entry>)
    requires Sorted(a + b)
    ensures Sorted(a) && Sorted(b)
    ensures forall e, f :: e in a && f in b ==> Less(e.key, f.key)
  {
    var all := a + b;
    assert forall i :: 0 <= i < |a| ==> all[i] == a[i];
    assert forall i :: 0 <= i < |b| ==> all[|a| + i] == b[i];
  }

  /** Cutting a sorted run anywhere gives valid files that do not overlap. */
  lemma {:induction false} FlattenSorted(fs: seq<File>, numbers: seq<nat>)
    requires Framed(fs, numbers) && Sorted(Flatten(fs))
    requires forall e :: e in Flatten(fs) ==> e.key.seqno <= MAX_SEQUENCE
    ensures Disjoint(fs) && forall i :: 0 <= i < |fs| ==> ValidFile(fs[i])
  {
    if fs != [] {
      var n := |fs| - 1;
      var init := fs[..n];
      SplitSorted(Flatten(init), fs[n].entries);
      assert forall i :: 0 <= i < n ==> init[i] == fs[i];
      FlattenSorted(init, numbers);
      assert forall e :: e in fs[n].entries ==> e in Flatten(fs);
      assert ValidFile(fs[n]);
      forall i | 0 <= i < n ensures Less(fs[i].largest, fs[n].smallest) {
        var last := init[i].entries[|init[i].entries| - 1];
        PieceInFlatten(init, i, last);
      }
    }
  }

  /** The finished outputs and the builder of the current one. */
  datatype Output = Output(files: seq<File>, builder: seq<Entry>)

  function Written(o: Output): (es: seq<Entry>)
  {
    Flatten(o.files) + o.builder
  }

  /** How many output files have been opened. */
  function Opened(o: Output): (n: nat)
  {
    |o.files| + (if o.builder == [] then 0 else 1)
  }

  /** FinishCompactionOutputFile, if an output file is open. */
  function Finish(o: Output, numbers: seq<nat>, sizes: seq<nat>): (r: Output)
    requires Opened(o) <= |numbers| == |sizes|
    ensures r.builder == [] && Written(r) == Written(o) == Flatten(r.files) && |r.files| == Opened(o)
    ensures Framed(o.files, numbers) ==> Framed(r.files, numbers)
  {
    if o.builder == [] then o
    else
      var n := |o.files|;
      var f := File(numbers[n], sizes[n], o.builder[0].key, o.builder[|o.builder| - 1].key, o.builder);
      assert (o.files + [f])[..n] == o.files;
      Output(o.files + [f], [])
  }

  /** Close the current output if asked to, add the entry unless it is dropped, close again if full. */
  function Emit(o: Output, e: Entry, drop: bool, stop: bool, full: bool, numbers: seq<nat>,
                sizes: seq<nat>): (r: Output)
    requires Opened(o) < |numbers| == |sizes|
    ensures Written(r) == Written(o) + (if drop then [] else [e])
    ensures Opened(r) <= Opened(o) + 1
    ensures Framed(o.files, numbers) ==> Framed(r.files, numbers)
  {
    var o1 := if stop then Finish(o, numbers, sizes) else o;
    if drop then o1
    else
      var o2 := Output(o1.files, o1.builder + [e]);
      assert Written(o2) == Written(o1) + [e];
      if full then Finish(o2, numbers, sizes) else o2
  }

  // ---------------------------------------------------------------------------
  // The compaction object

  /** The part of class Compaction that the loop moves: a cursor into every deeper level. */
  class Compaction {
    const level: nat
    const inputVersion: Version
    var levelPtrs: seq<nat>
    ghost var asked: Option<UserKey>

    /** Files left of a cursor end before the last key asked about. */
    ghost predicate Valid()
      reads this
    {
      && WellFormed(inputVersion)
      && level + 1 < NUM_LEVELS
      && |levelPtrs| == NUM_LEVELS
      && forall l :: level + 2 <= l < NUM_LEVELS ==>
           && levelPtrs[l] <= |inputVersion.levels[l]|
           && (asked.None? ==> levelPtrs[l] == 0)
           && (asked.Some? ==> Passed(inputVersion.levels[l], levelPtrs[l], asked.value))
    }

    constructor (v: Version, lvl: nat)
      requires WellFormed(v) && lvl + 1 < NUM_LEVELS
      ensures Valid() && asked == None && level == lvl && inputVersion == v
    {
      level, inputVersion := lvl, v;
      levelPtrs := seq(NUM_LEVELS, _ => 0);
      asked := None;
    }

    /** Compaction::IsBaseLevelForKey: for increasing keys the cursors agree with a full scan. */
    method IsBaseLevelForKey(k: UserKey) returns (r: bool)
      requires Valid() && (asked.Some? ==> asked.value <= k)
      modifies this
      ensures Valid() && asked == Some(k)
      ensures r <==> BaseLevelFor(inputVersion, level, k)
    {
      ghost var before := asked;
      asked := Some(k);
      assert Valid();
      for l := level + 2 to NUM_LEVELS
        invariant Valid() && asked == Some(k)
        invariant forall m, f :: level + 2 <= m < l && f in inputVersion.levels[m] ==> !Covers(f, k)
      {
        var files := inputVersion.levels[l];
        while levelPtrs[l] < |files| && k > files[levelPtrs[l]].largest.ukey
          invariant Valid() && asked == Some(k)
          decreases |files| - levelPtrs[l]
        {
          levelPtrs := levelPtrs[l := levelPtrs[l] + 1];
        }
        CursorDecides(files, levelPtrs[l], k);
        if levelPtrs[l] < |files| && k >= files[levelPtrs[l]].smallest.ukey {
          assert files[levelPtrs[l]] in inputVersion.levels[l];
          return false;
        }
      }
      r := true;
    }

    /** One round of the loop: should the entry be dropped? */
    method ShouldDrop(key: InternalKey, lastSequenceForKey: nat, smallestSnapshot: nat) returns (drop: bool)
      requires Valid() && (asked.Some? ==> asked.value <= key.ukey)
      modifies this
      ensures Valid() && (asked == old(asked) || asked == Some(key.ukey))
      ensures drop <==> || lastSequenceForKey <= smallestSnapshot
                        || (key.typ.Deletion? && key.seqno <= smallestSnapshot
                            && BaseLevelFor(inputVersion, level, key.ukey))
    {
      drop := false;
      if lastSequenceForKey <= smallestSnapshot {
        drop := true;
      } else if key.typ.Deletion? && key.seqno <= smallestSnapshot {
        drop := IsBaseLevelForKey(key.ukey);
      }
    }

    /** DBImpl::DoCompactionWork over the merged inputs `m`.  Where output files are cut
        (ShouldStopBefore, MaxOutputFileSize), which numbers they get and how large they
        become are arbitrary. */
    method DoCompactionWork(m: seq<Entry>, smallestSnapshot: nat,
                            stopBefore: seq<bool>, full: seq<bool>, numbers: seq<nat>, sizes: seq<nat>)
      returns (outputs: seq<File>)
      requires Valid() && asked == None
      requires Sorted(m) && forall e :: e in m ==> e.key.seqno <= MAX_SEQUENCE
      requires |stopBefore| == |full| == |numbers| == |sizes| == |m|
      modifies this
      ensures Valid()
      ensures Flatten(outputs) == Kept(m, Drops(inputVersion, level, m, smallestSnapshot), |m|)
      ensures forall i :: 0 <= i < |outputs| ==> ValidFile(outputs[i])
      ensures |outputs| <= |m| && forall i :: 0 <= i < |outputs| ==> outputs[i].number == numbers[i]
      ensures Disjoint(outputs)
    {
      hide WellFormed, Passed, BaseLevelFor;
      ghost var drops := Drops(inputVersion, level, m, smallestSnapshot);
      var out := Output([], []);
      StartsEmpty(m, drops, numbers);
      hide Sorted, Kept, Written, Flatten, Framed;
      var currentUserKey: Option<UserKey> := None;
      var lastSequenceForKey := MAX_SEQUENCE;
      for i := 0 to |m|
        invariant Valid()
        invariant asked.Some? ==> i > 0 && asked.value <= m[i - 1].key.ukey
        invariant currentUserKey == if i == 0 then None else Some(m[i - 1].key.ukey)
        invariant i > 0 ==> lastSequenceForKey == m[i - 1].key.seqno
        invariant Written(out) == Kept(m, drops, i)
        invariant Opened(out) <= i && Framed(out.files, numbers)
      {
        var key := m[i].key;
        KeysIncrease(m, i);
        KeptStep(m, drops, i);
        if currentUserKey.None? || key.ukey != currentUserKey.value {
          currentUserKey := Some(key.ukey);
          lastSequenceForKey := MAX_SEQUENCE;
        }
        var drop := ShouldDrop(key, lastSequenceForKey, smallestSnapshot);
        lastSequenceForKey := key.seqno;
        assert drop == drops[i];
        out := Emit(out, m[i], drop, stopBefore[i], full[i], numbers, sizes);
      }
      out := Finish(out, numbers, sizes);
      outputs := out.files;
      OutputsInOrder(m, drops, outputs, numbers);
    }
  }

  lemma StartsEmpty(m: seq<Entry>, drops: seq<bool>, numbers: seq<nat>)
    requires |drops| == |m|
    ensures Written(Output([], [])) == Kept(m, drops, 0)
    ensures Framed([], numbers)
  {
  }

  lemma OutputsInOrder(m: seq<Entry>, drops: seq<bool>, outputs: seq<File>, numbers: seq<nat>)
    requires |drops| == |m| && Sorted(m) && forall e :: e in m ==> e.key.seqno <= MAX_SEQUENCE
    requires Framed(outputs, numbers) && Flatten(outputs) == Kept(m, drops, |m|)
    ensures Disjoint(outputs) && |outputs| <= |numbers|
    ensures forall i :: 0 <= i < |outputs| ==> ValidFile(outputs[i]) && outputs[i].number == numbers[i]
  {
    KeptSorted(m, drops, |m|);
    assert m[..|m|] == m;
    FlattenSorted(outputs, numbers);
  }

  lemma KeptStep(m: seq<Entry>, drops: seq<bool>, i: nat)
    requires i < |m| == |drops|
    ensures Kept(m, drops, i + 1) == Kept(m, drops, i) + (if drops[i] then [] else [m[i]])
  {
  }

  lemma KeysIncrease(m: seq<Entry>, i: nat)
    requires Sorted(m) && i < |m|
    ensures i > 0 ==> m[i - 1].key.ukey <= m[i].key.ukey
  {
  }

  ghost predicate Passed(files: seq<File>, p: nat, k: UserKey)
  {
    forall j :: 0 <= j < p && j < |files| ==> files[j].largest.ukey < k
  }

  lemma CursorDecides(files: seq<File>, p: nat, k: UserKey)
    requires Disjoint(files) && (forall f :: f in files ==> ValidFile(f))
    requires p <= |files| && Passed(files, p, k)
    requires p < |files| ==> k <= files[p].largest.ukey
    ensures (exists f :: f in files && Covers(f, k)) <==> p < |files| && files[p].smallest.ukey <= k
  {
    if p < |files| && files[p].smallest.ukey <= k {
      assert files[p] in files && Covers(files[p], k);
    }
    forall f | f in files && Covers(f, k) ensures p < |files| && files[p].smallest.ukey <= k {
      var j :| 0 <= j < |files| && files[j] == f;
      if p < j {
        assert files[p] in files;
        InRange(files[p], files[p].entries[0]);
        assert Less(files[p].largest, files[j].smallest);
      }
    }
  }
}
