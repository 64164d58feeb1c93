/**
 The iterator that DBImpl::NewIterator puts together (db/db_impl.cc: NewInternalIterator;
 db/version_set.cc: AddIterators): a merge of both memtables, the level-0 tables and one
 concatenation for every deeper level, seen through DBIter.
 */
module Iterators {
  import opened DbFormat
  import opened Views
  import opened VersionModel
  import opened Install
  import opened Database
  import opened DatabaseSafety
  import opened Durability
  import Merger
  import DbIter
  import opened TwoLevel

  // ---------------------------------------------------------------------------
  // The children

  /** One run for every level from 1 to n - 1 that has files. */
  ghost function LevelRuns(v: Version, n: nat): (runs: seq<seq<Entry>>)
    requires 1 <= n <= |v.levels|
  {
    if n == 1 then []
    else LevelRuns(v, n - 1) + (if v.levels[n - 1] == [] then []
                                else [Flat(FileBlocks(v.levels[n - 1]), |v.levels[n - 1]|)])
  }

  /** Version::AddIterators. */
  ghost function VersionRuns(v: Version): (runs: seq<seq<Entry>>)
    requires |v.levels| == NUM_LEVELS
  {
    FileBlocks(v.levels[0]) + LevelRuns(v, NUM_LEVELS)
  }

  /** All entries of a list of runs. */
  ghost function Union(runs: seq<seq<Entry>>): (es: set<Entry>)
  {
    set r, e | r in runs && e in r :: e
  }

  ghost predicate NoSharedKey(es: set<Entry>, xs: set<Entry>)
  {
    forall e, x :: e in es && x in xs ==> e.key != x.key
  }

  ghost predicate AllSorted(runs: seq<seq<Entry>>)
  {
    forall i :: 0 <= i < |runs| ==> Sorted(runs[i])
  }

  ghost predicate PairwiseApart(runs: seq<seq<Entry>>)
  {
    forall i, j :: 0 <= i < j < |runs| ==> NoSharedKey(Elems(runs[i]), Elems(runs[j]))
  }

  ghost predicate Mergeable(runs: seq<seq<Entry>>)
  {
    AllSorted(runs) && PairwiseApart(runs)
  }

  lemma AboveSharesNoKey(es: set<Entry>, xs: set<Entry>)
    requires Above(es, xs)
    ensures NoSharedKey(es, xs) && NoSharedKey(xs, es)
  {
  }

  lemma UnionPlus(a: seq<seq<Entry>>, b: seq<seq<Entry>>)
    ensures Union(a + b) == Union(a) + Union(b)
  {
  }

  lemma JoinRuns(a: seq<seq<Entry>>, b: seq<seq<Entry>>)
    requires Mergeable(a) && Mergeable(b) && NoSharedKey(Union(a), Union(b))
    ensures Mergeable(a + b)
  {
    forall i, j | 0 <= i < |a| && 0 <= j < |b| ensures NoSharedKey(Elems(a[i]), Elems(b[j])) {
      assert a[i] in a && b[j] in b;
    }
  }

  lemma UnionOne(r: seq<Entry>)
    ensures Union([r]) == Elems(r)
  {
    assert r in [r];
  }

  /** The entries of the levels from 1 to n - 1. */
  ghost function LevelsTo(v: Version, n: nat): (es: set<Entry>)
    requires n <= |v.levels|
  {
    set l, e | 1 <= l < n && e in EntriesOf(v.levels[l]) :: e
  }

  lemma {:induction false} LevelRunsMerge(v: Version, n: nat)
    requires WellFormed(v) && Layered(v) && 1 <= n <= NUM_LEVELS
    ensures Mergeable(LevelRuns(v, n))
    ensures Union(LevelRuns(v, n)) == LevelsTo(v, n)
  {
    if n > 1 {
      LevelRunsMerge(v, n - 1);
      hide Layered, WellFormed;
      OneMoreLevel(v, n);
    }
  }

  lemma OneMoreLevel(v: Version, n: nat)
    requires WellFormed(v) && Layered(v) && 1 < n <= NUM_LEVELS
    requires Mergeable(LevelRuns(v, n - 1))
    requires Union(LevelRuns(v, n - 1)) == LevelsTo(v, n - 1)
    ensures Mergeable(LevelRuns(v, n))
    ensures Union(LevelRuns(v, n)) == LevelsTo(v, n)
  {
    var runs, files := LevelRuns(v, n - 1), v.levels[n - 1];
    var run := Flat(FileBlocks(files), |files|);
    LevelRun(files);
    if files != [] {
      forall e, x | e in Union(runs) && x in Elems(run) ensures e.key != x.key {
        var l :| 1 <= l < n - 1 && e in EntriesOf(v.levels[l]);
        assert Above(EntriesOf(v.levels[l]), EntriesOf(files));
      }
      UnionOne(run);
      assert Mergeable([run]);
      JoinRuns(runs, [run]);
      UnionPlus(runs, [run]);
    } else {
      assert LevelRuns(v, n) == runs;
    }
  }

  lemma LevelZeroApart(files: seq<File>, i: nat, j: nat)
    requires DistinctNumbers(files) && LevelZeroLayered(files) && i < j < |files|
    ensures NoSharedKey(Elems(files[i].entries), Elems(files[j].entries))
  {
    assert files[i] in files && files[j] in files && files[i].number != files[j].number;
    if files[i].number > files[j].number {
      AboveSharesNoKey(Elems(files[i].entries), Elems(files[j].entries));
    } else {
      AboveSharesNoKey(Elems(files[j].entries), Elems(files[i].entries));
    }
  }

  lemma BlocksHold(files: seq<File>)
    ensures Union(FileBlocks(files)) == EntriesOf(files)
  {
    var runs := FileBlocks(files);
    assert forall i :: 0 <= i < |files| ==> files[i] in files && runs[i] in runs;
    forall e ensures e in Union(runs) <==> e in EntriesOf(files) {
      if e in Union(runs) {
        var r :| r in runs && e in r;
      }
    }
  }

  lemma LevelZeroMerges(v: Version)
    requires LevelsSearchable(v)
    ensures Mergeable(FileBlocks(v.levels[0]))
    ensures Union(FileBlocks(v.levels[0])) == EntriesOf(v.levels[0])
  {
    hide LevelZeroLayered, NoSharedKey, UniqueSeq, Disjoint;
    var files := v.levels[0];
    var runs := FileBlocks(files);
    assert AllSorted(runs) by {
      assert forall i :: 0 <= i < |files| ==> files[i] in files && ValidFile(files[i]);
    }
    hide WellFormed;
    BlocksHold(files);
    forall i, j | 0 <= i < j < |runs| ensures NoSharedKey(Elems(runs[i]), Elems(runs[j])) {
      LevelZeroApart(files, i, j);
    }
  }

  /** The tables of a version can be merged, and together hold its contents. */
  lemma VersionRunsMerge(v: Version)
    requires Searchable(v)
    ensures Mergeable(VersionRuns(v)) && Union(VersionRuns(v)) == Contents(v)
  {
    LevelZeroMerges(v);
    LevelRunsMerge(v, NUM_LEVELS);
    var a, b := FileBlocks(v.levels[0]), LevelRuns(v, NUM_LEVELS);
    forall e, x | e in Union(a) && x in Union(b) ensures e.key != x.key {
      var l :| 1 <= l < NUM_LEVELS && x in EntriesOf(v.levels[l]);
      assert Above(EntriesOf(v.levels[0]), EntriesOf(v.levels[l]));
    }
    JoinRuns(a, b);
    UnionPlus(a, b);
    forall e ensures e in Contents(v) <==> e in Union(a) || e in Union(b) {
      if e in Contents(v) {
        var l :| 0 <= l < NUM_LEVELS && e in EntriesOf(v.levels[l]);
        assert l == 0 || 1 <= l;
      }
    }
  }

  // ---------------------------------------------------------------------------
  // What the iterator shows

  /** Everything a reader looks at. */
  ghost function ReaderEntries(s: State, r: Reader): (es: set<Entry>)
    requires r.mem < |s.mems| && (r.hasImm ==> r.mem > 0)
  {
    s.mems[r.mem] + (if r.hasImm then s.mems[r.mem - 1] else {}) + Contents(r.version)
  }

  /** Runs for the memtables, newest first, and then the tables. */
  ghost predicate ChildRuns(s: State, r: Reader, runs: seq<seq<Entry>>)
    requires r.mem < |s.mems| && (r.hasImm ==> r.mem > 0) && |r.version.levels| == NUM_LEVELS
  {
    exists mem, imm ::
      && Sorted(mem) && Elems(mem) == s.mems[r.mem]
      && Sorted(imm) && (r.hasImm ==> Elems(imm) == s.mems[r.mem - 1])
      && runs == [mem] + (if r.hasImm then [imm] else []) + VersionRuns(r.version)
  }

  lemma SortedHasNoRepeats(es: seq<Entry>, runs: seq<seq<Entry>>)
    requires Sorted(es) && Mergeable(runs) && Elems(es) == Union(runs)
    ensures Merger.Merges(es, runs)
  {
    forall i, e | 0 <= i < |runs| && e in runs[i] ensures e in es {
      assert runs[i] in runs && e in Union(runs);
      assert e in Elems(es);
    }
    forall e | e in es ensures exists i :: 0 <= i < |runs| && e in runs[i] {
      assert e in Elems(es);
      var r :| r in runs && e in r;
      var i :| 0 <= i < |runs| && runs[i] == r;
    }
    forall i, j, a, b | 0 <= i < j < |runs| && a in runs[i] && b in runs[j] ensures a.key != b.key {
      assert NoSharedKey(Elems(runs[i]), Elems(runs[j]));
    }
  }

  /** A version below the writes it does not hold shows the history. */
  lemma StackedView(v: Version, h: seq<Op>, n: nat, n': nat, k: UserKey, q: nat)
    requires n <= n' <= |h| && q <= n' && StandsFor(v, h, n, q)
    ensures UniqueSeq(Writes(h, n, n') + Contents(v))
    ensures ValueOf(View(Writes(h, n, n') + Contents(v), k, q)) == Read(h, k, q)
  {
    hide Searchable, Contents, Writes, View;
    WritesUnique(h, 0, n');
    WritesSplit(h, 0, n, n');
    assert Writes(h, 0, n') == Writes(h, n, n') + Writes(h, 0, n);
    ViewOfStack(Writes(h, n, n'), Contents(v), k, q);
    ViewOfStack(Writes(h, n, n'), Writes(h, 0, n), k, q);
    ViewIsRead(h, n', k, q);
  }

  /** The view of everything a reader looks at is what the tier-by-tier search finds. */
  lemma ReaderEntriesView(s: State, r: Reader, k: UserKey)
    requires Shape(s) && MemTables(s) && ReaderFits(s, r)
    ensures UniqueSeq(ReaderEntries(s, r))
    ensures ValueOf(View(ReaderEntries(s, r), k, r.snapshot)) == Read(s.history, k, r.snapshot)
  {
    hide StandsFor, View, UniqueSeq, Writes, Contents, NumbersBelow;
    var h := s.history;
    var n0, n1, n2 := ReaderStored(s, r), s.starts[r.mem], EndOf(s, r.mem);
    assert n1 <= n2 <= |h|;
    assert r.hasImm ==> n0 <= n1 && EndOf(s, r.mem - 1) == n1;
    StackedView(r.version, h, n0, n2, k, r.snapshot);
    WritesSplit(h, n0, n1, n2);
    assert ReaderEntries(s, r) == Writes(h, n0, n2) + Contents(r.version);
  }

  lemma MemRunsApart(s: State, r: Reader)
    requires Shape(s) && MemTables(s) && ReaderFits(s, r)
    ensures NoSharedKey(s.mems[r.mem], Contents(r.version))
    ensures r.hasImm ==> NoSharedKey(s.mems[r.mem], s.mems[r.mem - 1])
                         && NoSharedKey(s.mems[r.mem - 1], Contents(r.version))
  {
    var h := s.history;
    var n0, n1, n2 := ReaderStored(s, r), s.starts[r.mem], EndOf(s, r.mem);
    assert n1 <= n2 <= |h|;
    WritesSplit(h, 0, n1, n2);
    if r.hasImm {
      assert EndOf(s, r.mem - 1) == n1;
      WritesSplit(h, n0, n1, n2);
      WritesSplit(h, 0, n0, n1);
    }
  }

  /** NewInternalIterator hands the merging iterator children that share no key, and all entries are in one of them. */
  lemma ChildrenMerge(s: State, r: Reader, runs: seq<seq<Entry>>)
    requires Shape(s) && MemTables(s) && ReaderFits(s, r) && ChildRuns(s, r, runs)
    ensures Mergeable(runs) && Union(runs) == ReaderEntries(s, r)
  {
    var mem, imm :|
      && Sorted(mem) && Elems(mem) == s.mems[r.mem]
      && Sorted(imm) && (r.hasImm ==> Elems(imm) == s.mems[r.mem - 1])
      && runs == [mem] + (if r.hasImm then [imm] else []) + VersionRuns(r.version);
    VersionRunsMerge(r.version);
    MemRunsApart(s, r);
    hide MemTables, ReaderFits, Sorted, ChildRuns, Contents, VersionRuns;
    UnionOne(mem);
    UnionOne(imm);
    assert Mergeable([mem]) && Mergeable([imm]);
    var tables := VersionRuns(r.version);
    if r.hasImm {
      JoinRuns([mem], [imm]);
      UnionPlus([mem], [imm]);
      JoinRuns([mem] + [imm], tables);
      UnionPlus([mem] + [imm], tables);
    } else {
      assert runs == [mem] + tables;
      JoinRuns([mem], tables);
      UnionPlus([mem], tables);
    }
  }

  /**
   In every run, an iterator opened at a live snapshot shows exactly the keys with a value in the
   acknowledged history, each with the last value written to it before the snapshot.
   */
  lemma RunIterates(states: seq<State>, steps: seq<Step>, i: nat, n: nat, runs: seq<seq<Entry>>, all: seq<Entry>,
                    k: UserKey, v: Slice)
    requires Run(states, steps) && i < |states| && (n in states[i].snapshots || n == states[i].lastSequence)
    requires |states[i].mems| > 0 && (states[i].hasImm ==> |states[i].mems| > 1)
             && |states[i].version.levels| == NUM_LEVELS
    requires ChildRuns(states[i], ReaderAt(states[i], n), runs)
    requires Sorted(all) && Elems(all) == Union(runs)
    ensures Merger.Merges(all, runs)
    ensures n <= states[i].lastSequence <= |states[i].history|
    ensures Read(Acknowledged(states[i]), k, n) == Some(v)
            <==> exists e :: e in DbIter.Rows(all, n, |all|) && e.key.ukey == k && e.val == v
  {
    RunSafe(states, steps, i);
    hide Run, ChildRuns, Safe, Read;
    Iterates(states[i], n, runs, all, k, v);
  }

  lemma Iterates(s: State, n: nat, runs: seq<seq<Entry>>, all: seq<Entry>, k: UserKey, v: Slice)
    requires Safe(s) && (n in s.snapshots || n == s.lastSequence)
    requires |s.mems| > 0 && (s.hasImm ==> |s.mems| > 1) && |s.version.levels| == NUM_LEVELS
    requires ChildRuns(s, ReaderAt(s, n), runs)
    requires Sorted(all) && Elems(all) == Union(runs)
    ensures Merger.Merges(all, runs)
    ensures n <= s.lastSequence <= |s.history|
    ensures Read(Acknowledged(s), k, n) == Some(v)
            <==> exists e :: e in DbIter.Rows(all, n, |all|) && e.key.ukey == k && e.val == v
  {
    hide MemTables, Readers, JobFits, FlushFits, CommitFits, Marks, Tables, Disk, StandsFor, Read, ChildRuns,
        UniqueNumbers, NumbersBelow;
    NewReaderFits(s, n);
    var r := ReaderAt(s, n);
    ChildrenMerge(s, r, runs);
    ReaderEntriesView(s, r, k);
    assert Acknowledged(s)[..n] == s.history[..n];
    ReadOfPrefix(Acknowledged(s), s.history, k, n);
    hide *;
    SortedHasNoRepeats(all, runs);
    RowsOfKey(all, n, k, v);
  }

  lemma RowsOfKey(all: seq<Entry>, n: nat, k: UserKey, v: Slice)
    requires Sorted(all) && UniqueSeq(Elems(all))
    ensures ValueOf(View(Elems(all), k, n)) == Some(v)
            <==> exists e :: e in DbIter.Rows(all, n, |all|) && e.key.ukey == k && e.val == v
  {
    var view := View(Elems(all), k, n);
    if view.Some? {
      DbIter.RowsAreViews(all, n, view.value);
    }
    forall e | e in DbIter.Rows(all, n, |all|) && e.key.ukey == k ensures view == Some(e) {
      DbIter.RowsAreViews(all, n, e);
    }
  }
}
