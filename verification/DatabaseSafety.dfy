/**
 Every run of the database, crashes included, serves the history of its writes.
 */
module DatabaseSafety {
  import opened DbFormat
  import opened Views
  import opened VersionModel
  import opened Picking
  import opened Install
  import opened Flush
  import opened PickSafety
  import opened Database

  // ---------------------------------------------------------------------------
  // The invariant

  /** How far memtable `i` reaches into the history. */
  function EndOf(s: State, i: nat): (n: nat)
  {
    if i + 1 < |s.starts| then s.starts[i + 1] else s.inserted
  }

  ghost predicate Shape(s: State)
  {
    && |s.mems| == |s.starts| > 0
    && (s.hasImm ==> |s.mems| > 1)
    && (forall i, j :: 0 <= i < j < |s.starts| ==> s.starts[i] <= s.starts[j])
    && s.starts[|s.starts| - 1] <= s.lastSequence <= s.inserted <= |s.history| < MAX_SEQUENCE
    && s.stored == s.starts[if s.hasImm then |s.starts| - 2 else |s.starts| - 1]
  }

  /** Each memtable holds one stretch of the history. */
  ghost predicate MemTables(s: State)
    requires Shape(s)
  {
    forall i :: 0 <= i < |s.mems| ==> s.mems[i] == Writes(s.history, s.starts[i], EndOf(s, i))
  }

  /** A version that stands for the first `n` operations, for readers from `from` on. */
  ghost predicate StandsFor(v: Version, h: seq<Op>, n: nat, from: nat)
    requires n <= |h|
  {
    && Searchable(v)
    && Contents(v) <= Writes(h, 0, n)
    && forall k, q :: from <= q ==> View(Contents(v), k, q) == View(Writes(h, 0, n), k, q)
  }

  ghost predicate CurrentVersion(s: State)
    requires Shape(s)
  {
    && StandsFor(s.version, s.history, s.stored, s.horizon)
    && UniqueNumbers(s.version) && NumbersBelow(s.version, s.nextFile)
  }

  ghost predicate Snapshots(s: State)
  {
    && s.horizon <= s.lastSequence
    && forall n :: n in s.snapshots ==> s.horizon <= n <= s.lastSequence
  }

  ghost predicate JobFits(s: State)
  {
    s.job.Some? ==>
      var j := s.job.value;
      && |s.version.levels| == NUM_LEVELS
      && Ready(j.inputVersion, s.version, j.c) && Gapless(j.c.in0 + j.c.in1)
      && j.snapshot <= s.lastSequence && (forall n :: n in s.snapshots ==> j.snapshot <= n)
      && NumbersBelow(j.inputVersion, s.nextFile)
      && (forall f :: f in j.outputs ==> ValidFile(f))
      && (forall n :: n in OutputNumbers(j) ==> n < s.nextFile)
      && FreshNumbers(s.version, j.outputs)
  }

  /** The flushed table's number is newer than all tables of the version, and no output of the compaction has it. */
  ghost predicate FlushNumber(s: State, n: nat)
  {
    NumbersBelow(s.version, n) && n < s.nextFile && (s.job.Some? ==> n !in OutputNumbers(s.job.value))
  }

  ghost predicate FlushFits(s: State)
  {
    match s.flush
    case Idle => true
    case Building(n) => s.hasImm && FlushNumber(s, n)
    case Built(table) =>
      && s.hasImm && (table.None? <==> Imm(s) == {})
      && (table.Some? ==> ValidFile(table.value) && Elems(table.value.entries) == Imm(s)
                          && FlushNumber(s, table.value.number))
  }

  /** A call of LogAndApply still fits the version that it started from. */
  ghost predicate CommitFits(s: State)
    requires Shape(s)
  {
    s.commit.Some? ==>
      var c, m := s.commit.value.change, s.commit.value.manifest;
      && Allowed(s, c, m.version)
      && NumbersBelow(m.version, m.nextFile) && m.nextFile <= s.nextFile
      && Covered(s, c) <= m.lastSequence <= s.lastSequence
  }

  /** pending_outputs_ holds the outputs of the compaction and the table a flush is writing, and nothing else. */
  ghost predicate Marks(s: State)
  {
    s.pending == (if s.job.Some? then OutputNumbers(s.job.value) else {})
                 + (if s.flush.Building? then {s.flush.number} else {})
  }

  /** DeleteObsoleteFiles never runs between a flush erasing its mark and its version being installed. */
  predicate Phases(s: State)
  {
    s.cleaning ==> s.flush.Idle? && s.commit.None?
  }

  /** The part of the history that the version of `r` stands for. */
  function ReaderStored(s: State, r: Reader): (n: nat)
    requires r.mem < |s.starts| && (r.hasImm ==> r.mem > 0)
  {
    if r.hasImm then s.starts[r.mem - 1] else s.starts[r.mem]
  }

  ghost predicate ReaderFits(s: State, r: Reader)
    requires Shape(s)
  {
    && r.mem < |s.mems| && (r.hasImm ==> r.mem > 0)
    && r.snapshot <= EndOf(s, r.mem) && r.snapshot <= s.lastSequence
    && StandsFor(r.version, s.history, ReaderStored(s, r), r.snapshot)
    && NumbersBelow(r.version, s.nextFile)
  }

  ghost predicate Readers(s: State)
    requires Shape(s)
  {
    forall r :: r in s.readers ==> ReaderFits(s, r)
  }

  /** What writers and readers work with. */
  ghost predicate Foreground(s: State)
  {
    Shape(s) && MemTables(s) && Readers(s)
  }

  /** What the background thread works with. */
  ghost predicate Background(s: State)
    requires Shape(s)
  {
    CurrentVersion(s) && Snapshots(s) && JobFits(s) && FlushFits(s) && CommitFits(s) && Marks(s) && Phases(s)
  }

  ghost predicate Serving(s: State)
  {
    Foreground(s) && Background(s)
  }

  // ---------------------------------------------------------------------------
  // What the invariant gives to a reader

  /** The tiers a reader searches, newest first, stand for the history up to its memtable's end. */
  lemma ReadIsView(s: State, r: Reader, k: UserKey)
    requires Shape(s) && MemTables(s) && ReaderFits(s, r)
    ensures ReadThrough(s, r, k) == View(Writes(s.history, 0, EndOf(s, r.mem)), k, r.snapshot)
  {
    hide WellFormed, LevelZeroLayered, View, NoneVisible, SearchFrom, Contents;
    var h := s.history;
    var n0, n1, n2 := ReaderStored(s, r), s.starts[r.mem], EndOf(s, r.mem);
    assert n1 <= n2 <= |h|;
    assert r.hasImm ==> n0 <= n1 && EndOf(s, r.mem - 1) == n1;
    WritesUnique(h, 0, n2);
    WritesSplit(h, 0, n1, n2);
    ViewOfStack(Writes(h, n1, n2), Writes(h, 0, n1), k, r.snapshot);
    WritesUnique(h, 0, n1);
    WritesSplit(h, 0, n0, n1);
    ViewOfStack(Writes(h, n0, n1), Writes(h, 0, n0), k, r.snapshot);
    assert Writes(h, n1, n2) + Writes(h, 0, n1) == Writes(h, 0, n2);
    assert Writes(h, n0, n1) + Writes(h, 0, n0) == Writes(h, 0, n1);
    SearchIsView(r.version, 0, k, r.snapshot);
  }

  /** A reader gets the last operation on the key that its snapshot includes. */
  lemma ReaderServed(s: State, r: Reader, k: UserKey)
    requires Shape(s) && MemTables(s) && ReaderFits(s, r)
    ensures ValueOf(ReadThrough(s, r, k)) == Read(s.history, k, r.snapshot)
  {
    ReadIsView(s, r, k);
    ViewIsRead(s.history, EndOf(s, r.mem), k, r.snapshot);
  }

  // ---------------------------------------------------------------------------
  // Writing

  lemma HistoryGrows(v: Version, h: seq<Op>, more: seq<Op>, n: nat, from: nat)
    requires n <= |h| && StandsFor(v, h, n, from)
    ensures StandsFor(v, h + more, n, from)
  {
    WritesExtend(h, more, 0, n);
  }

  lemma LogGroupForeground(s: State, ops: seq<Op>)
    requires Foreground(s) && Enabled(s, LogGroup(ops))
    ensures Foreground(Next(s, LogGroup(ops)))
  {
    hide StandsFor, Logged, MemTables, Readers, ReaderFits;
    var s' := Next(s, LogGroup(ops));
    assert Shape(s');
    LongerHistoryMemTables(s, s', ops);
    LongerHistoryReaders(s, s', ops);
  }

  lemma LongerHistoryMemTables(s: State, s': State, ops: seq<Op>)
    requires Shape(s) && Shape(s') && MemTables(s)
    requires s'.history == s.history + ops && s'.mems == s.mems && s'.starts == s.starts && s'.inserted == s.inserted
    ensures MemTables(s')
  {
    hide Writes;
    forall i | 0 <= i < |s.mems| ensures s'.mems[i] == Writes(s'.history, s'.starts[i], EndOf(s', i)) {
      assert EndOf(s', i) == EndOf(s, i);
      WritesExtend(s.history, ops, s.starts[i], EndOf(s, i));
    }
  }

  lemma LongerHistoryReaders(s: State, s': State, ops: seq<Op>)
    requires Shape(s) && Shape(s') && Readers(s) && s'.readers == s.readers
    requires s'.history == s.history + ops && s'.mems == s.mems && s'.starts == s.starts && s'.inserted == s.inserted
    requires s'.lastSequence == s.lastSequence && s'.nextFile == s.nextFile
    ensures Readers(s')
  {
    hide StandsFor, NumbersBelow;
    forall r | r in s'.readers ensures ReaderFits(s', r) {
      assert ReaderFits(s, r);
      HistoryGrows(r.version, s.history, ops, ReaderStored(s, r), r.snapshot);
    }
  }

  /** A change stays allowed as long as the background thread's part of the state stays. */
  lemma AllowedStays(s: State, s': State, change: Change, v': Version)
    requires Allowed(s, change, v')
    requires s'.version == s.version && s'.job == s.job && s'.flush == s.flush && (s.hasImm ==> s'.hasImm)
    ensures Allowed(s', change, v') && (change.FlushInto? ==> s.hasImm)
  {
    hide WellChosen, SafeBoundary, Edited, FreeUpTo, Rewritten, Disjoint;
  }

  ghost predicate SameBackground(s: State, s': State)
  {
    && s'.job == s.job && s'.flush == s.flush && s'.commit == s.commit && s'.cleaning == s.cleaning
        && s'.pending == s.pending
  }

  lemma CommitStays(s: State, s': State)
    requires Shape(s) && Shape(s') && CommitFits(s) && SameBackground(s, s')
    requires s'.version == s.version && s'.stored == s.stored && (s.hasImm ==> s'.hasImm && s'.starts == s.starts)
    requires s'.lastSequence >= s.lastSequence && s'.nextFile >= s.nextFile
    ensures CommitFits(s')
  {
    hide Allowed, NumbersBelow;
    if s.commit.Some? {
      AllowedStays(s, s', s.commit.value.change, s.commit.value.manifest.version);
    }
  }

  lemma JobStays(s: State, s': State)
    requires JobFits(s) && s'.job == s.job && s'.version == s.version
    requires s'.lastSequence >= s.lastSequence && s'.nextFile >= s.nextFile
    requires forall n :: n in s'.snapshots ==> n in s.snapshots || n == s.lastSequence
    ensures JobFits(s')
  {
    hide Ready, FreshNumbers, Gapless, OutputNumbers;
  }

  lemma FlushStays(s: State, s': State)
    requires FlushFits(s) && s'.job == s.job && s'.flush == s.flush && s'.version == s.version
             && s'.nextFile >= s.nextFile
    requires s.hasImm ==> s'.hasImm && Imm(s') == Imm(s)
    ensures FlushFits(s')
  {
    hide Imm, OutputNumbers, NumbersBelow;
  }

  /** The background thread's part of the state has not changed. */
  lemma BackgroundStays(s: State, s': State)
    requires Shape(s) && Background(s) && Shape(s') && SameBackground(s, s') && CurrentVersion(s') && Snapshots(s')
    requires s'.version == s.version && s'.stored == s.stored
    requires s'.lastSequence >= s.lastSequence && s'.nextFile >= s.nextFile
    requires forall n :: n in s'.snapshots ==> n in s.snapshots || n == s.lastSequence
    requires s.hasImm ==> s'.hasImm && s'.starts == s.starts && Imm(s') == Imm(s)
    ensures Background(s')
  {
    hide CurrentVersion, Snapshots, JobFits, FlushFits, CommitFits, OutputNumbers, Imm;
    JobStays(s, s');
    FlushStays(s, s');
    CommitStays(s, s');
  }

  lemma LogGroupBackground(s: State, ops: seq<Op>)
    requires Shape(s) && Background(s) && Enabled(s, LogGroup(ops))
    requires Shape(Next(s, LogGroup(ops)))
    ensures Background(Next(s, LogGroup(ops)))
  {
    hide StandsFor, UniqueNumbers, JobFits, FlushFits, CommitFits, Logged;
    HistoryGrows(s.version, s.history, ops, s.stored, s.horizon);
    BackgroundStays(s, Next(s, LogGroup(ops)));
  }

  lemma OneMoreWrite(h: seq<Op>, lo: nat, n: nat)
    requires lo <= n < |h|
    ensures Writes(h, lo, n + 1) == Writes(h, lo, n) + {EntryAt(h, n)}
  {
    WritesSplit(h, lo, n, n + 1);
    assert Writes(h, n, n + 1) == {EntryAt(h, n)};
  }

  lemma InsertOneForeground(s: State)
    requires Foreground(s) && Enabled(s, InsertOne)
    ensures Foreground(Next(s, InsertOne))
  {
    hide StandsFor;
    var s' := Next(s, InsertOne);
    var last := |s.mems| - 1;
    assert Shape(s');
    OneMoreWrite(s.history, s.starts[last], s.inserted);
    forall i | 0 <= i < |s.mems| ensures s'.mems[i] == Writes(s'.history, s'.starts[i], EndOf(s', i)) {
      assert i < last ==> EndOf(s', i) == EndOf(s, i);
    }
    forall r | r in s'.readers ensures ReaderFits(s', r) {
      assert ReaderFits(s, r);
    }
  }

  lemma SwitchForeground(s: State)
    requires Foreground(s) && Enabled(s, SwitchMemTable)
    ensures Foreground(Next(s, SwitchMemTable))
  {
    hide MemTables, Readers, ReaderFits;
    var s' := Next(s, SwitchMemTable);
    assert Shape(s');
    SwitchMemTables(s, s');
    SwitchReaders(s, s');
  }

  ghost predicate Switched(s: State, s': State)
  {
    && s'.history == s.history && s'.mems == s.mems + [{}] && s'.starts == s.starts + [|s.history|]
    && s.inserted == |s.history| && s'.inserted == s.inserted && s'.readers == s.readers
    && s'.lastSequence == s.lastSequence && s'.nextFile >= s.nextFile
  }

  lemma SwitchMemTables(s: State, s': State)
    requires Shape(s) && Shape(s') && MemTables(s) && Switched(s, s')
    ensures MemTables(s')
  {
    forall i | 0 <= i < |s'.mems| ensures s'.mems[i] == Writes(s'.history, s'.starts[i], EndOf(s', i)) {
      if i < |s.mems| {
        assert EndOf(s', i) == EndOf(s, i);
      }
    }
  }

  lemma SwitchReaders(s: State, s': State)
    requires Shape(s) && Shape(s') && Readers(s) && Switched(s, s')
    ensures Readers(s')
  {
    hide StandsFor;
    forall r | r in s'.readers ensures ReaderFits(s', r) {
      assert ReaderFits(s, r);
      assert EndOf(s', r.mem) == EndOf(s, r.mem);
    }
  }

  lemma VersionStays(s: State, s': State)
    requires Shape(s) && Shape(s') && CurrentVersion(s)
    requires s'.history == s.history && s'.version == s.version && s'.stored == s.stored && s'.horizon == s.horizon
    requires s'.nextFile >= s.nextFile
    ensures CurrentVersion(s')
  {
    hide StandsFor, UniqueNumbers;
  }

  /** Writers leave the version, the background thread and the immutable memtable alone. */
  lemma WriterLeavesBackground(s: State, s': State)
    requires Shape(s) && Background(s) && Shape(s') && SameBackground(s, s')
    requires s'.history == s.history && s'.version == s.version && s'.stored == s.stored && s'.horizon == s.horizon
    requires s'.snapshots == s.snapshots && s'.lastSequence >= s.lastSequence && s'.nextFile >= s.nextFile
    requires s.hasImm ==> s'.hasImm && s'.starts == s.starts && Imm(s') == Imm(s)
    ensures Background(s')
  {
    hide StandsFor, UniqueNumbers, NumbersBelow, JobFits, FlushFits, CommitFits;
    assert CurrentVersion(s') by { VersionStays(s, s'); }
    BackgroundStays(s, s');
  }

  // ---------------------------------------------------------------------------
  // Readers

  lemma ReaderStays(s: State, s': State, r: Reader)
    requires Shape(s) && Shape(s') && ReaderFits(s, r)
    requires s'.history == s.history && s'.mems == s.mems && s'.starts == s.starts && s'.inserted == s.inserted
    requires s'.lastSequence >= s.lastSequence && s'.nextFile >= s.nextFile
    ensures ReaderFits(s', r)
  {
    hide StandsFor;
  }

  /** Readers that are already open are not disturbed by what the others do. */
  lemma ReadersStay(s: State, s': State)
    requires Foreground(s) && Shape(s')
    requires s'.history == s.history && s'.mems == s.mems && s'.starts == s.starts && s'.inserted == s.inserted
    requires s'.lastSequence >= s.lastSequence && s'.nextFile >= s.nextFile
    requires forall r :: r in s'.readers && r !in s.readers ==> ReaderFits(s, r)
    ensures Foreground(s')
  {
    hide StandsFor, Writes, NumbersBelow;
    forall i | 0 <= i < |s'.mems| ensures s'.mems[i] == Writes(s'.history, s'.starts[i], EndOf(s', i)) {
      assert EndOf(s', i) == EndOf(s, i);
    }
    forall r | r in s'.readers ensures ReaderFits(s', r) {
      assert ReaderFits(s, r);
      ReaderStays(s, s', r);
    }
  }

  lemma StandsForLater(v: Version, h: seq<Op>, n: nat, from: nat, from': nat)
    requires n <= |h| && StandsFor(v, h, n, from) && from <= from'
    ensures StandsFor(v, h, n, from')
  {
  }

  lemma NewReaderFits(s: State, n: nat)
    requires Shape(s) && CurrentVersion(s) && Snapshots(s) && Enabled(s, OpenReader(n))
    ensures ReaderFits(s, Reader(n, |s.mems| - 1, s.hasImm, s.version))
  {
    StandsForLater(s.version, s.history, s.stored, s.horizon, n);
  }

  lemma SnapshotsLeaveBackground(s: State, s': State)
    requires Shape(s) && Background(s) && Shape(s')
    requires s' == s.(snapshots := s'.snapshots, readers := s'.readers)
    requires forall n :: n in s'.snapshots ==> n in s.snapshots || n == s.lastSequence
    ensures Background(s')
  {
    hide StandsFor, UniqueNumbers, NumbersBelow, JobFits, FlushFits, CommitFits;
    VersionStays(s, s');
    BackgroundStays(s, s');
  }

  // ---------------------------------------------------------------------------
  // Flushing

  /** A version and a newer stretch of the history together stand for the longer history. */
  lemma StandsForMore(v: Version, v': Version, h: seq<Op>, n: nat, n': nat, from: nat)
    requires n <= n' <= |h| && StandsFor(v, h, n, from)
    requires Searchable(v') && Contents(v') == Contents(v) + Writes(h, n, n')
    ensures StandsFor(v', h, n', from)
  {
    WritesSplit(h, 0, n, n');
    WritesUnique(h, 0, n');
    forall k, q | from <= q ensures View(Contents(v'), k, q) == View(Writes(h, 0, n'), k, q) {
      assert Contents(v') == Writes(h, n, n') + Contents(v);
      assert Writes(h, 0, n') == Writes(h, n, n') + Writes(h, 0, n);
      ViewOfStack(Writes(h, n, n'), Contents(v), k, q);
      ViewOfStack(Writes(h, n, n'), Writes(h, 0, n), k, q);
    }
  }

  lemma ImmIsWrites(s: State)
    requires Shape(s) && MemTables(s) && s.hasImm
    ensures Imm(s) == Writes(s.history, s.stored, s.starts[|s.starts| - 1])
  {
    var last := |s.mems| - 1;
    assert s.mems[last - 1] == Writes(s.history, s.starts[last - 1], EndOf(s, last - 1));
  }

  lemma FlushedIsPlaceable(v: Version, f: File, level: nat, h: seq<Op>, n: nat, n': nat)
    requires n <= n' <= |h| && Contents(v) <= Writes(h, 0, n) && Elems(f.entries) == Writes(h, n, n')
    requires ValidFile(f) && NumbersBelow(v, f.number)
    requires level <= MAX_MEM_COMPACT_LEVEL && |v.levels| == NUM_LEVELS
    requires level > 0 ==> FreeUpTo(v, level, f.smallest.ukey, f.largest.ukey)
    ensures Placeable(v, level, f)
  {
    WritesSplit(h, 0, n, n');
    WritesUnique(h, n, n');
  }

  lemma NonEmptyStretch(h: seq<Op>, n: nat, n': nat)
    requires n < n' <= |h|
    ensures Writes(h, n, n') != {}
  {
    assert EntryAt(h, n) in Writes(h, n, n');
  }

  /** The version after a flush stands for the longer history. */
  lemma FlushCurrent(s: State, level: nat, v': Version)
    requires Shape(s) && MemTables(s) && CurrentVersion(s) && FlushFits(s) && FlushChange(s, level, v')
    ensures StandsFor(v', s.history, s.starts[|s.starts| - 1], s.horizon)
    ensures UniqueNumbers(v') && NumbersBelow(v', s.nextFile) && WellFormed(v')
  {
    hide UniqueNumbers, Layered, LevelZeroLayered, FreeUpTo, UniqueSeq, View;
    var n' := s.starts[|s.starts| - 1];
    ImmIsWrites(s);
    if s.stored < n' {
      NonEmptyStretch(s.history, s.stored, n');
    }
    if Imm(s) != {} {
      var f := s.flush.table.value;
      FlushedIsPlaceable(s.version, f, level, s.history, s.stored, n');
      FlushSearchable(s.version, level, f, v');
      FlushNumbers(s.version, level, f, v');
      StandsForMore(s.version, v', s.history, s.stored, n', s.horizon);
    }
  }

  lemma FlushKeepsFresh(v: Version, level: nat, f: File, v': Version, outs: seq<File>)
    requires |v.levels| == NUM_LEVELS && Edited(v, FlushEdit(level, f), v') && FreshNumbers(v, outs)
    requires forall g :: g in outs ==> g.number != f.number
    ensures FreshNumbers(v', outs)
  {
    FlushLevels(v, level, f, v');
  }

  /** A running compaction survives the flush. */
  lemma FlushKeepsJob(s: State, level: nat, v': Version)
    requires Shape(s) && MemTables(s) && CurrentVersion(s) && FlushFits(s) && JobFits(s)
    requires FlushChange(s, level, v') && WellFormed(v') && s.job.Some?
    ensures |v'.levels| == NUM_LEVELS
    ensures Ready(s.job.value.inputVersion, v', s.job.value.c) && FreshNumbers(v', s.job.value.outputs)
  {
    if Imm(s) != {} {
      var f, j := s.flush.table.value, s.job.value;
      ImmIsWrites(s);
      FlushedIsPlaceable(s.version, f, level, s.history, s.stored, s.starts[|s.starts| - 1]);
      FlushKeepsReady(j.inputVersion, s.version, j.c, level, f, v');
      FlushKeepsFresh(s.version, level, f, v', j.outputs);
    }
  }

  lemma StartFlushBackground(s: State)
    requires Shape(s) && Background(s) && Enabled(s, StartFlush)
    ensures Shape(Next(s, StartFlush)) && Background(Next(s, StartFlush))
  {
    hide StandsFor, UniqueNumbers, Ready, FreshNumbers, Gapless, OutputNumbers;
  }

  lemma FinishFlushBackground(s: State, table: Option<File>)
    requires Shape(s) && Background(s) && Enabled(s, FinishFlush(table))
    ensures Shape(Next(s, FinishFlush(table))) && Background(Next(s, FinishFlush(table)))
  {
    hide StandsFor, UniqueNumbers, Ready, FreshNumbers, Gapless, OutputNumbers;
    var s' := Next(s, FinishFlush(table));
    assert CommitFits(s') by {
      hide *;
      assert CommitFits(s);
    }
  }

  lemma AbandonFlushBackground(s: State)
    requires Shape(s) && Background(s) && Enabled(s, AbandonFlush)
    ensures Shape(Next(s, AbandonFlush)) && Background(Next(s, AbandonFlush))
  {
    hide StandsFor, UniqueNumbers, Ready, FreshNumbers, Gapless, OutputNumbers;
  }

  // ---------------------------------------------------------------------------
  // Compacting

  lemma StandingStart(v: Version, h: seq<Op>, n: nat, from: nat, c: Inputs)
    requires n <= |h| && StandsFor(v, h, n, from) && WellChosen(v, c) && SafeBoundary(v, c)
    ensures Ready(v, v, c) && Gapless(c.in0 + c.in1) && FreshNumbers(v, [])
  {
    SafeStart(v, c);
  }

  lemma StartCompactionBackground(s: State, c: Inputs, n: nat)
    requires Shape(s) && Background(s) && Enabled(s, StartCompaction(c, n))
    ensures Shape(Next(s, StartCompaction(c, n))) && Background(Next(s, StartCompaction(c, n)))
  {
    hide StandsFor, UniqueNumbers, Ready, FreshNumbers, Gapless, WellChosen, SafeBoundary;
    StandingStart(s.version, s.history, s.stored, s.horizon, c);
    assert s.snapshots == multiset{} ==> forall m :: m !in s.snapshots;
  }

  lemma OpenOutputBackground(s: State)
    requires Shape(s) && Background(s) && Enabled(s, OpenOutput)
    ensures Shape(Next(s, OpenOutput)) && Background(Next(s, OpenOutput))
  {
    hide StandsFor, UniqueNumbers, Ready, FreshNumbers, Gapless;
  }

  /** The number reserved for an output is that of no table of the version. */
  lemma FinishOutputBackground(s: State, f: File)
    requires Shape(s) && Background(s) && Enabled(s, FinishOutput(f)) && !UsesNumber(s.version, f.number)
    requires forall g :: g in s.job.value.outputs ==> g.number != f.number
    ensures Shape(Next(s, FinishOutput(f))) && Background(Next(s, FinishOutput(f)))
  {
    hide StandsFor, UniqueNumbers, Ready, Gapless;
    OneMoreOutput(s.version, s.job.value.outputs, f);
    hide FreshNumbers, UsesNumber;
    var outs := s.job.value.outputs;
    assert forall g :: g in outs + [f] <==> g in outs || g == f;
    assert OutputNumbers(Next(s, FinishOutput(f)).job.value) == OutputNumbers(s.job.value);
  }

  lemma OneMoreOutput(v: Version, outs: seq<File>, f: File)
    requires FreshNumbers(v, outs) && !UsesNumber(v, f.number)
    requires forall g :: g in outs ==> g.number != f.number
    ensures FreshNumbers(v, outs + [f])
  {
    assert forall i :: 0 <= i < |outs| ==> outs[i] in outs && (outs + [f])[i] == outs[i];
  }

  lemma AbandonBackground(s: State)
    requires Shape(s) && Background(s) && Enabled(s, AbandonCompaction)
    ensures Shape(Next(s, AbandonCompaction)) && Background(Next(s, AbandonCompaction))
  {
    hide StandsFor, UniqueNumbers, Ready, FreshNumbers, Gapless, OutputNumbers;
  }

  /** The version after a compaction stands for the same history, for later readers. */
  lemma CompactedStands(iv: Version, v: Version, c: Inputs, m: seq<Entry>, snapshot: nat, outs: seq<File>, v': Version,
                        h: seq<Op>, n: nat, from: nat)
    requires n <= |h| && StandsFor(v, h, n, from) && UniqueNumbers(v) && Ready(iv, v, c)
    requires Rewritten(iv, c, m, snapshot, outs) && Disjoint(outs) && (forall f :: f in outs ==> ValidFile(f))
    requires Edited(v, CompactionEdit(c, outs), v') && snapshot < MAX_SEQUENCE
    ensures StandsFor(v', h, n, Later(snapshot, from))
  {
    OutputsAreInputs(iv, c, m, snapshot, outs);
    InstallSearchable(iv, v, c, outs, v');
    forall k, q | Later(snapshot, from) <= q ensures View(Contents(v'), k, q) == View(Writes(h, 0, n), k, q) {
      InstallView(iv, v, c, m, snapshot, outs, v', k, q);
    }
  }

  lemma InstallNumbers(v: Version, c: Inputs, outs: seq<File>, v': Version, h: seq<Op>, n: nat, from: nat,
                       iv: Version, next: nat)
    requires n <= |h| && StandsFor(v, h, n, from) && Ready(iv, v, c)
    requires UniqueNumbers(v) && NumbersBelow(v, next) && Edited(v, CompactionEdit(c, outs), v')
    requires FreshNumbers(v, outs) && forall f :: f in outs ==> f.number < next
    ensures UniqueNumbers(v') && NumbersBelow(v', next)
  {
    EditedNumbers(v, c, outs, v', next);
  }

  lemma OutputsBelow(s: State)
    requires JobFits(s) && s.job.Some?
    ensures forall f :: f in s.job.value.outputs ==> f.number < s.nextFile
  {
    forall f | f in s.job.value.outputs ensures f.number < s.nextFile {
      assert f.number in OutputNumbers(s.job.value);
    }
  }

  lemma InstallCurrent(s: State, m: seq<Entry>, v': Version)
    requires Shape(s) && CurrentVersion(s) && JobFits(s) && CompactChange(s, m, v')
    ensures StandsFor(v', s.history, s.stored, Later(s.job.value.snapshot, s.horizon))
    ensures UniqueNumbers(v') && NumbersBelow(v', s.nextFile)
  {
    OutputsBelow(s);
    hide UniqueNumbers, NumbersBelow, Gapless, Ready, Rewritten, Edited, Disjoint, StandsFor, FreshNumbers, ValidFile,
        OutputNumbers;
    var j := s.job.value;
    CompactedStands(j.inputVersion, s.version, j.c, m, j.snapshot, j.outputs, v', s.history, s.stored, s.horizon);
    InstallNumbers(s.version, j.c, j.outputs, v', s.history, s.stored, s.horizon, j.inputVersion, s.nextFile);
  }

  lemma MoveCurrent(s: State, c: Inputs, v': Version)
    requires Shape(s) && CurrentVersion(s) && MoveChange(s, c, v')
    ensures StandsFor(v', s.history, s.stored, s.horizon)
    ensures UniqueNumbers(v') && NumbersBelow(v', s.nextFile)
  {
    SafeStart(s.version, c);
    TrivialMove(s.version, s.version, c, v');
    MoveNumbers(s, c, v');
  }

  lemma MoveNumbers(s: State, c: Inputs, v': Version)
    requires Shape(s) && CurrentVersion(s) && MoveChange(s, c, v')
    ensures UniqueNumbers(v') && NumbersBelow(v', s.nextFile)
  {
    assert c.in0[0] in c.in0 && c.in0[0] in s.version.levels[c.level];
    EditedNumbers(s.version, c, c.in0, v', s.nextFile);
  }

  // ---------------------------------------------------------------------------
  // New versions

  /** The snapshots that the version after a change still serves. */
  function HorizonAfter(s: State, change: Change): (n: nat)
  {
    if change.Compact? && s.job.Some? then Later(s.job.value.snapshot, s.horizon) else s.horizon
  }

  /** Whatever the background thread may install stands for the history. */
  lemma ChangeStands(s: State, change: Change, v': Version)
    requires Shape(s) && MemTables(s) && CurrentVersion(s) && JobFits(s) && FlushFits(s) && Allowed(s, change, v')
    ensures StandsFor(v', s.history, Covered(s, change), HorizonAfter(s, change))
    ensures UniqueNumbers(v') && NumbersBelow(v', s.nextFile)
  {
    hide MemTables, CurrentVersion, JobFits, FlushFits, FlushChange, MoveChange, StandsFor, UniqueNumbers,
        NumbersBelow, WellFormed,
         Rewritten, Disjoint, Edited;
    match change
    case FlushInto(level) => FlushCurrent(s, level, v');
    case Compact(m) => InstallCurrent(s, m, v');
    case Move(c) => MoveCurrent(s, c, v');
  }

  lemma StageBackground(s: State, change: Change, v': Version)
    requires Shape(s) && MemTables(s) && Background(s) && Enabled(s, StageVersion(change, v'))
    ensures Shape(Next(s, StageVersion(change, v'))) && Background(Next(s, StageVersion(change, v')))
  {
    hide MemTables, CurrentVersion, Snapshots, JobFits, FlushFits, OutputNumbers, Allowed, NumbersBelow;
    var s' := Next(s, StageVersion(change, v'));
    ChangeStands(s, change, v');
    AllowedStays(s, s', change, v');
    VersionStays(s, s');
    JobStays(s, s');
    FlushStays(s, s');
    assert Snapshots(s') by { SnapshotsStay(s, s'); }
  }

  lemma SnapshotsStay(s: State, s': State)
    requires Snapshots(s) && s'.horizon == s.horizon && s'.lastSequence == s.lastSequence && s'.snapshots == s.snapshots
    ensures Snapshots(s')
  {
  }

  lemma WriteDescriptorBackground(s: State)
    requires Shape(s) && Background(s) && Enabled(s, WriteDescriptor)
    ensures Shape(Next(s, WriteDescriptor)) && Background(Next(s, WriteDescriptor))
  {
    hide CurrentVersion, Snapshots, JobFits, FlushFits, OutputNumbers, Allowed, NumbersBelow;
    var s' := Next(s, WriteDescriptor);
    AllowedStays(s, s', s.commit.value.change, s.commit.value.manifest.version);
    VersionStays(s, s');
    JobStays(s, s');
    FlushStays(s, s');
    SnapshotsStay(s, s');
  }

  lemma InstallFlush(s: State, level: nat)
    requires Shape(s) && MemTables(s) && Background(s) && Enabled(s, InstallVersion)
             && s.commit.value.change == FlushInto(level)
    ensures Shape(Next(s, InstallVersion)) && Background(Next(s, InstallVersion))
  {
    hide MemTables, StandsFor, UniqueNumbers, Ready, FreshNumbers, Gapless, OutputNumbers, NumbersBelow, FreeUpTo,
        Edited, WellFormed;
    var v' := s.commit.value.manifest.version;
    FlushCurrent(s, level, v');
    if s.job.Some? {
      FlushKeepsJob(s, level, v');
    }
  }

  lemma InstallCompact(s: State, m: seq<Entry>)
    requires Shape(s) && Background(s) && Enabled(s, InstallVersion) && s.commit.value.change == Compact(m)
    ensures Shape(Next(s, InstallVersion)) && Background(Next(s, InstallVersion))
  {
    hide StandsFor, UniqueNumbers, Ready, FreshNumbers, Gapless, OutputNumbers, NumbersBelow, Rewritten, Disjoint,
        Edited;
    InstallCurrent(s, m, s.commit.value.manifest.version);
  }

  lemma InstallMove(s: State, c: Inputs)
    requires Shape(s) && Background(s) && Enabled(s, InstallVersion) && s.commit.value.change == Move(c)
    ensures Shape(Next(s, InstallVersion)) && Background(Next(s, InstallVersion))
  {
    hide StandsFor, UniqueNumbers, NumbersBelow, WellChosen, SafeBoundary, Edited;
    MoveCurrent(s, c, s.commit.value.manifest.version);
  }

  /** Installing a version: what the background thread leaves behind. */
  lemma InstallBackground(s: State)
    requires Shape(s) && MemTables(s) && Background(s) && Enabled(s, InstallVersion)
    ensures Shape(Next(s, InstallVersion)) && Background(Next(s, InstallVersion))
  {
    assert s.commit.Some?;
    hide *;
    match s.commit.value.change
    case FlushInto(level) => InstallFlush(s, level);
    case Compact(m) => InstallCompact(s, m);
    case Move(c) => InstallMove(s, c);
  }
}
