/**
 Every run of the database, crashes included: what the disk holds is always enough to
 rebuild the acknowledged history, and every read is served from that history.
 */
module Durability {
  import opened DbFormat
  import opened Views
  import opened VersionModel
  import opened Picking
  import opened Install
  import opened Flush
  import opened Realizable
  import opened PickSafety
  import opened Database
  import opened DatabaseSafety
  import opened Recovery

  // ---------------------------------------------------------------------------
  // The disk

  ghost predicate Stored(tables: map<nat, Option<File>>, f: File)
  {
    f.number in tables && tables[f.number] == Some(f)
  }

  /** A file that somebody is writing: it exists, but it is not a table yet. */
  ghost predicate Unfinished(tables: map<nat, Option<File>>, n: nat)
  {
    n in tables && tables[n].None?
  }

  ghost predicate VersionStored(tables: map<nat, Option<File>>, v: Version)
  {
    forall l, f :: 0 <= l < |v.levels| && f in v.levels[l] ==> Stored(tables, f)
  }

  /** The inputs and the finished outputs of a compaction are on disk, and the file it is writing is still there. */
  ghost predicate JobStored(tables: map<nat, Option<File>>, j: Job)
  {
    && VersionStored(tables, j.inputVersion) && (forall f :: f in j.outputs ==> Stored(tables, f))
    && (j.open.Some? ==> Unfinished(tables, j.open.value))
  }

  ghost predicate FlushStored(tables: map<nat, Option<File>>, f: Flushing)
  {
    match f
    case Idle => true
    case Building(n) => Unfinished(tables, n)
    case Built(table) => table.Some? ==> Stored(tables, table.value)
  }

  /** Every table that somebody may still read, and every file that somebody is writing, is on disk. */
  ghost predicate Tables(s: State)
  {
    && VersionStored(s.tables, s.manifest.version)
    && VersionStored(s.tables, s.version)
    && (forall r :: r in s.readers ==> VersionStored(s.tables, r.version))
    && (s.job.Some? ==> JobStored(s.tables, s.job.value))
    && FlushStored(s.tables, s.flush)
  }

  predicate Written(s: State)
  {
    s.commit.Some? && s.commit.value.written
  }

  /** The descriptor is one version ahead of the memory while a written version waits to be installed. */
  ghost predicate Descriptor(s: State)
    requires |s.starts| > 0
  {
    var m := s.manifest;
    && s.durable <= |s.history| && StandsFor(m.version, s.history, s.durable, s.lastSequence)
    && UniqueNumbers(m.version) && NumbersBelow(m.version, m.nextFile) && m.nextFile <= s.nextFile
    && s.durable <= m.lastSequence <= s.lastSequence
    && (if Written(s) then m == s.commit.value.manifest && s.durable == Covered(s, s.commit.value.change)
        else m.version == s.version && s.durable == s.stored)
  }

  /** The log files from the descriptor's log number on hold what is not in its tables. */
  ghost predicate Logs(s: State)
    requires Shape(s)
  {
    var start := s.starts[|s.starts| - 1];
    && s.durable <= start
    && s.memLog in s.logs && s.manifest.logNumber <= s.memLog < s.nextFile
    && (forall n :: n in s.logs ==> n <= s.memLog)
    && s.logs[s.memLog] == Logged(s.history, start, |s.history|)
    && LogTail(s.logs, s.manifest.logNumber, s.memLog) == Logged(s.history, s.durable, start)
  }

  /** The record of a flush gives up the log files before the current one, other records none. */
  ghost predicate Staged(s: State)
  {
    s.commit.Some? ==>
      s.commit.value.manifest.logNumber == (if s.commit.value.change.FlushInto? then s.memLog else s.manifest.logNumber)
  }

  /** What is on disk. */
  ghost predicate Disk(s: State)
    requires Shape(s)
  {
    Descriptor(s) && Logs(s) && Staged(s)
  }

  ghost predicate Safe(s: State)
  {
    Serving(s) && Tables(s) && Disk(s)
  }

  // ---------------------------------------------------------------------------
  // Tables

  ghost predicate SameBelow(tables: map<nat, Option<File>>, tables': map<nat, Option<File>>, n: nat)
  {
    forall m :: m in tables && m < n ==> m in tables' && tables'[m] == tables[m]
  }

  lemma KeepStored(tables: map<nat, Option<File>>, tables': map<nat, Option<File>>, v: Version, n: nat)
    requires VersionStored(tables, v) && NumbersBelow(v, n) && SameBelow(tables, tables', n)
    ensures VersionStored(tables', v)
  {
    forall l, f | 0 <= l < |v.levels| && f in v.levels[l] ensures Stored(tables', f) {
      assert Stored(tables, f) && f.number < n;
    }
  }

  /** A new file gets a new number, so it does not disturb the old ones. */
  lemma NewFile(s: State)
    requires Shape(s) && Readers(s) && CurrentVersion(s) && JobFits(s) && FlushFits(s) && Descriptor(s) && Tables(s)
    ensures Tables(s.(tables := s.tables[s.nextFile := None], nextFile := s.nextFile + 1))
  {
    hide StandsFor, UniqueNumbers, Ready, FreshNumbers, Gapless, NumbersBelow, VersionStored, ValidFile, OutputNumbers;
    var tables' := s.tables[s.nextFile := None];
    assert SameBelow(s.tables, tables', s.nextFile);
    KeepStored(s.tables, tables', s.version, s.nextFile);
    MoreBelow(s.manifest.version, s.manifest.nextFile, s.nextFile);
    KeepStored(s.tables, tables', s.manifest.version, s.nextFile);
    forall r | r in s.readers ensures VersionStored(tables', r.version) {
      assert ReaderFits(s, r);
      KeepStored(s.tables, tables', r.version, s.nextFile);
    }
    if s.job.Some? {
      NewFileJob(s, tables');
    }
  }

  lemma NewFileJob(s: State, tables': map<nat, Option<File>>)
    requires JobFits(s) && s.job.Some? && JobStored(s.tables, s.job.value) && SameBelow(s.tables, tables', s.nextFile)
    ensures JobStored(tables', s.job.value)
  {
    hide NumbersBelow, VersionStored, Ready, FreshNumbers, Gapless, ValidFile;
    var j := s.job.value;
    KeepStored(s.tables, tables', j.inputVersion, s.nextFile);
    forall f | f in j.outputs ensures Stored(tables', f) {
      assert f.number in OutputNumbers(j);
    }
    assert j.open.Some? ==> j.open.value in OutputNumbers(j);
  }

  lemma MoreBelow(v: Version, n: nat, n': nat)
    requires NumbersBelow(v, n) && n <= n'
    ensures NumbersBelow(v, n')
  {
  }

  /** A file that is not a table may be completed, or removed, without anybody missing a table. */
  ghost predicate OnlyAt(tables: map<nat, Option<File>>, tables': map<nat, Option<File>>, n: nat)
  {
    Unfinished(tables, n) && forall m :: m in tables && m != n ==> m in tables' && tables'[m] == tables[m]
  }

  lemma OthersKept(tables: map<nat, Option<File>>, tables': map<nat, Option<File>>, n: nat, v: Version)
    requires OnlyAt(tables, tables', n) && VersionStored(tables, v)
    ensures VersionStored(tables', v) && !UsesNumber(v, n)
  {
    forall l, f | 0 <= l < |v.levels| && f in v.levels[l] ensures Stored(tables', f) && f.number != n {
      assert Stored(tables, f);
    }
  }

  lemma {:induction false} WithTablesKeeps(tables: map<nat, Option<File>>, fs: seq<File>, n: nat)
    requires forall f :: f in fs ==> n <= f.number
    ensures SameBelow(tables, WithTables(tables, fs), n)
  {
    if fs != [] {
      var init := fs[..|fs| - 1];
      assert fs[|fs| - 1] in fs && forall f :: f in init ==> f in fs;
      WithTablesKeeps(tables, init, n);
    }
  }

  lemma {:induction false} WithTablesHolds(tables: map<nat, Option<File>>, fs: seq<File>)
    requires forall i, j :: 0 <= i < j < |fs| ==> fs[i].number < fs[j].number
    ensures forall f :: f in fs ==> Stored(WithTables(tables, fs), f)
  {
    if fs != [] {
      var n := |fs| - 1;
      WithTablesHolds(tables, fs[..n]);
      forall f | f in fs ensures Stored(WithTables(tables, fs), f) {
        var i :| 0 <= i < |fs| && fs[i] == f;
        if i < n {
          assert fs[..n][i] == f;
          assert f in fs[..n] && f.number < fs[n].number;
        }
      }
    }
  }

  // ---------------------------------------------------------------------------
  // Obsolete files

  lemma DeletedUnused(tables: map<nat, Option<File>>, v: Version, gone: set<nat>)
    requires VersionStored(tables, v) && forall n :: n in gone ==> !UsesNumber(v, n)
    ensures VersionStored(tables - gone, v)
  {
    forall l, f | 0 <= l < |v.levels| && f in v.levels[l] ensures Stored(tables - gone, f) {
      assert Stored(tables, f) && UsesNumber(v, f.number);
    }
  }

  /** The outputs of a compaction are in no version, but they are marked. */
  lemma MarkedKept(tables: map<nat, Option<File>>, j: Job, gone: set<nat>, pending: set<nat>)
    requires JobStored(tables, j) && OutputNumbers(j) <= pending
    requires forall n :: n in gone ==> n !in pending && !UsesNumber(j.inputVersion, n)
    ensures JobStored(tables - gone, j)
  {
    hide VersionStored, UsesNumber;
    DeletedUnused(tables, j.inputVersion, gone);
    forall f | f in j.outputs ensures Stored(tables - gone, f) {
      assert f.number in OutputNumbers(j);
    }
    assert j.open.Some? ==> j.open.value in OutputNumbers(j);
  }

  /**
   Deleting obsolete files takes no table that the descriptor, a version, a compaction or a flush
   needs: a compaction in progress is protected by its marks, and a flush between erasing its mark
   and installing its version by the fact that the only thread that deletes is the one that flushes.
   */
  lemma DeleteKeepsTables(s: State, gone: set<nat>, goneLogs: set<nat>)
    requires Shape(s) && Tables(s) && Descriptor(s) && Marks(s) && Phases(s)
             && Enabled(s, DeleteObsoleteFiles(gone, goneLogs))
    ensures Tables(s.(tables := s.tables - gone))
  {
    hide VersionStored, UsesNumber, StandsFor, UniqueNumbers, NumbersBelow, JobStored, OutputNumbers;
    DeletedUnused(s.tables, s.version, gone);
    forall r | r in s.readers ensures VersionStored(s.tables - gone, r.version) {
      assert forall n :: n in gone ==> !UsesNumber(r.version, n);
      DeletedUnused(s.tables, r.version, gone);
    }
    if s.job.Some? {
      MarkedKept(s.tables, s.job.value, gone, s.pending);
    }
  }

  lemma FlushedStored(tables: map<nat, Option<File>>, v: Version, level: nat, f: File, v': Version)
    requires Edited(v, FlushEdit(level, f), v') && VersionStored(tables, v) && Stored(tables, f)
    ensures VersionStored(tables, v')
  {
    FlushLevels(v, level, f, v');
  }

  lemma CompactedStored(tables: map<nat, Option<File>>, v: Version, c: Inputs, outs: seq<File>, v': Version)
    requires Edited(v, CompactionEdit(c, outs), v') && VersionStored(tables, v)
    requires forall f :: f in outs ==> Stored(tables, f)
    ensures VersionStored(tables, v')
  {
    var e := CompactionEdit(c, outs);
    forall l, f | 0 <= l < |v'.levels| && f in v'.levels[l] ensures Stored(tables, f) {
      if (l, f) in e.added {
        var g :| g in outs && (l, f) == (c.level + 1, g);
      }
    }
  }

  // ---------------------------------------------------------------------------
  // Log files

  lemma LogGroupLogs(s: State, ops: seq<Op>)
    requires Shape(s) && Logs(s) && Enabled(s, LogGroup(ops)) && Shape(Next(s, LogGroup(ops)))
    ensures Logs(Next(s, LogGroup(ops)))
  {
    var h, h' := s.history, s.history + ops;
    var start := s.starts[|s.starts| - 1];
    var s' := Next(s, LogGroup(ops));
    assert h'[..|h|] == h[..|h|];
    LoggedSame(h, h', start, |h|);
    LoggedJoin(h', start, |h|, |h'|);
    assert h'[..start] == h[..start];
    LoggedSame(h, h', s.durable, start);
    forall n: nat | s.manifest.logNumber <= n < s.memLog ensures SameLog(s.logs, s'.logs, n) {}
    TailSame(s.logs, s'.logs, s.manifest.logNumber, s.memLog);
  }

  lemma SwitchLogs(s: State)
    requires Shape(s) && Logs(s) && Enabled(s, SwitchMemTable) && Shape(Next(s, SwitchMemTable))
    ensures Logs(Next(s, SwitchMemTable))
  {
    var h := s.history;
    var s' := Next(s, SwitchMemTable);
    forall n: nat | s.manifest.logNumber <= n < s.nextFile ensures SameLog(s.logs, s'.logs, n) {}
    TailSame(s.logs, s'.logs, s.manifest.logNumber, s.nextFile);
    TailEndsWith(s.logs, s.manifest.logNumber, s.memLog, s.nextFile);
    LoggedJoin(h, s.durable, s.starts[|s.starts| - 1], |h|);
  }

  lemma DeleteLogs(s: State, goneLogs: set<nat>)
    requires Shape(s) && Logs(s) && forall n :: n in goneLogs ==> n < s.manifest.logNumber
    ensures Logs(s.(logs := s.logs - goneLogs))
  {
    hide Logged;
    var logs' := s.logs - goneLogs;
    forall m: nat | s.manifest.logNumber <= m < s.memLog ensures SameLog(s.logs, logs', m) {}
    TailSame(s.logs, logs', s.manifest.logNumber, s.memLog);
  }

  /** The surviving log files from the descriptor's log number on replay to the rest of the history. */
  lemma CrashedTail(s: State, lost: nat)
    requires Shape(s) && Logs(s) && lost <= |s.logs[s.memLog]| && lost <= |s.history|
    ensures var h := s.history[..|s.history| - lost];
            s.durable <= |h| && LogTail(TornLogs(s, lost), s.manifest.logNumber, s.nextFile)
                == Logged(h, s.durable, |h|)
  {
    hide Logged, LogTail, MemTables, NumbersBelow;
    var start, n := s.starts[|s.starts| - 1], |s.history| - lost;
    var h := s.history[..n];
    var logs := TornLogs(s, lost);
    LoggedAt(s.history, start, |s.history|);
    LoggedTorn(s.history, start, n);
    assert logs[s.memLog] == Logged(h, start, n);
    forall m: nat | s.manifest.logNumber <= m < s.memLog ensures SameLog(s.logs, logs, m) {}
    TailSame(s.logs, logs, s.manifest.logNumber, s.memLog);
    TailEndsWith(logs, s.manifest.logNumber, s.memLog, s.nextFile);
    assert h[..start] == s.history[..start];
    LoggedSame(s.history, h, s.durable, start);
    LoggedJoin(h, s.durable, start, n);
  }

  // ---------------------------------------------------------------------------
  // Steps of writers and readers

  /** Neither the descriptor nor a log file changes. */
  lemma DiskStays(s: State, s': State)
    requires Shape(s) && Disk(s) && Shape(s')
    requires s'.history == s.history && s'.starts == s.starts && s'.stored == s.stored && s'.durable == s.durable
    requires s'.logs == s.logs && s'.memLog == s.memLog && s'.manifest == s.manifest && s'.version == s.version
             && s'.commit == s.commit
    requires s'.nextFile >= s.nextFile && s'.lastSequence >= s.lastSequence
    ensures Disk(s')
  {
    hide Logged, LogTail, NumbersBelow, StandsFor, UniqueNumbers;
    StandsForLater(s.manifest.version, s.history, s.durable, s.lastSequence, s'.lastSequence);
  }

  lemma LogGroupDisk(s: State, ops: seq<Op>)
    requires Shape(s) && Disk(s) && Enabled(s, LogGroup(ops)) && Shape(Next(s, LogGroup(ops)))
    ensures Disk(Next(s, LogGroup(ops)))
  {
    hide Logs, NumbersBelow, StandsFor, UniqueNumbers, Logged;
    LogGroupLogs(s, ops);
    HistoryGrows(s.manifest.version, s.history, ops, s.durable, s.lastSequence);
  }

  lemma SwitchDisk(s: State)
    requires Shape(s) && Disk(s) && CommitFits(s) && Enabled(s, SwitchMemTable) && Shape(Next(s, SwitchMemTable))
    ensures Disk(Next(s, SwitchMemTable))
  {
    hide Logs, NumbersBelow, StandsFor, UniqueNumbers, Allowed;
    SwitchLogs(s);
    var s' := Next(s, SwitchMemTable);
    if s.commit.Some? {
      AllowedStays(s, s', s.commit.value.change, s.commit.value.manifest.version);
    }
  }

  lemma PublishForeground(s: State)
    requires Foreground(s) && Enabled(s, Publish)
    ensures Foreground(Next(s, Publish))
  {
    ReadersStay(s, Next(s, Publish));
  }

  lemma SwitchBackground(s: State)
    requires Shape(s) && Background(s) && Enabled(s, SwitchMemTable) && Shape(Next(s, SwitchMemTable))
    ensures Background(Next(s, SwitchMemTable))
  {
    hide StandsFor, UniqueNumbers, JobFits, FlushFits, CommitFits, NumbersBelow;
    WriterLeavesBackground(s, Next(s, SwitchMemTable));
  }

  lemma WriterSafe(s: State, a: Step)
    requires Safe(s) && Enabled(s, a) && (a.LogGroup? || a.InsertOne? || a.Publish? || a.SwitchMemTable?)
    ensures Safe(Next(s, a))
  {
    hide MemTables, Readers, CurrentVersion, Snapshots, JobFits, FlushFits, CommitFits, Marks, Descriptor, Logs, Staged,
         VersionStored, JobStored, FlushStored, Logged;
    var s' := Next(s, a);
    match a {
      case LogGroup(ops) =>
        LogGroupForeground(s, ops);
        LogGroupBackground(s, ops);
        LogGroupDisk(s, ops);
      case InsertOne =>
        InsertOneForeground(s);
        WriterLeavesBackground(s, s');
        DiskStays(s, s');
      case Publish =>
        PublishForeground(s);
        WriterLeavesBackground(s, s');
        DiskStays(s, s');
      case SwitchMemTable =>
        SwitchForeground(s);
        SwitchBackground(s);
        SwitchDisk(s);
    }
  }

  /** Snapshots and readers come and go. */
  lemma OnlyReaders(s: State, s': State)
    requires Safe(s) && s' == s.(snapshots := s'.snapshots, readers := s'.readers)
    requires forall n :: n in s'.snapshots ==> n in s.snapshots || n == s.lastSequence
    requires forall r :: r in s'.readers && r !in s.readers ==> ReaderFits(s, r) && VersionStored(s.tables, r.version)
    ensures Safe(s')
  {
    assert Shape(s');
    hide MemTables, ReaderFits, CurrentVersion, Snapshots, JobFits, FlushFits, CommitFits, Marks, Descriptor, Logs,
        Staged,
         VersionStored, JobStored, FlushStored;
    SnapshotsLeaveBackground(s, s');
    hide Background;
    DiskStays(s, s');
    ReadersStay(s, s');
  }

  lemma SafeShape(s: State)
    requires Safe(s)
    ensures |s.mems| == |s.starts| > 0
  {
    hide MemTables, Readers, Background, Tables, Disk;
  }

  lemma TakeSnapshotSafe(s: State)
    requires Safe(s)
    ensures Safe(Next(s, TakeSnapshot))
  {
    hide Safe;
    SafeShape(s);
    var s' := Next(s, TakeSnapshot);
    assert s' == s.(snapshots := s'.snapshots, readers := s'.readers);
    assert s'.readers == s.readers && forall m :: m in s'.snapshots ==> m in s.snapshots || m == s.lastSequence;
    hide *;
    OnlyReaders(s, s');
  }

  lemma ReleaseSnapshotSafe(s: State, n: nat)
    requires Safe(s) && Enabled(s, ReleaseSnapshot(n))
    ensures Safe(Next(s, ReleaseSnapshot(n)))
  {
    hide Safe;
    SafeShape(s);
    var s' := Next(s, ReleaseSnapshot(n));
    assert s' == s.(snapshots := s'.snapshots, readers := s'.readers);
    assert s'.readers == s.readers && forall m :: m in s'.snapshots ==> m in s.snapshots;
    hide *;
    OnlyReaders(s, s');
  }

  lemma OpenReaderSafe(s: State, n: nat)
    requires Safe(s) && Enabled(s, OpenReader(n))
    ensures Safe(Next(s, OpenReader(n)))
  {
    hide MemTables, ReaderFits, CurrentVersion, Snapshots, JobFits, FlushFits, CommitFits, Marks, Disk, VersionStored,
        JobStored, FlushStored;
    NewReaderFits(s, n);
    assert |s.mems| == |s.starts| > 0;
    hide Safe;
    OnlyReaders(s, Next(s, OpenReader(n)));
  }

  lemma CloseReaderSafe(s: State, r: Reader)
    requires Safe(s) && Enabled(s, CloseReader(r))
    ensures Safe(Next(s, CloseReader(r)))
  {
    hide Safe;
    SafeShape(s);
    var s' := Next(s, CloseReader(r));
    assert s' == s.(snapshots := s'.snapshots, readers := s'.readers);
    assert s'.snapshots == s.snapshots && s'.readers <= s.readers;
    hide *;
    OnlyReaders(s, s');
  }

  // ---------------------------------------------------------------------------
  // Steps of the background thread

  /** A step of the background thread that leaves the descriptor, the log files and the version alone. */
  lemma OnlyBackground(s: State, s': State)
    requires Foreground(s) && Disk(s) && Shape(s')
    requires s' == s.(job := s'.job, flush := s'.flush, cleaning := s'.cleaning, pending := s'.pending,
                      failed := s'.failed,
                      tables := s'.tables, nextFile := s'.nextFile)
    requires s'.nextFile >= s.nextFile
    ensures Foreground(s') && Disk(s')
  {
    hide MemTables, ReaderFits, Descriptor, Logs, Staged;
    ReadersStay(s, s');
    DiskStays(s, s');
  }

  lemma StartFlushSafe(s: State)
    requires Safe(s) && Enabled(s, StartFlush)
    ensures Safe(Next(s, StartFlush))
  {
    hide MemTables, Readers, CurrentVersion, Snapshots, JobFits, FlushFits, CommitFits, Marks, Descriptor, Logs,
        Staged, VersionStored, JobStored;
    StartFlushBackground(s);
    OnlyBackground(s, Next(s, StartFlush));
    NewFile(s);
  }

  /** Completing the file `n`, or giving it up. */
  lemma FileDone(s: State, tables': map<nat, Option<File>>, n: nat)
    requires Tables(s) && OnlyAt(s.tables, tables', n)
    ensures VersionStored(tables', s.manifest.version) && VersionStored(tables', s.version)
    ensures forall r :: r in s.readers ==> VersionStored(tables', r.version)
    ensures s.job.Some? ==> VersionStored(tables', s.job.value.inputVersion)
                            && forall f :: f in s.job.value.outputs ==> Stored(tables', f)
    ensures !UsesNumber(s.version, n) && (s.job.Some? ==> forall f :: f in s.job.value.outputs ==> f.number != n)
  {
    hide VersionStored, OnlyAt, UsesNumber;
    OthersKept(s.tables, tables', n, s.manifest.version);
    OthersKept(s.tables, tables', n, s.version);
    forall r | r in s.readers ensures VersionStored(tables', r.version) {
      OthersKept(s.tables, tables', n, r.version);
    }
    if s.job.Some? {
      OthersKept(s.tables, tables', n, s.job.value.inputVersion);
      OutputsKept(s.tables, tables', n, s.job.value.outputs);
    }
  }

  lemma OutputsKept(tables: map<nat, Option<File>>, tables': map<nat, Option<File>>, n: nat, outs: seq<File>)
    requires OnlyAt(tables, tables', n) && forall f :: f in outs ==> Stored(tables, f)
    ensures forall f :: f in outs ==> Stored(tables', f) && f.number != n
  {
  }

  lemma FinishFlushTables(s: State, table: Option<File>)
    requires Shape(s) && Tables(s) && FlushFits(s) && Enabled(s, FinishFlush(table))
    ensures Tables(Next(s, FinishFlush(table)))
  {
    hide VersionStored, NumbersBelow, ValidFile, Imm;
    var n := s.flush.number;
    var tables' := Next(s, FinishFlush(table)).tables;
    assert OnlyAt(s.tables, tables', n);
    FileDone(s, tables', n);
    if s.job.Some? {
      assert s.job.value.open.Some? ==> s.job.value.open.value in OutputNumbers(s.job.value);
    }
  }

  lemma FinishFlushSafe(s: State, table: Option<File>)
    requires Safe(s) && Enabled(s, FinishFlush(table))
    ensures Safe(Next(s, FinishFlush(table)))
  {
    hide MemTables, Readers, CurrentVersion, Snapshots, JobFits, FlushFits, CommitFits, Marks, Descriptor, Logs,
        Staged, Tables;
    FinishFlushBackground(s, table);
    OnlyBackground(s, Next(s, FinishFlush(table)));
    FinishFlushTables(s, table);
  }

  lemma AbandonFlushSafe(s: State)
    requires Safe(s) && Enabled(s, AbandonFlush)
    ensures Safe(Next(s, AbandonFlush))
  {
    hide MemTables, Readers, CurrentVersion, Snapshots, JobFits, FlushFits, CommitFits, Marks, Descriptor, Logs,
        Staged, VersionStored, JobStored;
    AbandonFlushBackground(s);
    OnlyBackground(s, Next(s, AbandonFlush));
  }

  lemma StartCompactionSafe(s: State, c: Inputs, n: nat)
    requires Safe(s) && Enabled(s, StartCompaction(c, n))
    ensures Safe(Next(s, StartCompaction(c, n)))
  {
    hide MemTables, Readers, CurrentVersion, Snapshots, JobFits, FlushFits, CommitFits, Marks, Descriptor, Logs,
        Staged, VersionStored,
         FlushStored, WellChosen, SafeBoundary;
    StartCompactionBackground(s, c, n);
    OnlyBackground(s, Next(s, StartCompaction(c, n)));
  }

  lemma OpenOutputSafe(s: State)
    requires Safe(s) && Enabled(s, OpenOutput)
    ensures Safe(Next(s, OpenOutput))
  {
    hide MemTables, Readers, CurrentVersion, Snapshots, JobFits, FlushFits, CommitFits, Marks, Descriptor, Logs,
        Staged, VersionStored;
    OpenOutputBackground(s);
    OnlyBackground(s, Next(s, OpenOutput));
    NewFile(s);
  }

  lemma FinishOutputSafe(s: State, f: File)
    requires Safe(s) && Enabled(s, FinishOutput(f))
    ensures Safe(Next(s, FinishOutput(f)))
  {
    hide MemTables, Readers, CurrentVersion, Snapshots, JobFits, FlushFits, CommitFits, Marks, Descriptor, Logs,
        Staged, VersionStored, UsesNumber, ValidFile;
    var tables' := Next(s, FinishOutput(f)).tables;
    assert OnlyAt(s.tables, tables', f.number);
    FileDone(s, tables', f.number);
    FinishOutputBackground(s, f);
    OnlyBackground(s, Next(s, FinishOutput(f)));
  }

  lemma AbandonCompactionSafe(s: State)
    requires Safe(s) && Enabled(s, AbandonCompaction)
    ensures Safe(Next(s, AbandonCompaction))
  {
    hide MemTables, Readers, CurrentVersion, Snapshots, JobFits, FlushFits, CommitFits, Marks, Descriptor, Logs,
        Staged, VersionStored, JobStored;
    AbandonBackground(s);
    OnlyBackground(s, Next(s, AbandonCompaction));
  }

  lemma DeleteSafe(s: State, gone: set<nat>, goneLogs: set<nat>)
    requires Safe(s) && Enabled(s, DeleteObsoleteFiles(gone, goneLogs))
    ensures Safe(Next(s, DeleteObsoleteFiles(gone, goneLogs)))
  {
    hide MemTables, Readers, CurrentVersion, Snapshots, JobFits, FlushFits, CommitFits, Marks, Tables, Descriptor,
        Logs, Staged;
    var s' := Next(s, DeleteObsoleteFiles(gone, goneLogs));
    DeleteKeepsTables(s, gone, goneLogs);
    TablesOnly(s.(tables := s.tables - gone), s');
    DeleteLogs(s, goneLogs);
    DeleteLeaves(s, s');
    DeleteDisk(s, s.(logs := s.logs - goneLogs), s');
  }

  lemma TablesOnly(s: State, s': State)
    requires Tables(s) && s' == s.(logs := s'.logs, cleaning := s'.cleaning)
    ensures Tables(s')
  {
    hide VersionStored, JobStored, FlushStored;
  }

  lemma DeleteDisk(s: State, mid: State, s': State)
    requires Shape(s) && Shape(mid) && Shape(s') && Disk(s) && Logs(mid)
    requires mid == s.(logs := s'.logs) && s' == s.(tables := s'.tables, logs := s'.logs, cleaning := s'.cleaning)
    ensures Disk(s')
  {
    hide Logged, LogTail, NumbersBelow, StandsFor, UniqueNumbers;
  }

  lemma DeleteLeaves(s: State, s': State)
    requires Shape(s) && Foreground(s) && Background(s)
             && s' == s.(tables := s'.tables, logs := s'.logs, cleaning := false)
    ensures Foreground(s') && Background(s')
  {
    hide MemTables, ReaderFits, CurrentVersion, Snapshots, JobFits, FlushFits, CommitFits, Marks;
    assert Shape(s');
    ReadersStay(s, s');
    assert CurrentVersion(s') by { VersionStays(s, s'); }
    assert Snapshots(s') by { SnapshotsStay(s, s'); }
    JobStays(s, s');
    FlushStays(s, s');
    CommitStaysFor(s, s');
    assert Marks(s') by { MarksStay(s, s'); }
  }

  lemma CommitStaysFor(s: State, s': State)
    requires Shape(s) && Shape(s') && CommitFits(s) && s' == s.(tables := s'.tables, logs := s'.logs, cleaning := false)
    ensures CommitFits(s')
  {
    hide NumbersBelow, Allowed;
    if s.commit.Some? {
      AllowedStays(s, s', s.commit.value.change, s.commit.value.manifest.version);
    }
  }

  lemma MarksStay(s: State, s': State)
    requires Marks(s) && s' == s.(tables := s'.tables, logs := s'.logs, cleaning := false)
    ensures Marks(s')
  {
  }

  // ---------------------------------------------------------------------------
  // New versions

  /** The tables of the version after a change are on disk. */
  lemma ChangeStored(s: State, change: Change, v': Version)
    requires Shape(s) && Tables(s) && FlushFits(s) && Allowed(s, change, v')
    ensures VersionStored(s.tables, v')
  {
    hide VersionStored, Rewritten, Disjoint, FreeUpTo, NumbersBelow, ValidFile, WellChosen, SafeBoundary, Edited;
    match change {
      case FlushInto(level) =>
        if s.flush.table.Some? {
          FlushedStored(s.tables, s.version, level, s.flush.table.value, v');
        }
      case Compact(m) =>
        CompactedStored(s.tables, s.version, s.job.value.c, s.job.value.outputs, v');
      case Move(c) =>
        MovedStored(s, c, v');
    }
  }

  lemma MovedStored(s: State, c: Inputs, v': Version)
    requires Shape(s) && Tables(s) && MoveChange(s, c, v')
    ensures VersionStored(s.tables, v')
  {
    hide SafeBoundary, NextLevelComplete, LevelZeroComplete, Gapless;
    forall f | f in c.in0 ensures Stored(s.tables, f) {
      assert f in s.version.levels[c.level];
    }
    CompactedStored(s.tables, s.version, c, c.in0, v');
  }

  lemma StageSafe(s: State, change: Change, v': Version)
    requires Safe(s) && Enabled(s, StageVersion(change, v'))
    ensures Safe(Next(s, StageVersion(change, v')))
  {
    hide MemTables, Readers, CurrentVersion, Snapshots, JobFits, FlushFits, CommitFits, Marks, VersionStored,
        JobStored, FlushStored, Allowed,
         StandsFor, UniqueNumbers, NumbersBelow, Logged, LogTail;
    StageBackground(s, change, v');
    ReadersStay(s, Next(s, StageVersion(change, v')));
  }

  lemma HorizonBelow(s: State, change: Change)
    requires Shape(s) && Snapshots(s) && JobFits(s)
    ensures HorizonAfter(s, change) <= s.lastSequence
  {
    hide Ready, FreshNumbers, Gapless, OutputNumbers, NumbersBelow;
  }

  /** From the moment the record is written, the descriptor stands for the history with one version more. */
  lemma WriteDescriptorDisk(s: State)
    requires Shape(s) && MemTables(s) && Background(s) && Disk(s) && Enabled(s, WriteDescriptor)
             && Shape(Next(s, WriteDescriptor))
    ensures Disk(Next(s, WriteDescriptor))
  {
    hide MemTables, CurrentVersion, Snapshots, JobFits, FlushFits, Marks, Allowed, StandsFor, UniqueNumbers,
        NumbersBelow;
    var s', change, v' := Next(s, WriteDescriptor), s.commit.value.change, s.commit.value.manifest.version;
    ChangeStands(s, change, v');
    HorizonBelow(s, change);
    StandsForLater(v', s.history, Covered(s, change), HorizonAfter(s, change), s.lastSequence);
    assert Covered(s', change) == Covered(s, change);
    WrittenLogs(s);
  }

  /** A flush record may give up the older log files: all they hold is in the table. */
  lemma WrittenLogs(s: State)
    requires Shape(s) && Logs(s) && Staged(s) && Enabled(s, WriteDescriptor) && Shape(Next(s, WriteDescriptor))
    requires !Written(s) ==> s.durable == s.stored
    ensures Logs(Next(s, WriteDescriptor))
  {
  }

  lemma WriteDescriptorSafe(s: State)
    requires Safe(s) && Enabled(s, WriteDescriptor)
    ensures Safe(Next(s, WriteDescriptor))
  {
    hide MemTables, Readers, CurrentVersion, Snapshots, JobFits, FlushFits, Marks, VersionStored, JobStored,
        FlushStored, Allowed,
         Descriptor, Logs, Staged, NumbersBelow;
    WriteDescriptorBackground(s);
    WriteDescriptorDisk(s);
    ReadersStay(s, Next(s, WriteDescriptor));
    ChangeStored(s, s.commit.value.change, s.commit.value.manifest.version);
  }

  lemma InstallDisk(s: State, s': State)
    requires Shape(s) && Disk(s) && Written(s) && Shape(s')
    requires s'.history == s.history && s'.starts == s.starts && s'.durable == s.durable
             && s'.lastSequence == s.lastSequence
    requires s'.logs == s.logs && s'.memLog == s.memLog && s'.manifest == s.manifest && s'.nextFile == s.nextFile
    requires s'.commit.None? && s'.version == s.manifest.version && s'.stored == Covered(s, s.commit.value.change)
    ensures Disk(s')
  {
    hide Logs, NumbersBelow, StandsFor, UniqueNumbers, Covered;
    InstallLogs(s, s');
  }

  lemma InstallLogs(s: State, s': State)
    requires Shape(s) && Logs(s) && Shape(s')
    requires s'.history == s.history && s'.starts == s.starts && s'.durable == s.durable
    requires s'.logs == s.logs && s'.memLog == s.memLog && s'.manifest == s.manifest && s'.nextFile == s.nextFile
    ensures Logs(s')
  {
    hide Logged, LogTail;
  }

  lemma InstallTables(s: State)
    requires Shape(s) && Tables(s) && Disk(s) && Enabled(s, InstallVersion)
    ensures Tables(Next(s, InstallVersion))
  {
    hide Logs, NumbersBelow, StandsFor, UniqueNumbers, OutputNumbers, VersionStored, JobStored;
  }

  lemma InstallSafe(s: State)
    requires Safe(s) && Enabled(s, InstallVersion)
    ensures Safe(Next(s, InstallVersion))
  {
    hide MemTables, Readers, CurrentVersion, Snapshots, JobFits, FlushFits, CommitFits, Marks, Tables, Logs, Staged,
        OutputNumbers,
         StandsFor, UniqueNumbers, NumbersBelow;
    var s' := Next(s, InstallVersion);
    InstallBackground(s);
    ReadersStay(s, s');
    InstallTables(s);
    InstallDisk(s, s');
  }

  // ---------------------------------------------------------------------------
  // Crashes

  /** The acknowledged part of the history is in what the crash leaves. */
  lemma SurvivingStands(s: State, lost: nat, v: Version, n: nat, from: nat)
    requires lost <= |s.history| && n <= |s.history| - lost && StandsFor(v, s.history, n, from)
    ensures StandsFor(v, s.history[..|s.history| - lost], n, from)
  {
    var h := s.history[..|s.history| - lost];
    assert s.history == h + s.history[|s.history| - lost..];
    WritesExtend(h, s.history[|s.history| - lost..], 0, n);
  }

  lemma RecoveredStands(v: Version, h: seq<Op>, n: nat, pieces: seq<File>, cuts: seq<nat>, v': Version, next: nat,
                        from: nat)
    requires n <= |h| && Pieces(Logged(h, n, |h|), pieces, cuts)
    requires StandsFor(v, h, n, from) && UniqueNumbers(v) && FreshPieces(v, pieces, next)
    requires Edited(v, RecoverEdit(pieces), v')
    ensures StandsFor(v', h, |h|, from) && UniqueNumbers(v')
  {
    hide Layered, LevelsSearchable, UniqueNumbers, FreshPieces, Edited, Pieces, View;
    RecoverSearchable(v, h, n, |h|, pieces, cuts, v', next);
    StandsForMore(v, v', h, n, |h|, from);
  }

  lemma RecoveredBelow(v: Version, pieces: seq<File>, v': Version, next: nat, newLog: nat)
    requires NumbersBelow(v, next) && next <= newLog && Edited(v, RecoverEdit(pieces), v')
    requires forall f :: f in pieces ==> f.number < newLog
    ensures NumbersBelow(v', newLog)
  {
    RecoverLevels(v, pieces, v');
  }

  lemma RecoveredTables(tables: map<nat, Option<File>>, v: Version, orphans: seq<File>, pieces: seq<File>,
                        v': Version, next: nat)
    requires VersionStored(tables, v) && FreshPieces(v, pieces, next) && Edited(v, RecoverEdit(pieces), v')
    requires forall f :: f in orphans ==> next <= f.number
    ensures VersionStored(WithTables(WithTables(tables, orphans), pieces), v')
  {
    RecoverLevels(v, pieces, v');
    WithTablesKeeps(tables, orphans, next);
    KeepStored(tables, WithTables(tables, orphans), v, next);
    WithTablesKeeps(WithTables(tables, orphans), pieces, next);
    KeepStored(WithTables(tables, orphans), WithTables(WithTables(tables, orphans), pieces), v, next);
    WithTablesHolds(WithTables(tables, orphans), pieces);
    forall l, f | 0 <= l < |v'.levels| && f in v'.levels[l]
      ensures Stored(WithTables(WithTables(tables, orphans), pieces), f) {
      assert HeldRecovered(v, pieces, l, f);
    }
  }

  /** After recovery the last sequence number is that of the last operation in the log. */
  lemma RecoveredSequence(s: State, lost: nat)
    requires Shape(s) && Logs(s) && Descriptor(s) && lost <= |s.logs[s.memLog]| && lost <= |s.history|
    requires lost == 0 || s.lastSequence + lost == |s.history|
    ensures MaxSequence(LogTail(TornLogs(s, lost), s.manifest.logNumber, s.nextFile), s.manifest.lastSequence)
            == |s.history| - lost
  {
    CrashedTail(s, lost);
    var h := s.history[..|s.history| - lost];
    MaxOfLogged(h, s.durable, |h|, s.manifest.lastSequence);
  }

  lemma CrashVersion(s: State, a: Step)
    requires Shape(s) && Descriptor(s) && Logs(s) && Enabled(s, a) && a.CrashAndRecover?
    ensures var h := s.history[..|s.history| - a.lost];
            s.lastSequence <= |h| && StandsFor(a.recovered, h, |h|, s.lastSequence) && UniqueNumbers(a.recovered)
  {
    hide Edited, UniqueNumbers, StandsFor, NumbersBelow, Pieces, TornLogs, FreshPieces, Covered;
    var h := s.history[..|s.history| - a.lost];
    var v := s.manifest.version;
    CrashedTail(s, a.lost);
    CrashPieces(s, a);
    SurvivingStands(s, a.lost, v, s.durable, s.lastSequence);
    RecoveredStands(v, h, s.durable, a.pieces, a.cuts, a.recovered, s.manifest.nextFile, s.lastSequence);
  }

  lemma CrashPieces(s: State, a: Step)
    requires |s.mems| == |s.starts| > 0 && Descriptor(s) && Enabled(s, a) && a.CrashAndRecover?
    ensures FreshPieces(s.manifest.version, a.pieces, s.manifest.nextFile)
  {
    hide StandsFor, UniqueNumbers, NumbersBelow;
  }

  lemma CrashTables(s: State, a: Step)
    requires Safe(s) && Enabled(s, a) && a.CrashAndRecover?
    ensures NumbersBelow(a.recovered, a.newLog)
    ensures VersionStored(WithTables(WithTables(s.tables, a.orphans), a.pieces), a.recovered)
  {
    hide Readers, MemTables, Background, FreshPieces, Edited, UniqueNumbers, VersionStored, StandsFor, NumbersBelow,
        Logs, Staged,
         Pieces, TornLogs, Covered, JobStored, FlushStored;
    CrashPieces(s, a);
    RecoveredBelow(s.manifest.version, a.pieces, a.recovered, s.manifest.nextFile, a.newLog);
    RecoveredTables(s.tables, s.manifest.version, a.orphans, a.pieces, a.recovered, s.manifest.nextFile);
  }

  lemma CrashSequence(s: State, a: Step)
    requires Safe(s) && Enabled(s, a) && a.CrashAndRecover?
    ensures Next(s, a).lastSequence == |s.history| - a.lost
  {
    hide MemTables, Readers, Background, Tables, LogTail, Edited, Pieces, WithTables, StandsFor, UniqueNumbers,
        NumbersBelow;
    RecoveredSequence(s, a.lost);
  }

  lemma SafeDisk(s: State)
    requires Safe(s)
    ensures Shape(s) && Descriptor(s) && Logs(s)
  {
    hide MemTables, Readers, Background, Tables, Descriptor, Logs, Staged;
  }

  lemma CrashParts(s: State, a: Step)
    requires Safe(s) && Enabled(s, a) && a.CrashAndRecover?
    ensures StandsFor(Next(s, a).version, Next(s, a).history, |Next(s, a).history|, Next(s, a).horizon)
    ensures UniqueNumbers(Next(s, a).version) && NumbersBelow(Next(s, a).version, Next(s, a).memLog)
    ensures VersionStored(Next(s, a).tables, Next(s, a).version)
    ensures Next(s, a).lastSequence == |s.history| - a.lost
  {
    hide Safe, Edited, UniqueNumbers, VersionStored, StandsFor, NumbersBelow, Pieces, LogTail, MaxSequence, WithTables;
    SafeShape(s);
    SafeDisk(s);
    CrashVersion(s, a);
    CrashTables(s, a);
    CrashSequence(s, a);
    var h := s.history[..|s.history| - a.lost];
    StandsForLater(a.recovered, h, |h|, s.lastSequence, |h|);
  }

  lemma CrashSafe(s: State, a: Step)
    requires Safe(s) && Enabled(s, a) && a.CrashAndRecover?
    ensures Safe(Next(s, a))
  {
    CrashParts(s, a);
    CrashOpens(s, a);
    hide *;
    FreshStart(Next(s, a));
  }

  lemma CrashOpens(s: State, a: Step)
    requires Safe(s) && Enabled(s, a) && a.CrashAndRecover?
    requires Next(s, a).lastSequence == |s.history| - a.lost
    ensures JustOpened(Next(s, a))
  {
    hide MemTables, Readers, Background, VersionStored, Edited, Pieces, Descriptor, Staged, LogTail, MaxSequence,
        WithTables, Tables;
  }

  /** A single empty memtable and log, no snapshots, readers or background work, and everything published. */
  ghost predicate JustOpened(s: State)
  {
    && s.mems == [{}] && !s.hasImm && s.starts == [|s.history|] && |s.history| < MAX_SEQUENCE
    && s.inserted == s.stored == s.durable == s.lastSequence == |s.history| && s.horizon <= s.lastSequence
    && s.snapshots == multiset{} && s.readers == {} && s.job.None? && s.flush.Idle? && s.commit.None? && s.pending == {}
    && s.nextFile == s.memLog + 1 && s.manifest == Manifest(s.version, s.memLog, s.nextFile, s.lastSequence)
    && s.memLog in s.logs && s.logs[s.memLog] == [] && forall n :: n in s.logs ==> n <= s.memLog
  }

  /** A database that has just been opened on a version holding its whole history. */
  lemma FreshStart(s: State)
    requires JustOpened(s)
    requires StandsFor(s.version, s.history, |s.history|, s.horizon) && UniqueNumbers(s.version)
    requires VersionStored(s.tables, s.version) && NumbersBelow(s.version, s.memLog)
    ensures Safe(s)
  {
    hide StandsFor, UniqueNumbers, VersionStored;
    StandsForLater(s.version, s.history, |s.history|, s.horizon, s.lastSequence);
  }

  // ---------------------------------------------------------------------------
  // Runs

  /** Every step keeps the invariant. */
  lemma StepSafe(s: State, a: Step)
    requires Safe(s) && Enabled(s, a)
    ensures Safe(Next(s, a))
  {
    hide *;
    match a
    case LogGroup(_) => WriterSafe(s, a);
    case InsertOne => WriterSafe(s, a);
    case Publish => WriterSafe(s, a);
    case SwitchMemTable => WriterSafe(s, a);
    case StartFlush => StartFlushSafe(s);
    case FinishFlush(table) => FinishFlushSafe(s, table);
    case AbandonFlush => AbandonFlushSafe(s);
    case StartCompaction(c, n) => StartCompactionSafe(s, c, n);
    case OpenOutput => OpenOutputSafe(s);
    case FinishOutput(f) => FinishOutputSafe(s, f);
    case AbandonCompaction => AbandonCompactionSafe(s);
    case StageVersion(change, v') => StageSafe(s, change, v');
    case WriteDescriptor => WriteDescriptorSafe(s);
    case InstallVersion => InstallSafe(s);
    case DeleteObsoleteFiles(gone, goneLogs) => DeleteSafe(s, gone, goneLogs);
    case TakeSnapshot => TakeSnapshotSafe(s);
    case ReleaseSnapshot(n) => ReleaseSnapshotSafe(s, n);
    case OpenReader(n) => OpenReaderSafe(s, n);
    case CloseReader(r) => CloseReaderSafe(s, r);
    case CrashAndRecover(_, _, _, _, _, _) => CrashSafe(s, a);
  }

  lemma EmptyVersion()
    ensures forall l :: 0 <= l < NUM_LEVELS ==> EMPTY_VERSION.levels[l] == []
    ensures Contents(EMPTY_VERSION) == {}
    ensures Searchable(EMPTY_VERSION)
  {
    assert forall l :: 0 <= l < NUM_LEVELS ==> EMPTY_VERSION.levels[l] == [];
    assert forall l :: 0 <= l < NUM_LEVELS ==> EntriesOf(EMPTY_VERSION.levels[l]) == {};
  }

  lemma EmptyVersionStands(h: seq<Op>)
    ensures StandsFor(EMPTY_VERSION, h, 0, 0)
    ensures UniqueNumbers(EMPTY_VERSION) && NumbersBelow(EMPTY_VERSION, 3) && VersionStored(map[], EMPTY_VERSION)
  {
    EmptyVersion();
    hide Searchable, Contents;
    assert Writes(h, 0, 0) == {};
  }

  lemma InitialSafe()
    ensures Safe(INITIAL)
  {
    EmptyVersionStands([]);
    FreshStart(INITIAL);
  }

  /** A run: the states passed through and the steps between them, from a new database on. */
  ghost predicate Run(states: seq<State>, steps: seq<Step>)
  {
    && |states| == |steps| + 1 && states[0] == INITIAL
    && forall i :: 0 <= i < |steps| ==> StepTaken(states[i], steps[i], states[i + 1])
  }

  ghost predicate StepTaken(s: State, a: Step, s': State)
  {
    |s.mems| == |s.starts| > 0 && Enabled(s, a) && s' == Next(s, a)
  }

  lemma {:induction false} RunSafe(states: seq<State>, steps: seq<Step>, i: nat)
    requires Run(states, steps) && i < |states|
    ensures Safe(states[i])
  {
    hide Safe, Enabled, Next;
    if i == 0 {
      InitialSafe();
    } else {
      RunSafe(states, steps, i - 1);
      assert StepTaken(states[i - 1], steps[i - 1], states[i]);
      StepSafe(states[i - 1], steps[i - 1]);
    }
  }

  /** What has been acknowledged: the operations up to the published sequence number. */
  function Acknowledged(s: State): (h: seq<Op>)
    requires s.lastSequence <= |s.history|
  {
    s.history[..s.lastSequence]
  }

  lemma StepKeepsAcknowledged(s: State, a: Step)
    requires Safe(s) && Enabled(s, a)
    ensures s.lastSequence <= Next(s, a).lastSequence <= |Next(s, a).history|
    ensures Acknowledged(s) <= Acknowledged(Next(s, a))
  {
    hide MemTables, Readers, Background, Tables, Disk;
    if a.CrashAndRecover? {
      CrashSequence(s, a);
    }
  }

  lemma SafeBounds(states: seq<State>, steps: seq<Step>, i: nat)
    requires Run(states, steps) && i < |states|
    ensures states[i].lastSequence <= |states[i].history|
  {
    RunSafe(states, steps, i);
    hide MemTables, Readers, Background, Tables, Disk, Run;
  }

  /** Acknowledged operations are never taken back, whatever happens in between. */
  lemma {:induction false} AcknowledgedGrows(states: seq<State>, steps: seq<Step>, i: nat, j: nat)
    requires Run(states, steps) && i <= j < |states|
    ensures states[i].lastSequence <= |states[i].history|
            && states[i].lastSequence <= states[j].lastSequence <= |states[j].history|
    ensures Acknowledged(states[i]) <= Acknowledged(states[j])
    decreases j
  {
    hide Enabled, Next, Safe, INITIAL;
    SafeBounds(states, steps, i);
    if i < j {
      AcknowledgedGrows(states, steps, i, j - 1);
      RunSafe(states, steps, j - 1);
      assert StepTaken(states[j - 1], steps[j - 1], states[j]);
      StepKeepsAcknowledged(states[j - 1], steps[j - 1]);
    }
  }

  lemma {:induction false} ReadOfPrefix(h: seq<Op>, h': seq<Op>, k: UserKey, n: nat)
    requires n <= |h| && n <= |h'| && h[..n] == h'[..n]
    ensures Read(h, k, n) == Read(h', k, n)
  {
    if n > 0 {
      assert h[n - 1] == h[..n][n - 1] == h'[..n][n - 1] == h'[n - 1];
      assert h[..n - 1] == h[..n][..n - 1] == h'[..n][..n - 1] == h'[..n - 1];
      ReadOfPrefix(h, h', k, n - 1);
    }
  }

  /**
   In every run, whatever was written, flushed, compacted, moved, deleted, lost in a crash and
   recovered: a reader gets the last operation on the key up to its snapshot.
   */
  lemma RunServesReaders(states: seq<State>, steps: seq<Step>, i: nat, r: Reader, k: UserKey)
    requires Run(states, steps) && i < |states| && r in states[i].readers
    ensures r.snapshot <= |states[i].history| && r.mem < |states[i].mems| && (r.hasImm ==> r.mem > 0)
    ensures ValueOf(ReadThrough(states[i], r, k)) == Read(states[i].history, k, r.snapshot)
  {
    RunSafe(states, steps, i);
    hide Background, Tables, Disk, StandsFor, Read, ReadThrough;
    assert ReaderFits(states[i], r);
    ReaderServed(states[i], r, k);
  }

  /** The reader that a Get or a new iterator works with at sequence number `n`. */
  function ReaderAt(s: State, n: nat): (r: Reader)
    requires |s.mems| > 0
  {
    Reader(n, |s.mems| - 1, s.hasImm, s.version)
  }

  lemma SafeServesReads(s: State, n: nat, k: UserKey)
    requires Safe(s) && (n in s.snapshots || n == s.lastSequence)
    ensures n <= s.lastSequence <= |s.history| && |s.mems| > 0
    ensures s.hasImm ==> |s.mems| > 1
    ensures ValueOf(ReadThrough(s, ReaderAt(s, n), k)) == Read(Acknowledged(s), k, n)
  {
    hide JobFits, FlushFits, CommitFits, Marks, Tables, Disk, StandsFor, Read, ReadThrough;
    NewReaderFits(s, n);
    ReaderServed(s, ReaderAt(s, n), k);
    assert Acknowledged(s)[..n] == s.history[..n];
    ReadOfPrefix(Acknowledged(s), s.history, k, n);
  }

  /** A read at a live snapshot, or at the latest state, is served from the acknowledged history. */
  lemma RunServesReads(states: seq<State>, steps: seq<Step>, i: nat, n: nat, k: UserKey)
    requires Run(states, steps) && i < |states| && (n in states[i].snapshots || n == states[i].lastSequence)
    ensures n <= states[i].lastSequence <= |states[i].history| && |states[i].mems| > 0
    ensures states[i].hasImm ==> |states[i].mems| > 1
    ensures ValueOf(ReadThrough(states[i], ReaderAt(states[i], n), k)) == Read(Acknowledged(states[i]), k, n)
  {
    hide Safe, Read, ReadThrough;
    RunSafe(states, steps, i);
    SafeServesReads(states[i], n, k);
  }

  /** A snapshot reads the same at any later time it is still held. */
  lemma SnapshotsRepeat(states: seq<State>, steps: seq<Step>, i: nat, j: nat, n: nat, k: UserKey)
    requires Run(states, steps) && i <= j < |states|
    requires n in states[i].snapshots || n == states[i].lastSequence
    requires n in states[j].snapshots || n == states[j].lastSequence
    ensures |states[i].mems| > 0 && (states[i].hasImm ==> |states[i].mems| > 1)
    ensures |states[j].mems| > 0 && (states[j].hasImm ==> |states[j].mems| > 1)
    ensures ValueOf(ReadThrough(states[j], ReaderAt(states[j], n), k))
            == ValueOf(ReadThrough(states[i], ReaderAt(states[i], n), k))
  {
    hide Run, Read, ReadThrough;
    RunServesReads(states, steps, i, n, k);
    RunServesReads(states, steps, j, n, k);
    AcknowledgedGrows(states, steps, i, j);
    assert Acknowledged(states[i])[..n] == Acknowledged(states[j])[..n];
    ReadOfPrefix(Acknowledged(states[i]), Acknowledged(states[j]), k, n);
  }

  /**
   In every run every table that the descriptor, the current version, a reader or a compaction reads
   is on disk, and so is every table and every unfinished file that a compaction or a flush has
   written and no version has yet; also while DeleteObsoleteFiles runs in the middle of them.
   */
  lemma RunKeepsTables(states: seq<State>, steps: seq<Step>, i: nat)
    requires Run(states, steps) && i < |states|
    ensures VersionStored(states[i].tables, states[i].manifest.version)
    ensures VersionStored(states[i].tables, states[i].version)
    ensures forall r :: r in states[i].readers ==> VersionStored(states[i].tables, r.version)
    ensures states[i].job.Some? ==> JobStored(states[i].tables, states[i].job.value)
    ensures FlushStored(states[i].tables, states[i].flush)
  {
    RunSafe(states, steps, i);
  }

  /** Until its version is installed, neither a mark nor the current version protects the table of a flush. */
  lemma BuiltUnprotected(s: State)
    requires Safe(s) && s.flush.Built? && s.flush.table.Some?
    ensures s.flush.table.value.number !in s.pending && !UsesNumber(s.version, s.flush.table.value.number)
    ensures !s.cleaning
  {
    hide MemTables, Readers, StandsFor, UniqueNumbers, Ready, FreshNumbers, Gapless, CommitFits, Tables, Disk,
        OutputNumbers, ValidFile;
  }

  lemma SafeMarks(s: State)
    requires Safe(s)
    ensures Marks(s)
  {
    hide Foreground, CurrentVersion, Snapshots, JobFits, FlushFits, CommitFits, Marks, Tables, Disk;
  }

  lemma MarksMean(s: State, n: nat)
    requires Marks(s)
    ensures n in s.pending
            <==> || s.flush == Building(n)
                 || (s.job.Some? && s.job.value.open == Some(n))
                 || (s.job.Some? && exists f :: f in s.job.value.outputs && f.number == n)
  {
  }

  /** In every run pending_outputs_ marks the files being written that no version has, and nothing else. */
  lemma RunMarks(states: seq<State>, steps: seq<Step>, i: nat, n: nat)
    requires Run(states, steps) && i < |states|
    ensures n in states[i].pending
            <==> || states[i].flush == Building(n)
                 || (states[i].job.Some? && states[i].job.value.open == Some(n))
                 || (states[i].job.Some? && exists f :: f in states[i].job.value.outputs && f.number == n)
  {
    RunSafe(states, steps, i);
    SafeMarks(states[i]);
    hide *;
    MarksMean(states[i], n);
  }

  // ---------------------------------------------------------------------------
  // Recovery never gets stuck

  lemma EsOfLogged(h: seq<Op>, lo: nat, hi: nat)
    requires lo <= hi <= |h|
    ensures UniqueSeq(Elems(Logged(h, lo, hi)))
    ensures forall e :: e in Elems(Logged(h, lo, hi)) ==> e.key.seqno <= |h|
  {
    LoggedElems(h, lo, hi);
    WritesUnique(h, lo, hi);
  }

  /** The replayed log as one table, or none if there is nothing to replay. */
  lemma OnePiece(h: seq<Op>, lo: nat, number: nat) returns (pieces: seq<File>, cuts: seq<nat>)
    requires lo <= |h| < MAX_SEQUENCE
    ensures Pieces(Logged(h, lo, |h|), pieces, cuts)
    ensures |pieces| <= 1 && forall f :: f in pieces ==> f.number == number
  {
    var es := Logged(h, lo, |h|);
    if es == [] {
      pieces, cuts := [], [0];
    } else {
      EsOfLogged(h, lo, |h|);
      var m := SortedRunExists(Elems(es));
      assert es[0] in Elems(es);
      assert m != [];
      assert forall i :: 0 <= i < |m| ==> m[i] in Elems(m);
      var f := File(number, 0, m[0].key, m[|m| - 1].key, m);
      assert ValidFile(f);
      pieces, cuts := [f], [0, |es|];
      assert es[0..|es|] == es;
    }
  }

  lemma RecoveredDistinguishable(v: Version, pieces: seq<File>, next: nat, l: nat)
    requires |v.levels| == NUM_LEVELS && l < NUM_LEVELS && UniqueNumbers(v) && WellFormed(v)
    requires FreshPieces(v, pieces, next) && forall f :: f in pieces ==> ValidFile(f)
    ensures Distinguishable(LevelAfter(v, RecoverEdit(pieces), l))
  {
    forall f, g | f in LevelAfter(v, RecoverEdit(pieces), l) && g in LevelAfter(v, RecoverEdit(pieces), l) && f != g
      ensures BySmallest(f, g) || BySmallest(g, f)
    {
      InLevelAfter(v, pieces, l, f);
      InLevelAfter(v, pieces, l, g);
      if f in pieces && g in pieces {
        if f.number == g.number {
          SamePiece(pieces, f, g);
        }
      }
      assert f.number != g.number;
      KeysComparable(f, g);
    }
  }

  lemma InLevelAfter(v: Version, pieces: seq<File>, l: nat, f: File)
    requires l < |v.levels| && f in LevelAfter(v, RecoverEdit(pieces), l)
    ensures f in v.levels[l] || (l == 0 && f in pieces)
  {
    if f !in v.levels[l] {
      var p :| p in RecoverEdit(pieces).added && p.0 == l && p.1 == f;
    }
  }

  lemma KeysComparable(f: File, g: File)
    requires f.number != g.number
    ensures BySmallest(f, g) || BySmallest(g, f)
  {
    PackInjective(f.smallest, g.smallest);
  }

  lemma PackInjective(a: InternalKey, b: InternalKey)
    ensures a == b || Less(a, b) || Less(b, a)
  {
  }

  /** From whatever a crash leaves, lost tail or not, recovery can complete. */
  lemma RecoveryPossible(s: State, lost: nat) returns (a: Step)
    requires Safe(s) && (lost == 0 || s.lastSequence + lost == |s.history|)
    ensures a.CrashAndRecover? && a.lost == lost && Enabled(s, a)
  {
    hide Readers, MemTables, Background, Tables, Staged, StandsFor, UniqueNumbers, NumbersBelow, Covered, Pieces,
        Logged;
    var v, start := s.manifest.version, s.starts[|s.starts| - 1];
    LoggedAt(s.history, start, |s.history|);
    CrashedTail(s, lost);
    var h := s.history[..|s.history| - lost];
    var pieces, cuts := OnePiece(h, s.durable, s.manifest.nextFile);
    PiecesValid(Logged(h, s.durable, |h|), pieces, cuts);
    assert FreshPieces(v, pieces, s.manifest.nextFile);
    StandingLevels(v, s.history, s.durable, s.lastSequence);
    forall l | 0 <= l < NUM_LEVELS ensures Distinguishable(LevelAfter(v, RecoverEdit(pieces), l)) {
      RecoveredDistinguishable(v, pieces, s.manifest.nextFile, l);
    }
    hide FreshPieces, WellFormed;
    var v' := EditExists(v, RecoverEdit(pieces));
    a := CrashAndRecover(lost, [], pieces, cuts, s.nextFile + 1, v');
  }

  lemma StandingLevels(v: Version, h: seq<Op>, n: nat, from: nat)
    requires n <= |h| && StandsFor(v, h, n, from)
    ensures WellFormed(v) && |v.levels| == NUM_LEVELS
  {
  }
}
