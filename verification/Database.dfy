/**
 The database as a machine over its steps (db/db_impl.cc).

 Writers, the background thread, readers and crashes interleave freely; every step below is
 what one of them does under the mutex, or between two acquisitions of it.
 */
module Database {
  import opened DbFormat
  import opened Views
  import opened VersionModel
  import opened Picking
  import opened Install
  import opened Flush
  import opened PickSafety

  // ---------------------------------------------------------------------------
  // State

  /** A compaction between its start and its end: the finished outputs, and the number of the one being written. */
  datatype Job = Job(c: Inputs, inputVersion: Version, snapshot: nat, outputs: seq<File>, open: Option<nat>)

  /** The immutable memtable on its way into a table, of which there is none if the memtable is empty. */
  datatype Flushing = Idle | Building(number: nat) | Built(table: Option<File>)

  /** A read or an iterator: it holds a sequence number, two memtables and a version. */
  datatype Reader = Reader(snapshot: nat, mem: nat, hasImm: bool, version: Version)

  /** What the descriptor records. */
  datatype Manifest = Manifest(version: Version, logNumber: nat, nextFile: nat, lastSequence: nat)

  /** What a call of LogAndApply is for. */
  datatype Change = FlushInto(level: nat) | Compact(run: seq<Entry>) | Move(inputs: Inputs)

  /** A call of LogAndApply: the mutex is free while the descriptor is written, then the version is installed. */
  datatype Commit = Commit(change: Change, manifest: Manifest, written: bool)

  datatype State = State(
    // every operation that reached the log, in order
    history: seq<Op>,
    // all memtables since the start, the last one being mem_
    mems: seq<set<Entry>>,
    // imm_ is the memtable before the last
    hasImm: bool,
    version: Version,
    lastSequence: nat,
    nextFile: nat,
    snapshots: multiset<nat>,
    readers: set<Reader>,
    // the background thread: compaction, flush (perhaps in the middle of the compaction),
    // LogAndApply, and whether DeleteObsoleteFiles is up next
    job: Option<Job>,
    flush: Flushing,
    commit: Option<Commit>,
    cleaning: bool,
    // pending_outputs_ and whether bg_error_ is set
    pending: set<nat>,
    failed: bool,
    // log file number of mem_
    memLog: nat,
    // the disk; a table file that is not finished holds nothing
    logs: map<nat, seq<Entry>>,
    tables: map<nat, Option<File>>,
    manifest: Manifest,
    // for the proof: where in the history each memtable starts, how much of the history the
    // newest one holds, how much of it is in the tables of the version and of the descriptor,
    // and which snapshots compactions gave up
    starts: seq<nat>,
    inserted: nat,
    stored: nat,
    durable: nat,
    horizon: nat
  )

  const EMPTY_VERSION := Version([[], [], [], [], [], [], []])

  function Imm(s: State): (es: set<Entry>)
  {
    if s.hasImm && |s.mems| > 1 then s.mems[|s.mems| - 2] else {}
  }

  // ---------------------------------------------------------------------------
  // Reading

  /** DBImpl::Get with the tables, memtables and version that `r` holds. */
  ghost function ReadThrough(s: State, r: Reader, k: UserKey): (v: Option<Entry>)
    requires r.mem < |s.mems| && (r.hasImm ==> r.mem > 0)
  {
    if !NoneVisible(s.mems[r.mem], k, r.snapshot) then View(s.mems[r.mem], k, r.snapshot)
    else if r.hasImm && !NoneVisible(s.mems[r.mem - 1], k, r.snapshot) then View(s.mems[r.mem - 1], k, r.snapshot)
    else SearchFrom(r.version, 0, k, r.snapshot)
  }

  /** MemTable::Get: seek to (k, s) in the sorted memtable and look at one entry. */
  method MemGet(mem: seq<Entry>, k: UserKey, s: nat) returns (done: bool, r: Option<Entry>)
    requires Sorted(mem) && UniqueSeq(Elems(mem))
    ensures done <==> !NoneVisible(Elems(mem), k, s)
    ensures done ==> r == View(Elems(mem), k, s)
  {
    var i := LowerBound(mem, SeekKey(k, s));
    SortedSeek(mem, k, s);
    if i < |mem| && mem[i].key.ukey == k {
      ViewOfNewest(Elems(mem), k, s, mem[i]);
      return true, Answer(mem[i]);
    }
    return false, None;
  }

  /** DBImpl::Get: the memtable, the immutable memtable, then the current version. */
  method Get(mem: seq<Entry>, imm: Option<seq<Entry>>, v: Version, k: UserKey, snapshot: nat,
             ghost s: State, ghost reader: Reader) returns (r: Option<Entry>)
    requires LevelsSearchable(v) && Sorted(mem) && UniqueSeq(Elems(mem))
    requires imm.Some? ==> Sorted(imm.value) && UniqueSeq(Elems(imm.value))
    requires reader.mem < |s.mems| && (reader.hasImm ==> reader.mem > 0)
    requires reader.snapshot == snapshot && reader.version == v && s.mems[reader.mem] == Elems(mem)
    requires reader.hasImm == imm.Some? && (imm.Some? ==> s.mems[reader.mem - 1] == Elems(imm.value))
    ensures r == ReadThrough(s, reader, k)
  {
    var done;
    done, r := MemGet(mem, k, snapshot);
    if !done && imm.Some? {
      done, r := MemGet(imm.value, k, snapshot);
    }
    if !done {
      r := VersionModel.Get(v, k, snapshot);
    }
  }

  // ---------------------------------------------------------------------------
  // The log files

  /** The entries of the operations numbered lo+1 .. hi, in order. */
  function Logged(h: seq<Op>, lo: nat, hi: nat): (es: seq<Entry>)
    requires lo <= hi <= |h|
    decreases hi - lo
  {
    if lo == hi then [] else Logged(h, lo, hi - 1) + [EntryAt(h, hi - 1)]
  }

  /** What replaying the log files numbered lo .. hi-1 in order of their numbers yields. */
  function LogTail(logs: map<nat, seq<Entry>>, lo: nat, hi: nat): (es: seq<Entry>)
    decreases if lo < hi then hi - lo else 0
  {
    if lo >= hi then []
    else LogTail(logs, lo, hi - 1) + (if hi - 1 in logs then logs[hi - 1] else [])
  }

  function MaxSequence(es: seq<Entry>, s: nat): (r: nat)
  {
    if es == [] then s
    else
      var r := MaxSequence(es[..|es| - 1], s);
      if es[|es| - 1].key.seqno > r then es[|es| - 1].key.seqno else r
  }

  // ---------------------------------------------------------------------------
  // Steps

  datatype Step =
    | LogGroup(ops: seq<Op>)
    | InsertOne
    | Publish
    | SwitchMemTable
    | StartFlush
    | FinishFlush(table: Option<File>)
    | AbandonFlush
    | StartCompaction(inputs: Inputs, oldest: nat)
    | OpenOutput
    | FinishOutput(output: File)
    | AbandonCompaction
    | StageVersion(change: Change, after: Version)
    | WriteDescriptor
    | InstallVersion
    | DeleteObsoleteFiles(gone: set<nat>, goneLogs: set<nat>)
    | TakeSnapshot
    | ReleaseSnapshot(number: nat)
    | OpenReader(at: nat)
    | CloseReader(reader: Reader)
    | CrashAndRecover(lost: nat, orphans: seq<File>, pieces: seq<File>, cuts: seq<nat>, newLog: nat, recovered: Version)

  /** versions_->LastSequence() with no snapshots, else the oldest snapshot. */
  ghost predicate IsOldest(s: State, n: nat)
  {
    && (s.snapshots == multiset{} ==> n == s.lastSequence)
    && (s.snapshots != multiset{} ==> n in s.snapshots && forall m :: m in s.snapshots ==> n <= m)
  }

  ghost predicate UsesNumber(v: Version, n: nat)
  {
    exists l, f :: 0 <= l < |v.levels| && f in v.levels[l] && f.number == n
  }

  /** AddLiveFiles: the tables of all versions that somebody holds a reference to. */
  ghost predicate InSomeVersion(s: State, n: nat)
  {
    || UsesNumber(s.version, n)
    || (exists r :: r in s.readers && UsesNumber(r.version, n))
    || (s.job.Some? && UsesNumber(s.job.value.inputVersion, n))
  }

  /** The files DeleteObsoleteFiles may remove; it removes none after a background error. */
  ghost predicate Obsolete(s: State, gone: set<nat>, goneLogs: set<nat>)
  {
    && (forall n :: n in gone ==> n !in s.pending && !InSomeVersion(s, n))
    && (forall n :: n in goneLogs ==> n < s.manifest.logNumber)
    && (s.failed ==> gone == {} && goneLogs == {})
  }

  /** Level-0 tables for consecutive pieces of the replayed log. */
  ghost predicate Pieces(es: seq<Entry>, pieces: seq<File>, cuts: seq<nat>)
  {
    && |cuts| == |pieces| + 1 && cuts[0] == 0 && cuts[|pieces|] == |es|
    && (forall i, j :: 0 <= i < j < |cuts| ==> cuts[i] <= cuts[j] <= |es|)
    && (forall i :: 0 <= i < |pieces| ==>
        ValidFile(pieces[i]) && Elems(pieces[i].entries) == Elems(es[cuts[i]..cuts[i + 1]]))
    && (forall i, j :: 0 <= i < j < |pieces| ==> pieces[i].number < pieces[j].number)
  }

  function RecoverEdit(pieces: seq<File>): (e: Edit)
  {
    Edit({}, set f | f in pieces :: (0, f))
  }

  /** The tables whose files have been written, later ones replacing earlier ones of the same number. */
  function WithTables(tables: map<nat, Option<File>>, fs: seq<File>): (r: map<nat, Option<File>>)
  {
    if fs == [] then tables
    else WithTables(tables, fs[..|fs| - 1])[fs[|fs| - 1].number := Some(fs[|fs| - 1])]
  }

  /** Closing a file: it becomes a table, unless the file has been removed in the meantime. */
  function Finished(tables: map<nat, Option<File>>, n: nat, f: File): (r: map<nat, Option<File>>)
  {
    if n in tables then tables[n := Some(f)] else tables
  }

  /** The numbers of the outputs of a compaction, the unfinished one included. */
  function OutputNumbers(j: Job): (ns: set<nat>)
  {
    (set f | f in j.outputs :: f.number) + (if j.open.Some? then {j.open.value} else {})
  }

  /** The log files that a crash leaves, without the last `lost` entries of the newest. */
  function TornLogs(s: State, lost: nat): (logs: map<nat, seq<Entry>>)
    requires s.memLog in s.logs && lost <= |s.logs[s.memLog]|
  {
    s.logs[s.memLog := s.logs[s.memLog][..|s.logs[s.memLog]| - lost]]
  }

  /** The background thread is not in the middle of a flush, of LogAndApply or before a cleanup. */
  predicate Free(s: State)
  {
    s.flush.Idle? && s.commit.None? && !s.cleaning
  }

  /** WriteLevel0Table has succeeded; the table goes to `level`. */
  ghost predicate FlushChange(s: State, level: nat, v': Version)
  {
    && s.hasImm && s.flush.Built?
    && if s.flush.table.None? then v' == s.version
       else && |s.version.levels| == NUM_LEVELS && level <= MAX_MEM_COMPACT_LEVEL
            && (level > 0 ==> FreeUpTo(s.version, level, s.flush.table.value.smallest.ukey,
                                       s.flush.table.value.largest.ukey))
            && Edited(s.version, FlushEdit(level, s.flush.table.value), v')
  }

  /** InstallCompactionResults: the outputs hold what the compaction kept of the merged inputs `m`. */
  ghost predicate CompactChange(s: State, m: seq<Entry>, v': Version)
  {
    && s.job.Some? && s.job.value.open.None? && s.flush.Idle?
    && var j := s.job.value;
       && Rewritten(j.inputVersion, j.c, m, j.snapshot, j.outputs) && Disjoint(j.outputs)
       && Edited(s.version, CompactionEdit(j.c, j.outputs), v')
  }

  /** A trivial move: one file and nothing that overlaps it. */
  ghost predicate MoveChange(s: State, c: Inputs, v': Version)
  {
    && s.job.None? && s.flush.Idle? && |s.version.levels| == NUM_LEVELS
    && WellChosen(s.version, c) && SafeBoundary(s.version, c)
    && |c.in0| == 1 && c.in1 == [] && Edited(s.version, CompactionEdit(c, c.in0), v')
  }

  ghost predicate Allowed(s: State, change: Change, v': Version)
  {
    match change
    case FlushInto(level) => FlushChange(s, level, v')
    case Compact(m) => CompactChange(s, m, v')
    case Move(c) => MoveChange(s, c, v')
  }

  ghost predicate Enabled(s: State, a: Step)
    requires |s.mems| == |s.starts| > 0
  {
    match a
    case LogGroup(ops) =>
      s.inserted == s.lastSequence == |s.history| && |s.history| + |ops| < MAX_SEQUENCE && s.memLog in s.logs
    case InsertOne => s.inserted < |s.history|
    case Publish => s.inserted == |s.history|
    case SwitchMemTable => !s.hasImm && s.inserted == s.lastSequence == |s.history| && !s.failed
    // a flush inside a compaction does not look at bg_error_
    case StartFlush => s.hasImm && Free(s) && (s.failed ==> s.job.Some?)
    case FinishFlush(table) =>
      && s.hasImm && s.flush.Building?
      && (table.None? <==> Imm(s) == {})
      && (table.Some? ==> table.value.number == s.flush.number && ValidFile(table.value)
                          && Elems(table.value.entries) == Imm(s))
    case AbandonFlush => !s.flush.Idle? && s.commit.None?
    case StartCompaction(c, n) =>
      && s.job.None? && Free(s) && !s.failed && |s.version.levels| == NUM_LEVELS
      && WellChosen(s.version, c) && SafeBoundary(s.version, c) && IsOldest(s, n)
    case OpenOutput => s.job.Some? && Free(s) && s.job.value.open.None?
    case FinishOutput(f) => s.job.Some? && Free(s) && s.job.value.open == Some(f.number) && ValidFile(f)
    case AbandonCompaction => s.job.Some? && Free(s)
    case StageVersion(change, v') => s.commit.None? && !s.cleaning && Allowed(s, change, v')
        && (change.Move? ==> !s.failed)
    case WriteDescriptor => s.commit.Some? && !s.commit.value.written
    case InstallVersion => s.commit.Some? && s.commit.value.written && (s.commit.value.change.Compact? ==> s.job.Some?)
    case DeleteObsoleteFiles(gone, goneLogs) => s.cleaning && Obsolete(s, gone, goneLogs)
    case TakeSnapshot => true
    case ReleaseSnapshot(n) => n in s.snapshots
    case OpenReader(n) => n == s.lastSequence || n in s.snapshots
    case CloseReader(r) => r in s.readers
    case CrashAndRecover(lost, orphans, pieces, cuts, newLog, v') =>
      // a group that was not acknowledged may or may not have reached the log
      && (lost == 0 || s.lastSequence + lost == |s.history|)
      && s.memLog in s.logs && lost <= |s.logs[s.memLog]| && lost <= |s.history|
      // tables of recovery attempts that did not reach the descriptor
      && (forall f :: f in orphans ==> s.manifest.nextFile <= f.number < newLog)
      && Pieces(LogTail(TornLogs(s, lost), s.manifest.logNumber, s.nextFile), pieces, cuts)
      && (forall f :: f in pieces ==> s.manifest.nextFile <= f.number < newLog)
      && s.manifest.nextFile <= newLog && (forall n :: n in s.logs ==> n < newLog)
      && Edited(s.manifest.version, RecoverEdit(pieces), v')
  }

  /** How much of the history the version after a change stands for. */
  function Covered(s: State, change: Change): (n: nat)
    requires |s.starts| > 0
  {
    if change.FlushInto? then s.starts[|s.starts| - 1] else s.stored
  }

  function Later(a: nat, b: nat): (n: nat)
  {
    if a > b then a else b
  }

  /** The descriptor record: LogAndApply takes the counters before it lets go of the mutex. */
  function Record(s: State, change: Change, v': Version): (m: Manifest)
  {
    Manifest(v', if change.FlushInto? then s.memLog else s.manifest.logNumber, s.nextFile, s.lastSequence)
  }

  /** The version goes in; a finished flush or compaction is followed by a cleanup. */
  function Installed(s: State, change: Change, v': Version): (s': State)
    requires |s.starts| > 0 && (change.Compact? ==> s.job.Some?)
  {
    var s1 := s.(version := v', commit := None, stored := Covered(s, change), cleaning := !change.Move?);
    match change
    case FlushInto(_) => s1.(hasImm := false, flush := Idle)
    case Compact(_) =>
      s1.(job := None, pending := s.pending - OutputNumbers(s.job.value),
          horizon := Later(s.job.value.snapshot, s.horizon))
    case Move(_) => s1
  }

  function Next(s: State, a: Step): (s': State)
    requires |s.mems| == |s.starts| > 0 && Enabled(s, a)
  {
    var last := |s.mems| - 1;
    match a
    case LogGroup(ops) =>
      var h := s.history + ops;
      s.(history := h, logs := s.logs[s.memLog := s.logs[s.memLog] + Logged(h, |s.history|, |h|)])
    case InsertOne =>
      s.(mems := s.mems[last := s.mems[last] + {EntryAt(s.history, s.inserted)}], inserted := s.inserted + 1)
    case Publish => s.(lastSequence := |s.history|)
    case SwitchMemTable =>
      s.(mems := s.mems + [{}], hasImm := true, starts := s.starts + [|s.history|],
         memLog := s.nextFile, nextFile := s.nextFile + 1, logs := s.logs[s.nextFile := []])
    case StartFlush =>
      s.(flush := Building(s.nextFile), pending := s.pending + {s.nextFile}, tables := s.tables[s.nextFile := None],
         nextFile := s.nextFile + 1)
    case FinishFlush(table) =>
      var n := s.flush.number;
      s.(flush := Built(table), pending := s.pending - {n},
         tables := if table.Some? then Finished(s.tables, n, table.value) else s.tables - {n})
    case AbandonFlush =>
      s.(flush := Idle, pending := if s.flush.Building? then s.pending - {s.flush.number}
         else s.pending, failed := true)
    case StartCompaction(c, n) => s.(job := Some(Job(c, s.version, n, [], None)))
    case OpenOutput =>
      s.(job := Some(s.job.value.(open := Some(s.nextFile))), pending := s.pending + {s.nextFile},
         tables := s.tables[s.nextFile := None], nextFile := s.nextFile + 1)
    case FinishOutput(f) =>
      s.(job := Some(s.job.value.(outputs := s.job.value.outputs + [f], open := None)),
         tables := Finished(s.tables, f.number, f))
    case AbandonCompaction =>
      s.(job := None, pending := s.pending - OutputNumbers(s.job.value), failed := true, cleaning := true)
    case StageVersion(change, v') => s.(commit := Some(Commit(change, Record(s, change, v'), false)))
    case WriteDescriptor =>
      var c := s.commit.value;
      s.(commit := Some(c.(written := true)), manifest := c.manifest, durable := Covered(s, c.change))
    case InstallVersion => Installed(s, s.commit.value.change, s.commit.value.manifest.version)
    case DeleteObsoleteFiles(gone, goneLogs) =>
      s.(tables := s.tables - gone, logs := s.logs - goneLogs, cleaning := false)
    case TakeSnapshot => s.(snapshots := s.snapshots + multiset{s.lastSequence})
    case ReleaseSnapshot(n) => s.(snapshots := s.snapshots - multiset{n})
    case OpenReader(n) => s.(readers := s.readers + {Reader(n, last, s.hasImm, s.version)})
    case CloseReader(r) => s.(readers := s.readers - {r})
    case CrashAndRecover(lost, orphans, pieces, cuts, newLog, v') =>
      var h := s.history[..|s.history| - lost];
      var logs := TornLogs(s, lost);
      var lastSeq := MaxSequence(LogTail(logs, s.manifest.logNumber, s.nextFile), s.manifest.lastSequence);
      State(h, [{}], false, v', lastSeq, newLog + 1, multiset{}, {}, None, Idle, None, true, {}, false, newLog,
            logs[newLog := []], WithTables(WithTables(s.tables, orphans), pieces),
            Manifest(v', newLog, newLog + 1, lastSeq),
            [|h|], |h|, |h|, |h|, |h|)
  }

  /** A new database, opened: an empty version, one log, one memtable. */
  const INITIAL := State([], [{}], false, EMPTY_VERSION, 0, 4, multiset{}, {}, None, Idle, None, true, {}, false, 3,
                         map[3 := []], map[], Manifest(EMPTY_VERSION, 3, 4, 0), [0], 0, 0, 0, 0)
}
