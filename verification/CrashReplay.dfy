/**
 What a crash leaves of a log file, byte for byte, replays to what the database machine says is
 left (db/db_impl.cc: RecoverLogFile, db/version_set.cc: Recover).
 */
module CrashReplay {
  import opened DbFormat
  import opened Coding
  import opened Views
  import D = Database
  import Log
  import Recovery
  import VersionEdits
  import WB = WriteBatch

  // ---------------------------------------------------------------------------
  // Replaying records

  /** What InsertInto adds to the memtable for a batch. */
  function EntriesFrom(ops: seq<WB.Op>, first: nat): (es: seq<Entry>)
    ensures |es| == |ops| && forall i :: 0 <= i < |ops| ==> es[i] == EntryFor(ops[i], first + i)
  {
    seq(|ops|, i requires 0 <= i < |ops| => EntryFor(ops[i], first + i))
  }

  function EntryFor(op: WB.Op, n: nat): (e: Entry)
  {
    match op
    case Put(key, val) => Entry(InternalKey(Rank(key), n, Value), val)
    case Delete(key) => Entry(InternalKey(Rank(key), n, Deletion), [])
  }

  /** A record that is too small is reported and skipped. */
  function ReplayRecord(record: Slice): (es: seq<Entry>)
  {
    if |record| < WB.HEADER then [] else EntriesFrom(WB.IteratedOps(record).0, FromFixed(record[..8]))
  }

  function ReplayRecords(records: seq<Slice>): (es: seq<Entry>)
  {
    if records == [] then [] else ReplayRecords(records[..|records| - 1]) + ReplayRecord(records[|records| - 1])
  }

  /** The last number that a batch gives out according to its header, if that is beyond `m`. */
  function MaxAfter(record: Slice, m: nat): (r: nat)
  {
    if |record| < WB.HEADER then m
    else
      var last := FromFixed(record[..8]) + FromFixed(record[8..12]) - 1;
      if last > m then last else m
  }

  function MaxOfRecords(records: seq<Slice>, m: nat): (r: nat)
  {
    if records == [] then m else MaxAfter(records[|records| - 1], MaxOfRecords(records[..|records| - 1], m))
  }

  /** RecoverLogFile, errors in records ignored: the entries of all batches and the largest sequence number. */
  method RecoverLogFile(file: Slice, maxSequence0: nat) returns (mem: seq<Entry>, maxSequence: nat)
    ensures mem == ReplayRecords(Log.RecordsFrom(file, 0).0)
    ensures maxSequence == MaxOfRecords(Log.RecordsFrom(file, 0).0, maxSequence0)
  {
    hide Log.RecordsFrom, FromFixed, WB.IteratedOps;
    var records, _ := Log.ReadLog(file);
    mem, maxSequence := [], maxSequence0;
    for i := 0 to |records|
      invariant mem == ReplayRecords(records[..i]) && maxSequence == MaxOfRecords(records[..i], maxSequence0)
    {
      assert records[..i + 1][..i] == records[..i] && records[..i + 1][i] == records[i];
      var record := records[i];
      if |record| >= WB.HEADER {
        var ops, _ := WB.Iterate(record);
        mem := mem + EntriesFrom(ops, FromFixed(record[..8]));
        var lastSeq := FromFixed(record[..8]) + FromFixed(record[8..12]) - 1;
        if lastSeq > maxSequence {
          maxSequence := lastSeq;
        }
      }
    }
    assert records[..|records|] == records;
  }

  // ---------------------------------------------------------------------------
  // Groups of writers as records

  /** A group: the number of its first operation, and its operations. */
  datatype Group = Group(first: nat, ops: seq<WB.Op>)

  ghost predicate Fits(g: Group)
  {
    WB.Fits(g.ops) && g.first < TWO64
  }

  function RecordOf(g: Group): (s: Slice)
  {
    Fixed(8, g.first) + Fixed(4, |g.ops|) + WB.OpsBytes(g.ops)
  }

  function Records(gs: seq<Group>): (rs: seq<Slice>)
    ensures |rs| == |gs| && forall i :: 0 <= i < |gs| ==> rs[i] == RecordOf(gs[i])
  {
    seq(|gs|, i requires 0 <= i < |gs| => RecordOf(gs[i]))
  }

  /** How many operations the first `n` groups have. */
  function Count(gs: seq<Group>, n: nat): (c: nat)
    requires n <= |gs|
  {
    if n == 0 then 0 else Count(gs, n - 1) + |gs[n - 1].ops|
  }

  /** The operations of a group are the history's, from its number on. */
  ghost predicate GroupFrom(g: Group, h: seq<Op>, at: nat)
  {
    && g.first == at + 1 && at + |g.ops| <= |h|
    && forall i :: 0 <= i < |g.ops| ==> EntryFor(g.ops[i], at + i + 1) == EntryAt(h, at + i)
  }

  /** The groups are those of the history from `lo` on, one after the other. */
  ghost predicate GroupsOf(gs: seq<Group>, h: seq<Op>, lo: nat)
  {
    && lo + Count(gs, |gs|) == |h|
    && forall n :: 0 <= n < |gs| ==> Fits(gs[n]) && GroupFrom(gs[n], h, lo + Count(gs, n))
  }

  lemma RecordBack(g: Group)
    requires Fits(g)
    ensures ReplayRecord(RecordOf(g)) == EntriesFrom(g.ops, g.first)
    ensures |RecordOf(g)| >= WB.HEADER && FromFixed(RecordOf(g)[..8]) == g.first
            && FromFixed(RecordOf(g)[8..12]) == |g.ops|
  {
    hide Fixed, FromFixed, WB.OpsBytes, WB.IteratedOps, Pow2;
    var r := RecordOf(g);
    assert r[..8] == Fixed(8, g.first) && r[8..12] == Fixed(4, |g.ops|);
    Pow2Widths();
    FixedRoundTrip(8, g.first);
    FixedRoundTrip(4, |g.ops|);
    WB.Iterated(r, g.ops, g.first);
  }

  lemma GroupLogged(g: Group, h: seq<Op>, at: nat)
    requires GroupFrom(g, h, at)
    ensures EntriesFrom(g.ops, g.first) == D.Logged(h, at, at + |g.ops|)
  {
    Recovery.LoggedAt(h, at, at + |g.ops|);
  }

  lemma {:induction false} CountGrows(gs: seq<Group>, n: nat, m: nat)
    requires n <= m <= |gs|
    ensures Count(gs, n) <= Count(gs, m)
  {
    if n < m {
      CountGrows(gs, n, m - 1);
    }
  }

  lemma OneMoreGroup(before: seq<Slice>, g: Group, h: seq<Op>, lo: nat, at: nat)
    requires Fits(g) && GroupFrom(g, h, at) && lo <= at && ReplayRecords(before) == D.Logged(h, lo, at)
    ensures at + |g.ops| <= |h| && ReplayRecords(before + [RecordOf(g)]) == D.Logged(h, lo, at + |g.ops|)
  {
    hide ReplayRecord, RecordOf, EntriesFrom, D.Logged, Fits;
    RecordBack(g);
    GroupLogged(g, h, at);
    hide GroupFrom;
    assert (before + [RecordOf(g)])[..|before|] == before;
    Recovery.LoggedJoin(h, lo, at, at + |g.ops|);
  }

  lemma GroupAt(gs: seq<Group>, h: seq<Op>, lo: nat, n: nat)
    requires GroupsOf(gs, h, lo) && n < |gs|
    ensures Fits(gs[n]) && GroupFrom(gs[n], h, lo + Count(gs, n))
  {
    hide Count, Fits, GroupFrom;
  }

  /** The records of the first `n` groups replay to the history up to their end. */
  lemma {:induction false} GroupsReplay(gs: seq<Group>, h: seq<Op>, lo: nat, n: nat)
    requires GroupsOf(gs, h, lo) && n <= |gs|
    ensures lo + Count(gs, n) <= |h|
    ensures ReplayRecords(Records(gs)[..n]) == D.Logged(h, lo, lo + Count(gs, n))
  {
    hide ReplayRecords, RecordOf, D.Logged, GroupFrom, Fits, GroupsOf;
    CountGrows(gs, n, |gs|);
    CountAll(gs, h, lo);
    if n == 0 {
      NothingReplays(h, lo);
      assert Records(gs)[..0] == [];
    } else {
      GroupsReplay(gs, h, lo, n - 1);
      var g, at := gs[n - 1], lo + Count(gs, n - 1);
      GroupAt(gs, h, lo, n - 1);
      OneMoreGroup(Records(gs)[..n - 1], g, h, lo, at);
      FirstRecords(Records(gs), n);
    }
  }

  lemma FirstRecords(rs: seq<Slice>, n: nat)
    requires 0 < n <= |rs|
    ensures rs[..n] == rs[..n - 1] + [rs[n - 1]]
  {
  }

  lemma NothingReplays(h: seq<Op>, lo: nat)
    requires lo <= |h|
    ensures ReplayRecords([]) == D.Logged(h, lo, lo)
  {
    Recovery.LoggedAt(h, lo, lo);
  }

  /** Whatever prefix of the log file a crash leaves: it replays to the groups that are wholly in it. */
  lemma PrefixReplays(gs: seq<Group>, h: seq<Op>, lo: nat, cut: nat)
    requires GroupsOf(gs, h, lo) && cut <= |Log.LogFile(Records(gs))|
    ensures var n := Log.Complete(Records(gs), cut);
            && lo + Count(gs, n) <= |h|
            && ReplayRecords(Log.RecordsFrom(Log.LogFile(Records(gs))[..cut], 0).0)
                == D.Logged(h, lo, lo + Count(gs, n))
  {
    hide Log.LogFile, Log.RecordsFrom, Log.Complete, ReplayRecords, D.Logged, GroupsOf;
    Log.CrashPrefix(Records(gs), cut);
    GroupsReplay(gs, h, lo, Log.Complete(Records(gs), cut));
  }

  lemma KeptComplete(records: seq<Slice>, cut: nat, a: nat)
    requires a <= |records| && |Log.LogFile(records[..a])| <= cut
    ensures a <= Log.Complete(records, cut)
  {
    hide Log.LogFile, Log.Complete;
    var n := Log.Complete(records, cut);
    if n < a {
      assert records[..a][..n + 1] == records[..n + 1];
      Log.LogFilePrefix(records[..a], n + 1);
    }
  }

  /**
   A crash that keeps the acknowledged groups, and any bytes of the last one, leaves the newest log file
   as the database machine has it: without the last group, or with all of it.
   */
  lemma TornFileReplays(s: D.State, gs: seq<Group>, acknowledged: nat, cut: nat) returns (lost: nat)
    requires |s.starts| > 0 && s.memLog in s.logs
    requires var start := s.starts[|s.starts| - 1];
             && start <= |s.history| && s.logs[s.memLog] == D.Logged(s.history, start, |s.history|)
             && GroupsOf(gs, s.history, start)
             && acknowledged <= |gs| <= acknowledged + 1 && start + Count(gs, acknowledged) == s.lastSequence
    requires |Log.LogFile(Records(gs)[..acknowledged])| <= cut <= |Log.LogFile(Records(gs))|
    ensures lost == 0 || s.lastSequence + lost == |s.history|
    ensures lost <= |s.logs[s.memLog]|
    ensures ReplayRecords(Log.RecordsFrom(Log.LogFile(Records(gs))[..cut], 0).0) == D.TornLogs(s, lost)[s.memLog]
  {
    hide Log.LogFile, Log.RecordsFrom, Log.Complete, ReplayRecords, Records, D.Logged, Count, GroupsOf;
    var h, start := s.history, s.starts[|s.starts| - 1];
    var n := Log.Complete(Records(gs), cut);
    CountAll(gs, h, start);
    KeptComplete(Records(gs), cut, acknowledged);
    PrefixReplays(gs, h, start, cut);
    lost := |h| - (start + Count(gs, n));
    assert n == acknowledged || n == |gs|;
    LoggedCut(h, start, start + Count(gs, n));
  }

  lemma CountAll(gs: seq<Group>, h: seq<Op>, lo: nat)
    requires GroupsOf(gs, h, lo)
    ensures lo + Count(gs, |gs|) == |h|
  {
  }

  lemma LoggedCut(h: seq<Op>, lo: nat, mid: nat)
    requires lo <= mid <= |h|
    ensures |D.Logged(h, lo, |h|)| == |h| - lo && D.Logged(h, lo, |h|)[..mid - lo] == D.Logged(h, lo, mid)
  {
    Recovery.LoggedAt(h, lo, |h|);
    Recovery.LoggedAt(h, lo, mid);
  }

  /** The headers of the batches tell the largest number that the replayed entries have. */
  lemma {:induction false} MaxOfGroups(gs: seq<Group>, h: seq<Op>, lo: nat, n: nat, m: nat)
    requires GroupsOf(gs, h, lo) && n <= |gs| && lo <= m
    ensures lo + Count(gs, n) <= |h|
    ensures MaxOfRecords(Records(gs)[..n], m) == if lo + Count(gs, n) > m then lo + Count(gs, n) else m
  {
    hide RecordOf, FromFixed;
    CountGrows(gs, n, |gs|);
    if n > 0 {
      MaxOfGroups(gs, h, lo, n - 1, m);
      RecordBack(gs[n - 1]);
      assert Records(gs)[..n][..n - 1] == Records(gs)[..n - 1];
    }
  }

  // ---------------------------------------------------------------------------
  // The descriptor

  function EditRecords(es: seq<VersionEdits.VersionEdit>): (rs: seq<Slice>)
    ensures |rs| == |es| && forall i :: 0 <= i < |es| ==> rs[i] == VersionEdits.FieldsBytes(VersionEdits.Fields(es[i]))
  {
    seq(|es|, i requires 0 <= i < |es| => VersionEdits.FieldsBytes(VersionEdits.Fields(es[i])))
  }

  /** VersionSet::Recover decodes every record into an edit of its own. */
  function DecodeAll(records: seq<Slice>): (es: seq<Option<VersionEdits.VersionEdit>>)
    ensures |es| == |records| && forall i :: 0 <= i < |es| ==>
            es[i] == VersionEdits.Decode(records[i], VersionEdits.EMPTY_EDIT)
  {
    seq(|records|, i requires 0 <= i < |records| => VersionEdits.Decode(records[i], VersionEdits.EMPTY_EDIT))
  }

  /** A descriptor cut anywhere reads back as its edits up to some point: a commit is there or it is not. */
  lemma DescriptorPrefix(es: seq<VersionEdits.VersionEdit>, cut: nat)
    requires (forall i :: 0 <= i < |es| ==> VersionEdits.Encodable(es[i])) && cut <= |Log.LogFile(EditRecords(es))|
    ensures var n, found := Log.Complete(EditRecords(es), cut),
            DecodeAll(Log.RecordsFrom(Log.LogFile(EditRecords(es))[..cut], 0).0);
            |found| == n && forall i :: 0 <= i < n ==> found[i] == Some(es[i])
  {
    hide Log.LogFile, Log.RecordsFrom, Log.Complete, VersionEdits.Fields, VersionEdits.FieldsBytes,
        VersionEdits.Encodable, VersionEdits.Decode;
    Log.CrashPrefix(EditRecords(es), cut);
    forall i | 0 <= i < Log.Complete(EditRecords(es), cut)
      ensures VersionEdits.Decode(EditRecords(es)[i], VersionEdits.EMPTY_EDIT) == Some(es[i])
    {
      VersionEdits.EditRoundTrip(es[i]);
    }
  }
}
