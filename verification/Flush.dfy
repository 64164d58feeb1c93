/**
 Adding a flushed memtable to a version, possibly while a compaction is running
 (db/db_impl.cc: WriteLevel0Table, CompactMemTable, DoCompactionWork), and moving one file down.
 */
module Flush {
  import opened DbFormat
  import opened Views
  import opened VersionModel
  import opened Picking
  import opened CompactionWork
  import opened Install

  ghost function FlushEdit(level: nat, f: File): (e: Edit)
  {
    Edit({}, {(level, f)})
  }

  /** The flushed table is newer than everything below it, and its place was picked for it. */
  ghost predicate Placeable(v: Version, level: nat, f: File)
    requires |v.levels| == NUM_LEVELS
  {
    && ValidFile(f)
    && level <= MAX_MEM_COMPACT_LEVEL
    && (level > 0 ==> FreeUpTo(v, level, f.smallest.ukey, f.largest.ukey))
    && NumbersBelow(v, f.number)
    && Above(Elems(f.entries), Contents(v))
    && UniqueSeq(Elems(f.entries))
  }

  lemma FlushLevels(v: Version, level: nat, f: File, v': Version)
    requires Edited(v, FlushEdit(level, f), v')
    ensures forall l, g :: 0 <= l < NUM_LEVELS ==> (g in v'.levels[l] <==> g in v.levels[l] || (l == level && g == f))
  {
    forall l, g | 0 <= l < NUM_LEVELS ensures g in v'.levels[l] <==> g in v.levels[l] || (l == level && g == f) {
      assert (l, g) in FlushEdit(level, f).added <==> l == level && g == f;
    }
  }

  lemma FlushEntries(v: Version, level: nat, f: File, v': Version)
    requires WellFormed(v) && level < NUM_LEVELS && Edited(v, FlushEdit(level, f), v')
    ensures forall l :: 0 <= l < NUM_LEVELS ==>
              EntriesOf(v'.levels[l]) == EntriesOf(v.levels[l]) + (if l == level then Elems(f.entries) else {})
    ensures Contents(v') == Contents(v) + Elems(f.entries)
  {
    FlushLevels(v, level, f, v');
    forall l | 0 <= l < NUM_LEVELS
      ensures EntriesOf(v'.levels[l]) == EntriesOf(v.levels[l]) + (if l == level then Elems(f.entries) else {})
    {
      assert forall g :: g in v'.levels[l] <==> g in v.levels[l] || (l == level && g == f);
    }
    forall e ensures e in Contents(v') <==> e in Contents(v) || e in Elems(f.entries) {
      if e in Elems(f.entries) {
        assert e in EntriesOf(v'.levels[level]);
      }
      if e in Contents(v) {
        var l :| 0 <= l < NUM_LEVELS && e in EntriesOf(v.levels[l]);
        assert e in EntriesOf(v'.levels[l]);
      }
    }
  }

  lemma FreeMeansApart(f: File, g: File)
    requires ValidFile(f) && ValidFile(g)
    requires !Touches(g, Range(Some(f.smallest.ukey), Some(f.largest.ukey)))
    ensures Apart(f, g) && forall k :: !(Covers(f, k) && Covers(g, k))
  {
    InRange(f, f.entries[0]);
    InRange(g, g.entries[0]);
  }

  lemma FreeMeansSeparated(f: File, g: File)
    requires ValidFile(f) && ValidFile(g)
    requires !Touches(g, Range(Some(f.smallest.ukey), Some(f.largest.ukey)))
    ensures SeparatedFrom(g, Elems(f.entries))
  {
    forall e | e in f.entries
      ensures g.largest.ukey < f.smallest.ukey ==> Less(g.largest, e.key)
      ensures f.largest.ukey < g.smallest.ukey ==> Less(e.key, g.smallest)
    {
      InRange(f, e);
    }
  }

  lemma FlushWellFormed(v: Version, level: nat, f: File, v': Version)
    requires WellFormed(v) && UniqueNumbers(v) && Placeable(v, level, f) && Edited(v, FlushEdit(level, f), v')
    ensures WellFormed(v')
  {
    FlushLevels(v, level, f, v');
    forall l, g | 0 <= l < NUM_LEVELS && g in v'.levels[l] ensures ValidFile(g) {
      assert g in v.levels[l] || g == f;
    }
    forall l | 1 <= l < NUM_LEVELS ensures Disjoint(v'.levels[l]) {
      assert forall g :: g in v'.levels[l] <==> g in v.levels[l] || (l == level && g == f);
      if l == level {
        forall g | g in v.levels[l] ensures SeparatedFrom(g, Elems(f.entries)) {
          FreeMeansSeparated(f, g);
        }
        MixedDisjoint(v.levels[l], [], [f], Elems(f.entries), v'.levels[l]);
      } else {
        MixedDisjoint(v.levels[l], [], [], {}, v'.levels[l]);
      }
    }
    FlushDistinct(v, level, f, v'.levels[0]);
  }

  lemma FlushDistinct(v: Version, level: nat, f: File, fs: seq<File>)
    requires |v.levels| == NUM_LEVELS && UniqueNumbers(v) && NumbersBelow(v, f.number) && SortedFiles(fs)
    requires forall g :: g in fs ==> g in v.levels[0] || g == f
    ensures DistinctNumbers(fs)
  {
    forall i, j | 0 <= i < j < |fs| ensures fs[i].number != fs[j].number {
      assert BySmallest(fs[i], fs[j]);
      assert fs[i] in fs && fs[j] in fs;
    }
  }

  lemma FreeLevelsShareNoKeys(v: Version, level: nat, f: File, l: nat)
    requires WellFormed(v) && Placeable(v, level, f) && l <= level && level > 0
    ensures forall e, x :: e in Elems(f.entries) && x in EntriesOf(v.levels[l]) ==> e.key.ukey != x.key.ukey
  {
    forall e, x | e in Elems(f.entries) && x in EntriesOf(v.levels[l]) ensures e.key.ukey != x.key.ukey {
      var g :| g in v.levels[l] && x in g.entries;
      InRange(f, e);
      InRange(g, x);
      FreeMeansApart(f, g);
    }
  }

  lemma FlushLayered(v: Version, level: nat, f: File, v': Version)
    requires WellFormed(v) && Layered(v) && Placeable(v, level, f) && Edited(v, FlushEdit(level, f), v')
    ensures Layered(v')
  {
    FlushEntries(v, level, f, v');
    forall l, m | 0 <= l < m < NUM_LEVELS ensures Above(EntriesOf(v'.levels[l]), EntriesOf(v'.levels[m])) {
      assert Above(EntriesOf(v.levels[l]), EntriesOf(v.levels[m]));
      if l == level {
        LevelInContents(v, m);
      } else if m == level {
        FreeLevelsShareNoKeys(v, level, f, l);
      }
    }
  }

  lemma LevelInContents(v: Version, l: nat)
    requires l < |v.levels|
    ensures EntriesOf(v.levels[l]) <= Contents(v)
  {
  }

  lemma FlushNumbers(v: Version, level: nat, f: File, v': Version)
    requires level < NUM_LEVELS && UniqueNumbers(v) && NumbersBelow(v, f.number) && Edited(v, FlushEdit(level, f), v')
    ensures UniqueNumbers(v') && NumbersBelow(v', f.number + 1)
  {
    assert |v.levels| == |v'.levels| == NUM_LEVELS;
    hide Edited, FlushEdit;
    FlushLevels(v, level, f, v');
  }

  lemma UniqueUnion(es: set<Entry>, xs: set<Entry>)
    requires UniqueSeq(es) && UniqueSeq(xs) && Above(xs, es)
    ensures UniqueSeq(es + xs)
  {
  }

  /** A flushed table joins the version without disturbing the search order. */
  lemma FlushSearchable(v: Version, level: nat, f: File, v': Version)
    requires Searchable(v) && UniqueNumbers(v) && Placeable(v, level, f) && Edited(v, FlushEdit(level, f), v')
    ensures Searchable(v') && UniqueNumbers(v')
    ensures Contents(v') == Contents(v) + Elems(f.entries)
  {
    FlushWellFormed(v, level, f, v');
    FlushLayered(v, level, f, v');
    FlushEntries(v, level, f, v');
    FlushNumbers(v, level, f, v');
    FlushLevelZero(v, level, f, v');
    UniqueUnion(Contents(v), Elems(f.entries));
  }

  lemma FlushLevelZero(v: Version, level: nat, f: File, v': Version)
    requires WellFormed(v) && LevelZeroLayered(v.levels[0]) && Placeable(v, level, f)
             && Edited(v, FlushEdit(level, f), v')
    ensures LevelZeroLayered(v'.levels[0])
  {
    FlushLevels(v, level, f, v');
    LevelInContents(v, 0);
    forall a, b | a in v'.levels[0] && b in v'.levels[0] && a.number > b.number
      ensures Above(Elems(a.entries), Elems(b.entries))
    {
      if a == f {
        EntriesSubset([b], v.levels[0]);
        assert b in [b];
        assert Elems(b.entries) <= EntriesOf([b]);
      }
    }
  }

  // ---------------------------------------------------------------------------
  // A flush in the middle of a compaction

  lemma InputRanges(v: Version, c: Inputs)
    requires WellFormed(v) && InputsOf(v, c)
    ensures forall g :: g in c.in0 + c.in1 ==> ValidFile(g)
    ensures RangesValid(c.in0 + c.in1)
    ensures forall e :: e in InputEntries(c) ==> Lo(c.in0 + c.in1) <= e.key.ukey <= Hi(c.in0 + c.in1)
  {
    var all := c.in0 + c.in1;
    forall g | g in all ensures ValidFile(g) && g.smallest.ukey <= g.largest.ukey {
      assert g in v.levels[c.level] || g in v.levels[c.level + 1];
      assert ValidFile(g);
      InRange(g, g.entries[0]);
    }
    forall e | e in InputEntries(c) ensures Lo(all) <= e.key.ukey <= Hi(all) {
      var g :| g in all && e in g.entries;
      InRange(g, e);
    }
  }

  /** The flush lands clear of every key the compaction works on, if it lands at or below its output level. */
  lemma FlushAvoidsInputs(v: Version, c: Inputs, level: nat, f: File)
    requires WellFormed(v) && InputsOf(v, c) && Gapless(c.in0 + c.in1) && Placeable(v, level, f)
    requires level > c.level
    ensures f.largest.ukey < Lo(c.in0 + c.in1) || Hi(c.in0 + c.in1) < f.smallest.ukey
  {
    InputRanges(v, c);
    InRange(f, f.entries[0]);
    AvoidsHull(c.in0 + c.in1, f.smallest.ukey, f.largest.ukey);
  }

  lemma ClearOfInputs(v: Version, c: Inputs, level: nat, f: File)
    requires WellFormed(v) && InputsOf(v, c) && Gapless(c.in0 + c.in1) && Placeable(v, level, f)
    requires level > c.level
    ensures SeparatedFrom(f, InputEntries(c))
    ensures forall e :: e in InputEntries(c) ==> !Covers(f, e.key.ukey)
  {
    FlushAvoidsInputs(v, c, level, f);
    InputRanges(v, c);
  }

  /** A running compaction stays installable when a memtable is flushed under it. */
  lemma FlushKeepsReady(iv: Version, v: Version, c: Inputs, level: nat, f: File, v': Version)
    requires WellFormed(v) && Ready(iv, v, c) && Gapless(c.in0 + c.in1)
    requires Placeable(v, level, f) && Edited(v, FlushEdit(level, f), v')
    requires WellFormed(v')
    ensures Ready(iv, v', c)
  {
    FlushLevels(v, level, f, v');
    var l0, l1 := c.level, c.level + 1;
    var all := c.in0 + c.in1;
    assert InputsOf(v', c);
    if level > l0 {
      ClearOfInputs(v, c, level, f);
    }
    NewerThanInputs(v, c, f);
    LeftBehindGrows(v, v', level, f, l0, c.in0);
    LeftBehindGrows(v, v', level, f, l1, c.in1);
    AbovePlus(EntriesOf(Without(v.levels[l0], c.in0)), Elems(f.entries), EntriesOf(c.in0),
              EntriesOf(Without(v'.levels[l0], c.in0)));
    LeftBehindShows(iv, v, c, f, EntriesOf(Without(v'.levels[l1], c.in1)));
    forall g | g in v'.levels[l1] && g !in c.in1 ensures SeparatedFrom(g, InputEntries(c)) {
      assert g in v.levels[l1] || (l1 == level && g == f);
    }
    FlushKeepsBase(iv, v, c, level, f, v');
  }

  lemma AbovePlus(a: set<Entry>, b: set<Entry>, x: set<Entry>, a': set<Entry>)
    requires Above(a, x) && Above(b, x) && a' <= a + b
    ensures Above(a', x)
  {
  }

  /** A newer table among the files left behind shows nothing below a deletion marker either. */
  lemma LeftBehindShows(iv: Version, v: Version, c: Inputs, f: File, left: set<Entry>)
    requires WellFormed(v) && Ready(iv, v, c) && Above(Elems(f.entries), InputEntries(c))
    requires EntriesOf(Without(v.levels[c.level + 1], c.in1)) <= left
    requires left <= EntriesOf(Without(v.levels[c.level + 1], c.in1)) + Elems(f.entries)
    ensures forall e :: e in InputEntries(c) && e.key.typ.Deletion? && BaseLevelFor(iv, c.level, e.key.ukey)
              ==> View(left, e.key.ukey, e.key.seqno) == None
  {
    var left0 := EntriesOf(Without(v.levels[c.level + 1], c.in1));
    forall e | e in InputEntries(c) && e.key.typ.Deletion? && BaseLevelFor(iv, c.level, e.key.ukey)
      ensures View(left, e.key.ukey, e.key.seqno) == None
    {
      assert View(left0, e.key.ukey, e.key.seqno) == None;
      forall x | Newest(left, e.key.ukey, e.key.seqno, x) ensures x.key.typ.Deletion? {
        assert Newest(left0, e.key.ukey, e.key.seqno, x);
      }
    }
  }

  lemma NewerThanInputs(v: Version, c: Inputs, f: File)
    requires WellFormed(v) && InputsOf(v, c) && Above(Elems(f.entries), Contents(v))
    ensures Above(Elems(f.entries), InputEntries(c)) && Above(Elems(f.entries), EntriesOf(c.in0))
  {
    forall e | e in InputEntries(c) ensures e in Contents(v) {
      InputsHeld(v, c, e);
    }
  }

  lemma FlushKeepsBase(iv: Version, v: Version, c: Inputs, level: nat, f: File, v': Version)
    requires WellFormed(v) && InputsOf(v, c) && Edited(v, FlushEdit(level, f), v')
    requires level > c.level ==> forall e :: e in InputEntries(c) ==> !Covers(f, e.key.ukey)
    requires forall e :: e in InputEntries(c) && BaseLevelFor(iv, c.level, e.key.ukey) ==>
             BaseLevelFor(v, c.level, e.key.ukey)
    ensures forall e :: e in InputEntries(c) && BaseLevelFor(iv, c.level, e.key.ukey) ==>
            BaseLevelFor(v', c.level, e.key.ukey)
  {
    FlushLevels(v, level, f, v');
    forall e | e in InputEntries(c) && BaseLevelFor(iv, c.level, e.key.ukey)
      ensures BaseLevelFor(v', c.level, e.key.ukey) {
      forall l, g | c.level + 2 <= l < NUM_LEVELS && g in v'.levels[l] ensures !Covers(g, e.key.ukey) {
        assert g in v.levels[l] || (l == level && g == f);
      }
    }
  }

  lemma LeftBehindGrows(v: Version, v': Version, level: nat, f: File, l: nat, ins: seq<File>)
    requires l < |v.levels| && l < |v'.levels|
    requires forall g :: g in v'.levels[l] <==> g in v.levels[l] || (l == level && g == f)
    ensures EntriesOf(Without(v.levels[l], ins)) <= EntriesOf(Without(v'.levels[l], ins))
    ensures EntriesOf(Without(v'.levels[l], ins)) <= EntriesOf(Without(v.levels[l], ins)) + Elems(f.entries)
  {
    EntriesSubset(Without(v.levels[l], ins), Without(v'.levels[l], ins));
    forall e | e in EntriesOf(Without(v'.levels[l], ins))
      ensures e in EntriesOf(Without(v.levels[l], ins)) || e in Elems(f.entries)
    {
      var g :| g in Without(v'.levels[l], ins) && e in g.entries;
      assert g in v.levels[l] ==> g in Without(v.levels[l], ins);
    }
  }

  // ---------------------------------------------------------------------------
  // Numbers

  ghost predicate NewNumbers(v: Version, c: Inputs, outs: seq<File>)
  {
    FreshNumbers(v, outs) || (outs == c.in0 && |outs| == 1)
  }

  lemma HeldOnce(v: Version, c: Inputs, outs: seq<File>, l: nat, m: nat, f: File, g: File)
    requires |v.levels| == NUM_LEVELS && UniqueNumbers(v) && InputsOf(v, c) && NewNumbers(v, c, outs)
    requires l < NUM_LEVELS && m < NUM_LEVELS
    requires HeldAfter(v, c, outs, l, f) && HeldAfter(v, c, outs, m, g) && f.number == g.number
    ensures l == m && f == g
  {
  }

  lemma EditedNumbers(v: Version, c: Inputs, outs: seq<File>, v': Version, n: nat)
    requires WellFormed(v) && UniqueNumbers(v) && InputsOf(v, c)
    requires Edited(v, CompactionEdit(c, outs), v')
    requires NumbersBelow(v, n) && NewNumbers(v, c, outs) && forall f :: f in outs ==> f.number < n
    ensures UniqueNumbers(v') && NumbersBelow(v', n)
  {
    assert |v.levels| == |v'.levels| == NUM_LEVELS;
    hide WellFormed, Edited, NewNumbers, HeldAfter;
    EditedLevels(v, c, outs, v');
    forall l, m, f, g | 0 <= l < NUM_LEVELS && 0 <= m < NUM_LEVELS && f in v'.levels[l] && g in v'.levels[m]
        && f.number == g.number
      ensures l == m && f == g
    {
      HeldOnce(v, c, outs, l, m, f, g);
    }
    forall l, f | 0 <= l < NUM_LEVELS && f in v'.levels[l] ensures f.number < n {
      HeldBelow(v, c, outs, l, f, n);
    }
  }

  lemma HeldBelow(v: Version, c: Inputs, outs: seq<File>, l: nat, f: File, n: nat)
    requires l < |v.levels| && HeldAfter(v, c, outs, l, f) && NumbersBelow(v, n) && forall g :: g in outs ==>
             g.number < n
    ensures f.number < n
  {
  }

  /** Moving a single file to the next level loses and adds nothing. */
  lemma TrivialMove(iv: Version, v: Version, c: Inputs, v': Version)
    requires Searchable(v) && UniqueNumbers(v) && Ready(iv, v, c)
    requires |c.in0| == 1 && c.in1 == []
    requires Edited(v, CompactionEdit(c, c.in0), v')
    ensures Searchable(v') && Contents(v') == Contents(v)
  {
    assert forall f :: f in c.in0 ==> ValidFile(f);
    assert EntriesOf(c.in1) == {};
    InstallSearchable(iv, v, c, c.in0, v');
    EditedContents(v, c, c.in0, v');
    OutputsHeld(v, c, c.in0, v');
  }
}
