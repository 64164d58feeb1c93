/**
 When are the inputs that PickCompaction chooses safe to compact?

 The code takes whole files, but two files of a level may share a user key: outputs are cut
 between any two entries.  Compacting the first of them without the second moves newer entries
 of the key below older ones.  This module proves exactly which choices are safe.
 */
module PickSafety {
  import opened DbFormat
  import opened Views
  import opened VersionModel
  import opened Picking
  import opened CompactionWork
  import opened Install
  import opened Realizable

  /** `g` carries on with the user key that `f` ends with. */
  predicate Straddles(f: File, g: File)
  {
    f.largest.ukey == g.smallest.ukey && Less(f.largest, g.smallest)
  }

  /** No file left behind carries on with a key of the inputs of its level. */
  ghost predicate NoStraddle(v: Version, c: Inputs)
    requires |v.levels| == NUM_LEVELS && InputsOf(v, c)
  {
    forall f, g :: f in c.in0 && g in v.levels[c.level] && g !in c.in0 ==> !Straddles(f, g)
  }

  /** The files left behind in the next level. */
  ghost function Leftovers(v: Version, c: Inputs): (es: set<Entry>)
    requires c.level + 1 < |v.levels|
  {
    EntriesOf(Without(v.levels[c.level + 1], c.in1))
  }

  /** Reading the files left behind in the next level at an obsolete deletion marker finds nothing. */
  ghost predicate MarkersCovered(v: Version, c: Inputs)
    requires |v.levels| == NUM_LEVELS && InputsOf(v, c)
  {
    forall e :: e in InputEntries(c) && e.key.typ.Deletion? && BaseLevelFor(v, c.level, e.key.ukey)
      ==> View(Leftovers(v, c), e.key.ukey, e.key.seqno) == None
  }

  ghost predicate SafeBoundary(v: Version, c: Inputs)
    requires |v.levels| == NUM_LEVELS && InputsOf(v, c)
  {
    (c.level > 0 ==> NoStraddle(v, c)) && MarkersCovered(v, c)
  }

  // ---------------------------------------------------------------------------
  // Safe choices may start

  lemma SharedKeyInDisjoint(fs: seq<File>, f: File, g: File, x: Entry, e: Entry)
    requires Disjoint(fs) && ValidFile(f) && ValidFile(g) && f in fs && g in fs && f != g
    requires x in f.entries && e in g.entries && x.key.ukey == e.key.ukey
    ensures Less(e.key, x.key) || Straddles(f, g)
  {
    InRange(f, x);
    InRange(g, e);
    DisjointApart(fs);
  }

  lemma SeqnoOrder(es: set<Entry>, e: Entry, x: Entry)
    requires UniqueSeq(es) && e in es && x in es && e.key.ukey == x.key.ukey && Less(e.key, x.key)
    ensures e.key.seqno > x.key.seqno
  {
  }

  lemma NoneSharedAtZero(v: Version, c: Inputs, f: File, g: File, x: Entry, e: Entry)
    requires WellFormed(v) && InputsOf(v, c) && LevelZeroComplete(v, c) && c.level == 0
    requires f in c.in0 && g in v.levels[0] && g !in c.in0
    requires x in f.entries && e in g.entries
    ensures x.key.ukey != e.key.ukey
  {
    assert f in v.levels[0];
    InRange(f, x);
    InRange(g, e);
    assert !Touches(g, Hull(c.in0));
  }

  lemma NothingOlderBehind(v: Version, c: Inputs)
    requires WellFormed(v) && UniqueSeq(Contents(v)) && InputsOf(v, c) && LevelZeroComplete(v, c)
    requires c.level > 0 ==> NoStraddle(v, c)
    ensures Above(EntriesOf(Without(v.levels[c.level], c.in0)), EntriesOf(c.in0))
  {
    var fs := v.levels[c.level];
    EntriesSubset(Without(fs, c.in0), fs);
    EntriesSubset(c.in0, fs);
    forall e, x | e in EntriesOf(Without(fs, c.in0)) && x in EntriesOf(c.in0) && e.key.ukey == x.key.ukey
      ensures e.key.seqno > x.key.seqno
    {
      var g :| g in Without(fs, c.in0) && e in g.entries;
      var f :| f in c.in0 && x in f.entries;
      assert ValidFile(f) && ValidFile(g);
      if c.level == 0 {
        NoneSharedAtZero(v, c, f, g, x, e);
      } else {
        SharedKeyInDisjoint(fs, f, g, x, e);
        assert e in EntriesOf(fs) && x in EntriesOf(fs);
        SeqnoOrder(Contents(v), e, x);
      }
    }
  }

  lemma NextLevelSeparated(v: Version, c: Inputs, g: File)
    requires WellFormed(v) && InputsOf(v, c) && NextLevelComplete(v, c)
    requires g in v.levels[c.level + 1] && g !in c.in1
    ensures SeparatedFrom(g, InputEntries(c))
  {
    DisjointApart(v.levels[c.level + 1]);
    var before := g.largest.ukey < Lo(c.in0);
    forall e | e in InputEntries(c)
      ensures before ==> Less(g.largest, e.key)
      ensures !before ==> Less(e.key, g.smallest)
    {
      if e in EntriesOf(c.in0) {
        var f :| f in c.in0 && e in f.entries;
        assert f in v.levels[c.level];
        InRange(f, e);
      } else {
        var h :| h in c.in1 && e in h.entries;
        assert h in v.levels[c.level + 1] && Touches(h, Hull(c.in0)) && !Touches(g, Hull(c.in0));
        InNextLevel(g, h, Lo(c.in0), Hi(c.in0), e);
      }
    }
  }

  lemma InNextLevel(g: File, h: File, lo: UserKey, hi: UserKey, e: Entry)
    requires ValidFile(g) && ValidFile(h) && Apart(g, h) && e in h.entries
    requires Touches(h, Range(Some(lo), Some(hi))) && !Touches(g, Range(Some(lo), Some(hi)))
    ensures if g.largest.ukey < lo then Less(g.largest, e.key) else Less(e.key, g.smallest)
  {
    InRange(h, e);
    InRange(g, g.entries[0]);
  }

  /** A safe choice satisfies what installation needs at the moment it is made. */
  lemma SafeStart(v: Version, c: Inputs)
    requires WellFormed(v) && UniqueSeq(Contents(v)) && WellChosen(v, c) && SafeBoundary(v, c)
    ensures Ready(v, v, c)
  {
    hide ValidFile, Disjoint, UniqueSeq, NoStraddle, Gapless, SeparatedFrom;
    NothingOlderBehind(v, c);
    forall g | g in v.levels[c.level + 1] && g !in c.in1 ensures SeparatedFrom(g, InputEntries(c)) {
      NextLevelSeparated(v, c, g);
    }
  }

  // ---------------------------------------------------------------------------
  // Exactly the safe choices are harmless

  /** `v'` is what compacting `c` for readers from `snapshot` on makes of `v`. */
  ghost predicate Outcome(v: Version, c: Inputs, snapshot: nat, m: seq<Entry>, outs: seq<File>, v': Version)
  {
    && Rewritten(v, c, m, snapshot, outs)
    && Disjoint(outs) && (forall f :: f in outs ==> ValidFile(f))
    && Edited(v, CompactionEdit(c, outs), v')
  }

  /** Newer entries stay above older ones, and every reader from `snapshot` on sees what it saw. */
  ghost predicate Preserves(v: Version, v': Version, snapshot: nat)
  {
    Layered(v') && forall k, s :: snapshot <= s ==> View(Contents(v'), k, s) == View(Contents(v), k, s)
  }

  ghost predicate Harmless(v: Version, c: Inputs, snapshot: nat)
  {
    forall m, outs, v' :: Outcome(v, c, snapshot, m, outs, v') ==> Preserves(v, v', snapshot)
  }

  /** A version whose entries carry numbers that writes can have. */
  ghost predicate Numbered(v: Version)
  {
    forall e :: e in Contents(v) ==> 1 <= e.key.seqno < MAX_SEQUENCE
  }

  lemma SafeIsHarmless(v: Version, c: Inputs, snapshot: nat)
    requires Searchable(v) && UniqueNumbers(v) && WellChosen(v, c) && SafeBoundary(v, c)
    requires snapshot < MAX_SEQUENCE
    ensures Harmless(v, c, snapshot)
  {
    SafeStart(v, c);
    forall m, outs, v' | Outcome(v, c, snapshot, m, outs, v') ensures Preserves(v, v', snapshot) {
      OutputsAreInputs(v, c, m, snapshot, outs);
      InstallSearchable(v, v, c, outs, v');
      forall k, s | snapshot <= s ensures View(Contents(v'), k, s) == View(Contents(v), k, s) {
        InstallView(v, v, c, m, snapshot, outs, v', k, s);
      }
    }
  }

  lemma AllHeld(v: Version, c: Inputs)
    requires WellFormed(v) && InputsOf(v, c)
    ensures InputEntries(c) <= Contents(v)
  {
    forall e | e in InputEntries(c) ensures e in Contents(v) {
      InputsHeld(v, c, e);
    }
  }

  lemma UniqueSubset(a: set<Entry>, b: set<Entry>)
    requires a <= b && UniqueSeq(b)
    ensures UniqueSeq(a)
  {
  }

  /** The whole run as one output file, or none. */
  function OneFile(es: seq<Entry>): (outs: seq<File>)
  {
    if es == [] then [] else [File(0, 0, es[0].key, es[|es| - 1].key, es)]
  }

  lemma OneFileHolds(es: seq<Entry>)
    requires Sorted(es) && forall e :: e in es ==> e.key.seqno <= MAX_SEQUENCE
    ensures EntriesOf(OneFile(es)) == Elems(es)
    ensures Disjoint(OneFile(es)) && forall f :: f in OneFile(es) ==> ValidFile(f)
  {
    if es != [] {
      assert OneFile(es)[0] in OneFile(es);
      assert forall i :: 0 <= i < |es| ==> es[i] in es;
    }
  }

  /** Files of one level of a well-formed version can be told apart. */
  lemma LevelDistinguishable(v: Version, l: nat, fs: set<File>)
    requires WellFormed(v) && UniqueNumbers(v) && l < NUM_LEVELS && forall f :: f in fs ==> f in v.levels[l]
    ensures Distinguishable(fs)
  {
    forall f, g | f in fs && g in fs && f != g ensures BySmallest(f, g) || BySmallest(g, f) {
      assert f.number != g.number;
    }
  }

  lemma AfterIsHeld(v: Version, c: Inputs, outs: seq<File>, l: nat, f: File)
    requires WellFormed(v) && UniqueNumbers(v) && InputsOf(v, c) && l < NUM_LEVELS
    requires f in LevelAfter(v, CompactionEdit(c, outs), l)
    ensures HeldAfter(v, c, outs, l, f)
  {
    var e := CompactionEdit(c, outs);
    DeletedAre(v, c, outs);
    if f in v.levels[l] && (l, f.number) !in e.deleted {
    } else {
      var p :| p in e.added && p.0 == l && p.1 == f;
      var q :| q in outs && p == (c.level + 1, q);
    }
  }

  lemma OutputApart(v: Version, c: Inputs, f: File, g: File)
    requires WellFormed(v) && InputsOf(v, c) && NextLevelComplete(v, c)
    requires f in v.levels[c.level + 1] && f !in c.in1
    requires ValidFile(g) && forall e :: e in g.entries ==> e in InputEntries(c)
    ensures BySmallest(f, g) || BySmallest(g, f)
  {
    NextLevelSeparated(v, c, f);
    assert ValidFile(f);
    InRange(f, f.entries[0]);
    assert g.entries[0] in g.entries;
  }

  lemma PairDistinguishable(v: Version, c: Inputs, outs: seq<File>, l: nat, f: File, g: File)
    requires WellFormed(v) && UniqueNumbers(v) && InputsOf(v, c) && NextLevelComplete(v, c) && l < NUM_LEVELS
    requires |outs| <= 1 && forall f :: f in outs ==> ValidFile(f)
    requires forall f, e :: f in outs && e in f.entries ==> e in InputEntries(c)
    requires HeldAfter(v, c, outs, l, f) && HeldAfter(v, c, outs, l, g) && f != g
    ensures BySmallest(f, g) || BySmallest(g, f)
  {
    if f in v.levels[l] && g in v.levels[l] {
      LevelDistinguishable(v, l, {f, g});
    } else if f in v.levels[l] {
      OutputApart(v, c, f, g);
    } else if g in v.levels[l] {
      OutputApart(v, c, g, f);
    }
  }

  lemma OutcomeDistinguishable(v: Version, c: Inputs, outs: seq<File>, l: nat)
    requires WellFormed(v) && UniqueNumbers(v) && InputsOf(v, c) && NextLevelComplete(v, c) && l < NUM_LEVELS
    requires |outs| <= 1 && EntriesOf(outs) <= InputEntries(c) && forall f :: f in outs ==> ValidFile(f)
    ensures Distinguishable(LevelAfter(v, CompactionEdit(c, outs), l))
  {
    var fs := LevelAfter(v, CompactionEdit(c, outs), l);
    forall f | f in fs ensures HeldAfter(v, c, outs, l, f) {
      AfterIsHeld(v, c, outs, l, f);
    }
    forall f, e | f in outs && e in f.entries ensures e in InputEntries(c) {
      assert e in EntriesOf(outs);
    }
    forall f, g | f in fs && g in fs && f != g ensures BySmallest(f, g) || BySmallest(g, f) {
      PairDistinguishable(v, c, outs, l, f, g);
    }
  }

  lemma OutputsExist(v: Version, c: Inputs, snapshot: nat) returns (m: seq<Entry>, outs: seq<File>)
    requires WellFormed(v) && UniqueSeq(Contents(v)) && InputsOf(v, c) && Numbered(v)
    ensures Rewritten(v, c, m, snapshot, outs)
    ensures |outs| <= 1 && Disjoint(outs) && forall f :: f in outs ==> ValidFile(f)
  {
    AllHeld(v, c);
    UniqueSubset(InputEntries(c), Contents(v));
    m := SortedRunExists(InputEntries(c));
    var drops := Drops(v, c.level, m, snapshot);
    var kept := Kept(m, drops, |m|);
    KeptSorted(m, drops, |m|);
    assert m[..|m|] == m;
    forall e | e in kept ensures e.key.seqno <= MAX_SEQUENCE {
      assert e in Elems(m);
    }
    OneFileHolds(kept);
    outs := OneFile(kept);
  }

  /** Every choice of inputs can be compacted. */
  lemma OutcomeExists(v: Version, c: Inputs, snapshot: nat) returns (m: seq<Entry>, outs: seq<File>, v': Version)
    requires Searchable(v) && UniqueNumbers(v) && WellChosen(v, c) && Numbered(v)
    ensures Outcome(v, c, snapshot, m, outs, v')
  {
    m, outs := OutputsExist(v, c, snapshot);
    OutputsAreInputs(v, c, m, snapshot, outs);
    forall l | 0 <= l < NUM_LEVELS ensures Distinguishable(LevelAfter(v, CompactionEdit(c, outs), l)) {
      OutcomeDistinguishable(v, c, outs, l);
    }
    v' := EditExists(v, CompactionEdit(c, outs));
  }

  lemma LeftInPlace(v: Version, c: Inputs, outs: seq<File>, v': Version)
    requires WellFormed(v) && UniqueNumbers(v) && InputsOf(v, c) && Edited(v, CompactionEdit(c, outs), v')
    ensures EntriesOf(Without(v.levels[c.level], c.in0)) <= EntriesOf(v'.levels[c.level])
    ensures EntriesOf(Without(v.levels[c.level + 1], c.in1)) <= EntriesOf(v'.levels[c.level + 1])
    ensures EntriesOf(outs) <= EntriesOf(v'.levels[c.level + 1])
  {
    EditedEntries(v, c, outs, v');
  }

  lemma OrderBroken(v': Version, l: nat, x: Entry, y: Entry)
    requires l + 1 < |v'.levels|
    requires y in EntriesOf(v'.levels[l]) && x in EntriesOf(v'.levels[l + 1])
    requires x.key.ukey == y.key.ukey && y.key.seqno < x.key.seqno
    ensures !Layered(v')
  {
    assert !Above(EntriesOf(v'.levels[l]), EntriesOf(v'.levels[l + 1]));
  }

  /** The entries on both sides of a straddled boundary. */
  lemma StraddledEntries(v: Version, c: Inputs, f: File, g: File) returns (x: Entry, y: Entry)
    requires WellFormed(v) && UniqueSeq(Contents(v)) && InputsOf(v, c)
    requires f in c.in0 && g in v.levels[c.level] && g !in c.in0 && Straddles(f, g)
    ensures x.key == f.largest && x in EntriesOf(c.in0)
    ensures y.key == g.smallest && y in EntriesOf(Without(v.levels[c.level], c.in0))
    ensures x in Contents(v) && y in Contents(v)
    ensures y.key.seqno < x.key.seqno
  {
    assert f in v.levels[c.level];
    assert ValidFile(f) && ValidFile(g);
    x, y := f.entries[|f.entries| - 1], g.entries[0];
    assert x in f.entries && y in g.entries;
    assert x in EntriesOf(v.levels[c.level]) && y in EntriesOf(v.levels[c.level]);
    SeqnoOrder(Contents(v), x, y);
  }

  /** With no snapshot to the contrary nothing is dropped, and a straddled key changes its order. */
  lemma StraddleBreaksOrder(v: Version, c: Inputs, f: File, g: File, m: seq<Entry>, outs: seq<File>, v': Version)
    requires WellFormed(v) && UniqueSeq(Contents(v)) && UniqueNumbers(v) && InputsOf(v, c) && Numbered(v)
    requires f in c.in0 && g in v.levels[c.level] && g !in c.in0 && Straddles(f, g)
    requires Outcome(v, c, 0, m, outs, v')
    ensures !Layered(v')
  {
    hide WellFormed, UniqueNumbers, UniqueSeq, Rewritten, SortedFiles, Disjoint, Numbered;
    var x, y := StraddledEntries(v, c, f, g);
    KeptAtZero(v, c, m, outs, x);
    LeftInPlace(v, c, outs, v');
    OrderBroken(v', c.level, x, y);
  }

  lemma KeptAtZero(v: Version, c: Inputs, m: seq<Entry>, outs: seq<File>, x: Entry)
    requires WellFormed(v) && InputsOf(v, c) && Numbered(v)
    requires Rewritten(v, c, m, 0, outs) && x in InputEntries(c)
    ensures x in EntriesOf(outs)
  {
    AllHeld(v, c);
    OutputsAreInputs(v, c, m, 0, outs);
    assert x in Elems(m);
    var i :| 0 <= i < |m| && m[i] == x;
    if i > 0 {
      assert m[i - 1] in Elems(m);
    }
  }

  /** An obsolete deletion marker leaves no copy of itself. */
  lemma MarkerGone(v: Version, c: Inputs, e: Entry, m: seq<Entry>, outs: seq<File>, v': Version)
    requires WellFormed(v) && Layered(v) && UniqueNumbers(v) && InputsOf(v, c)
    requires Above(EntriesOf(Without(v.levels[c.level], c.in0)), EntriesOf(c.in0))
    requires e in InputEntries(c) && e.key.typ.Deletion? && BaseLevelFor(v, c.level, e.key.ukey)
    requires Rewritten(v, c, m, e.key.seqno, outs) && Edited(v, CompactionEdit(c, outs), v')
    ensures e !in Contents(v')
  {
    if e in Contents(v') {
      var l :| 0 <= l < NUM_LEVELS && e in EntriesOf(v'.levels[l]);
      EditedEntries(v, c, outs, v');
      OutputsAreInputs(v, c, m, e.key.seqno, outs);
      if c.level + 2 <= l {
        DeeperLevelEmpty(v, c.level, e.key.ukey, l, e);
      } else if l == c.level + 1 {
        NotLeftBehind(v, c, e);
      } else {
        LeftAloneIsNewer(v, c, l, e, e);
      }
    }
  }

  /** In a disjoint level an entry is held by one file only. */
  lemma HeldByOne(fs: seq<File>, f: File, g: File, e: Entry)
    requires Disjoint(fs) && f in fs && g in fs && ValidFile(f) && ValidFile(g)
    requires e in f.entries && e in g.entries
    ensures f == g
  {
    DisjointApart(fs);
    InRange(f, e);
    InRange(g, e);
  }

  lemma NotLeftBehind(v: Version, c: Inputs, e: Entry)
    requires WellFormed(v) && Layered(v) && InputsOf(v, c) && e in InputEntries(c)
    ensures e !in EntriesOf(Without(v.levels[c.level + 1], c.in1))
  {
    var l0, l1 := v.levels[c.level], v.levels[c.level + 1];
    assert Above(EntriesOf(l0), EntriesOf(l1));
    EntriesSubset(Without(l1, c.in1), l1);
    EntriesSubset(c.in0, l0);
    if e in EntriesOf(c.in1) {
      OneCopy(l1, c.in1, e);
    }
  }

  /** What the taken files hold, the others of a disjoint level do not. */
  lemma OneCopy(fs: seq<File>, taken: seq<File>, e: Entry)
    requires Disjoint(fs) && (forall f :: f in fs ==> ValidFile(f)) && forall f :: f in taken ==> f in fs
    requires e in EntriesOf(taken)
    ensures e !in EntriesOf(Without(fs, taken))
  {
    var g :| g in taken && e in g.entries;
    forall f | f in Without(fs, taken) ensures e !in f.entries {
      if e in f.entries {
        HeldByOne(fs, f, g, e);
      }
    }
  }

  /** What the new version shows below a dropped marker was left behind. */
  lemma ShownBelowMarker(v: Version, c: Inputs, e: Entry, m: seq<Entry>, outs: seq<File>, v': Version, f: Entry)
    requires Searchable(v) && UniqueNumbers(v) && InputsOf(v, c)
    requires Above(EntriesOf(Without(v.levels[c.level], c.in0)), EntriesOf(c.in0))
    requires e in InputEntries(c) && e.key.typ.Deletion? && BaseLevelFor(v, c.level, e.key.ukey)
    requires Rewritten(v, c, m, e.key.seqno, outs) && Edited(v, CompactionEdit(c, outs), v')
    requires f in Contents(v') && Visible(f, e.key.ukey, e.key.seqno)
    ensures f in Leftovers(v, c)
  {
    hide Layered, UniqueNumbers, WellFormed, LevelZeroLayered, Above, EntriesOf, BaseLevelFor, Edited, Dropped, Sorted;
    MarkerGone(v, c, e, m, outs, v');
    OutputsAreInputs(v, c, m, e.key.seqno, outs);
    EditedContents(v, c, outs, v');
    AllHeld(v, c);
    OlderThanMarker(Contents(v), Contents(v'), e, f);
    assert e in Elems(m);
    var i :| 0 <= i < |m| && m[i] == e;
    BelowMarker(v, v, c, m, e.key.seqno, outs, v', i, f);
  }

  /** Before the compaction a reader at the marker finds nothing. */
  lemma MarkerHides(v: Version, c: Inputs, e: Entry)
    requires WellFormed(v) && UniqueSeq(Contents(v)) && InputsOf(v, c)
    requires e in InputEntries(c) && e.key.typ.Deletion?
    ensures View(Contents(v), e.key.ukey, e.key.seqno) == None
  {
    AllHeld(v, c);
    assert Newest(Contents(v), e.key.ukey, e.key.seqno, e);
    ViewOfNewest(Contents(v), e.key.ukey, e.key.seqno, e);
  }

  /** Below a deletion marker that hid them, entries left behind in the next level come back. */
  lemma MarkerUncovers(v: Version, c: Inputs, e: Entry, m: seq<Entry>, outs: seq<File>, v': Version)
    requires Searchable(v) && UniqueNumbers(v) && InputsOf(v, c)
    requires Above(EntriesOf(Without(v.levels[c.level], c.in0)), EntriesOf(c.in0))
    requires e in InputEntries(c) && e.key.typ.Deletion? && BaseLevelFor(v, c.level, e.key.ukey)
    requires View(Leftovers(v, c), e.key.ukey, e.key.seqno).Some?
    requires Rewritten(v, c, m, e.key.seqno, outs) && Edited(v, CompactionEdit(c, outs), v')
    ensures View(Contents(v'), e.key.ukey, e.key.seqno).Some?
  {
    AllShownBelowMarker(v, c, e, m, outs, v');
    PartShows(Leftovers(v, c), Contents(v'), e.key.ukey, e.key.seqno);
  }

  lemma AllShownBelowMarker(v: Version, c: Inputs, e: Entry, m: seq<Entry>, outs: seq<File>, v': Version)
    requires Searchable(v) && UniqueNumbers(v) && InputsOf(v, c)
    requires Above(EntriesOf(Without(v.levels[c.level], c.in0)), EntriesOf(c.in0))
    requires e in InputEntries(c) && e.key.typ.Deletion? && BaseLevelFor(v, c.level, e.key.ukey)
    requires Rewritten(v, c, m, e.key.seqno, outs) && Edited(v, CompactionEdit(c, outs), v')
    ensures Leftovers(v, c) <= Contents(v')
    ensures forall f :: f in Contents(v') && Visible(f, e.key.ukey, e.key.seqno) ==> f in Leftovers(v, c)
  {
    assert |v.levels| == NUM_LEVELS && c.level + 1 < NUM_LEVELS;
    hide Searchable, UniqueNumbers, InputsOf, Above, EntriesOf, BaseLevelFor, Edited, Rewritten, Leftovers, Contents,
        InputEntries, Without;
    forall f | f in Contents(v') && Visible(f, e.key.ukey, e.key.seqno) ensures f in Leftovers(v, c) {
      ShownBelowMarker(v, c, e, m, outs, v', f);
    }
    assert Leftovers(v, c) <= Contents(v') by {
      LeftoversHeld(v, c, outs, v');
    }
  }

  lemma PartShows(part: set<Entry>, es: set<Entry>, k: UserKey, s: nat)
    requires part <= es && View(part, k, s).Some?
    requires forall f :: f in es && Visible(f, k, s) ==> f in part
    ensures View(es, k, s).Some?
  {
    assert Newest(es, k, s, View(part, k, s).value);
  }

  /** The inputs may be compacted whatever snapshots are live, if and only if their boundary is safe. */
  lemma CompactionSafeIff(v: Version, c: Inputs)
    requires Searchable(v) && UniqueNumbers(v) && WellChosen(v, c) && Numbered(v)
    ensures (forall snapshot :: 0 <= snapshot < MAX_SEQUENCE ==> Harmless(v, c, snapshot)) <==> SafeBoundary(v, c)
  {
    if SafeBoundary(v, c) {
      forall snapshot | 0 <= snapshot < MAX_SEQUENCE ensures Harmless(v, c, snapshot) {
        SafeIsHarmless(v, c, snapshot);
      }
    } else if c.level > 0 && !NoStraddle(v, c) {
      StraddleHarms(v, c);
    } else {
      UncoveredHarms(v, c);
    }
  }

  lemma StraddleHarms(v: Version, c: Inputs)
    requires Searchable(v) && UniqueNumbers(v) && WellChosen(v, c) && Numbered(v)
    requires !NoStraddle(v, c)
    ensures !Harmless(v, c, 0)
  {
    var f, g :| f in c.in0 && g in v.levels[c.level] && g !in c.in0 && Straddles(f, g);
    var m, outs, v' := OutcomeExists(v, c, 0);
    StraddleBreaksOrder(v, c, f, g, m, outs, v');
  }

  lemma UncoveredHarms(v: Version, c: Inputs)
    requires Searchable(v) && UniqueNumbers(v) && WellChosen(v, c) && Numbered(v)
    requires c.level > 0 ==> NoStraddle(v, c)
    requires !MarkersCovered(v, c)
    ensures exists snapshot :: 0 <= snapshot < MAX_SEQUENCE && !Harmless(v, c, snapshot)
  {
    var e :| e in InputEntries(c) && e.key.typ.Deletion? && BaseLevelFor(v, c.level, e.key.ukey)
             && View(Leftovers(v, c), e.key.ukey, e.key.seqno) != None;
    MarkerHarms(v, c, e);
    AllHeld(v, c);
  }

  lemma MarkerHarms(v: Version, c: Inputs, e: Entry)
    requires Searchable(v) && UniqueNumbers(v) && WellChosen(v, c) && Numbered(v)
    requires c.level > 0 ==> NoStraddle(v, c)
    requires e in InputEntries(c) && e.key.typ.Deletion? && BaseLevelFor(v, c.level, e.key.ukey)
    requires View(Leftovers(v, c), e.key.ukey, e.key.seqno) != None
    ensures !Harmless(v, c, e.key.seqno)
  {
    var m, outs, v' := OutcomeExists(v, c, e.key.seqno);
    NothingOlderBehind(v, c);
    MarkerHides(v, c, e);
    MarkerUncovers(v, c, e, m, outs, v');
    NotHarmless(v, c, e.key.seqno, m, outs, v', e.key.ukey, e.key.seqno);
  }

  lemma NotHarmless(v: Version, c: Inputs, snapshot: nat, m: seq<Entry>, outs: seq<File>, v': Version, k: UserKey,
                    s: nat)
    requires Outcome(v, c, snapshot, m, outs, v') && snapshot <= s
    requires View(Contents(v'), k, s) != View(Contents(v), k, s)
    ensures !Harmless(v, c, snapshot)
  {
    assert !Preserves(v, v', snapshot);
  }

  // ---------------------------------------------------------------------------
  // What goes wrong otherwise

  /**
   `x` is compacted away from its level while an older entry `y` of its key is left behind:
   a reader that should get `x` is handed something else.
   */
  lemma StaleRead(v: Version, c: Inputs, x: Entry, y: Entry, outs: seq<File>, v': Version)
    requires Searchable(v) && UniqueNumbers(v) && InputsOf(v, c) && c.level > 0
    requires x in EntriesOf(c.in0) && y in EntriesOf(Without(v.levels[c.level], c.in0))
    requires x.key.ukey == y.key.ukey && y.key.seqno < x.key.seqno && x.key.typ.Value?
    requires Edited(v, CompactionEdit(c, outs), v')
    ensures View(Contents(v), x.key.ukey, x.key.seqno) == Some(x)
    ensures SearchFrom(v', 0, x.key.ukey, x.key.seqno) != Some(x)
  {
    AllHeld(v, c);
    NewestAtItself(Contents(v), x);
    SearchReaches(v, c, x, outs, v');
    LeftInPlace(v, c, outs, v');
    LevelWithout(v, c, outs, v', x);
    AnsweredByOther(v', c.level, x, y);
  }

  /** Levels above the inputs show nothing to the reader, so its search reaches their level. */
  lemma SearchReaches(v: Version, c: Inputs, x: Entry, outs: seq<File>, v': Version)
    requires WellFormed(v) && Layered(v) && UniqueNumbers(v) && InputsOf(v, c) && Edited(v, CompactionEdit(c, outs), v')
    requires x in EntriesOf(c.in0)
    ensures SearchFrom(v', 0, x.key.ukey, x.key.seqno) == SearchFrom(v', c.level, x.key.ukey, x.key.seqno)
  {
    forall l | 0 <= l < c.level ensures NoneVisible(EntriesOf(v'.levels[l]), x.key.ukey, x.key.seqno) {
      NothingSeenAbove(v, c, outs, v', x, l);
    }
    SkipLevels(v', 0, c.level, x.key.ukey, x.key.seqno);
  }

  lemma NewestAtItself(es: set<Entry>, x: Entry)
    requires UniqueSeq(es) && x in es && x.key.typ.Value?
    ensures View(es, x.key.ukey, x.key.seqno) == Some(x)
  {
    assert Newest(es, x.key.ukey, x.key.seqno, x);
    ViewOfNewest(es, x.key.ukey, x.key.seqno, x);
  }

  lemma AnsweredByOther(v: Version, l: nat, x: Entry, y: Entry)
    requires l < |v.levels| && y in EntriesOf(v.levels[l]) && x !in EntriesOf(v.levels[l])
    requires Visible(y, x.key.ukey, x.key.seqno)
    ensures SearchFrom(v, l, x.key.ukey, x.key.seqno) != Some(x)
  {
    var r := View(EntriesOf(v.levels[l]), x.key.ukey, x.key.seqno);
  }

  lemma NothingSeenAbove(v: Version, c: Inputs, outs: seq<File>, v': Version, x: Entry, l: nat)
    requires WellFormed(v) && Layered(v) && UniqueNumbers(v) && InputsOf(v, c) && Edited(v, CompactionEdit(c, outs), v')
    requires x in EntriesOf(c.in0) && l < c.level
    ensures NoneVisible(EntriesOf(v'.levels[l]), x.key.ukey, x.key.seqno)
  {
    EditedEntries(v, c, outs, v');
    EntriesSubset(c.in0, v.levels[c.level]);
    assert Above(EntriesOf(v.levels[l]), EntriesOf(v.levels[c.level]));
  }

  lemma {:induction false} SkipLevels(v: Version, l: nat, m: nat, k: UserKey, s: nat)
    requires l <= m <= |v.levels|
    requires forall i :: l <= i < m ==> NoneVisible(EntriesOf(v.levels[i]), k, s)
    ensures SearchFrom(v, l, k, s) == SearchFrom(v, m, k, s)
    decreases m - l
  {
    if l < m {
      SkipLevels(v, l + 1, m, k, s);
    }
  }

  lemma LevelWithout(v: Version, c: Inputs, outs: seq<File>, v': Version, x: Entry)
    requires WellFormed(v) && UniqueNumbers(v) && InputsOf(v, c) && Edited(v, CompactionEdit(c, outs), v')
    requires c.level > 0 && x in EntriesOf(c.in0)
    ensures x !in EntriesOf(v'.levels[c.level])
  {
    EditedEntries(v, c, outs, v');
    NotLeftInLevel(v, c, x);
  }

  lemma NotLeftInLevel(v: Version, c: Inputs, x: Entry)
    requires WellFormed(v) && InputsOf(v, c) && c.level > 0 && x in EntriesOf(c.in0)
    ensures x !in EntriesOf(Without(v.levels[c.level], c.in0))
  {
    OneCopy(v.levels[c.level], c.in0, x);
  }
}
