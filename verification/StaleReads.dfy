/**
 Two runs of the compaction code that break the store's promise: PickCompaction
 (db/version_set.cc) checks neither of the two conditions that SafeBoundary states.
 */
module StaleReads {
  import opened DbFormat
  import opened Views
  import opened VersionModel
  import opened Picking
  import opened CompactionWork
  import opened Install
  import opened PickSafety

  // ---------------------------------------------------------------------------
  // One key, written twice, its two entries in two files of level 1

  /** The position of the key "a". */
  const A := Rank([97])

  const NEWER := Entry(InternalKey(A, 2, Value), [2])
  const OLDER := Entry(InternalKey(A, 1, Value), [1])

  function OneEntryFile(number: nat, e: Entry): (f: File)
    requires e.key.seqno <= MAX_SEQUENCE
    ensures ValidFile(f)
  {
    File(number, 1, e.key, e.key, [e])
  }

  function TwoFiles(l: nat, first: seq<File>, m: nat, second: seq<File>): (v: Version)
    requires l < m < NUM_LEVELS
  {
    Version(seq(NUM_LEVELS, i => if i == l then first else if i == m then second else []))
  }

  /** Before: both files in level 1.  After: the file with the newer entry moved to level 2. */
  const BEFORE := TwoFiles(1, [OneEntryFile(8, NEWER), OneEntryFile(7, OLDER)], 2, [])
  const AFTER := TwoFiles(1, [OneEntryFile(7, OLDER)], 2, [OneEntryFile(8, NEWER)])

  lemma BeforeEntries()
    ensures Contents(BEFORE) == {NEWER, OLDER}
    ensures forall l :: 0 <= l < NUM_LEVELS && l != 1 ==> EntriesOf(BEFORE.levels[l]) == {}
  {
    var f, g := OneEntryFile(8, NEWER), OneEntryFile(7, OLDER);
    assert BEFORE.levels[1] == [f, g];
    assert f in BEFORE.levels[1] && g in BEFORE.levels[1];
    assert NEWER in f.entries && OLDER in g.entries;
    assert NEWER in EntriesOf(BEFORE.levels[1]) && OLDER in EntriesOf(BEFORE.levels[1]);
  }

  lemma BeforeFiles()
    ensures forall l, x :: 0 <= l < NUM_LEVELS && x in BEFORE.levels[l]
              ==> l == 1 && (x == OneEntryFile(8, NEWER) || x == OneEntryFile(7, OLDER))
  {
    assert BEFORE.levels[1] == [OneEntryFile(8, NEWER), OneEntryFile(7, OLDER)];
    assert forall l :: 0 <= l < NUM_LEVELS && l != 1 ==> BEFORE.levels[l] == [];
  }

  lemma BeforeNumbers()
    ensures UniqueNumbers(BEFORE)
  {
    BeforeFiles();
  }

  lemma BeforeWellFormed()
    ensures WellFormed(BEFORE)
  {
    BeforeFiles();
    assert BEFORE.levels[1] == [OneEntryFile(8, NEWER), OneEntryFile(7, OLDER)];
    assert forall l :: 0 <= l < NUM_LEVELS && l != 1 ==> BEFORE.levels[l] == [];
  }

  lemma BeforeSearchable()
    ensures Searchable(BEFORE)
  {
    BeforeWellFormed();
    BeforeLayered();
    BeforeEntries();
    assert UniqueSeq({NEWER, OLDER});
  }

  lemma BeforeView()
    ensures View(Contents(BEFORE), A, 2) == Some(NEWER)
  {
    BeforeEntries();
    assert UniqueSeq({NEWER, OLDER});
    NewestAtItself({NEWER, OLDER}, NEWER);
  }

  lemma BeforeLayered()
    ensures Layered(BEFORE) && LevelZeroLayered(BEFORE.levels[0])
  {
    BeforeEntries();
    forall l, m | 0 <= l < m < NUM_LEVELS ensures Above(EntriesOf(BEFORE.levels[l]), EntriesOf(BEFORE.levels[m])) {
      assert l != 1 || m != 1;
    }
  }

  /** PickCompaction may take the first file alone, and moving it hands out a stale value. */
  lemma StraddleExample()
    ensures Searchable(BEFORE) && UniqueNumbers(BEFORE)
    ensures WellChosen(BEFORE, Inputs(1, [OneEntryFile(8, NEWER)], []))
    ensures Edited(BEFORE, CompactionEdit(Inputs(1, [OneEntryFile(8, NEWER)], []), [OneEntryFile(8, NEWER)]), AFTER)
    ensures View(Contents(BEFORE), A, 2) == Some(NEWER)
    ensures SearchFrom(AFTER, 0, A, 2) == Some(OLDER)
  {
    BeforeSearchable();
    BeforeNumbers();
    BeforeView();
    ExampleChosen();
    ExampleEdit();
    ExampleRead();
  }

  lemma ExampleChosen()
    ensures WellChosen(BEFORE, Inputs(1, [OneEntryFile(8, NEWER)], []))
  {
    var f := OneEntryFile(8, NEWER);
    assert BEFORE.levels[1] == [f, OneEntryFile(7, OLDER)];
    assert f in BEFORE.levels[1];
    OneFileGapless(f);
    assert [f] + [] == [f];
  }

  lemma ExampleRead()
    ensures SearchFrom(AFTER, 0, A, 2) == Some(OLDER)
  {
    var g := OneEntryFile(7, OLDER);
    assert AFTER.levels[1] == [g] && AFTER.levels[0] == [];
    SkipLevels(AFTER, 0, 1, A, 2);
    assert g in AFTER.levels[1] && OLDER in g.entries;
    assert EntriesOf(AFTER.levels[1]) == {OLDER};
    assert Newest(EntriesOf(AFTER.levels[1]), A, 2, OLDER);
    ViewOfNewest(EntriesOf(AFTER.levels[1]), A, 2, OLDER);
  }

  lemma ExampleEdit()
    ensures Edited(BEFORE, CompactionEdit(Inputs(1, [OneEntryFile(8, NEWER)], []), [OneEntryFile(8, NEWER)]), AFTER)
  {
    var f, g := OneEntryFile(8, NEWER), OneEntryFile(7, OLDER);
    var c := Inputs(1, [f], []);
    var e := CompactionEdit(c, [f]);
    assert f in c.in0 && f in [f];
    assert e.deleted == {(1, 8)};
    assert e.added == {(2, f)};
    assert BEFORE.levels[1] == [f, g] && AFTER.levels[1] == [g] && AFTER.levels[2] == [f] && BEFORE.levels[2] == [];
  }

  // ---------------------------------------------------------------------------
  // A key deleted in one file of level 2 and still present in the next one

  function Top(a: UserKey): (e: Entry) { Entry(InternalKey(a, 4, Value), [4]) }

  function Marker(b: UserKey): (e: Entry) { Entry(InternalKey(b, 3, Deletion), []) }

  function Hidden(b: UserKey): (e: Entry) { Entry(InternalKey(b, 2, Value), [2]) }

  function Bottom(a: UserKey): (e: Entry) { Entry(InternalKey(a, 1, Value), [1]) }

  /**
   Level 1 has one file, with a write to `a`.  Level 2 has two: the first holds an older write to
   `a` and ends with a deletion of `b`, and the second holds the write to `b` that was deleted.
   */
  ghost predicate Scene(v: Version, f: File, h: File, g: File, a: UserKey, b: UserKey)
  {
    && a < b && |v.levels| == NUM_LEVELS && v.levels[1] == [f] && v.levels[2] == [h, g]
    && (forall l :: 0 <= l < NUM_LEVELS && l != 1 && l != 2 ==> v.levels[l] == [])
    && f == OneEntryFile(8, Top(a)) && g == OneEntryFile(6, Hidden(b))
    && h == File(7, 1, Bottom(a).key, Marker(b).key, [Bottom(a), Marker(b)])
  }

  function Scenery(f: File, h: File, g: File): (v: Version)
    ensures |v.levels| == NUM_LEVELS && v.levels[1] == [f] && v.levels[2] == [h, g]
    ensures forall l :: 0 <= l < NUM_LEVELS && l != 1 && l != 2 ==> v.levels[l] == []
  {
    Version([[], [f], [h, g], [], [], [], []])
  }

  /** Afterwards the second file of level 2 and the output are left. */
  function Afterwards(o: File, g: File): (v: Version)
    ensures |v.levels| == NUM_LEVELS && v.levels[2] == [o, g]
    ensures forall l :: 0 <= l < NUM_LEVELS && l != 2 ==> v.levels[l] == []
  {
    Version([[], [], [o, g], [], [], [], []])
  }

  lemma FileEntries(f: File)
    ensures EntriesOf([f]) == Elems(f.entries)
  {
    assert f in [f];
  }

  lemma FilesEntries(f: File, g: File)
    ensures EntriesOf([f, g]) == Elems(f.entries) + Elems(g.entries)
  {
    assert f in [f, g] && g in [f, g];
  }

  lemma SceneEntries(v: Version, f: File, h: File, g: File, a: UserKey, b: UserKey)
    requires Scene(v, f, h, g, a, b)
    ensures EntriesOf(v.levels[1]) == {Top(a)} && EntriesOf(v.levels[2]) == {Bottom(a), Marker(b), Hidden(b)}
    ensures forall l :: 0 <= l < NUM_LEVELS && l != 1 && l != 2 ==> EntriesOf(v.levels[l]) == {}
  {
    FileEntries(f);
    FilesEntries(h, g);
    assert Elems(h.entries) == {Bottom(a), Marker(b)};
  }

  lemma SceneContents(v: Version, f: File, h: File, g: File, a: UserKey, b: UserKey)
    requires Scene(v, f, h, g, a, b)
    ensures Contents(v) == {Top(a), Bottom(a), Marker(b), Hidden(b)} && UniqueSeq(Contents(v))
  {
    SceneEntries(v, f, h, g, a, b);
    hide EntriesOf;
    assert Top(a) in EntriesOf(v.levels[1]);
    assert forall e :: e in {Bottom(a), Marker(b), Hidden(b)} ==> e in EntriesOf(v.levels[2]);
  }

  lemma SceneFiles(v: Version, f: File, h: File, g: File, a: UserKey, b: UserKey)
    requires Scene(v, f, h, g, a, b)
    ensures ValidFile(f) && ValidFile(h) && ValidFile(g)
    ensures forall l, x :: 0 <= l < NUM_LEVELS && x in v.levels[l] ==>
            (l == 1 && x == f) || (l == 2 && (x == h || x == g))
  {
  }

  lemma SceneWellFormed(v: Version, f: File, h: File, g: File, a: UserKey, b: UserKey)
    requires Scene(v, f, h, g, a, b)
    ensures WellFormed(v) && UniqueNumbers(v)
  {
    SceneFiles(v, f, h, g, a, b);
    hide ValidFile;
    assert Less(h.largest, g.smallest);
  }

  lemma SceneSearchable(v: Version, f: File, h: File, g: File, a: UserKey, b: UserKey)
    requires Scene(v, f, h, g, a, b)
    ensures Searchable(v)
  {
    hide WellFormed, Layered, Contents;
    SceneContents(v, f, h, g, a, b);
    SceneWellFormed(v, f, h, g, a, b);
    SceneLayered(v, f, h, g, a, b);
  }

  lemma SceneLayered(v: Version, f: File, h: File, g: File, a: UserKey, b: UserKey)
    requires Scene(v, f, h, g, a, b)
    ensures Layered(v)
  {
    SceneEntries(v, f, h, g, a, b);
    hide EntriesOf;
    assert |v.levels| == NUM_LEVELS;
    assert Above({Top(a)}, {Bottom(a), Marker(b), Hidden(b)});
    hide Scene, Top, Bottom, Marker, Hidden;
    forall l, m | 0 <= l < m < NUM_LEVELS ensures Above(EntriesOf(v.levels[l]), EntriesOf(v.levels[m])) {
      assert (l == 1 && m == 2) || EntriesOf(v.levels[l]) == {} || EntriesOf(v.levels[m]) == {};
    }
  }

  lemma SceneChosen(v: Version, f: File, h: File, g: File, a: UserKey, b: UserKey)
    requires Scene(v, f, h, g, a, b)
    ensures WellChosen(v, Inputs(1, [f], [h])) && NoStraddle(v, Inputs(1, [f], [h]))
  {
    assert f in [f] && h in [f, h] && [f] + [h] == [f, h];
    forall k | Lo([f, h]) <= k <= Hi([f, h]) ensures KeyCovered([f, h], k) {
      assert Covers(h, k);
    }
  }

  /** At the snapshot of the newest write both older entries of the inputs are dropped, the marker as obsolete. */
  lemma SceneKept(v: Version, f: File, h: File, g: File, a: UserKey, b: UserKey)
    requires Scene(v, f, h, g, a, b)
    ensures var m := [Top(a), Bottom(a), Marker(b)]; Kept(m, Drops(v, 1, m, 4), 3) == [Top(a)]
  {
    var m := [Top(a), Bottom(a), Marker(b)];
    var d := Drops(v, 1, m, 4);
    assert BaseLevelFor(v, 1, b);
    assert !d[0] && d[1] && d[2] by {
      hide BaseLevelFor, Scene;
    }
    hide Scene, Drops, BaseLevelFor;
    assert Kept(m, d, 0) == [] && Kept(m, d, 1) == Kept(m, d, 0) + [m[0]];
    assert Kept(m, d, 2) == Kept(m, d, 1) && Kept(m, d, 3) == Kept(m, d, 2);
  }

  lemma SceneRewritten(v: Version, f: File, h: File, g: File, o: File, a: UserKey, b: UserKey)
    requires Scene(v, f, h, g, a, b) && o == OneEntryFile(9, Top(a))
    ensures Rewritten(v, Inputs(1, [f], [h]), [Top(a), Bottom(a), Marker(b)], 4, [o])
  {
    var m := [Top(a), Bottom(a), Marker(b)];
    SceneKept(v, f, h, g, a, b);
    FileEntries(f);
    FileEntries(h);
    FileEntries(o);
    hide Kept, Drops, EntriesOf;
    assert Elems(m) == {Top(a), Bottom(a), Marker(b)} && Elems(h.entries) == {Bottom(a), Marker(b)};
  }

  lemma SceneEdit(v: Version, f: File, h: File, g: File, o: File, a: UserKey, b: UserKey)
    requires Scene(v, f, h, g, a, b) && o == OneEntryFile(9, Top(a))
    ensures Edited(v, CompactionEdit(Inputs(1, [f], [h]), [o]), Afterwards(o, g))
  {
    var c := Inputs(1, [f], [h]);
    var e := CompactionEdit(c, [o]);
    assert f in c.in0 && h in c.in1 && o in [o];
    assert e.deleted == {(1, 8), (2, 7)};
    assert e.added == {(2, o)};
    assert Less(o.smallest, g.smallest);
  }

  lemma SceneBefore(v: Version, f: File, h: File, g: File, a: UserKey, b: UserKey)
    requires Scene(v, f, h, g, a, b)
    ensures View(Contents(v), b, 4) == None
  {
    SceneContents(v, f, h, g, a, b);
    hide Contents, Scene, View;
    assert a < b;
    assert Newest(Contents(v), b, 4, Marker(b));
    ViewOfNewest(Contents(v), b, 4, Marker(b));
  }

  lemma SceneAfter(o: File, g: File, a: UserKey, b: UserKey)
    requires a < b && o == OneEntryFile(9, Top(a)) && g == OneEntryFile(6, Hidden(b))
    ensures SearchFrom(Afterwards(o, g), 0, b, 4) == Some(Hidden(b))
  {
    var v := Afterwards(o, g);
    FilesEntries(o, g);
    var es := EntriesOf(v.levels[2]);
    assert es == {Top(a), Hidden(b)};
    SkipLevels(v, 0, 2, b, 4);
    assert UniqueSeq(es) && Newest(es, b, 4, Hidden(b));
    ViewOfNewest(es, b, 4, Hidden(b));
  }

  /**
   No key straddles the boundary of the level, and yet the compaction drops a deletion marker as
   obsolete while the value it hides stays behind in the next level: a deleted key comes back.
   This happens for every two keys.
   */
  lemma MarkerExample(x: Slice, y: Slice) returns (v: Version, c: Inputs, m: seq<Entry>, outs: seq<File>, v': Version)
    requires Rank(x) < Rank(y)
    ensures Searchable(v) && UniqueNumbers(v) && WellChosen(v, c) && NoStraddle(v, c)
    ensures Outcome(v, c, 4, m, outs, v')
    ensures View(Contents(v), Rank(y), 4) == None
    ensures SearchFrom(v', 0, Rank(y), 4) == Some(Hidden(Rank(y)))
  {
    hide Rank, WellFormed, Searchable, UniqueNumbers, Scene, SearchFrom, View, Contents, Rewritten, Edited;
    var a, b := Rank(x), Rank(y);
    var f, g, o := OneEntryFile(8, Top(a)), OneEntryFile(6, Hidden(b)), OneEntryFile(9, Top(a));
    var h := File(7, 1, Bottom(a).key, Marker(b).key, [Bottom(a), Marker(b)]);
    v, c, m, outs, v' := Scenery(f, h, g), Inputs(1, [f], [h]), [Top(a), Bottom(a), Marker(b)], [o], Afterwards(o, g);
    SceneSet(f, h, g, a, b);
    SceneSearchable(v, f, h, g, a, b);
    SceneWellFormed(v, f, h, g, a, b);
    SceneChosen(v, f, h, g, a, b);
    SceneRewritten(v, f, h, g, o, a, b);
    SceneEdit(v, f, h, g, o, a, b);
    SceneBefore(v, f, h, g, a, b);
    SceneAfter(o, g, a, b);
  }

  lemma SceneSet(f: File, h: File, g: File, a: UserKey, b: UserKey)
    requires a < b && f == OneEntryFile(8, Top(a)) && g == OneEntryFile(6, Hidden(b))
    requires h == File(7, 1, Bottom(a).key, Marker(b).key, [Bottom(a), Marker(b)])
    ensures Scene(Scenery(f, h, g), f, h, g, a, b)
  {
  }
}
