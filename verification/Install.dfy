/**
 Installing the result of a compaction: the new version can still be searched and means
 the same to every reader the compaction had to respect (db/db_impl.cc:
 InstallCompactionResults, BackgroundCompaction; db/version_set.cc: Builder).
 */
module Install {
  import opened DbFormat
  import opened Views
  import opened VersionModel
  import opened Picking
  import opened CompactionWork

  // ---------------------------------------------------------------------------
  // Edits

  /** The part of a VersionEdit that changes the file lists. */
  datatype Edit = Edit(deleted: set<(nat, nat)>, added: set<(nat, File)>)

  /** BySmallestKey: by smallest key, ties by file number. */
  predicate BySmallest(f: File, g: File)
  {
    Less(f.smallest, g.smallest) || (f.smallest == g.smallest && f.number < g.number)
  }

  ghost predicate SortedFiles(fs: seq<File>)
  {
    forall i, j :: 0 <= i < j < |fs| ==> BySmallest(fs[i], fs[j])
  }

  /** `v'` holds, level by level and in order, what Builder::SaveTo makes of `v` and the edit. */
  ghost predicate Edited(v: Version, e: Edit, v': Version)
  {
    && |v.levels| == NUM_LEVELS && |v'.levels| == NUM_LEVELS
    && (forall l :: 0 <= l < NUM_LEVELS ==> SortedFiles(v'.levels[l]))
    && (forall l, f :: 0 <= l < NUM_LEVELS ==>
          (f in v'.levels[l] <==> (f in v.levels[l] && (l, f.number) !in e.deleted) || (l, f) in e.added))
  }

  ghost predicate UniqueNumbers(v: Version)
  {
    forall l, m, f, g :: 0 <= l < |v.levels| && 0 <= m < |v.levels| && f in v.levels[l] && g in v.levels[m]
        && f.number == g.number
      ==> l == m && f == g
  }

  ghost predicate NumbersBelow(v: Version, n: nat)
  {
    forall l, f :: 0 <= l < |v.levels| && f in v.levels[l] ==> f.number < n
  }

  ghost predicate Apart(f: File, g: File)
  {
    Less(f.largest, g.smallest) || Less(g.largest, f.smallest)
  }

  lemma DisjointApart(fs: seq<File>)
    requires Disjoint(fs)
    ensures forall f, g :: f in fs && g in fs && f != g ==> Apart(f, g)
  {
    forall f, g | f in fs && g in fs && f != g ensures Apart(f, g) {
      var i :| 0 <= i < |fs| && fs[i] == f;
      var j :| 0 <= j < |fs| && fs[j] == g;
    }
  }

  lemma ApartSorted(fs: seq<File>)
    requires SortedFiles(fs) && forall f :: f in fs ==> ValidFile(f)
    requires forall f, g :: f in fs && g in fs && f != g ==> Apart(f, g)
    ensures Disjoint(fs)
  {
    forall i, j | 0 <= i < j < |fs| ensures Less(fs[i].largest, fs[j].smallest) {
      assert BySmallest(fs[i], fs[j]);
      assert fs[i] in fs && fs[j] in fs;
      assert fs[i] != fs[j];
      InRange(fs[j], fs[j].entries[|fs[j].entries| - 1]);
    }
  }

  // ---------------------------------------------------------------------------
  // When a compaction is ready to be installed

  function Without(fs: seq<File>, del: seq<File>): (r: seq<File>)
    ensures forall f :: f in r <==> f in fs && f !in del
  {
    if fs == [] then []
    else
      assert forall f :: f in fs <==> f == fs[0] || f in fs[1..];
      (if fs[0] in del then [] else [fs[0]]) + Without(fs[1..], del)
  }

  ghost function InputEntries(c: Inputs): (es: set<Entry>)
  {
    EntriesOf(c.in0) + EntriesOf(c.in1)
  }

  /** Files of level + 1 that stay behind lie wholly before or wholly after the inputs. */
  ghost predicate SeparatedFrom(f: File, es: set<Entry>)
  {
    (forall e :: e in es ==> Less(f.largest, e.key)) || (forall e :: e in es ==> Less(e.key, f.smallest))
  }

  /**
   What must hold between the current version `v` and a compaction of `c` that was started on `iv`:
   nothing older than an input stays behind in its level, what stays behind in the next level shows
   nothing below a deletion marker that may go away, the rest of the next level is clear of the
   inputs, and levels found empty for a key have stayed empty.
   */
  ghost predicate Ready(iv: Version, v: Version, c: Inputs)
    requires |v.levels| == NUM_LEVELS
  {
    && InputsOf(v, c)
    && Above(EntriesOf(Without(v.levels[c.level], c.in0)), EntriesOf(c.in0))
    && (forall e :: e in InputEntries(c) && e.key.typ.Deletion? && BaseLevelFor(iv, c.level, e.key.ukey)
          ==> View(EntriesOf(Without(v.levels[c.level + 1], c.in1)), e.key.ukey, e.key.seqno) == None)
    && (forall f :: f in v.levels[c.level + 1] && f !in c.in1 ==> SeparatedFrom(f, InputEntries(c)))
    && (forall e :: e in InputEntries(c) && BaseLevelFor(iv, c.level, e.key.ukey) ==>
        BaseLevelFor(v, c.level, e.key.ukey))
  }

  /** The merged input run of a compaction. */
  ghost predicate MergedInputs(c: Inputs, m: seq<Entry>)
  {
    Sorted(m) && Elems(m) == InputEntries(c)
  }

  /** The edit of InstallCompactionResults: inputs out of both levels, outputs into the next. */
  ghost function CompactionEdit(c: Inputs, outs: seq<File>): (e: Edit)
  {
    Edit((set f | f in c.in0 :: (c.level, f.number)) + (set f | f in c.in1 :: (c.level + 1, f.number)),
         set f | f in outs :: (c.level + 1, f))
  }

  /** File numbers that no file of the version has. */
  ghost predicate FreshNumbers(v: Version, outs: seq<File>)
  {
    && (forall l, f, g :: 0 <= l < |v.levels| && f in v.levels[l] && g in outs ==> f.number != g.number)
    && (forall i, j :: 0 <= i < j < |outs| ==> outs[i].number != outs[j].number)
  }

  /** Does level `l` hold `f` once the outputs have replaced the inputs? */
  ghost predicate HeldAfter(v: Version, c: Inputs, outs: seq<File>, l: nat, f: File)
    requires l < |v.levels|
  {
    if l == c.level then f in v.levels[l] && f !in c.in0
    else if l == c.level + 1 then (f in v.levels[l] && f !in c.in1) || f in outs
    else f in v.levels[l]
  }

  lemma DeletedAre(v: Version, c: Inputs, outs: seq<File>)
    requires WellFormed(v) && UniqueNumbers(v) && InputsOf(v, c)
    ensures forall l, f :: 0 <= l < NUM_LEVELS && f in v.levels[l] ==>
              ((l, f.number) in CompactionEdit(c, outs).deleted <==> (l == c.level && f in c.in0)
                                                                     || (l == c.level + 1 && f in c.in1))
  {
    assert |v.levels| == NUM_LEVELS;
    hide WellFormed;
    var e := CompactionEdit(c, outs);
    forall l, f | 0 <= l < NUM_LEVELS && f in v.levels[l]
      ensures (l, f.number) in e.deleted <==> (l == c.level && f in c.in0) || (l == c.level + 1 && f in c.in1)
    {
      if (l, f.number) in e.deleted {
        if l == c.level {
          var g :| g in c.in0 && g.number == f.number;
        } else {
          var g :| g in c.in1 && g.number == f.number;
        }
      }
    }
  }

  /** Level by level, what the edited version holds. */
  lemma EditedLevels(v: Version, c: Inputs, outs: seq<File>, v': Version)
    requires WellFormed(v) && UniqueNumbers(v) && InputsOf(v, c)
    requires Edited(v, CompactionEdit(c, outs), v')
    ensures forall l, f :: 0 <= l < NUM_LEVELS ==> (f in v'.levels[l] <==> HeldAfter(v, c, outs, l, f))
  {
    var e := CompactionEdit(c, outs);
    DeletedAre(v, c, outs);
    forall l, f | 0 <= l < NUM_LEVELS
      ensures f in v'.levels[l] <==> HeldAfter(v, c, outs, l, f)
    {
      assert (l, f) in e.added <==> l == c.level + 1 && f in outs;
    }
  }

  // ---------------------------------------------------------------------------
  // The new version can be searched

  lemma EntriesSubset(a: seq<File>, b: seq<File>)
    requires forall f :: f in a ==> f in b
    ensures EntriesOf(a) <= EntriesOf(b)
  {
  }

  /** How the entries of the two levels are rearranged. */
  lemma EditedEntries(v: Version, c: Inputs, outs: seq<File>, v': Version)
    requires WellFormed(v) && UniqueNumbers(v) && InputsOf(v, c)
    requires Edited(v, CompactionEdit(c, outs), v')
    ensures EntriesOf(v'.levels[c.level]) == EntriesOf(Without(v.levels[c.level], c.in0))
    ensures EntriesOf(v'.levels[c.level + 1]) == EntriesOf(Without(v.levels[c.level + 1], c.in1)) + EntriesOf(outs)
    ensures EntriesOf(v.levels[c.level]) == EntriesOf(Without(v.levels[c.level], c.in0)) + EntriesOf(c.in0)
    ensures EntriesOf(v.levels[c.level + 1]) == EntriesOf(Without(v.levels[c.level + 1], c.in1)) + EntriesOf(c.in1)
    ensures forall l :: 0 <= l < NUM_LEVELS && l != c.level && l != c.level + 1
              ==> EntriesOf(v'.levels[l]) == EntriesOf(v.levels[l])
  {
    assert |v.levels| == |v'.levels| == NUM_LEVELS;
    hide WellFormed, UniqueNumbers, Edited, EntriesOf;
    EditedLevels(v, c, outs, v');
    var l0, l1 := c.level, c.level + 1;
    SameFiles(v'.levels[l0], Without(v.levels[l0], c.in0));
    BothFiles(v'.levels[l1], Without(v.levels[l1], c.in1), outs);
    BothFiles(v.levels[l0], Without(v.levels[l0], c.in0), c.in0);
    BothFiles(v.levels[l1], Without(v.levels[l1], c.in1), c.in1);
    forall l | 0 <= l < NUM_LEVELS && l != l0 && l != l1 ensures EntriesOf(v'.levels[l]) == EntriesOf(v.levels[l]) {
      SameFiles(v'.levels[l], v.levels[l]);
    }
  }

  lemma SameFiles(fs: seq<File>, gs: seq<File>)
    requires forall f :: f in fs <==> f in gs
    ensures EntriesOf(fs) == EntriesOf(gs)
  {
  }

  lemma BothFiles(fs: seq<File>, gs: seq<File>, hs: seq<File>)
    requires forall f :: f in fs <==> f in gs || f in hs
    ensures EntriesOf(fs) == EntriesOf(gs) + EntriesOf(hs)
  {
  }

  /** Where an entry of the edited version comes from. */
  lemma WhereFrom(v: Version, c: Inputs, outs: seq<File>, v': Version, l: nat, f: Entry)
    requires WellFormed(v) && UniqueNumbers(v) && InputsOf(v, c)
    requires Edited(v, CompactionEdit(c, outs), v') && l < NUM_LEVELS && f in EntriesOf(v'.levels[l])
    ensures if l == c.level then f in EntriesOf(Without(v.levels[c.level], c.in0))
            else if l == c.level + 1 then f in EntriesOf(Without(v.levels[c.level + 1], c.in1)) || f in EntriesOf(outs)
            else f in EntriesOf(v.levels[l])
  {
    hide WellFormed, UniqueNumbers, EntriesOf, Without, CompactionEdit;
    EditedEntries(v, c, outs, v');
    hide InputsOf, Edited;
  }

  lemma AboveInstall(k0: set<Entry>, i0: set<Entry>, k1: set<Entry>, i1: set<Entry>, out: set<Entry>)
    requires Above(k0 + i0, k1 + i1) && Above(k0, i0) && out <= i0 + i1
    ensures Above(k0, k1 + out)
  {
  }

  lemma AboveParts(a: set<Entry>, b: set<Entry>, x: set<Entry>, y: set<Entry>, a': set<Entry>, x': set<Entry>)
    requires Above(a, x) && Above(a, y) && Above(b, x) && Above(b, y)
    requires a' <= a + b && x' <= x + y
    ensures Above(a', x')
  {
  }

  lemma EditedAboveOutputs(v: Version, c: Inputs, outs: seq<File>, v': Version)
    requires WellFormed(v) && UniqueNumbers(v) && Layered(v) && InputsOf(v, c)
    requires Above(EntriesOf(Without(v.levels[c.level], c.in0)), EntriesOf(c.in0))
    requires Edited(v, CompactionEdit(c, outs), v')
    requires EntriesOf(outs) <= InputEntries(c)
    ensures Above(EntriesOf(v'.levels[c.level]), EntriesOf(v'.levels[c.level + 1]))
  {
    EditedEntries(v, c, outs, v');
    hide WellFormed, UniqueNumbers, EntriesOf, Above, Edited;
    var l0, l1 := c.level, c.level + 1;
    AboveInstall(EntriesOf(Without(v.levels[l0], c.in0)), EntriesOf(c.in0),
                 EntriesOf(Without(v.levels[l1], c.in1)), EntriesOf(c.in1), EntriesOf(outs));
  }

  lemma EditedWithin(v: Version, c: Inputs, outs: seq<File>, v': Version, l: nat)
    requires WellFormed(v) && UniqueNumbers(v) && InputsOf(v, c)
    requires Edited(v, CompactionEdit(c, outs), v')
    requires EntriesOf(outs) <= InputEntries(c) && l < NUM_LEVELS
    ensures EntriesOf(v'.levels[l])
            <= EntriesOf(v.levels[l]) + EntriesOf(v.levels[if l == c.level + 1 then c.level else l])
  {
    hide WellFormed, UniqueNumbers;
    EntriesSubset(Without(v.levels[l], c.in0), v.levels[l]);
    EntriesSubset(Without(v.levels[l], c.in1), v.levels[l]);
    EntriesSubset(c.in0, v.levels[c.level]);
    EntriesSubset(c.in1, v.levels[c.level + 1]);
    hide Edited, EntriesOf, InputsOf;
    forall f | f in EntriesOf(v'.levels[l])
      ensures f in EntriesOf(v.levels[l]) || f in EntriesOf(v.levels[if l == c.level + 1 then c.level else l])
    {
      WhereFrom(v, c, outs, v', l, f);
    }
  }

  lemma EditedAbove(v: Version, c: Inputs, outs: seq<File>, v': Version, l: nat, m: nat)
    requires WellFormed(v) && UniqueNumbers(v) && Layered(v) && InputsOf(v, c)
    requires Edited(v, CompactionEdit(c, outs), v')
    requires EntriesOf(outs) <= InputEntries(c) && l < m < NUM_LEVELS && !(l == c.level && m == c.level + 1)
    ensures Above(EntriesOf(v'.levels[l]), EntriesOf(v'.levels[m]))
  {
    hide WellFormed, UniqueNumbers, EntriesOf, Above, CompactionEdit, InputEntries, SortedFiles;
    assert |v.levels| == |v'.levels| == NUM_LEVELS;
    hide Edited, InputsOf;
    var l0, l1 := c.level, c.level + 1;
    var l' := if l == l1 then l0 else l;
    var m' := if m == l1 then l0 else m;
    EditedWithin(v, c, outs, v', l);
    EditedWithin(v, c, outs, v', m);
    AboveParts(EntriesOf(v.levels[l]), EntriesOf(v.levels[l']), EntriesOf(v.levels[m]), EntriesOf(v.levels[m']),
               EntriesOf(v'.levels[l]), EntriesOf(v'.levels[m]));
  }

  lemma EditedLayered(v: Version, c: Inputs, outs: seq<File>, v': Version, iv: Version)
    requires WellFormed(v) && UniqueNumbers(v) && Layered(v) && Ready(iv, v, c)
    requires Edited(v, CompactionEdit(c, outs), v')
    requires EntriesOf(outs) <= InputEntries(c)
    ensures Layered(v')
  {
    hide WellFormed, UniqueNumbers, Above;
    forall l, m | 0 <= l < m < NUM_LEVELS
      ensures Above(EntriesOf(v'.levels[l]), EntriesOf(v'.levels[m]))
    {
      if l == c.level && m == c.level + 1 {
        EditedAboveOutputs(v, c, outs, v');
      } else {
        EditedAbove(v, c, outs, v', l, m);
      }
    }
  }

  lemma InputsSeparate(f: File, g: File, es: set<Entry>)
    requires ValidFile(g) && SeparatedFrom(f, es)
    requires forall e :: e in g.entries ==> e in es
    ensures Apart(f, g)
  {
    assert g.entries[0] in g.entries && g.entries[|g.entries| - 1] in g.entries;
  }

  /** Files left over from a disjoint level and outputs clear of them make a disjoint level. */
  lemma MixedDisjoint(before: seq<File>, ins: seq<File>, outs: seq<File>, es: set<Entry>, fs: seq<File>)
    requires Disjoint(before) && Disjoint(outs) && SortedFiles(fs)
    requires forall f :: f in fs ==> (f in before && f !in ins) || f in outs
    requires forall f :: f in fs ==> ValidFile(f)
    requires forall f :: f in before && f !in ins ==> SeparatedFrom(f, es)
    requires EntriesOf(outs) <= es
    ensures Disjoint(fs)
  {
    DisjointApart(before);
    DisjointApart(outs);
    forall f, g | f in fs && g in fs && f != g ensures Apart(f, g) {
      if f in outs && g !in outs {
        assert forall e :: e in f.entries ==> e in EntriesOf(outs);
        InputsSeparate(g, f, es);
      } else if g in outs && f !in outs {
        assert forall e :: e in g.entries ==> e in EntriesOf(outs);
        InputsSeparate(f, g, es);
      }
    }
    ApartSorted(fs);
  }

  lemma EditedWellFormed(v: Version, c: Inputs, outs: seq<File>, v': Version, iv: Version)
    requires WellFormed(v) && UniqueNumbers(v) && Ready(iv, v, c)
    requires Edited(v, CompactionEdit(c, outs), v')
    requires EntriesOf(outs) <= InputEntries(c)
    requires Disjoint(outs) && forall f :: f in outs ==> ValidFile(f)
    ensures WellFormed(v')
  {
    EditedLevels(v, c, outs, v');
    forall l, f | 0 <= l < NUM_LEVELS && f in v'.levels[l] ensures ValidFile(f) {
      assert HeldAfter(v, c, outs, l, f);
    }
    forall l | 1 <= l < NUM_LEVELS ensures Disjoint(v'.levels[l]) {
      assert forall f :: f in v'.levels[l] <==> HeldAfter(v, c, outs, l, f);
      if l == c.level + 1 {
        MixedDisjoint(v.levels[l], c.in1, outs, InputEntries(c), v'.levels[l]);
      } else {
        MixedDisjoint(v.levels[l], [], [], {}, v'.levels[l]);
      }
    }
    assert forall f :: f in v'.levels[0] <==> HeldAfter(v, c, outs, 0, f);
    DistinctAfter(v, v'.levels[0]);
  }

  lemma DistinctAfter(v: Version, fs: seq<File>)
    requires |v.levels| == NUM_LEVELS && UniqueNumbers(v) && SortedFiles(fs)
    requires forall f :: f in fs ==> f in v.levels[0]
    ensures DistinctNumbers(fs)
  {
    forall i, j | 0 <= i < j < |fs| ensures fs[i].number != fs[j].number {
      assert BySmallest(fs[i], fs[j]);
      assert fs[i] in v.levels[0] && fs[j] in v.levels[0];
    }
  }

  /** Installing the outputs keeps everything that Version::Get relies on. */
  lemma InstallSearchable(iv: Version, v: Version, c: Inputs, outs: seq<File>, v': Version)
    requires Searchable(v) && UniqueNumbers(v) && Ready(iv, v, c)
    requires Edited(v, CompactionEdit(c, outs), v')
    requires EntriesOf(outs) <= InputEntries(c)
    requires Disjoint(outs) && (forall f :: f in outs ==> ValidFile(f))
    ensures Searchable(v') && Contents(v') <= Contents(v)
  {
    EditedWellFormed(v, c, outs, v', iv);
    EditedLayered(v, c, outs, v', iv);
    EditedContents(v, c, outs, v');
    EditedLevels(v, c, outs, v');
    assert forall f :: f in v'.levels[0] ==> f in v.levels[0];
  }

  lemma NothingAdded(v: Version, c: Inputs, outs: seq<File>, v': Version, e: Entry)
    requires WellFormed(v) && UniqueNumbers(v) && InputsOf(v, c)
    requires Edited(v, CompactionEdit(c, outs), v')
    requires EntriesOf(outs) <= InputEntries(c) && e in Contents(v')
    ensures e in Contents(v)
  {
    EditedLevels(v, c, outs, v');
    hide WellFormed, UniqueNumbers, Edited;
    var l :| 0 <= l < NUM_LEVELS && e in EntriesOf(v'.levels[l]);
    var f :| f in v'.levels[l] && e in f.entries;
    assert HeldAfter(v, c, outs, l, f);
    if f !in v.levels[l] {
      assert e in EntriesOf(outs);
      InputsHeld(v, c, e);
    } else {
      assert e in EntriesOf(v.levels[l]);
    }
  }

  lemma NotAnInput(c: Inputs, f: File, e: Entry)
    requires e in f.entries && e !in InputEntries(c)
    ensures f !in c.in0 && f !in c.in1
  {
  }

  lemma FileKept(v: Version, c: Inputs, outs: seq<File>, v': Version, l: nat, f: File)
    requires WellFormed(v) && UniqueNumbers(v) && InputsOf(v, c)
    requires Edited(v, CompactionEdit(c, outs), v')
    requires l < NUM_LEVELS && f in v.levels[l] && f !in c.in0 && f !in c.in1
    ensures f in v'.levels[l]
  {
    EditedLevels(v, c, outs, v');
    assert HeldAfter(v, c, outs, l, f);
  }

  lemma HolderOf(v: Version, e: Entry) returns (l: nat, f: File)
    requires e in Contents(v)
    ensures l < |v.levels| && f in v.levels[l] && e in f.entries
  {
    l :| 0 <= l < |v.levels| && e in EntriesOf(v.levels[l]);
    f :| f in v.levels[l] && e in f.entries;
  }

  lemma InContents(v: Version, l: nat, f: File, e: Entry)
    requires l < |v.levels| && f in v.levels[l] && e in f.entries
    ensures e in Contents(v)
  {
    assert e in EntriesOf(v.levels[l]);
  }

  lemma OthersKept(v: Version, c: Inputs, outs: seq<File>, v': Version, e: Entry)
    requires WellFormed(v) && UniqueNumbers(v) && InputsOf(v, c)
    requires Edited(v, CompactionEdit(c, outs), v')
    requires e in Contents(v) && e !in InputEntries(c)
    ensures e in Contents(v')
  {
    hide WellFormed, UniqueNumbers, InputsOf;
    assert |v.levels| == |v'.levels| == NUM_LEVELS;
    hide Edited;
    var l, f := HolderOf(v, e);
    NotAnInput(c, f, e);
    FileKept(v, c, outs, v', l, f);
    InContents(v', l, f, e);
  }

  lemma EditedContents(v: Version, c: Inputs, outs: seq<File>, v': Version)
    requires WellFormed(v) && UniqueNumbers(v) && InputsOf(v, c)
    requires Edited(v, CompactionEdit(c, outs), v')
    requires EntriesOf(outs) <= InputEntries(c)
    ensures Contents(v') <= Contents(v)
    ensures forall e :: e in Contents(v) && e !in InputEntries(c) ==> e in Contents(v')
  {
    hide WellFormed, UniqueNumbers, Edited, InputsOf;
    forall e | e in Contents(v') ensures e in Contents(v) {
      NothingAdded(v, c, outs, v', e);
    }
    forall e | e in Contents(v) && e !in InputEntries(c) ensures e in Contents(v') {
      OthersKept(v, c, outs, v', e);
    }
  }

  lemma OutputsHeld(v: Version, c: Inputs, outs: seq<File>, v': Version)
    requires WellFormed(v) && UniqueNumbers(v) && InputsOf(v, c)
    requires Edited(v, CompactionEdit(c, outs), v')
    ensures EntriesOf(outs) <= Contents(v')
  {
    EditedEntries(v, c, outs, v');
    assert EntriesOf(outs) <= EntriesOf(v'.levels[c.level + 1]);
  }

  lemma InputsHeld(v: Version, c: Inputs, e: Entry)
    requires WellFormed(v) && InputsOf(v, c) && e in InputEntries(c)
    ensures e in Contents(v)
    ensures e in EntriesOf(v.levels[c.level]) || e in EntriesOf(v.levels[c.level + 1])
  {
    if e in EntriesOf(c.in0) {
      EntriesSubset(c.in0, v.levels[c.level]);
    } else {
      EntriesSubset(c.in1, v.levels[c.level + 1]);
    }
  }

  // ---------------------------------------------------------------------------
  // The new version means the same

  /** The outputs hold exactly what the drop rules leave of the merged inputs. */
  ghost predicate Rewritten(iv: Version, c: Inputs, m: seq<Entry>, snapshot: nat, outs: seq<File>)
  {
    && MergedInputs(c, m)
    && EntriesOf(outs) == Elems(Kept(m, Drops(iv, c.level, m, snapshot), |m|))
  }

  /** What the compaction loop leaves behind is what installation expects. */
  lemma LoopRewrites(iv: Version, c: Inputs, m: seq<Entry>, snapshot: nat, outs: seq<File>)
    requires MergedInputs(c, m) && Flatten(outs) == Kept(m, Drops(iv, c.level, m, snapshot), |m|)
    ensures Rewritten(iv, c, m, snapshot, outs)
  {
    FlattenElems(outs);
  }

  lemma OutputsAreInputs(iv: Version, c: Inputs, m: seq<Entry>, snapshot: nat, outs: seq<File>)
    requires Rewritten(iv, c, m, snapshot, outs)
    ensures EntriesOf(outs) <= InputEntries(c)
    ensures forall e :: e in EntriesOf(outs) <==> exists i :: 0 <= i < |m| && m[i] == e
                                                              && !Dropped(iv, c.level, m, snapshot, i)
  {
    var drops := Drops(iv, c.level, m, snapshot);
    KeptElems(m, drops, |m|);
    forall e | e in EntriesOf(outs)
      ensures e in InputEntries(c) && exists i :: 0 <= i < |m| && m[i] == e && !Dropped(iv, c.level, m, snapshot, i)
    {
      assert e in Kept(m, drops, |m|);
      var i :| 0 <= i < |m| && !drops[i] && m[i] == e;
      assert e in Elems(m);
    }
    forall i | 0 <= i < |m| && !Dropped(iv, c.level, m, snapshot, i) ensures m[i] in EntriesOf(outs) {
      assert !drops[i];
      assert m[i] in Kept(m, drops, |m|);
    }
  }

  /** Once an entry of a key is old enough for every reader, later entries of the key are dropped. */
  lemma HiddenAfter(iv: Version, level: nat, m: seq<Entry>, snapshot: nat, i: nat, j: nat)
    requires Sorted(m) && i < j < |m| && m[i].key.ukey == m[j].key.ukey && m[i].key.seqno <= snapshot
    ensures Dropped(iv, level, m, snapshot, j)
  {
    assert Less(m[j - 1].key, m[j].key);
    assert i < j - 1 ==> Less(m[i].key, m[j - 1].key);
  }

  /** Entries that the compaction leaves alone above its outputs are newer than its inputs. */
  lemma LeftAloneIsNewer(v: Version, c: Inputs, l: nat, f: Entry, e: Entry)
    requires WellFormed(v) && Layered(v) && InputsOf(v, c) && e in InputEntries(c)
    requires Above(EntriesOf(Without(v.levels[c.level], c.in0)), EntriesOf(c.in0))
    requires || (l < c.level && f in EntriesOf(v.levels[l]))
             || f in EntriesOf(Without(v.levels[c.level], c.in0))
    requires f.key.ukey == e.key.ukey
    ensures f.key.seqno > e.key.seqno
  {
    var l0, l1 := c.level, c.level + 1;
    InputsHeld(v, c, e);
    if l < l0 && f in EntriesOf(v.levels[l]) {
      assert Above(EntriesOf(v.levels[l]), EntriesOf(v.levels[l0]));
      assert Above(EntriesOf(v.levels[l]), EntriesOf(v.levels[l1]));
    } else {
      EntriesSubset(Without(v.levels[l0], c.in0), v.levels[l0]);
      EntriesSubset(c.in1, v.levels[l1]);
      assert Above(EntriesOf(v.levels[l0]), EntriesOf(v.levels[l1]));
    }
  }

  /** An output entry of the key of a deletion marker is not older than the marker. */
  lemma OutputNotBelowMarker(iv: Version, c: Inputs, m: seq<Entry>, snapshot: nat, outs: seq<File>, i: nat, f: Entry)
    requires Rewritten(iv, c, m, snapshot, outs)
    requires i < |m| && m[i].key.seqno <= snapshot && f in EntriesOf(outs) && f.key.ukey == m[i].key.ukey
    ensures f.key.seqno >= m[i].key.seqno
  {
    OutputsAreInputs(iv, c, m, snapshot, outs);
    var j :| 0 <= j < |m| && m[j] == f && !Dropped(iv, c.level, m, snapshot, j);
    if i < j {
      HiddenAfter(iv, c.level, m, snapshot, i, j);
    } else if j < i {
      assert Less(m[j].key, m[i].key);
    }
  }

  lemma DeeperLevelEmpty(v: Version, level: nat, k: UserKey, l: nat, f: Entry)
    requires WellFormed(v) && BaseLevelFor(v, level, k)
    requires level + 2 <= l < NUM_LEVELS && f in EntriesOf(v.levels[l])
    ensures f.key.ukey != k
  {
    var g :| g in v.levels[l] && f in g.entries;
    InRange(g, f);
  }

  /** What survives of a key below a deletion marker was left behind in the next level. */
  lemma BelowMarker(iv: Version, v: Version, c: Inputs, m: seq<Entry>, snapshot: nat, outs: seq<File>, v': Version,
                    i: nat, f: Entry)
    requires WellFormed(v) && Layered(v) && UniqueNumbers(v) && InputsOf(v, c)
    requires Above(EntriesOf(Without(v.levels[c.level], c.in0)), EntriesOf(c.in0))
    requires Rewritten(iv, c, m, snapshot, outs) && Edited(v, CompactionEdit(c, outs), v')
    requires i < |m| && m[i].key.seqno <= snapshot && BaseLevelFor(v, c.level, m[i].key.ukey)
    requires f in Contents(v') && f.key.ukey == m[i].key.ukey && f.key.seqno < m[i].key.seqno
    ensures f in EntriesOf(Without(v.levels[c.level + 1], c.in1))
  {
    assert m[i] in Elems(m) && |v'.levels| == NUM_LEVELS;
    hide WellFormed, UniqueNumbers, Edited, EntriesOf, Above, Layered, BaseLevelFor, InputsOf, Dropped, Sorted;
    var l :| 0 <= l < NUM_LEVELS && f in EntriesOf(v'.levels[l]);
    WhereFrom(v, c, outs, v', l, f);
    if c.level + 2 <= l {
      DeeperLevelEmpty(v, c.level, m[i].key.ukey, l, f);
    } else if l == c.level + 1 {
      if f in EntriesOf(outs) {
        OutputNotBelowMarker(iv, c, m, snapshot, outs, i, f);
      }
    } else {
      LeftAloneIsNewer(v, c, l, f, m[i]);
    }
  }

  lemma NewestOfPart(part: set<Entry>, es: set<Entry>, k: UserKey, s: nat, f: Entry)
    requires part <= es && f in part && Newest(es, k, s, f) && View(part, k, s) == None
    ensures f.key.typ.Deletion?
  {
    assert Newest(part, k, s, f);
  }

  lemma OlderThanMarker(es: set<Entry>, rest: set<Entry>, e: Entry, f: Entry)
    requires UniqueSeq(es) && rest <= es && e in es && e !in rest
    requires f in rest && Visible(f, e.key.ukey, e.key.seqno)
    ensures f.key.seqno < e.key.seqno
  {
  }

  /** Below a dropped deletion marker the new version shows nothing. */
  lemma MarkerShowsNothing(iv: Version, v: Version, c: Inputs, m: seq<Entry>, snapshot: nat, outs: seq<File>,
                           v': Version, i: nat)
    requires WellFormed(v) && Layered(v) && UniqueSeq(Contents(v)) && UniqueNumbers(v) && Ready(iv, v, c)
    requires Rewritten(iv, c, m, snapshot, outs) && Edited(v, CompactionEdit(c, outs), v')
    requires i < |m| && m[i].key.typ.Deletion? && m[i].key.seqno <= snapshot && BaseLevelFor(iv, c.level, m[i].key.ukey)
    requires m[i] in Contents(v) && m[i] !in Contents(v') && Contents(v') <= Contents(v)
    ensures View(Contents(v'), m[i].key.ukey, m[i].key.seqno) == None
  {
    var k, s := m[i].key.ukey, m[i].key.seqno;
    assert m[i] in Elems(m);
    LeftoversHeld(v, c, outs, v');
    var r := View(Contents(v'), k, s);
    if r.Some? {
      OlderThanMarker(Contents(v), Contents(v'), m[i], r.value);
      BelowMarker(iv, v, c, m, snapshot, outs, v', i, r.value);
      NewestOfPart(EntriesOf(Without(v.levels[c.level + 1], c.in1)), Contents(v'), k, s, r.value);
    }
  }

  lemma LeftoversHeld(v: Version, c: Inputs, outs: seq<File>, v': Version)
    requires WellFormed(v) && UniqueNumbers(v) && InputsOf(v, c)
    requires Edited(v, CompactionEdit(c, outs), v')
    ensures EntriesOf(Without(v.levels[c.level + 1], c.in1)) <= Contents(v')
  {
    EditedEntries(v, c, outs, v');
    assert EntriesOf(Without(v.levels[c.level + 1], c.in1)) <= EntriesOf(v'.levels[c.level + 1]);
  }

  /**
   Which losses no reader at or after `snapshot` can notice: an entry with a newer one of its key
   that all of them see, or a deletion marker below which nothing shows.
   */
  ghost predicate Expendable(es: set<Entry>, rest: set<Entry>, snapshot: nat, e: Entry)
  {
    || (exists p :: p in es && p.key.ukey == e.key.ukey && e.key.seqno < p.key.seqno <= snapshot)
    || (e.key.typ.Deletion? && e.key.seqno <= snapshot && View(rest, e.key.ukey, e.key.seqno) == None)
  }

  /** Dropping expendable entries keeps the view of every snapshot that counts. */
  lemma ExpendableLoss(es: set<Entry>, rest: set<Entry>, snapshot: nat, k: UserKey, s: nat)
    requires rest <= es && UniqueSeq(es) && snapshot <= s
    requires forall e :: e in es && e !in rest ==> Expendable(es, rest, snapshot, e)
    ensures View(rest, k, s) == View(es, k, s)
  {
    NewestExists(es, k, s);
    if NoneVisible(es, k, s) {
      ViewOfNone(es, k, s);
      ViewOfNone(rest, k, s);
    } else {
      var e :| Newest(es, k, s, e);
      ViewOfNewest(es, k, s, e);
      if e in rest {
        ViewOfNewest(rest, k, s, e);
      } else {
        assert Expendable(es, rest, snapshot, e);
        assert View(rest, k, e.key.seqno) == None;
        forall f | Newest(rest, k, s, f) ensures f.key.typ.Deletion? {
          assert Newest(rest, k, e.key.seqno, f);
        }
      }
    }
  }

  /** Every entry that a compaction drops is expendable. */
  lemma DroppedIsExpendable(iv: Version, v: Version, c: Inputs, m: seq<Entry>, snapshot: nat, outs: seq<File>,
                            v': Version, e: Entry)
    requires WellFormed(v) && Layered(v) && UniqueSeq(Contents(v)) && UniqueNumbers(v) && Ready(iv, v, c)
    requires Rewritten(iv, c, m, snapshot, outs) && Edited(v, CompactionEdit(c, outs), v')
    requires snapshot < MAX_SEQUENCE
    requires e in Contents(v) && e !in Contents(v')
    ensures Expendable(Contents(v), Contents(v'), snapshot, e)
  {
    var i := DroppedAt(iv, v, c, m, snapshot, outs, v', e);
    OutputsAreInputs(iv, c, m, snapshot, outs);
    EditedContents(v, c, outs, v');
    if LastSequenceForKey(m, i) <= snapshot {
      HiddenBehind(v, c, m, snapshot, i);
    } else {
      MarkerShowsNothing(iv, v, c, m, snapshot, outs, v', i);
    }
  }

  lemma HiddenBehind(v: Version, c: Inputs, m: seq<Entry>, snapshot: nat, i: nat)
    requires WellFormed(v) && UniqueSeq(Contents(v)) && InputsOf(v, c) && MergedInputs(c, m)
    requires i < |m| && LastSequenceForKey(m, i) <= snapshot < MAX_SEQUENCE
    ensures exists p :: p in Contents(v) && p.key.ukey == m[i].key.ukey && m[i].key.seqno < p.key.seqno <= snapshot
  {
    var p := m[i - 1];
    assert p in Elems(m) && Less(p.key, m[i].key);
    InputsHeld(v, c, p);
    assert m[i] in Elems(m);
    InputsHeld(v, c, m[i]);
  }

  lemma DroppedAt(iv: Version, v: Version, c: Inputs, m: seq<Entry>, snapshot: nat, outs: seq<File>, v': Version,
                  e: Entry) returns (i: nat)
    requires WellFormed(v) && UniqueNumbers(v) && InputsOf(v, c)
    requires Rewritten(iv, c, m, snapshot, outs) && Edited(v, CompactionEdit(c, outs), v')
    requires e in Contents(v) && e !in Contents(v')
    ensures i < |m| && m[i] == e && Dropped(iv, c.level, m, snapshot, i)
  {
    OutputsAreInputs(iv, c, m, snapshot, outs);
    EditedContents(v, c, outs, v');
    OutputsHeld(v, c, outs, v');
    assert e in Elems(m);
    i :| 0 <= i < |m| && m[i] == e;
  }

  /** Every snapshot that the compaction respects reads the same before and after. */
  lemma InstallView(iv: Version, v: Version, c: Inputs, m: seq<Entry>, snapshot: nat, outs: seq<File>, v': Version,
                    k: UserKey, s: nat)
    requires Searchable(v) && UniqueNumbers(v) && Ready(iv, v, c)
    requires Rewritten(iv, c, m, snapshot, outs) && Edited(v, CompactionEdit(c, outs), v')
    requires snapshot < MAX_SEQUENCE && snapshot <= s
    ensures View(Contents(v'), k, s) == View(Contents(v), k, s)
  {
    OutputsAreInputs(iv, c, m, snapshot, outs);
    EditedContents(v, c, outs, v');
    forall e | e in Contents(v) && e !in Contents(v') ensures Expendable(Contents(v), Contents(v'), snapshot, e) {
      DroppedIsExpendable(iv, v, c, m, snapshot, outs, v', e);
    }
    ExpendableLoss(Contents(v), Contents(v'), snapshot, k, s);
  }
}
