/**
 Applying a whole sequence of edits with one builder (db/version_set.cc: VersionSet::Builder).
 */
module ManifestReplay {
  import opened DbFormat
  import opened VersionModel
  import opened Install

  /** The file lists of one edit, as they are written. */
  datatype FileEdit = FileEdit(deleted: seq<(nat, nat)>, added: seq<(nat, File)>)

  ghost predicate LevelsFit(e: FileEdit)
  {
    && (forall i :: 0 <= i < |e.deleted| ==> e.deleted[i].0 < NUM_LEVELS)
    && (forall i :: 0 <= i < |e.added| ==> e.added[i].0 < NUM_LEVELS)
  }

  // ---------------------------------------------------------------------------
  // One edit after the other

  /** The files of level `l` that the edit adds, and the numbers it deletes there. */
  ghost function AddedTo(e: FileEdit, l: nat): (fs: set<File>)
  {
    set i | 0 <= i < |e.added| && e.added[i].0 == l :: e.added[i].1
  }

  ghost function DeletedFrom(e: FileEdit, l: nat): (ns: set<nat>)
  {
    set i | 0 <= i < |e.deleted| && e.deleted[i].0 == l :: e.deleted[i].1
  }

  ghost function Numbers(fs: set<File>): (ns: set<nat>)
  {
    set f | f in fs :: f.number
  }

  /** What one edit makes of the files of a level. */
  ghost function Step(fs: set<File>, e: FileEdit, l: nat): (r: set<File>)
  {
    (set f | f in fs && f.number !in DeletedFrom(e, l)) + AddedTo(e, l)
  }

  /** The files of level `l` after the first `n` edits, taken one at a time. */
  ghost function After(base: set<File>, es: seq<FileEdit>, l: nat, n: nat): (fs: set<File>)
    requires n <= |es|
  {
    if n == 0 then base else Step(After(base, es, l, n - 1), es[n - 1], l)
  }

  /** All files that the first `n` edits ever add to level `l`. */
  ghost function EverAdded(es: seq<FileEdit>, l: nat, n: nat): (fs: set<File>)
    requires n <= |es|
  {
    if n == 0 then {} else EverAdded(es, l, n - 1) + AddedTo(es[n - 1], l)
  }

  /** A number names one file, and the base's numbers are not used again in their level. */
  ghost predicate NumbersTell(base: set<File>, added: set<File>)
  {
    && (forall f, g :: f in added && g in added && f.number == g.number ==> f == g)
    && (forall f, g :: f in base && g in added ==> f.number != g.number)
  }

  // ---------------------------------------------------------------------------
  // The builder

  /** What the builder has for one level: numbers to drop and files to add, ordered by smallest key. */
  datatype LevelState = LevelState(deleted: set<nat>, added: seq<File>)

  /** Insertion into the ordered set of added files; a file that is there already is not added again. */
  function Insert(fs: seq<File>, f: File): (r: seq<File>)
  {
    if fs == [] then [f]
    else if BySmallest(f, fs[0]) then [f] + fs
    else if !BySmallest(fs[0], f) then fs
    else [fs[0]] + Insert(fs[1..], f)
  }

  lemma {:induction false} InsertKeeps(fs: seq<File>, f: File)
    requires SortedFiles(fs) && forall g :: g in fs && g.number == f.number ==> g == f
    ensures SortedFiles(Insert(fs, f)) && forall g :: g in Insert(fs, f) <==> g in fs || g == f
    ensures forall g :: g in Insert(fs, f) ==> g in fs || g == f
  {
    if fs != [] && !BySmallest(f, fs[0]) && BySmallest(fs[0], f) {
      var rest := fs[1..];
      forall g | g in rest ensures g in fs {
      }
      InsertKeeps(rest, f);
      var r := Insert(rest, f);
      forall i | 0 <= i < |r| ensures BySmallest(fs[0], r[i]) {
        assert r[i] in r;
        if r[i] != f {
          var j :| 0 <= j < |rest| && rest[j] == r[i];
          assert fs[j + 1] == r[i];
        }
      }
      assert forall g :: g in fs <==> g == fs[0] || g in rest;
    } else if fs != [] && BySmallest(f, fs[0]) {
      forall i | 0 <= i < |fs| ensures BySmallest(f, fs[i]) {
        assert i > 0 ==> BySmallest(fs[0], fs[i]);
      }
    } else if fs != [] {
      NotApart(f, fs[0]);
      assert fs[0] in fs;
    }
  }

  lemma NotApart(f: File, g: File)
    requires !BySmallest(f, g) && !BySmallest(g, f)
    ensures f.number == g.number
  {
  }

  ghost function FileSet(fs: seq<File>): (r: set<File>)
    ensures forall f :: f in r <==> f in fs
  {
    set f | f in fs
  }

  /** The numbers that are marked deleted after the first `n` edits: an addition takes the mark off again. */
  ghost function Marked(es: seq<FileEdit>, l: nat, n: nat): (ns: set<nat>)
    requires n <= |es|
  {
    if n == 0 then {} else Marked(es, l, n - 1) + DeletedFrom(es[n - 1], l) - Numbers(AddedTo(es[n - 1], l))
  }

  /** Dropping the marked numbers at the end is the same as applying every edit when it comes. */
  lemma {:induction false} MarksReplay(base: set<File>, es: seq<FileEdit>, l: nat, n: nat)
    requires n <= |es| && NumbersTell(base, EverAdded(es, l, n))
    ensures forall f :: f in After(base, es, l, n) <==> (f in base || f in EverAdded(es, l, n))
                                                        && f.number !in Marked(es, l, n)
  {
    if n > 0 {
      MarksReplay(base, es, l, n - 1);
      hide AddedTo, DeletedFrom;
      forall f ensures f in After(base, es, l, n) <==> (f in base || f in EverAdded(es, l, n))
                                                       && f.number !in Marked(es, l, n) {
        OneMoreMark(base, es, l, n, f);
      }
    }
  }

  lemma OneMoreMark(base: set<File>, es: seq<FileEdit>, l: nat, n: nat, f: File)
    requires 0 < n <= |es| && NumbersTell(base, EverAdded(es, l, n))
    requires f in After(base, es, l, n - 1) <==> (f in base || f in EverAdded(es, l, n - 1))
                                                 && f.number !in Marked(es, l, n - 1)
    ensures f in After(base, es, l, n) <==> (f in base || f in EverAdded(es, l, n)) && f.number !in Marked(es, l, n)
  {
    hide AddedTo, DeletedFrom;
    var added := AddedTo(es[n - 1], l);
    if f.number in Numbers(added) {
      var g :| g in added && g.number == f.number;
      assert f in base || f in EverAdded(es, l, n) ==> f == g;
    } else {
      assert f !in added;
    }
  }

  /** The deletions (additions) among the first `k` of an edit. */
  ghost function DeletedPart(e: FileEdit, l: nat, k: nat): (ns: set<nat>)
    requires k <= |e.deleted|
  {
    set i | 0 <= i < k && e.deleted[i].0 == l :: e.deleted[i].1
  }

  ghost function AddedPart(e: FileEdit, l: nat, k: nat): (fs: set<File>)
    requires k <= |e.added|
  {
    set i | 0 <= i < k && e.added[i].0 == l :: e.added[i].1
  }

  lemma DeletedPartStep(e: FileEdit, l: nat, k: nat)
    requires k < |e.deleted|
    ensures DeletedPart(e, l, k + 1) == DeletedPart(e, l, k) + (if e.deleted[k].0 == l then {e.deleted[k].1} else {})
  {
    forall x ensures x in DeletedPart(e, l, k + 1) <==> x in DeletedPart(e, l, k)
                                                        || (e.deleted[k].0 == l && x == e.deleted[k].1) {
      if x in DeletedPart(e, l, k + 1) {
        var i :| 0 <= i < k + 1 && e.deleted[i].0 == l && e.deleted[i].1 == x;
        assert i < k || i == k;
      }
    }
  }

  lemma AddedPartStep(e: FileEdit, l: nat, k: nat)
    requires k < |e.added|
    ensures AddedPart(e, l, k + 1) == AddedPart(e, l, k) + (if e.added[k].0 == l then {e.added[k].1} else {})
    ensures Numbers(AddedPart(e, l, k + 1))
            == Numbers(AddedPart(e, l, k)) + (if e.added[k].0 == l then {e.added[k].1.number} else {})
  {
    forall x ensures x in AddedPart(e, l, k + 1) <==>
        x in AddedPart(e, l, k) || (e.added[k].0 == l && x == e.added[k].1) {
      if x in AddedPart(e, l, k + 1) {
        var i :| 0 <= i < k + 1 && e.added[i].0 == l && e.added[i].1 == x;
        assert i < k || i == k;
      }
    }
  }

  class Builder {
    const base: Version
    var levels: seq<LevelState>
    ghost var edits: seq<FileEdit>

    /** The state of a level after all edits so far, the first `d` deletions and the first `a` additions of `e`. */
    ghost predicate LevelOk(l: nat, s: LevelState, e: FileEdit, d: nat, a: nat)
      reads this
      requires d <= |e.deleted| && a <= |e.added|
    {
      && SortedFiles(s.added)
      && FileSet(s.added) == EverAdded(edits, l, |edits|) + AddedPart(e, l, a)
      && s.deleted == Marked(edits, l, |edits|) + DeletedPart(e, l, d) - Numbers(AddedPart(e, l, a))
    }

    ghost predicate Ok()
      reads this
    {
      && |base.levels| == NUM_LEVELS && |levels| == NUM_LEVELS
      && (forall l :: 0 <= l < NUM_LEVELS ==> SortedFiles(base.levels[l]))
      && (forall l :: 0 <= l < NUM_LEVELS ==> LevelOk(l, levels[l], FileEdit([], []), 0, 0))
    }

    constructor (v: Version)
      requires |v.levels| == NUM_LEVELS && forall l :: 0 <= l < NUM_LEVELS ==> SortedFiles(v.levels[l])
      ensures Ok() && base == v && edits == []
    {
      base := v;
      levels := seq(NUM_LEVELS, _ => LevelState({}, []));
      edits := [];
    }

    method Apply(e: FileEdit)
      requires Ok() && LevelsFit(e)
      requires forall l :: 0 <= l < NUM_LEVELS ==>
               NumbersTell(FileSet(base.levels[l]), EverAdded(edits + [e], l, |edits| + 1))
      modifies this
      ensures Ok() && edits == old(edits) + [e]
    {
      DeleteFiles(e);
      AddFiles(e);
      ghost var before := edits;
      edits := edits + [e];
      forall l | 0 <= l < NUM_LEVELS ensures LevelOk(l, levels[l], FileEdit([], []), 0, 0) {
        EditsGrow(before, e, l, |before|);
        WholeEdit(e, l);
      }
    }

    method DeleteFiles(e: FileEdit)
      requires Ok() && LevelsFit(e)
      modifies this`levels
      ensures |levels| == NUM_LEVELS && forall l :: 0 <= l < NUM_LEVELS ==> LevelOk(l, levels[l], e, |e.deleted|, 0)
    {
      hide EverAdded, Marked, SortedFiles;
      forall l | 0 <= l < NUM_LEVELS ensures LevelOk(l, levels[l], e, 0, 0) {
      }
      for i := 0 to |e.deleted|
        invariant |levels| == NUM_LEVELS
        invariant forall l :: 0 <= l < NUM_LEVELS ==> LevelOk(l, levels[l], e, i, 0)
      {
        var level, number := e.deleted[i].0, e.deleted[i].1;
        forall l | 0 <= l < NUM_LEVELS
          ensures LevelOk(l, if l == level then levels[l].(deleted := levels[l].deleted + {number})
                          else levels[l], e, i + 1, 0)
        {
          assert LevelOk(l, levels[l], e, i, 0);
          DeletedPartStep(e, l, i);
        }
        levels := levels[level := levels[level].(deleted := levels[level].deleted + {number})];
      }
    }

    method AddFiles(e: FileEdit)
      requires |levels| == NUM_LEVELS && forall l :: 0 <= l < NUM_LEVELS ==> LevelOk(l, levels[l], e, |e.deleted|, 0)
      requires LevelsFit(e) && |base.levels| == NUM_LEVELS
      requires forall l :: 0 <= l < NUM_LEVELS ==>
               NumbersTell(FileSet(base.levels[l]), EverAdded(edits + [e], l, |edits| + 1))
      modifies this`levels
      ensures |levels| == NUM_LEVELS && forall l :: 0 <= l < NUM_LEVELS ==>
              LevelOk(l, levels[l], e, |e.deleted|, |e.added|)
    {
      hide EverAdded, Marked, SortedFiles, DeletedPart, NumbersTell;
      for i := 0 to |e.added|
        invariant |levels| == NUM_LEVELS
        invariant forall l :: 0 <= l < NUM_LEVELS ==> LevelOk(l, levels[l], e, |e.deleted|, i)
      {
        var level, f := e.added[i].0, e.added[i].1;
        forall l | 0 <= l < NUM_LEVELS
          ensures LevelOk(l, if l == level then LevelState(levels[l].deleted - {f.number}, Insert(levels[l].added, f))
                          else levels[l], e, |e.deleted|, i + 1)
        {
          AddedPartStep(e, l, i);
          if l == level {
            OneMoreFile(e, i, l, levels[l]);
          }
        }
        levels := levels[level := LevelState(levels[level].deleted - {f.number}, Insert(levels[level].added, f))];
      }
    }

    lemma OneMoreFile(e: FileEdit, i: nat, l: nat, s: LevelState)
      requires i < |e.added| && e.added[i].0 == l < NUM_LEVELS && |base.levels| == NUM_LEVELS
      requires NumbersTell(FileSet(base.levels[l]), EverAdded(edits + [e], l, |edits| + 1))
      requires LevelOk(l, s, e, |e.deleted|, i)
      ensures var f := e.added[i].1; LevelOk(l, LevelState(s.deleted - {f.number}, Insert(s.added, f)), e,
                                             |e.deleted|, i + 1)
    {
      hide Marked, DeletedPart;
      var f := e.added[i].1;
      EditsGrow(edits, e, l, |edits|);
      AddedPartStep(e, l, i);
      assert f in AddedTo(e, l);
      forall g | g in s.added && g.number == f.number ensures g == f {
        assert g in FileSet(s.added);
        assert g in EverAdded(edits + [e], l, |edits| + 1);
      }
      InsertKeeps(s.added, f);
    }

    method SaveTo() returns (v: Version)
      requires Ok()
      requires forall l :: 0 <= l < NUM_LEVELS ==> NumbersTell(FileSet(base.levels[l]), EverAdded(edits, l, |edits|))
      ensures |v.levels| == NUM_LEVELS
      ensures forall l :: 0 <= l < NUM_LEVELS ==>
                SortedFiles(v.levels[l]) && FileSet(v.levels[l]) == After(FileSet(base.levels[l]), edits, l, |edits|)
    {
      hide Marked, EverAdded, SortedFiles, NumbersTell, After;
      v := Version([]);
      while |v.levels| < NUM_LEVELS
        invariant |v.levels| <= NUM_LEVELS
        invariant forall l :: 0 <= l < |v.levels| ==>
                    && SortedFiles(v.levels[l])
                    && FileSet(v.levels[l]) == After(FileSet(base.levels[l]), edits, l, |edits|)
      {
        var level := |v.levels|;
        assert LevelOk(level, levels[level], FileEdit([], []), 0, 0);
        ApartFromBase(level);
        var files := MergeLevel(base.levels[level], levels[level].added, levels[level].deleted);
        MarksReplay(FileSet(base.levels[level]), edits, level, |edits|);
        LevelSaved(level, files);
        v := Version(v.levels + [files]);
      }
    }

    lemma ApartFromBase(l: nat)
      requires Ok() && l < NUM_LEVELS && NumbersTell(FileSet(base.levels[l]), EverAdded(edits, l, |edits|))
      ensures SortedFiles(base.levels[l]) && SortedFiles(levels[l].added)
      ensures forall f, g :: f in base.levels[l] && g in levels[l].added ==> f.number != g.number
    {
      hide Marked, EverAdded;
      assert LevelOk(l, levels[l], FileEdit([], []), 0, 0);
      forall f, g | f in base.levels[l] && g in levels[l].added ensures f.number != g.number {
        assert f in FileSet(base.levels[l]) && g in FileSet(levels[l].added);
      }
    }

    lemma LevelSaved(l: nat, files: seq<File>)
      requires l < NUM_LEVELS == |levels| == |base.levels| && LevelOk(l, levels[l], FileEdit([], []), 0, 0)
      requires forall f :: f in files <==> (f in base.levels[l] || f in levels[l].added)
                                           && f.number !in levels[l].deleted
      requires forall f :: f in After(FileSet(base.levels[l]), edits, l, |edits|)
                 <==> (f in FileSet(base.levels[l]) || f in EverAdded(edits, l, |edits|))
                      && f.number !in Marked(edits, l, |edits|)
      ensures FileSet(files) == After(FileSet(base.levels[l]), edits, l, |edits|)
    {
      hide Marked, EverAdded, After, SortedFiles;
      forall f ensures f in FileSet(files) <==> f in After(FileSet(base.levels[l]), edits, l, |edits|) {
        assert f in levels[l].added <==> f in FileSet(levels[l].added);
      }
    }
  }

  lemma {:induction false} EditsGrow(es: seq<FileEdit>, e: FileEdit, l: nat, n: nat)
    requires n <= |es|
    ensures EverAdded(es + [e], l, n) == EverAdded(es, l, n) && Marked(es + [e], l, n) == Marked(es, l, n)
    ensures n == |es| ==> EverAdded(es + [e], l, n + 1) == EverAdded(es, l, n) + AddedTo(e, l)
    ensures n == |es| ==> Marked(es + [e], l, n + 1) == Marked(es, l, n) + DeletedFrom(e, l) - Numbers(AddedTo(e, l))
  {
    hide AddedTo, DeletedFrom, Numbers;
    if n > 0 {
      EditsGrow(es, e, l, n - 1);
      assert (es + [e])[n - 1] == es[n - 1];
    }
    assert n == |es| ==> (es + [e])[n] == e;
  }

  lemma WholeEdit(e: FileEdit, l: nat)
    ensures DeletedPart(e, l, |e.deleted|) == DeletedFrom(e, l) && AddedPart(e, l, |e.added|) == AddedTo(e, l)
    ensures DeletedPart(FileEdit([], []), l, 0) == {} && AddedPart(FileEdit([], []), l, 0) == {} && Numbers({}) == {}
  {
  }

  /** MaybeAddFile. */
  function Kept(fs: seq<File>, f: File, deleted: set<nat>): (r: seq<File>)
  {
    if f.number in deleted then fs else fs + [f]
  }

  /** The merge of SaveTo for one level: base files before each added file, then the rest. */
  method MergeLevel(base: seq<File>, added: seq<File>, deleted: set<nat>) returns (files: seq<File>)
    requires SortedFiles(base) && SortedFiles(added)
    requires forall f, g :: f in base && g in added ==> f.number != g.number
    ensures SortedFiles(files)
    ensures forall f :: f in files <==> (f in base || f in added) && f.number !in deleted
  {
    files := [];
    var b := 0;
    for i := 0 to |added|
      invariant b <= |base| && Merged(files, base, b, added, i, deleted)
    {
      while b < |base| && !BySmallest(added[i], base[b])
        invariant b <= |base| && Merged(files, base, b, added, i, deleted)
      {
        Comparable(base, added, b, i);
        MergeBase(files, base, b, added, i, deleted);
        files := Kept(files, base[b], deleted);
        b := b + 1;
      }
      MergeAdded(files, base, b, added, i, deleted);
      files := Kept(files, added[i], deleted);
    }
    while b < |base|
      invariant b <= |base| && Merged(files, base, b, added, |added|, deleted)
    {
      MergeBase(files, base, b, added, |added|, deleted);
      files := Kept(files, base[b], deleted);
      b := b + 1;
    }
    assert base[..b] == base && added[..|added|] == added;
  }

  /** `files` is the merge of the first `b` base files and the first `i` added ones. */
  ghost predicate Merged(files: seq<File>, base: seq<File>, b: nat, added: seq<File>, i: nat, deleted: set<nat>)
    requires b <= |base| && i <= |added|
  {
    && SortedFiles(files)
    && (forall f :: f in files <==> (f in base[..b] || f in added[..i]) && f.number !in deleted)
    && (forall f :: f in files && b < |base| ==> BySmallest(f, base[b]))
    && (forall f :: f in files && i < |added| ==> BySmallest(f, added[i]))
  }

  lemma Comparable(base: seq<File>, added: seq<File>, b: nat, i: nat)
    requires forall f, g :: f in base && g in added ==> f.number != g.number
    requires b < |base| && i < |added|
    ensures BySmallest(base[b], added[i]) || BySmallest(added[i], base[b])
  {
    assert base[b] in base && added[i] in added;
    if !BySmallest(base[b], added[i]) && !BySmallest(added[i], base[b]) {
      NotApart(base[b], added[i]);
    }
  }

  lemma SortedPlus(files: seq<File>, f: File)
    requires SortedFiles(files) && forall g :: g in files ==> BySmallest(g, f)
    ensures SortedFiles(files + [f])
  {
    assert forall i :: 0 <= i < |files| ==> files[i] in files;
  }

  lemma Transitive(f: File, g: File, h: File)
    requires BySmallest(f, g) && BySmallest(g, h)
    ensures BySmallest(f, h)
  {
  }

  lemma MergeBase(files: seq<File>, base: seq<File>, b: nat, added: seq<File>, i: nat, deleted: set<nat>)
    requires SortedFiles(base) && SortedFiles(added) && b < |base| && i <= |added|
             && Merged(files, base, b, added, i, deleted)
    requires i < |added| ==> BySmallest(base[b], added[i])
    ensures Merged(Kept(files, base[b], deleted), base, b + 1, added, i, deleted)
  {
    hide BySmallest;
    SortedPlus(files, base[b]);
    assert base[..b + 1] == base[..b] + [base[b]];
    if b + 1 < |base| {
      assert BySmallest(base[b], base[b + 1]);
      forall f | f in files ensures BySmallest(f, base[b + 1]) {
        Transitive(f, base[b], base[b + 1]);
      }
    }
  }

  lemma MergeAdded(files: seq<File>, base: seq<File>, b: nat, added: seq<File>, i: nat, deleted: set<nat>)
    requires SortedFiles(base) && SortedFiles(added) && b <= |base| && i < |added|
             && Merged(files, base, b, added, i, deleted)
    requires b < |base| ==> BySmallest(added[i], base[b])
    ensures Merged(Kept(files, added[i], deleted), base, b, added, i + 1, deleted)
  {
    hide BySmallest;
    SortedPlus(files, added[i]);
    assert added[..i + 1] == added[..i] + [added[i]];
    if i + 1 < |added| {
      assert BySmallest(added[i], added[i + 1]);
      forall f | f in files ensures BySmallest(f, added[i + 1]) {
        Transitive(f, added[i], added[i + 1]);
      }
    }
  }

  // ---------------------------------------------------------------------------
  // What the other modules say about edits

  /** One edit applied by a builder gives what installing the edit means. */
  lemma OneEditInstalls(v: Version, e: FileEdit, v': Version)
    requires |v.levels| == NUM_LEVELS && |v'.levels| == NUM_LEVELS && LevelsFit(e)
    requires forall l :: 0 <= l < NUM_LEVELS ==>
               SortedFiles(v'.levels[l]) && FileSet(v'.levels[l]) == After(FileSet(v.levels[l]), [e], l, 1)
    ensures Edited(v, Edit(set i | 0 <= i < |e.deleted| :: e.deleted[i], set i | 0 <= i < |e.added| :: e.added[i]), v')
  {
    var edit := Edit(set i | 0 <= i < |e.deleted| :: e.deleted[i], set i | 0 <= i < |e.added| :: e.added[i]);
    forall l, f | 0 <= l < NUM_LEVELS
      ensures f in v'.levels[l] <==> (f in v.levels[l] && (l, f.number) !in edit.deleted) || (l, f) in edit.added
    {
      OneStep(v, e, l);
      assert f in v'.levels[l] <==> f in Step(FileSet(v.levels[l]), e, l);
      assert (l, f.number) in edit.deleted <==> f.number in DeletedFrom(e, l);
      assert (l, f) in edit.added <==> f in AddedTo(e, l);
    }
  }

  lemma OneStep(v: Version, e: FileEdit, l: nat)
    requires l < |v.levels|
    ensures After(FileSet(v.levels[l]), [e], l, 1) == Step(FileSet(v.levels[l]), e, l)
  {
  }

  /** Survivors that lie apart make a level of disjoint files. */
  lemma SurvivorsDisjoint(fs: seq<File>, base: set<File>, es: seq<FileEdit>, l: nat)
    requires SortedFiles(fs) && FileSet(fs) == After(base, es, l, |es|)
    requires forall f :: f in After(base, es, l, |es|) ==> ValidFile(f)
    requires forall f, g :: f in After(base, es, l, |es|) && g in After(base, es, l, |es|) && f != g ==> Apart(f, g)
    ensures Disjoint(fs)
  {
    hide After, ValidFile, Apart;
    assert forall f :: f in fs <==> f in FileSet(fs);
    ApartSorted(fs);
  }

  /** A whole sequence of edits, replayed by one builder. */
  method Replay(base: Version, es: seq<FileEdit>) returns (v: Version)
    requires |base.levels| == NUM_LEVELS && forall l :: 0 <= l < NUM_LEVELS ==> SortedFiles(base.levels[l])
    requires forall i :: 0 <= i < |es| ==> LevelsFit(es[i])
    requires forall l :: 0 <= l < NUM_LEVELS ==> NumbersTell(FileSet(base.levels[l]), EverAdded(es, l, |es|))
    ensures |v.levels| == NUM_LEVELS
    ensures forall l :: 0 <= l < NUM_LEVELS ==>
              SortedFiles(v.levels[l]) && FileSet(v.levels[l]) == After(FileSet(base.levels[l]), es, l, |es|)
  {
    hide NumbersTell, SortedFiles;
    var b := new Builder(base);
    for i := 0 to |es|
      invariant fresh(b) && b.Ok() && b.base == base && b.edits == es[..i]
    {
      forall l | 0 <= l < NUM_LEVELS
        ensures NumbersTell(FileSet(base.levels[l]), EverAdded(es[..i] + [es[i]], l, i + 1)) {
        PrefixTells(FileSet(base.levels[l]), es, l, i + 1);
        assert es[..i] + [es[i]] == es[..i + 1];
      }
      b.Apply(es[i]);
      assert es[..i + 1] == es[..i] + [es[i]];
    }
    assert es[..|es|] == es;
    v := b.SaveTo();
  }

  lemma PrefixTells(base: set<File>, es: seq<FileEdit>, l: nat, n: nat)
    requires n <= |es| && NumbersTell(base, EverAdded(es, l, |es|))
    ensures NumbersTell(base, EverAdded(es[..n], l, n))
  {
    EverAddedPrefix(es, l, n, n);
    EverAddedGrows(es, l, n, |es|);
  }

  lemma {:induction false} EverAddedPrefix(es: seq<FileEdit>, l: nat, m: nat, n: nat)
    requires m <= n <= |es|
    ensures EverAdded(es[..n], l, m) == EverAdded(es, l, m)
  {
    if m > 0 {
      EverAddedPrefix(es, l, m - 1, n);
    }
  }

  lemma {:induction false} EverAddedGrows(es: seq<FileEdit>, l: nat, m: nat, n: nat)
    requires m <= n <= |es|
    ensures EverAdded(es, l, m) <= EverAdded(es, l, n)
  {
    if m < n {
      EverAddedGrows(es, l, m, n - 1);
    }
  }
}
