/**
 Versions: which table files make up the database, and how a read searches them
 (db/version_edit.h, db/version_set.cc).
 */
module VersionModel {
  import opened DbFormat
  import opened Views


  /** FileMetaData together with the sorted entries stored in the table file. */
  datatype File = File(number: nat, size: nat, smallest: InternalKey, largest: InternalKey, entries: seq<Entry>)

  datatype Version = Version(levels: seq<seq<File>>)

  // ---------------------------------------------------------------------------
  // Well-formedness

  ghost predicate Sorted(es: seq<Entry>)
  {
    forall i, j :: 0 <= i < j < |es| ==> Less(es[i].key, es[j].key)
  }

  ghost function Elems(es: seq<Entry>): (r: set<Entry>)
  {
    set e | e in es
  }

  ghost predicate ValidFile(f: File)
  {
    && |f.entries| > 0
    && Sorted(f.entries)
    && f.smallest == f.entries[0].key
    && f.largest == f.entries[|f.entries| - 1].key
    && forall i :: 0 <= i < |f.entries| ==> f.entries[i].key.seqno <= MAX_SEQUENCE
  }

  /** Does the user-key range of `f` contain `k`? */
  predicate Covers(f: File, k: UserKey)
  {
    f.smallest.ukey <= k <= f.largest.ukey
  }

  /** Files of a level above 0 are laid out one after the other. */
  ghost predicate Disjoint(fs: seq<File>)
  {
    forall i, j :: 0 <= i < j < |fs| ==> Less(fs[i].largest, fs[j].smallest)
  }

  ghost predicate DistinctNumbers(fs: seq<File>)
  {
    forall i, j :: 0 <= i < j < |fs| ==> fs[i].number != fs[j].number
  }

  /** All entries held by a list of files. */
  ghost function EntriesOf(fs: seq<File>): (es: set<Entry>)
  {
    set f, e | f in fs && e in f.entries :: e
  }

  ghost function Contents(v: Version): (es: set<Entry>)
  {
    set l, e | 0 <= l < |v.levels| && e in EntriesOf(v.levels[l]) :: e
  }

  ghost predicate WellFormed(v: Version)
  {
    && |v.levels| == NUM_LEVELS
    && (forall l, f :: 0 <= l < NUM_LEVELS && f in v.levels[l] ==> ValidFile(f))
    && (forall l :: 1 <= l < NUM_LEVELS ==> Disjoint(v.levels[l]))
    && DistinctNumbers(v.levels[0])
  }

  /** Key by key, every entry of `es` is newer than every entry of `xs`. */
  ghost predicate Above(es: set<Entry>, xs: set<Entry>)
  {
    forall e, x :: e in es && x in xs && e.key.ukey == x.key.ukey ==> e.key.seqno > x.key.seqno
  }

  /** Among level-0 files, the one with the larger number is newer. */
  ghost predicate LevelZeroLayered(fs: seq<File>)
  {
    forall f, g :: f in fs && g in fs && f.number > g.number ==> Above(Elems(f.entries), Elems(g.entries))
  }

  /** Entries never hop across levels: a smaller level is newer, key by key. */
  ghost predicate Layered(v: Version)
  {
    forall l, m :: 0 <= l < m < |v.levels| ==> Above(EntriesOf(v.levels[l]), EntriesOf(v.levels[m]))
  }

  /** What searching one level at a time relies on. */
  ghost predicate LevelsSearchable(v: Version)
  {
    && WellFormed(v)
    && LevelZeroLayered(v.levels[0])
    && UniqueSeq(Contents(v))
  }

  /** What a version must satisfy for the search order of Version::Get to be right. */
  ghost predicate Searchable(v: Version)
  {
    LevelsSearchable(v) && Layered(v)
  }

  lemma InRange(f: File, e: Entry)
    requires ValidFile(f) && e in f.entries
    ensures Covers(f, e.key.ukey)
    ensures e.key == f.smallest || Less(f.smallest, e.key)
    ensures e.key == f.largest || Less(e.key, f.largest)
  {
    var i :| 0 <= i < |f.entries| && f.entries[i] == e;
  }

  // ---------------------------------------------------------------------------
  // Searching one table

  /** Index of the first entry at or after `key`; what a table's iterator finds by Seek. */
  function LowerBound(es: seq<Entry>, key: InternalKey): (i: nat)
    ensures i <= |es|
    ensures forall j :: 0 <= j < i ==> Less(es[j].key, key)
    ensures i < |es| ==> !Less(es[i].key, key)
  {
    if es == [] || !Less(es[0].key, key) then 0 else 1 + LowerBound(es[1..], key)
  }

  lemma NotBefore(key: InternalKey, k: UserKey, s: nat)
    requires key.ukey == k
    ensures !Less(key, SeekKey(k, s)) <==> key.seqno <= s
  {
  }

  /** Seeking to (k, s) and looking at one entry finds the newest visible entry of a sorted run. */
  lemma SortedSeek(es: seq<Entry>, k: UserKey, s: nat)
    requires Sorted(es)
    ensures var i := LowerBound(es, SeekKey(k, s));
            if i < |es| && es[i].key.ukey == k
            then Newest(Elems(es), k, s, es[i])
            else NoneVisible(Elems(es), k, s)
  {
    var i := LowerBound(es, SeekKey(k, s));
    forall e | e in es && Visible(e, k, s)
      ensures i < |es| && es[i].key.ukey == k && e.key.seqno <= es[i].key.seqno
    {
      var j :| 0 <= j < |es| && es[j] == e;
      NotBefore(es[j].key, k, s);
      assert i <= j;
      assert i < j ==> Less(es[i].key, es[j].key);
    }
    if i < |es| && es[i].key.ukey == k {
      NotBefore(es[i].key, k, s);
    }
  }

  // ---------------------------------------------------------------------------
  // Searching a level

  /** Binary search for the first file whose largest key is at or after `key`. */
  method FindFile(files: seq<File>, key: InternalKey) returns (r: nat)
    requires forall i, j :: 0 <= i < j < |files| ==> Less(files[i].largest, files[j].largest)
    ensures r <= |files|
    ensures forall i :: 0 <= i < r ==> Less(files[i].largest, key)
    ensures forall i :: r <= i < |files| ==> !Less(files[i].largest, key)
  {
    var left, right := 0, |files|;
    while left < right
      invariant 0 <= left <= right <= |files|
      invariant forall i :: 0 <= i < left ==> Less(files[i].largest, key)
      invariant forall i :: right <= i < |files| ==> !Less(files[i].largest, key)
    {
      var mid := (left + right) / 2;
      if Less(files[mid].largest, key) {
        left := mid + 1;
      } else {
        right := mid;
      }
    }
    r := right;
  }

  lemma DisjointOrdered(fs: seq<File>)
    requires Disjoint(fs) && forall f :: f in fs ==> ValidFile(f)
    ensures forall i, j :: 0 <= i < j < |fs| ==> Less(fs[i].largest, fs[j].largest)
    ensures forall i, j :: 0 <= i < j < |fs| ==> Less(fs[i].smallest, fs[j].smallest)
  {
    forall i, j | 0 <= i < j < |fs|
      ensures Less(fs[i].largest, fs[j].largest) && Less(fs[i].smallest, fs[j].smallest)
    {
      assert fs[i] in fs && fs[j] in fs;
      InRange(fs[j], fs[j].entries[|fs[j].entries| - 1]);
      InRange(fs[i], fs[i].entries[|fs[i].entries| - 1]);
    }
  }

  /** In a level of disjoint files, the one file picked by FindFile decides the answer. */
  lemma LevelAnswer(fs: seq<File>, r: nat, k: UserKey, s: nat)
    requires Disjoint(fs) && forall f :: f in fs ==> ValidFile(f)
    requires r <= |fs|
    requires forall i :: 0 <= i < r ==> Less(fs[i].largest, SeekKey(k, s))
    requires forall i :: r <= i < |fs| ==> !Less(fs[i].largest, SeekKey(k, s))
    ensures if r == |fs| || k < fs[r].smallest.ukey then NoneVisible(EntriesOf(fs), k, s)
            else var i := LowerBound(fs[r].entries, SeekKey(k, s));
                 if i < |fs[r].entries| && fs[r].entries[i].key.ukey == k
                 then Newest(EntriesOf(fs), k, s, fs[r].entries[i])
                 else NoneVisible(EntriesOf(fs), k, s)
  {
    forall e | e in EntriesOf(fs) && Visible(e, k, s)
      ensures r < |fs| && fs[r].smallest.ukey <= k
      ensures e in fs[r].entries || (e.key.seqno <= fs[r].largest.seqno && fs[r].largest.ukey == k)
    {
      VisibleInLevel(fs, r, k, s, e);
    }
    if r < |fs| {
      assert fs[r] in fs && ValidFile(fs[r]);
      SortedSeek(fs[r].entries, k, s);
      var last := fs[r].entries[|fs[r].entries| - 1];
      assert last in fs[r].entries && last.key == fs[r].largest;
      forall e | e in fs[r].entries ensures e in EntriesOf(fs) {}
    }
  }

  lemma VisibleInLevel(fs: seq<File>, r: nat, k: UserKey, s: nat, e: Entry)
    requires Disjoint(fs) && forall f :: f in fs ==> ValidFile(f)
    requires r <= |fs|
    requires forall i :: 0 <= i < r ==> Less(fs[i].largest, SeekKey(k, s))
    requires forall i :: r <= i < |fs| ==> !Less(fs[i].largest, SeekKey(k, s))
    requires e in EntriesOf(fs) && Visible(e, k, s)
    ensures r < |fs| && fs[r].smallest.ukey <= k
    ensures e in fs[r].entries || (e.key.seqno <= fs[r].largest.seqno && fs[r].largest.ukey == k)
  {
    var f :| f in fs && e in f.entries;
    var q :| 0 <= q < |fs| && fs[q] == f;
    InRange(f, e);
    assert r <= q;
    if r < q {
      assert Less(fs[r].largest, fs[q].smallest);
      assert fs[r] in fs && ValidFile(fs[r]);
      InRange(fs[r], fs[r].entries[|fs[r].entries| - 1]);
    }
  }

  // ---------------------------------------------------------------------------
  // Searching a version

  function InsertNewestFirst(fs: seq<File>, f: File): (r: seq<File>)
    ensures |r| == |fs| + 1
    ensures forall g :: g in r <==> g == f || g in fs
    ensures (forall i, j :: 0 <= i < j < |fs| ==> fs[i].number > fs[j].number)
            && (forall g :: g in fs ==> g.number != f.number)
            ==> forall i, j :: 0 <= i < j < |r| ==> r[i].number > r[j].number
  {
    if fs == [] || f.number > fs[0].number then [f] + fs
    else
      var t := InsertNewestFirst(fs[1..], f);
      assert forall g :: g in fs <==> g == fs[0] || g in fs[1..];
      assert forall i :: 0 <= i < |t| ==> t[i] in t;
      [fs[0]] + t
  }

  /** The level-0 files whose range contains `k`, newest first. */
  method OverlappingNewestFirst(files: seq<File>, k: UserKey) returns (tmp: seq<File>)
    requires DistinctNumbers(files)
    ensures forall f :: f in tmp <==> f in files && Covers(f, k)
    ensures forall i, j :: 0 <= i < j < |tmp| ==> tmp[i].number > tmp[j].number
  {
    tmp := [];
    for i := 0 to |files|
      invariant forall f :: f in tmp <==> f in files[..i] && Covers(f, k)
      invariant forall i, j :: 0 <= i < j < |tmp| ==> tmp[i].number > tmp[j].number
    {
      assert files[..i + 1] == files[..i] + [files[i]];
      if Covers(files[i], k) {
        tmp := InsertNewestFirst(tmp, files[i]);
      }
    }
    assert files[..|files|] == files;
  }

  /** The answer of the first level, from `l` on, that holds anything visible. */
  ghost function SearchFrom(v: Version, l: nat, k: UserKey, s: nat): (r: Option<Entry>)
    requires l <= |v.levels|
    decreases |v.levels| - l
  {
    if l == |v.levels| then None
    else if NoneVisible(EntriesOf(v.levels[l]), k, s) then SearchFrom(v, l + 1, k, s)
    else View(EntriesOf(v.levels[l]), k, s)
  }

  lemma LevelUnique(v: Version, l: nat)
    requires l < |v.levels| && UniqueSeq(Contents(v))
    ensures UniqueSeq(EntriesOf(v.levels[l]))
  {
    assert EntriesOf(v.levels[l]) <= Contents(v);
  }

  /** With newer entries above older ones, the first level that shows anything has the answer. */
  lemma {:induction false} SearchIsView(v: Version, l: nat, k: UserKey, s: nat)
    requires Layered(v) && UniqueSeq(Contents(v)) && l <= |v.levels|
    requires forall m :: 0 <= m < l ==> NoneVisible(EntriesOf(v.levels[m]), k, s)
    ensures SearchFrom(v, l, k, s) == View(Contents(v), k, s)
    decreases |v.levels| - l
  {
    if l == |v.levels| {
      forall x | x in Contents(v) ensures !Visible(x, k, s) {
        var m :| 0 <= m < |v.levels| && x in EntriesOf(v.levels[m]);
      }
      ViewOfNone(Contents(v), k, s);
    } else if NoneVisible(EntriesOf(v.levels[l]), k, s) {
      SearchIsView(v, l + 1, k, s);
    } else {
      NewestExists(EntriesOf(v.levels[l]), k, s);
      var e :| Newest(EntriesOf(v.levels[l]), k, s, e);
      LevelUnique(v, l);
      ViewOfNewest(EntriesOf(v.levels[l]), k, s, e);
      forall x | x in Contents(v) && Visible(x, k, s) ensures x.key.seqno <= e.key.seqno {
        var m :| 0 <= m < |v.levels| && x in EntriesOf(v.levels[m]);
        assert l < m ==> Above(EntriesOf(v.levels[l]), EntriesOf(v.levels[m]));
      }
      ViewOfNewest(Contents(v), k, s, e);
    }
  }

  lemma FoundInLevel(v: Version, l: nat, k: UserKey, s: nat, e: Entry)
    requires LevelsSearchable(v) && l < NUM_LEVELS
    requires Newest(EntriesOf(v.levels[l]), k, s, e)
    ensures SearchFrom(v, l, k, s) == Answer(e)
  {
    LevelUnique(v, l);
    ViewOfNewest(EntriesOf(v.levels[l]), k, s, e);
  }

  /** The level-0 part of Version::Get. */
  method SearchLevelZero(files: seq<File>, k: UserKey, s: nat) returns (hit: Option<Entry>)
    requires forall f :: f in files ==> ValidFile(f)
    requires DistinctNumbers(files) && LevelZeroLayered(files)
    ensures hit.Some? ==> Newest(EntriesOf(files), k, s, hit.value)
    ensures hit.None? ==> NoneVisible(EntriesOf(files), k, s)
  {
    var tmp := OverlappingNewestFirst(files, k);
    for i := 0 to |tmp|
      invariant forall j :: 0 <= j < i ==> NoneVisible(Elems(tmp[j].entries), k, s)
    {
      var f := tmp[i];
      assert f in tmp;
      SortedSeek(f.entries, k, s);
      var p := LowerBound(f.entries, SeekKey(k, s));
      if p < |f.entries| && f.entries[p].key.ukey == k {
        LevelZeroHit(files, tmp, i, k, s, f.entries[p]);
        return Some(f.entries[p]);
      }
    }
    LevelZeroMiss(files, tmp, k, s);
    hit := None;
  }

  lemma LevelZeroMiss(fs: seq<File>, tmp: seq<File>, k: UserKey, s: nat)
    requires forall f :: f in fs ==> ValidFile(f)
    requires forall f :: f in tmp <==> f in fs && Covers(f, k)
    requires forall j :: 0 <= j < |tmp| ==> NoneVisible(Elems(tmp[j].entries), k, s)
    ensures NoneVisible(EntriesOf(fs), k, s)
  {
    forall e | e in EntriesOf(fs) ensures !Visible(e, k, s) {
      var f :| f in fs && e in f.entries;
      InRange(f, e);
      if e.key.ukey == k {
        var j :| 0 <= j < |tmp| && tmp[j] == f;
      }
    }
  }

  lemma InFile(fs: seq<File>, f: File, e: Entry)
    requires f in fs && e in f.entries
    ensures e in EntriesOf(fs)
  {
  }

  lemma FileOfVisible(fs: seq<File>, tmp: seq<File>, k: UserKey, s: nat, x: Entry) returns (j: nat)
    requires forall f :: f in fs ==> ValidFile(f)
    requires forall f :: f in tmp <==> f in fs && Covers(f, k)
    requires x in EntriesOf(fs) && Visible(x, k, s)
    ensures j < |tmp| && tmp[j] in fs && x in tmp[j].entries
    ensures !NoneVisible(Elems(tmp[j].entries), k, s)
  {
    var f :| f in fs && x in f.entries;
    InRange(f, x);
    j :| 0 <= j < |tmp| && tmp[j] == f;
    assert x in Elems(f.entries);
  }

  lemma NewerFileDecides(fs: seq<File>, f: File, g: File, e: Entry, x: Entry)
    requires LevelZeroLayered(fs) && f in fs && g in fs && f.number > g.number
    requires e in f.entries && x in g.entries && e.key.ukey == x.key.ukey
    ensures e.key.seqno > x.key.seqno
  {
    assert e in Elems(f.entries) && x in Elems(g.entries);
  }

  lemma LevelZeroHit(fs: seq<File>, tmp: seq<File>, i: nat, k: UserKey, s: nat, e: Entry)
    requires LevelZeroLayered(fs) && forall f :: f in fs ==> ValidFile(f)
    requires forall f :: f in tmp <==> f in fs && Covers(f, k)
    requires forall i, j :: 0 <= i < j < |tmp| ==> tmp[i].number > tmp[j].number
    requires i < |tmp|
    requires forall j :: 0 <= j < i ==> NoneVisible(Elems(tmp[j].entries), k, s)
    requires Newest(Elems(tmp[i].entries), k, s, e)
    ensures Newest(EntriesOf(fs), k, s, e)
  {
    assert tmp[i] in tmp && tmp[i] in fs;
    hide LevelZeroLayered, ValidFile, EntriesOf;
    InFile(fs, tmp[i], e);
    forall x | x in EntriesOf(fs) && Visible(x, k, s) ensures x.key.seqno <= e.key.seqno {
      var j := FileOfVisible(fs, tmp, k, s, x);
      if i < j {
        NewerFileDecides(fs, tmp[i], tmp[j], e, x);
      } else if i == j {
        assert x in Elems(tmp[i].entries);
      }
    }
  }

  /** Version::Get: newest-first level 0, then one file per level, stopping at the first hit. */
  method Get(v: Version, k: UserKey, s: nat) returns (r: Option<Entry>)
    requires LevelsSearchable(v)
    ensures r == SearchFrom(v, 0, k, s)
    ensures Layered(v) ==> r == View(Contents(v), k, s)
  {
    if Layered(v) {
      SearchIsView(v, 0, k, s);
    }
    var hit := SearchLevelZero(v.levels[0], k, s);
    if hit.Some? {
      FoundInLevel(v, 0, k, s, hit.value);
      return Answer(hit.value);
    }
    for level := 1 to NUM_LEVELS
      invariant SearchFrom(v, 0, k, s) == SearchFrom(v, level, k, s)
    {
      var files := v.levels[level];
      DisjointOrdered(files);
      var index := FindFile(files, SeekKey(k, s));
      LevelAnswer(files, index, k, s);
      if index < |files| && k >= files[index].smallest.ukey {
        var f := files[index];
        var p := LowerBound(f.entries, SeekKey(k, s));
        if p < |f.entries| && f.entries[p].key.ukey == k {
          FoundInLevel(v, level, k, s, f.entries[p]);
          return Answer(f.entries[p]);
        }
      }
    }
    r := None;
  }
}
