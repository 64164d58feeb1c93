/**
 Runs and edits that the other modules speak about exist: any set of entries can be merged
 into one sorted run, and any edit that keeps files distinguishable yields a version.
 */
module Realizable {
  import opened DbFormat
  import opened Views
  import opened VersionModel
  import opened Install

  lemma SortedConcat(a: seq<Entry>, b: seq<Entry>)
    requires Sorted(a) && Sorted(b)
    requires forall i, j :: 0 <= i < |a| && 0 <= j < |b| ==> Less(a[i].key, b[j].key)
    ensures Sorted(a + b)
  {
  }

  lemma SplitAt(m: seq<Entry>, e: Entry, i: nat)
    requires Sorted(m) && i == LowerBound(m, e.key)
    requires forall x :: x in m ==> Less(x.key, e.key) || Less(e.key, x.key)
    ensures i <= |m| && Sorted(m[..i]) && Sorted(m[i..])
    ensures forall j :: 0 <= j < i ==> Less(m[j].key, e.key)
    ensures forall j :: i <= j < |m| ==> Less(e.key, m[j].key)
  {
    forall j | i <= j < |m| ensures Less(e.key, m[j].key) {
      assert m[i] in m;
    }
  }

  lemma InsertSorted(m: seq<Entry>, e: Entry) returns (r: seq<Entry>)
    requires Sorted(m)
    requires forall x :: x in m ==> Less(x.key, e.key) || Less(e.key, x.key)
    ensures Sorted(r) && forall x :: x in r <==> x in m || x == e
  {
    hide Sorted;
    var i := LowerBound(m, e.key);
    SplitAt(m, e, i);
    var front, back := m[..i], m[i..];
    assert Sorted([e]) by {
      SingleSorted(e);
    }
    SortedConcat([e], back);
    forall p, j | 0 <= p < |front| && 0 <= j < |[e] + back| ensures Less(front[p].key, ([e] + back)[j].key) {
      assert front[p] == m[p];
      assert j > 0 ==> ([e] + back)[j] == m[i + j - 1];
    }
    SortedConcat(front, [e] + back);
    r := front + ([e] + back);
    assert m == front + back;
  }

  lemma SingleSorted(e: Entry)
    ensures Sorted([e])
  {
  }

  /** Entries with distinct (key, sequence number) pairs can be merged into one sorted run. */
  lemma {:induction false} SortedRunExists(es: set<Entry>) returns (m: seq<Entry>)
    requires UniqueSeq(es)
    ensures Sorted(m) && Elems(m) == es
    decreases |es|
  {
    if es == {} {
      m := [];
    } else {
      var e :| e in es;
      var rest := es - {e};
      var m0 := SortedRunExists(rest);
      forall x | x in m0 ensures Less(x.key, e.key) || Less(e.key, x.key) {
        assert x in Elems(m0);
      }
      m := InsertSorted(m0, e);
      assert forall x :: x in m0 <==> x in Elems(m0);
    }
  }

  /** Files that BySmallestKey can tell apart. */
  ghost predicate Distinguishable(fs: set<File>)
  {
    forall f, g :: f in fs && g in fs && f != g ==> BySmallest(f, g) || BySmallest(g, f)
  }

  lemma InsertFile(s: seq<File>, f: File) returns (r: seq<File>)
    requires SortedFiles(s) && forall g :: g in s ==> BySmallest(f, g) || BySmallest(g, f)
    ensures SortedFiles(r) && forall g :: g in r <==> g in s || g == f
  {
    var i := 0;
    while i < |s| && BySmallest(s[i], f)
      invariant 0 <= i <= |s|
      invariant forall j :: 0 <= j < i ==> BySmallest(s[j], f)
    {
      i := i + 1;
    }
    r := s[..i] + [f] + s[i..];
    assert i < |s| ==> s[i] in s;
    forall a, b | 0 <= a < b < |r| ensures BySmallest(r[a], r[b]) {
      var a' := if a < i then a else a - 1;
      var b' := if b < i then b else b - 1;
      assert a != i ==> r[a] == s[a'];
      assert b != i ==> r[b] == s[b'];
    }
    assert s == s[..i] + s[i..];
    forall g ensures g in r <==> g in s || g == f {
      assert g in s <==> g in s[..i] || g in s[i..];
    }
  }

  lemma {:induction false} SortedFilesExist(fs: set<File>) returns (s: seq<File>)
    requires Distinguishable(fs)
    ensures SortedFiles(s) && forall f :: f in s <==> f in fs
    decreases |fs|
  {
    if fs == {} {
      s := [];
    } else {
      var f :| f in fs;
      var s0 := SortedFilesExist(fs - {f});
      s := InsertFile(s0, f);
    }
  }

  /** The files of level `l` after an edit. */
  ghost function LevelAfter(v: Version, e: Edit, l: nat): (fs: set<File>)
    requires l < |v.levels|
  {
    (set f | f in v.levels[l] && (l, f.number) !in e.deleted) + (set p | p in e.added && p.0 == l :: p.1)
  }

  lemma EditExists(v: Version, e: Edit) returns (v': Version)
    requires |v.levels| == NUM_LEVELS
    requires forall l :: 0 <= l < NUM_LEVELS ==> Distinguishable(LevelAfter(v, e, l))
    ensures Edited(v, e, v')
  {
    var levels: seq<seq<File>> := [];
    while |levels| < NUM_LEVELS
      invariant |levels| <= NUM_LEVELS
      invariant forall l :: 0 <= l < |levels| ==> SortedFiles(levels[l]) && forall f :: f in levels[l] <==>
                f in LevelAfter(v, e, l)
    {
      var s := SortedFilesExist(LevelAfter(v, e, |levels|));
      levels := levels + [s];
    }
    v' := Version(levels);
    forall l, f | 0 <= l < NUM_LEVELS
      ensures f in v'.levels[l] <==> (f in v.levels[l] && (l, f.number) !in e.deleted) || (l, f) in e.added
    {
      assert f in v'.levels[l] <==> f in LevelAfter(v, e, l);
      if (l, f) in e.added {
        assert (l, f).1 in LevelAfter(v, e, l);
      }
    }
  }
}
