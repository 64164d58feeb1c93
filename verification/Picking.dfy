/**
 Choosing the input files of a compaction and the level of a flushed memtable
 (db/version_set.cc: GetOverlappingInputs, PickCompaction, SetupOtherInputs,
 PickLevelForMemTableOutput).
 */
module Picking {
  import opened DbFormat
  import opened VersionModel

  // ---------------------------------------------------------------------------
  // Ranges of user keys; a missing end is unbounded

  datatype Range = Range(lo: Option<UserKey>, hi: Option<UserKey>)

  predicate Touches(f: File, r: Range)
  {
    && !(r.lo.Some? && f.largest.ukey < r.lo.value)
    && !(r.hi.Some? && f.smallest.ukey > r.hi.value)
  }

  predicate Inside(f: File, r: Range)
  {
    && (r.lo.Some? ==> r.lo.value <= f.smallest.ukey)
    && (r.hi.Some? ==> f.largest.ukey <= r.hi.value)
  }

  ghost predicate Contained(a: Range, b: Range)
  {
    && (b.lo.Some? ==> a.lo.Some? && b.lo.value <= a.lo.value)
    && (b.hi.Some? ==> a.hi.Some? && a.hi.value <= b.hi.value)
  }

  /** Every file that touches the range lies inside it. */
  ghost predicate Closed(files: seq<File>, r: Range)
  {
    forall f :: f in files && Touches(f, r) ==> Inside(f, r)
  }

  /** The least range around `r0` that is closed under overlap. */
  ghost predicate LeastClosed(files: seq<File>, r0: Range, r: Range)
  {
    && Contained(r0, r)
    && Closed(files, r)
    && forall q :: Contained(r0, q) && Closed(files, q) ==> Contained(r, q)
  }

  /** The first `n` files, without those that do not touch the range. */
  function TouchingTo(files: seq<File>, n: nat, r: Range): (s: seq<File>)
    requires n <= |files|
    ensures forall f :: f in s ==> f in files && Touches(f, r)
    ensures forall j :: 0 <= j < n && Touches(files[j], r) ==> files[j] in s
  {
    if n == 0 then []
    else if Touches(files[n - 1], r) then TouchingTo(files, n - 1, r) + [files[n - 1]]
    else TouchingTo(files, n - 1, r)
  }

  /** The files that touch a range, in their order. */
  function Touching(files: seq<File>, r: Range): (s: seq<File>)
    ensures forall f :: f in s <==> f in files && Touches(f, r)
  {
    TouchingTo(files, |files|, r)
  }

  ghost predicate KeyCovered(files: seq<File>, k: UserKey)
  {
    exists f :: f in files && Covers(f, k)
  }

  /** No key of [lo, hi] falls into a gap between the files. */
  ghost predicate NoHoles(files: seq<File>, lo: UserKey, hi: UserKey)
  {
    forall k :: lo <= k <= hi ==> KeyCovered(files, k)
  }

  /** `r` arose from `r0` by growing over files that touch it. */
  ghost predicate Grown(files: seq<File>, extra: seq<File>, r0: Range, r: Range)
  {
    && Contained(r0, r)
    && r.lo.Some? == r0.lo.Some? && r.hi.Some? == r0.hi.Some?
    && (forall q :: Contained(r0, q) && Closed(files, q) ==> Contained(r, q))
    && (r0.lo.Some? && r0.hi.Some? && NoHoles(files + extra, r0.lo.value, r0.hi.value)
        ==> NoHoles(files + extra, r.lo.value, r.hi.value))
  }

  lemma GrowStep(files: seq<File>, extra: seq<File>, r0: Range, r: Range, f: File, r': Range)
    requires Grown(files, extra, r0, r)
    requires f in files && Touches(f, r) && f.smallest.ukey <= f.largest.ukey
    requires || (r.lo.Some? && f.smallest.ukey < r.lo.value && r' == r.(lo := Some(f.smallest.ukey)))
             || (r.hi.Some? && f.largest.ukey > r.hi.value && r' == r.(hi := Some(f.largest.ukey)))
    ensures Grown(files, extra, r0, r')
  {
    forall q | Contained(r0, q) && Closed(files, q) ensures Contained(r', q) {
      assert Contained(r, q);
      assert Touches(f, q);
    }
    if r0.lo.Some? && r0.hi.Some? && NoHoles(files + extra, r0.lo.value, r0.hi.value) {
      forall k | r'.lo.value <= k <= r'.hi.value ensures KeyCovered(files + extra, k) {
        if r.lo.value <= k <= r.hi.value {
        } else {
          assert f in files + extra && Covers(f, k);
        }
      }
    }
  }

  /** The files that could still push the lower (upper) end outwards. */
  ghost function Outside(files: seq<File>, r: Range, low: bool): (s: set<int>)
  {
    set j | 0 <= j < |files| && (if low then r.lo.Some? && files[j].smallest.ukey < r.lo.value
                                 else r.hi.Some? && files[j].largest.ukey > r.hi.value)
  }

  /** Version::GetOverlappingInputs.  `range` is the value of user_begin, user_end at the end. */
  method GetOverlappingInputs(files: seq<File>, level: nat, r0: Range, ghost extra: seq<File>)
    returns (inputs: seq<File>, range: Range)
    requires forall f :: f in files ==> f.smallest.ukey <= f.largest.ukey
    ensures inputs == Touching(files, range)
    ensures level > 0 ==> range == r0
    ensures level == 0 ==> LeastClosed(files, r0, range)
    ensures Grown(files, extra, r0, range)
  {
    inputs := [];
    range := r0;
    var i := 0;
    while i < |files|
      invariant 0 <= i <= |files|
      invariant inputs == TouchingTo(files, i, range)
      invariant level > 0 ==> range == r0
      invariant level == 0 ==> forall f :: f in inputs ==> Inside(f, range)
      invariant Grown(files, extra, r0, range)
      decreases Outside(files, range, true), Outside(files, range, false), |files| - i
    {
      var f := files[i];
      ghost var before := range;
      i := i + 1;
      if range.lo.Some? && f.largest.ukey < range.lo.value {
      } else if range.hi.Some? && f.smallest.ukey > range.hi.value {
      } else {
        inputs := inputs + [f];
        if level == 0 {
          if range.lo.Some? && f.smallest.ukey < range.lo.value {
            GrowStep(files, extra, r0, range, f, range.(lo := Some(f.smallest.ukey)));
            range := range.(lo := Some(f.smallest.ukey));
            assert i - 1 in Outside(files, before, true) && i - 1 !in Outside(files, range, true);
            inputs := [];
            i := 0;
          } else if range.hi.Some? && f.largest.ukey > range.hi.value {
            GrowStep(files, extra, r0, range, f, range.(hi := Some(f.largest.ukey)));
            range := range.(hi := Some(f.largest.ukey));
            assert Outside(files, before, true) == Outside(files, range, true);
            assert i - 1 in Outside(files, before, false) && i - 1 !in Outside(files, range, false);
            inputs := [];
            i := 0;
          }
        }
      }
    }
  }

  // ---------------------------------------------------------------------------
  // The range covered by a list of files

  function Lo(fs: seq<File>): (k: UserKey)
    requires |fs| > 0
    ensures forall f :: f in fs ==> k <= f.smallest.ukey
    ensures exists f :: f in fs && f.smallest.ukey == k
  {
    var n := |fs| - 1;
    if n == 0 then fs[0].smallest.ukey
    else
      var k := Lo(fs[..n]);
      assert forall f :: f in fs <==> f in fs[..n] || f == fs[n];
      if fs[n].smallest.ukey < k then fs[n].smallest.ukey else k
  }

  function Hi(fs: seq<File>): (k: UserKey)
    requires |fs| > 0
    ensures forall f :: f in fs ==> f.largest.ukey <= k
    ensures exists f :: f in fs && f.largest.ukey == k
  {
    var n := |fs| - 1;
    if n == 0 then fs[0].largest.ukey
    else
      var k := Hi(fs[..n]);
      assert forall f :: f in fs <==> f in fs[..n] || f == fs[n];
      if fs[n].largest.ukey > k then fs[n].largest.ukey else k
  }

  function Hull(fs: seq<File>): (r: Range)
    requires |fs| > 0
  {
    Range(Some(Lo(fs)), Some(Hi(fs)))
  }

  /** VersionSet::GetRange: the least and greatest internal keys of the inputs. */
  method GetRange(inputs: seq<File>) returns (smallest: InternalKey, largest: InternalKey)
    requires |inputs| > 0
    ensures smallest.ukey == Lo(inputs) && largest.ukey == Hi(inputs)
    ensures forall f :: f in inputs ==> !Less(f.smallest, smallest) && !Less(largest, f.largest)
    ensures exists f :: f in inputs && f.smallest == smallest
    ensures exists f :: f in inputs && f.largest == largest
  {
    smallest, largest := inputs[0].smallest, inputs[0].largest;
    for i := 1 to |inputs|
      invariant forall j :: 0 <= j < i ==> !Less(inputs[j].smallest, smallest) && !Less(largest, inputs[j].largest)
      invariant exists j :: 0 <= j < i && inputs[j].smallest == smallest
      invariant exists j :: 0 <= j < i && inputs[j].largest == largest
    {
      var f := inputs[i];
      if Less(f.smallest, smallest) {
        smallest := f.smallest;
      }
      if Less(largest, f.largest) {
        largest := f.largest;
      }
    }
  }

  function TotalFileSize(fs: seq<File>): (n: nat)
  {
    if fs == [] then 0 else TotalFileSize(fs[..|fs| - 1]) + fs[|fs| - 1].size
  }

  // ---------------------------------------------------------------------------
  // Compaction inputs

  /** The files a compaction reads from `level` and from `level + 1`. */
  datatype Inputs = Inputs(level: nat, in0: seq<File>, in1: seq<File>)

  ghost predicate InputsOf(v: Version, c: Inputs)
    requires |v.levels| == NUM_LEVELS
  {
    && c.level + 1 < NUM_LEVELS
    && |c.in0| > 0
    && (forall f :: f in c.in0 ==> f in v.levels[c.level])
    && (forall f :: f in c.in1 ==> f in v.levels[c.level + 1])
  }

  /** Exactly the files of the next level that overlap the inputs of this level take part. */
  ghost predicate NextLevelComplete(v: Version, c: Inputs)
    requires |v.levels| == NUM_LEVELS && InputsOf(v, c)
  {
    forall g :: g in v.levels[c.level + 1] ==> (g in c.in1 <==> Touches(g, Hull(c.in0)))
  }

  /** A level-0 compaction takes every file that overlaps one it takes. */
  ghost predicate LevelZeroComplete(v: Version, c: Inputs)
    requires |v.levels| == NUM_LEVELS && InputsOf(v, c)
  {
    c.level == 0 ==> forall g :: g in v.levels[0] && Touches(g, Hull(c.in0)) ==> g in c.in0
  }

  ghost predicate Gapless(fs: seq<File>)
  {
    |fs| > 0 ==> NoHoles(fs, Lo(fs), Hi(fs))
  }

  lemma OneFileGapless(f: File)
    ensures Gapless([f])
  {
    forall k | Lo([f]) <= k <= Hi([f]) ensures KeyCovered([f], k) {
      assert f in [f];
      assert Covers(f, k);
    }
  }

  /** Files that all touch a gapless range extend it to a gapless range. */
  lemma ExtendGapless(all: seq<File>, lo: UserKey, hi: UserKey)
    requires |all| > 0 && lo <= hi
    requires NoHoles(all, lo, hi)
    requires forall f :: f in all ==> Touches(f, Range(Some(lo), Some(hi)))
    ensures Gapless(all)
  {
    forall k | Lo(all) <= k <= Hi(all) ensures KeyCovered(all, k) {
      if k < lo {
        var f :| f in all && f.smallest.ukey == Lo(all);
        assert Covers(f, k);
      } else if k > hi {
        var f :| f in all && f.largest.ukey == Hi(all);
        assert Covers(f, k);
      }
    }
  }

  lemma HullMonotone(a: seq<File>, b: seq<File>)
    requires |a| > 0 && forall f :: f in a ==> f in b
    ensures |b| > 0 && Lo(b) <= Lo(a) && Hi(a) <= Hi(b)
  {
    assert a[0] in b;
    var lo, hi := Lo(a), Hi(a);
    var f :| f in a && f.smallest.ukey == lo;
    var g :| g in a && g.largest.ukey == hi;
  }

  ghost predicate RangesValid(fs: seq<File>)
  {
    forall f :: f in fs ==> f.smallest.ukey <= f.largest.ukey
  }

  lemma ValidRanges(v: Version, l: nat)
    requires WellFormed(v) && l < NUM_LEVELS
    ensures RangesValid(v.levels[l])
  {
    forall f | f in v.levels[l] ensures f.smallest.ukey <= f.largest.ukey {
      assert ValidFile(f);
      InRange(f, f.entries[0]);
    }
  }

  /** What SetupOtherInputs and PickCompaction promise about a choice of inputs. */
  ghost predicate WellChosen(v: Version, c: Inputs)
    requires |v.levels| == NUM_LEVELS
  {
    && InputsOf(v, c)
    && NextLevelComplete(v, c)
    && LevelZeroComplete(v, c)
    && Gapless(c.in0 + c.in1)
  }

  lemma CoveredBySuperset(a: seq<File>, b: seq<File>, lo: UserKey, hi: UserKey)
    requires NoHoles(a, lo, hi)
    requires forall f, k :: f in a && Covers(f, k) && lo <= k <= hi ==> f in b
    ensures NoHoles(b, lo, hi)
  {
    forall k | lo <= k <= hi ensures KeyCovered(b, k) {
      assert KeyCovered(a, k);
    }
  }

  /** The overlapping files of the next level extend a gapless choice to a gapless choice. */
  lemma NextLevelGapless(in0: seq<File>, in1: seq<File>)
    requires |in0| > 0 && RangesValid(in0) && RangesValid(in1) && Gapless(in0)
    requires forall f :: f in in1 ==> Touches(f, Hull(in0))
    ensures Gapless(in0 + in1)
  {
    assert in0[0] in in0;
    CoveredBySuperset(in0, in0 + in1, Lo(in0), Hi(in0));
    ExtendGapless(in0 + in1, Lo(in0), Hi(in0));
  }

  lemma TouchedGapless(base: seq<File>, extra: seq<File>, r: Range, in0: seq<File>)
    requires r.lo.Some? && r.hi.Some? && r.lo.value <= r.hi.value
    requires NoHoles(base + extra, r.lo.value, r.hi.value)
    requires in0 == Touching(base, r) && |in0| > 0
    requires forall f :: f in extra ==> Touches(f, r)
    ensures Gapless(in0 + extra)
  {
    CoveredBySuperset(base + extra, in0 + extra, r.lo.value, r.hi.value);
    ExtendGapless(in0 + extra, r.lo.value, r.hi.value);
  }

  lemma WiderGapless(in0: seq<File>, t: seq<File>, all: seq<File>)
    requires |in0| > 0 && RangesValid(in0) && RangesValid(all) && Gapless(t)
    requires forall f :: f in in0 ==> f in t
    requires forall f :: f in t ==> f in all
    requires forall f :: f in all ==> f in in0 || Touches(f, Hull(in0))
    ensures Gapless(all)
  {
    HullMonotone(in0, t);
    assert in0[0] in in0;
    CoveredBySuperset(t, all, Lo(t), Hi(t));
    ExtendGapless(all, Lo(t), Hi(t));
  }

  /** All files of a level that touch a covered range, plus what they reach below, leave no gap. */
  lemma ChosenGapless(base: seq<File>, extra: seq<File>, r: Range, in0: seq<File>, in1: seq<File>)
    requires r.lo.Some? && r.hi.Some? && r.lo.value <= r.hi.value
    requires NoHoles(base + extra, r.lo.value, r.hi.value)
    requires in0 == Touching(base, r) && |in0| > 0 && RangesValid(in0) && RangesValid(in1)
    requires forall f :: f in extra ==> Touches(f, r) && f in in1
    requires forall f :: f in in1 ==> Touches(f, Hull(in0))
    ensures Gapless(in0 + in1)
  {
    TouchedGapless(base, extra, r, in0);
    WiderGapless(in0, in0 + extra, in0 + in1);
  }

  lemma ClosedChoice(files: seq<File>, r: Range, in0: seq<File>)
    requires Closed(files, r) && in0 == Touching(files, r) && |in0| > 0
    ensures forall g :: g in files && Touches(g, Hull(in0)) ==> g in in0
  {
    var lo, hi := Lo(in0), Hi(in0);
    var f :| f in in0 && f.smallest.ukey == lo;
    var g :| g in in0 && g.largest.ukey == hi;
    assert Inside(f, r) && Inside(g, r);
  }

  /** Taking every file that overlaps the whole compaction only adds inputs. */
  lemma ExpansionKeeps(base: seq<File>, next: seq<File>, in0: seq<File>, in1: seq<File>, range: Range,
                       expanded0: seq<File>, expanded1: seq<File>)
    requires RangesValid(base) && RangesValid(next)
    requires |in0| > 0 && forall f :: f in in0 ==> f in base
    requires forall f :: f in in1 ==> f in next && Touches(f, Hull(in0))
    requires Contained(Hull(in0 + in1), range)
    requires expanded0 == Touching(base, range) && |expanded0| > 0
    requires expanded1 == Touching(next, Hull(expanded0))
    ensures forall f :: f in in0 ==> f in expanded0
    ensures forall f :: f in in1 ==> Touches(f, range) && f in expanded1
  {
    hide Hull;
    forall f | f in in0 ensures f in expanded0 {
      MemberTouches(in0 + in1, range, f);
    }
    forall f | f in in1 ensures Touches(f, range) && f in expanded1 {
      MemberTouches(in0 + in1, range, f);
      TouchesMore(f, in0, expanded0);
    }
  }

  lemma MemberTouches(fs: seq<File>, range: Range, f: File)
    requires f in fs && f.smallest.ukey <= f.largest.ukey && Contained(Hull(fs), range)
    ensures Touches(f, range)
  {
  }

  lemma TouchesMore(f: File, a: seq<File>, b: seq<File>)
    requires |a| > 0 && |b| > 0 && (forall g :: g in a ==> g in b) && Touches(f, Hull(a))
    ensures Touches(f, Hull(b))
  {
    HullMonotone(a, b);
  }

  lemma ExpansionGapless(base: seq<File>, next: seq<File>, in0: seq<File>, in1: seq<File>, range: Range,
                         expanded0: seq<File>, expanded1: seq<File>)
    requires RangesValid(base) && RangesValid(next)
    requires |in0| > 0 && forall f :: f in in0 ==> f in base
    requires forall f :: f in in1 ==> f in next && Touches(f, Hull(in0))
    requires Gapless(in0 + in1)
    requires Grown(base, in1, Hull(in0 + in1), range)
    requires expanded0 == Touching(base, range) && |expanded0| > 0
    requires expanded1 == Touching(next, Hull(expanded0))
    ensures Gapless(expanded0 + expanded1)
  {
    ExpansionKeeps(base, next, in0, in1, range, expanded0, expanded1);
    var all := in0 + in1;
    assert in0[0] in all;
    CoveredBySuperset(all, base + in1, Lo(all), Hi(all));
    ChosenGapless(base, in1, range, expanded0, expanded1);
  }

  /** The files of level + 2 that overlap the compaction. */
  ghost function GrandparentsOf(v: Version, c: Inputs): (fs: seq<File>)
    requires |v.levels| == NUM_LEVELS && |c.in0| > 0
  {
    if c.level + 2 < NUM_LEVELS then Touching(v.levels[c.level + 2], Hull(c.in0 + c.in1)) else []
  }

  method Grandparents(v: Version, c: Inputs) returns (grandparents: seq<File>)
    requires WellFormed(v) && |c.in0| > 0
    ensures grandparents == GrandparentsOf(v, c)
  {
    grandparents := [];
    if c.level + 2 < NUM_LEVELS {
      var allStart, allLimit := GetRange(c.in0 + c.in1);
      ValidRanges(v, c.level + 2);
      var touched, _ := GetOverlappingInputs(v.levels[c.level + 2], c.level + 2,
                                             Range(Some(allStart.ukey), Some(allLimit.ukey)), []);
      grandparents := touched;
    }
  }

  /** What ExpandInputs promises is what a compaction needs. */
  lemma ExpandedWell(v: Version, c: Inputs)
    requires WellFormed(v) && c.level + 1 < NUM_LEVELS && |c.in0| > 0
    requires forall f :: f in c.in0 ==> f in v.levels[c.level]
    requires c.level == 0 ==> forall g :: g in v.levels[0] && Touches(g, Hull(c.in0)) ==> g in c.in0
    requires c.in1 == Touching(v.levels[c.level + 1], Hull(c.in0))
    requires Gapless(c.in0 + c.in1)
    ensures WellChosen(v, c)
  {
    hide Hull, Gapless, Touches, ValidFile, Disjoint;
  }

  /** VersionSet::SetupOtherInputs.  `limit` is ExpandedCompactionByteSizeLimit. */
  method SetupOtherInputs(v: Version, level: nat, in0: seq<File>, limit: nat)
    returns (c: Inputs, grandparents: seq<File>, largest: InternalKey)
    requires WellFormed(v) && level + 1 < NUM_LEVELS
    requires |in0| > 0 && forall f :: f in in0 ==> f in v.levels[level]
    requires level == 0 ==> forall g :: g in v.levels[0] && Touches(g, Hull(in0)) ==> g in in0
    requires Gapless(in0)
    ensures WellChosen(v, c) && c.level == level
    ensures forall f :: f in in0 ==> f in c.in0
    ensures c.in0 == in0 || Affordable(v.levels[level + 1], in0, c, limit)
    ensures grandparents == GrandparentsOf(v, c)
    ensures largest.ukey == Hi(c.in0)
  {
    hide Affordable, Hull, Gapless, Touches, Touching, RangesValid, GrandparentsOf, WellChosen, Hi;
    ValidRanges(v, level);
    ValidRanges(v, level + 1);
    c, largest := ExpandInputs(v.levels[level], v.levels[level + 1], level, in0, limit);
    ExpandedWell(v, c);
    grandparents := Grandparents(v, c);
  }

  /** More files of the level for as many of the next, and not too many bytes. */
  ghost predicate Affordable(next: seq<File>, in0: seq<File>, c: Inputs, limit: nat)
    requires |in0| > 0
  {
    var in1 := Touching(next, Hull(in0));
    |c.in0| > |in0| && |c.in1| == |in1| && TotalFileSize(in1) + TotalFileSize(c.in0) < limit
  }

  /** What growing the inputs of the lower level keeps. */
  lemma ExpansionWell(base: seq<File>, next: seq<File>, level: nat, in0: seq<File>, in1: seq<File>, range: Range,
                      expanded0: seq<File>, expanded1: seq<File>)
    requires RangesValid(base) && RangesValid(next)
    requires |in0| > 0 && forall f :: f in in0 ==> f in base
    requires in1 == Touching(next, Hull(in0)) && Gapless(in0 + in1)
    requires Grown(base, in1, Hull(in0 + in1), range)
    requires level == 0 ==> LeastClosed(base, Hull(in0 + in1), range)
    requires expanded0 == Touching(base, range) && |expanded0| > 0
    requires expanded1 == Touching(next, Hull(expanded0))
    ensures forall f :: f in in0 ==> f in expanded0
    ensures forall f :: f in expanded0 ==> f in base
    ensures level == 0 ==> forall g :: g in base && Touches(g, Hull(expanded0)) ==> g in expanded0
    ensures Gapless(expanded0 + expanded1)
  {
    hide Gapless, Touches, Hull;
    ExpansionKeeps(base, next, in0, in1, range, expanded0, expanded1);
    ExpansionGapless(base, next, in0, in1, range, expanded0, expanded1);
    if level == 0 {
      ClosedChoice(base, range, expanded0);
    }
  }

  lemma ValidParts(base: seq<File>, next: seq<File>, in0: seq<File>, in1: seq<File>)
    requires RangesValid(base) && RangesValid(next)
    requires forall f :: f in in0 ==> f in base
    requires forall f :: f in in1 ==> f in next
    ensures RangesValid(in0) && RangesValid(in1) && RangesValid(in0 + in1)
  {
  }

  /** The choice of inputs_[1] and the attempt to grow inputs_[0] without growing inputs_[1]. */
  method ExpandInputs(base: seq<File>, next: seq<File>, level: nat, in0: seq<File>, limit: nat)
    returns (c: Inputs, largest: InternalKey)
    requires RangesValid(base) && RangesValid(next)
    requires |in0| > 0 && forall f :: f in in0 ==> f in base
    requires level == 0 ==> forall g :: g in base && Touches(g, Hull(in0)) ==> g in in0
    requires Gapless(in0)
    ensures c.level == level && |c.in0| > 0
    ensures forall f :: f in in0 ==> f in c.in0
    ensures forall f :: f in c.in0 ==> f in base
    ensures level == 0 ==> forall g :: g in base && Touches(g, Hull(c.in0)) ==> g in c.in0
    ensures c.in1 == Touching(next, Hull(c.in0))
    ensures Gapless(c.in0 + c.in1)
    ensures c.in0 == in0 || Affordable(next, in0, c, limit)
    ensures largest.ukey == Hi(c.in0)
  {
    hide Gapless, Touches, Lo, Hi, TotalFileSize, Closed, LeastClosed, Grown, TouchingTo;
    ValidParts(base, next, in0, Touching(next, Hull(in0)));
    var smallest;
    smallest, largest := GetRange(in0);
    var in1, _ := GetOverlappingInputs(next, level + 1, Range(Some(smallest.ukey), Some(largest.ukey)), []);
    NextLevelGapless(in0, in1);
    c := Inputs(level, in0, in1);
    if |in1| > 0 {
      var allStart, allLimit := GetRange(in0 + in1);
      var hull := Range(Some(allStart.ukey), Some(allLimit.ukey));
      var expanded0, range := GetOverlappingInputs(base, level, hull, in1);
      if |expanded0| > |in0| && TotalFileSize(in1) + TotalFileSize(expanded0) < limit {
        var newStart, newLimit := GetRange(expanded0);
        var expanded1, _ := GetOverlappingInputs(next, level + 1, Range(Some(newStart.ukey), Some(newLimit.ukey)), []);
        if |expanded1| == |in1| {
          ExpansionWell(base, next, level, in0, in1, range, expanded0, expanded1);
          largest := newLimit;
          c := Inputs(level, expanded0, expanded1);
        }
      }
    }
  }

  // ---------------------------------------------------------------------------
  // PickCompaction

  /** Why a compaction runs: a level is too big, or a file was sought too often. */
  datatype Trigger = SizeCompaction(level: nat) | SeekCompaction(seekLevel: nat, file: File)

  predicate Beyond(f: File, pointer: Option<InternalKey>)
  {
    pointer.None? || Less(pointer.value, f.largest)
  }

  /** It is this file's turn: the first one beyond the pointer, or the first of all if none is. */
  ghost predicate Turn(files: seq<File>, pointer: Option<InternalKey>, f: File)
  {
    exists i :: 0 <= i < |files| && f == files[i]
                && (Beyond(f, pointer) || (i == 0 && forall j :: 0 <= j < |files| ==> !Beyond(files[j], pointer)))
                && forall j :: 0 <= j < i ==> !Beyond(files[j], pointer)
  }

  /** The first file after the compaction pointer of the level, or else the first file. */
  method FileAfterPointer(files: seq<File>, pointer: Option<InternalKey>) returns (f: File)
    requires |files| > 0
    ensures f in files && Turn(files, pointer, f)
  {
    for i := 0 to |files|
      invariant forall j :: 0 <= j < i ==> !Beyond(files[j], pointer)
    {
      if pointer.None? || Less(pointer.value, files[i].largest) {
        assert Beyond(files[i], pointer);
        return files[i];
      }
    }
    f := files[0];
  }

  /** VersionSet::PickCompaction for a given trigger. */
  method PickCompaction(v: Version, trigger: Trigger, pointers: seq<Option<InternalKey>>, limit: nat)
    returns (c: Inputs, grandparents: seq<File>, pointers': seq<Option<InternalKey>>)
    requires WellFormed(v) && |pointers| == NUM_LEVELS
    requires TriggerPossible(v, trigger)
    ensures WellChosen(v, c)
    ensures trigger.SizeCompaction? ==>
              c.level == trigger.level && exists f :: f in c.in0 && Turn(v.levels[c.level], pointers[c.level], f)
    ensures trigger.SeekCompaction? ==> c.level == trigger.seekLevel && trigger.file in c.in0
    ensures grandparents == GrandparentsOf(v, c)
    ensures exists k: InternalKey :: k.ukey == Hi(c.in0) && pointers' == pointers[c.level := Some(k)]
  {
    var level, picked := PickFile(v, trigger, pointers);
    var in0 := InitialInputs(v, level, picked);
    var largest;
    c, grandparents, largest := SetupOtherInputs(v, level, in0, limit);
    pointers' := pointers[level := Some(largest)];
  }

  ghost predicate TriggerPossible(v: Version, trigger: Trigger)
    requires |v.levels| == NUM_LEVELS
  {
    match trigger
    case SizeCompaction(level) => level + 1 < NUM_LEVELS && |v.levels[level]| > 0
    case SeekCompaction(level, file) => level + 1 < NUM_LEVELS && file in v.levels[level]
  }

  method PickFile(v: Version, trigger: Trigger, pointers: seq<Option<InternalKey>>) returns (level: nat, picked: File)
    requires WellFormed(v) && |pointers| == NUM_LEVELS && TriggerPossible(v, trigger)
    ensures level + 1 < NUM_LEVELS && picked in v.levels[level]
    ensures trigger.SizeCompaction? ==> level == trigger.level && Turn(v.levels[level], pointers[level], picked)
    ensures trigger.SeekCompaction? ==> level == trigger.seekLevel && picked == trigger.file
  {
    if trigger.SizeCompaction? {
      level := trigger.level;
      picked := FileAfterPointer(v.levels[level], pointers[level]);
    } else {
      level, picked := trigger.seekLevel, trigger.file;
    }
  }

  method InitialInputs(v: Version, level: nat, picked: File) returns (in0: seq<File>)
    requires WellFormed(v) && level < NUM_LEVELS && picked in v.levels[level]
    ensures picked in in0 && forall f :: f in in0 ==> f in v.levels[level]
    ensures level == 0 ==> forall g :: g in v.levels[0] && Touches(g, Hull(in0)) ==> g in in0
    ensures Gapless(in0)
  {
    if level == 0 {
      in0 := LevelZeroInputs(v, picked);
    } else {
      in0 := [picked];
      OneFileGapless(picked);
    }
  }

  /** Files in level 0 may overlap each other, so pick up all that overlap the picked one. */
  method LevelZeroInputs(v: Version, picked: File) returns (in0: seq<File>)
    requires WellFormed(v) && picked in v.levels[0]
    ensures picked in in0 && forall f :: f in in0 ==> f in v.levels[0]
    ensures forall g :: g in v.levels[0] && Touches(g, Hull(in0)) ==> g in in0
    ensures Gapless(in0)
  {
    ValidRanges(v, 0);
    var r0 := Range(Some(picked.smallest.ukey), Some(picked.largest.ukey));
    var range;
    in0, range := GetOverlappingInputs(v.levels[0], 0, r0, []);
    ClosedChoice(v.levels[0], range, in0);
    assert NoHoles(v.levels[0] + [], picked.smallest.ukey, picked.largest.ukey) by {
      forall k | picked.smallest.ukey <= k <= picked.largest.ukey ensures KeyCovered(v.levels[0] + [], k) {
        assert picked in v.levels[0] + [] && Covers(picked, k);
      }
    }
    ChosenGapless(v.levels[0], [], range, in0, []);
    assert in0 + [] == in0;
  }

  // ---------------------------------------------------------------------------
  // Placing a flushed memtable

  const MAX_MEM_COMPACT_LEVEL: nat := 2

  /** SomeFileOverlapsRange: a scan at level 0, a binary search in a level of disjoint files. */
  method OverlapInLevel(v: Version, level: nat, lo: UserKey, hi: UserKey) returns (b: bool)
    requires WellFormed(v) && level < NUM_LEVELS && lo <= hi
    ensures b <==> exists f :: f in v.levels[level] && Touches(f, Range(Some(lo), Some(hi)))
  {
    var files := v.levels[level];
    if level == 0 {
      for i := 0 to |files|
        invariant forall j :: 0 <= j < i ==> !Touches(files[j], Range(Some(lo), Some(hi)))
      {
        if !(lo > files[i].largest.ukey || hi < files[i].smallest.ukey) {
          assert files[i] in files && Touches(files[i], Range(Some(lo), Some(hi)));
          return true;
        }
      }
      return false;
    }
    DisjointOrdered(files);
    var index := FindFile(files, InternalKey(lo, MAX_SEQUENCE, Value));
    OverlapByIndex(files, index, lo, hi);
    if index >= |files| {
      return false;
    }
    return !(hi < files[index].smallest.ukey);
  }

  lemma OverlapByIndex(files: seq<File>, index: nat, lo: UserKey, hi: UserKey)
    requires Disjoint(files) && lo <= hi && forall f :: f in files ==> ValidFile(f)
    requires index <= |files|
    requires forall i :: 0 <= i < index ==> Less(files[i].largest, InternalKey(lo, MAX_SEQUENCE, Value))
    requires forall i :: index <= i < |files| ==> !Less(files[i].largest, InternalKey(lo, MAX_SEQUENCE, Value))
    ensures (index < |files| && files[index].smallest.ukey <= hi)
            <==> exists f :: f in files && Touches(f, Range(Some(lo), Some(hi)))
  {
    var r := Range(Some(lo), Some(hi));
    if index < |files| && files[index].smallest.ukey <= hi {
      assert files[index] in files && Touches(files[index], r);
    }
    forall f | f in files && Touches(f, r) ensures index < |files| && files[index].smallest.ukey <= hi {
      var i :| 0 <= i < |files| && files[i] == f;
      assert f.largest == f.entries[|f.entries| - 1].key;
      if i < index {
        assert false;
      }
      if index < i {
        assert files[index] in files;
        InRange(files[index], files[index].entries[0]);
        assert Less(files[index].largest, files[i].smallest);
      }
    }
  }

  /** Too many bytes of a level overlap [lo, hi]. */
  predicate Heavy(v: Version, level: nat, lo: UserKey, hi: UserKey, limit: nat)
    requires |v.levels| == NUM_LEVELS && level < NUM_LEVELS
  {
    TotalFileSize(Touching(v.levels[level], Range(Some(lo), Some(hi)))) > limit
  }

  /** Version::PickLevelForMemTableOutput.  `limit` is MaxGrandParentOverlapBytes. */
  method PickLevelForMemTableOutput(v: Version, lo: UserKey, hi: UserKey, limit: nat) returns (level: nat)
    requires WellFormed(v) && lo <= hi
    ensures level <= MAX_MEM_COMPACT_LEVEL
    ensures level > 0 ==> FreeUpTo(v, level, lo, hi)
    ensures forall m :: 2 <= m < level + 2 ==> !Heavy(v, m, lo, hi, limit)
    ensures level < MAX_MEM_COMPACT_LEVEL ==> !FreeUpTo(v, level + 1, lo, hi) || Heavy(v, level + 2, lo, hi, limit)
  {
    level := 0;
    var overlap := OverlapInLevel(v, 0, lo, hi);
    if !overlap {
      while level < MAX_MEM_COMPACT_LEVEL
        invariant level <= MAX_MEM_COMPACT_LEVEL
        invariant FreeUpTo(v, level, lo, hi)
        invariant forall m :: 2 <= m < level + 2 ==> !Heavy(v, m, lo, hi, limit)
      {
        overlap := OverlapInLevel(v, level + 1, lo, hi);
        if overlap {
          break;
        }
        if level + 2 < NUM_LEVELS {
          ValidRanges(v, level + 2);
          var overlaps, _ := GetOverlappingInputs(v.levels[level + 2], level + 2, Range(Some(lo), Some(hi)), []);
          if TotalFileSize(overlaps) > limit {
            break;
          }
        }
        level := level + 1;
      }
    }
  }

  /** No file of levels 0 .. level overlaps [lo, hi]. */
  ghost predicate FreeUpTo(v: Version, level: nat, lo: UserKey, hi: UserKey)
    requires |v.levels| == NUM_LEVELS && level < NUM_LEVELS
  {
    forall m, f :: 0 <= m <= level && f in v.levels[m] ==> !Touches(f, Range(Some(lo), Some(hi)))
  }

  /** A range that avoids every file of a gapless choice lies wholly to one side of it. */
  lemma AvoidsHull(fs: seq<File>, lo: UserKey, hi: UserKey)
    requires |fs| > 0 && RangesValid(fs) && Gapless(fs) && lo <= hi
    requires forall f :: f in fs ==> !Touches(f, Range(Some(lo), Some(hi)))
    ensures hi < Lo(fs) || Hi(fs) < lo
  {
    var k := if lo < Lo(fs) then Lo(fs) else lo;
    assert fs[0] in fs;
    if k <= Hi(fs) {
      assert KeyCovered(fs, k);
      var f :| f in fs && Covers(f, k);
      assert !Touches(f, Range(Some(lo), Some(hi)));
    }
  }
}
