/**
 The user's iterator at a snapshot (db/db_iter.cc): a cursor over the entries of the whole
 database that behaves like a cursor over the sorted map the snapshot sees.
 */
module DbIter {
  import opened DbFormat
  import opened Views
  import opened VersionModel
  import opened Cursors

  // ---------------------------------------------------------------------------
  // The map that a snapshot sees

  predicate Seen(es: seq<Entry>, s: nat, i: nat)
    requires i < |es|
  {
    es[i].key.seqno <= s
  }

  /** Entry `i` is the newest one of its key that the snapshot may see, and it is a value. */
  ghost predicate Shown(es: seq<Entry>, s: nat, i: nat)
    requires i < |es|
  {
    && Seen(es, s, i) && es[i].key.typ.Value?
    && forall j :: 0 <= j < i && Seen(es, s, j) ==> es[j].key.ukey != es[i].key.ukey
  }

  /** The rows of the map, in key order: the shown ones of the first `n` entries. */
  ghost function Rows(es: seq<Entry>, s: nat, n: nat): (r: seq<Entry>)
    requires n <= |es|
  {
    if n == 0 then []
    else Rows(es, s, n - 1) + (if Shown(es, s, n - 1) then [es[n - 1]] else [])
  }

  lemma {:induction false} RowsGrow(es: seq<Entry>, s: nat, n: nat, m: nat)
    requires n <= m <= |es|
    ensures |Rows(es, s, n)| <= |Rows(es, s, m)| && Rows(es, s, m)[..|Rows(es, s, n)|] == Rows(es, s, n)
  {
    if n < m {
      RowsGrow(es, s, n, m - 1);
    }
  }

  /** Row number of a shown entry: as many rows as are shown before it. */
  lemma RowAt(es: seq<Entry>, s: nat, p: nat)
    requires p < |es| && Shown(es, s, p)
    ensures |Rows(es, s, p)| < |Rows(es, s, |es|)|
    ensures Rows(es, s, |es|)[|Rows(es, s, p)|] == es[p]
    ensures |Rows(es, s, p + 1)| == |Rows(es, s, p)| + 1
  {
    RowsGrow(es, s, p + 1, |es|);
    var n := |Rows(es, s, p + 1)|;
    assert Rows(es, s, |es|)[..n][n - 1] == es[p];
  }

  /** Where nothing is shown, the number of rows does not change. */
  lemma {:induction false} NoRowsBetween(es: seq<Entry>, s: nat, n: nat, m: nat)
    requires n <= m <= |es| && forall j :: n <= j < m ==> !Shown(es, s, j)
    ensures Rows(es, s, m) == Rows(es, s, n)
  {
    if n < m {
      NoRowsBetween(es, s, n, m - 1);
    }
  }

  lemma ShownIsNewest(es: seq<Entry>, s: nat, p: nat)
    requires Sorted(es) && p < |es| && Shown(es, s, p)
    ensures Newest(Elems(es), es[p].key.ukey, s, es[p])
  {
    forall f | f in Elems(es) && Visible(f, es[p].key.ukey, s) ensures f.key.seqno <= es[p].key.seqno {
      var j :| 0 <= j < |es| && es[j] == f;
      assert Seen(es, s, j);
      assert j < p ==> false;
      assert p < j ==> Less(es[p].key, es[j].key);
    }
  }

  lemma NewestIsShown(es: seq<Entry>, s: nat, p: nat)
    requires Sorted(es) && p < |es| && es[p].key.typ.Value?
    requires Newest(Elems(es), es[p].key.ukey, s, es[p])
    ensures Shown(es, s, p)
  {
    forall j | 0 <= j < p && Seen(es, s, j) ensures es[j].key.ukey != es[p].key.ukey {
      if es[j].key.ukey == es[p].key.ukey {
        assert Less(es[j].key, es[p].key);
        assert es[j] in Elems(es) && Visible(es[j], es[p].key.ukey, s);
      }
    }
  }

  lemma {:induction false} RowsFrom(es: seq<Entry>, s: nat, n: nat, e: Entry)
    requires n <= |es| && e in Rows(es, s, n)
    ensures exists p :: 0 <= p < n && Shown(es, s, p) && es[p] == e
  {
    if e in Rows(es, s, n - 1) {
      RowsFrom(es, s, n - 1, e);
    }
  }

  /** The rows are exactly what reads of single keys at the snapshot return. */
  lemma RowsAreViews(es: seq<Entry>, s: nat, e: Entry)
    requires Sorted(es) && UniqueSeq(Elems(es))
    ensures e in Rows(es, s, |es|) <==> View(Elems(es), e.key.ukey, s) == Some(e)
  {
    if e in Rows(es, s, |es|) {
      RowsFrom(es, s, |es|, e);
      var p :| 0 <= p < |es| && Shown(es, s, p) && es[p] == e;
      ShownIsNewest(es, s, p);
      ViewOfNewest(Elems(es), e.key.ukey, s, e);
    }
    if View(Elems(es), e.key.ukey, s) == Some(e) {
      assert e in Elems(es);
      var p :| 0 <= p < |es| && es[p] == e;
      NewestIsShown(es, s, p);
      RowAt(es, s, p);
    }
  }

  /** One row for a key, in increasing order of the keys. */
  lemma {:induction false} RowsAscend(es: seq<Entry>, s: nat, n: nat)
    requires Sorted(es) && n <= |es|
    ensures forall i, j :: 0 <= i < j < |Rows(es, s, n)| ==> Rows(es, s, n)[i].key.ukey < Rows(es, s, n)[j].key.ukey
  {
    if n > 0 {
      RowsAscend(es, s, n - 1);
      var r := Rows(es, s, n - 1);
      if Shown(es, s, n - 1) {
        forall i | 0 <= i < |r| ensures r[i].key.ukey < es[n - 1].key.ukey {
          assert r[i] in r;
          RowsFrom(es, s, n - 1, r[i]);
          var p :| 0 <= p < n - 1 && Shown(es, s, p) && es[p] == r[i];
          assert Less(es[p].key, es[n - 1].key);
        }
      }
    }
  }

  // ---------------------------------------------------------------------------
  // The iterator

  /** What FindNextUserEntry looks for from `i` on: a shown entry, of a key after `skip` if one is given. */
  ghost predicate Wanted(es: seq<Entry>, s: nat, skip: Option<UserKey>, i: nat)
    requires i < |es|
  {
    Shown(es, s, i) && (skip.Some? ==> es[i].key.ukey > skip.value)
  }

  /** Keys that the entries before `i` have decided are at or before the key to skip. */
  ghost predicate Decided(es: seq<Entry>, s: nat, skip: Option<UserKey>, i: nat)
  {
    forall j, k :: 0 <= j < i <= k < |es| && Seen(es, s, j) && es[j].key.ukey == es[k].key.ukey
      ==> skip.Some? && es[k].key.ukey <= skip.value
  }

  /** From `i` on, nothing visible has a key before `k`. */
  ghost predicate NoneBefore(es: seq<Entry>, s: nat, i: nat, k: UserKey)
  {
    forall j :: i <= j < |es| && Seen(es, s, j) ==> k <= es[j].key.ukey
  }

  /**
   The forward scan from `from` has reached `i` with the key `skip` to skip: nothing wanted was passed, and
   exactly the entries of keys up to `skip` are not wanted any more.
   */
  ghost predicate Scanned(es: seq<Entry>, s: nat, skip0: Option<UserKey>, from: nat, i: nat, skip: Option<UserKey>)
  {
    && from <= i <= |es|
    && (forall j :: from <= j < i ==> !Wanted(es, s, skip0, j))
    && (skip0.Some? ==> skip.Some? && skip0.value <= skip.value)
    && Decided(es, s, skip, i)
    && (skip.Some? ==> NoneBefore(es, s, i, skip.value))
    && (skip.Some? ==> forall j :: i <= j < |es| && es[j].key.ukey <= skip.value ==> !Wanted(es, s, skip0, j))
  }

  lemma ScanStarts(es: seq<Entry>, s: nat, skip: Option<UserKey>, from: nat)
    requires from <= |es| && Decided(es, s, skip, from) && (skip.Some? ==> NoneBefore(es, s, from, skip.value))
    ensures Scanned(es, s, skip, from, from, skip)
  {
  }

  /** A deletion marker hides the rest of its key. */
  lemma ScanMarker(es: seq<Entry>, s: nat, skip0: Option<UserKey>, from: nat, i: nat, skip: Option<UserKey>)
    requires Sorted(es) && i < |es| && Scanned(es, s, skip0, from, i, skip) && Seen(es, s, i) && es[i].key.typ.Deletion?
    ensures Scanned(es, s, skip0, from, i + 1, Some(es[i].key.ukey))
  {
    assert forall j :: i < j < |es| ==> Less(es[i].key, es[j].key);
  }

  lemma ScanHidden(es: seq<Entry>, s: nat, skip0: Option<UserKey>, from: nat, i: nat, skip: Option<UserKey>)
    requires Sorted(es) && i < |es| && Scanned(es, s, skip0, from, i, skip) && Seen(es, s, i)
    requires skip.Some? && es[i].key.ukey <= skip.value
    ensures Scanned(es, s, skip0, from, i + 1, skip)
  {
  }

  lemma ScanUnseen(es: seq<Entry>, s: nat, skip0: Option<UserKey>, from: nat, i: nat, skip: Option<UserKey>)
    requires i < |es| && Scanned(es, s, skip0, from, i, skip) && !Seen(es, s, i)
    ensures Scanned(es, s, skip0, from, i + 1, skip)
  {
  }

  lemma ScanFound(es: seq<Entry>, s: nat, skip0: Option<UserKey>, from: nat, i: nat, skip: Option<UserKey>)
    requires i < |es| && Scanned(es, s, skip0, from, i, skip) && Seen(es, s, i) && es[i].key.typ.Value?
    requires skip.Some? ==> es[i].key.ukey > skip.value
    ensures Wanted(es, s, skip0, i) && Shown(es, s, i) && from <= i
    ensures forall j :: from <= j < i ==> !Wanted(es, s, skip0, j)
  {
  }

  lemma ScanEnds(es: seq<Entry>, s: nat, skip0: Option<UserKey>, from: nat, skip: Option<UserKey>)
    requires Scanned(es, s, skip0, from, |es|, skip)
    ensures forall j :: from <= j < |es| ==> !Wanted(es, s, skip0, j)
  {
  }

  class DBIter {
    const iter: Cursor
    const sequence: nat
    var savedKey: Option<UserKey>
    var savedValue: Slice
    var direction: Direction
    var valid: bool
    ghost var cur: nat

    /**
     Moving forward, the internal iterator is at the current row.  Moving backwards, the current row
     is saved and the internal iterator is before it, with nothing visible in between.
     */
    ghost predicate Ok()
      reads this, iter
    {
      && iter.Ok()
      && (valid ==>
            && cur < |iter.es| && Shown(iter.es, sequence, cur)
            && (direction.Forward? ==> iter.at == cur)
            && (direction.Reverse? ==>
                  && savedKey == Some(iter.es[cur].key.ukey) && savedValue == iter.es[cur].val
                  && (iter.Valid() ==> iter.Key().ukey < iter.es[cur].key.ukey)
                  && forall j ::
                       && (iter.Valid() ==> iter.at < j) && 0 <= j < |iter.es|
                       && iter.es[j].key.ukey < iter.es[cur].key.ukey
                       ==> !Seen(iter.es, sequence, j)))
    }

    ghost function Table(): (r: seq<Entry>)
      reads this
    {
      Rows(iter.es, sequence, |iter.es|)
    }

    /** The number of the current row; the number of rows if there is none. */
    ghost function Row(): (r: nat)
      reads this, iter
      requires Ok()
    {
      if valid then |Rows(iter.es, sequence, cur)| else |Table()|
    }

    constructor (run: Cursor, s: nat)
      requires run.Ok()
      ensures Ok() && !valid && iter == run && sequence == s
    {
      iter, sequence := run, s;
      savedKey, savedValue, direction, valid := None, [], Forward, false;
      cur := 0;
    }

    method Key() returns (k: UserKey)
      requires Ok() && valid
      ensures Row() < |Table()| && k == Table()[Row()].key.ukey
    {
      RowAt(iter.es, sequence, cur);
      k := if direction.Forward? then iter.Key().ukey else savedKey.value;
    }

    method Val() returns (v: Slice)
      requires Ok() && valid
      ensures Row() < |Table()| && v == Table()[Row()].val
    {
      RowAt(iter.es, sequence, cur);
      v := if direction.Forward? then iter.Val() else savedValue;
    }

    method FindNextUserEntry(skipping0: bool)
      requires iter.Ok() && iter.Valid() && direction.Forward?
      requires skipping0 ==> savedKey.Some?
      requires Decided(iter.es, sequence, if skipping0 then savedKey else None, iter.at)
      requires skipping0 ==> NoneBefore(iter.es, sequence, iter.at, savedKey.value)
      modifies this, iter
      ensures Ok() && direction.Forward?
      ensures var skip := if skipping0 then old(savedKey) else None;
              && (forall j :: old(iter.at) <= j < (if valid then cur else |iter.es|) ==>
                  !Wanted(iter.es, sequence, skip, j))
              && (valid ==> old(iter.at) <= cur && Wanted(iter.es, sequence, skip, cur))
    {
      hide Sorted, Shown, Wanted, Decided, NoneBefore, Scanned;
      var skipping := skipping0;
      var skip := savedKey;
      ghost var from, skip0 := iter.at, if skipping0 then savedKey else None;
      ScanStarts(iter.es, sequence, skip0, from);
      while true
        invariant iter.Ok() && iter.Valid() && direction.Forward? && (skipping ==> skip.Some?)
        invariant Scanned(iter.es, sequence, skip0, from, iter.at, if skipping then skip else None)
        decreases |iter.es| - iter.at
      {
        var key := iter.Key();
        if key.seqno <= sequence {
          if key.typ.Deletion? {
            ScanMarker(iter.es, sequence, skip0, from, iter.at, if skipping then skip else None);
            skip := Some(key.ukey);
            skipping := true;
          } else if skipping && key.ukey <= skip.value {
            ScanHidden(iter.es, sequence, skip0, from, iter.at, skip);
          } else {
            ScanFound(iter.es, sequence, skip0, from, iter.at, if skipping then skip else None);
            valid := true;
            savedKey := None;
            cur := iter.at;
            return;
          }
        } else {
          ScanUnseen(iter.es, sequence, skip0, from, iter.at, if skipping then skip else None);
        }
        iter.Next();
        if !iter.Valid() {
          break;
        }
      }
      ScanEnds(iter.es, sequence, skip0, from, if skipping then skip else None);
      savedKey := None;
      valid := false;
    }
  
    method Next()
      requires Ok() && valid
      modifies this, iter
      ensures Ok() && Row() == old(Row()) + 1 && (valid <==> Row() < |Table()|)
    {
      ghost var p := cur;
      if direction.Reverse? {
        direction := Forward;
        if !iter.Valid() {
          iter.SeekToFirst();
        } else {
          iter.Next();
        }
        // The check for having run off the end cannot fire: the current row lies ahead.
        assert iter.Valid();
      } else {
        savedKey := Some(iter.Key().ukey);
      }
      ghost var from := iter.at;
      FindNextUserEntry(true);
      NextWanted(iter.es, sequence, p, from, if valid then cur else |iter.es|);
      NextRow(iter.es, sequence, p, if valid then cur else |iter.es|);
    }

    method Seek(target: UserKey)
      requires Ok()
      modifies this, iter
      ensures Ok() && Row() == FirstRowFrom(Table(), target) && (valid <==> Row() < |Table()|)
    {
      direction := Forward;
      savedValue := [];
      savedKey := None;
      iter.Seek(SeekKey(target, sequence));
      ghost var from := iter.at;
      SoughtDecides(iter.es, sequence, target, from);
      if iter.Valid() {
        FindNextUserEntry(false);
      } else {
        valid := false;
      }
      FirstWanted(iter.es, sequence, from, if valid then cur else |iter.es|);
      RowSought(iter.es, sequence, target, from, if valid then cur else |iter.es|);
    }

    method SeekToFirst()
      requires Ok()
      modifies this, iter
      ensures Ok() && Row() == 0 && (valid <==> 0 < |Table()|)
    {
      direction := Forward;
      savedValue := [];
      iter.SeekToFirst();
      if iter.Valid() {
        FindNextUserEntry(false);
      } else {
        valid := false;
      }
      FirstWanted(iter.es, sequence, 0, if valid then cur else |iter.es|);
      FirstRow(iter.es, sequence, if valid then cur else |iter.es|);
    }

    method FindPrevUserEntry()
      requires iter.Ok() && direction.Reverse?
      modifies this, iter
      ensures Ok()
      ensures var hi := if old(iter.Valid()) then old(iter.at) + 1 else 0;
              && (valid ==> cur < hi && forall j :: cur < j < hi ==> !Shown(iter.es, sequence, j))
              && (!valid ==> forall j :: 0 <= j < hi ==> !Shown(iter.es, sequence, j))
    {
      var valueType := Deletion;
      ghost var hi := if iter.Valid() then iter.at + 1 else 0;
      ghost var p: nat := 0;
      if iter.Valid() {
        while true
          invariant iter.Ok() && iter.Valid() && iter.at < hi && direction.Reverse?
          invariant valueType.Deletion? ==> forall j :: iter.at < j < hi ==> !Shown(iter.es, sequence, j)
          invariant valueType.Value? ==> Candidate(iter.es, sequence, iter.at + 1, p, hi)
                                         && savedKey == Some(iter.es[p].key.ukey) && savedValue == iter.es[p].val
          decreases iter.at
        {
          var key := iter.Key();
          if key.seqno <= sequence {
            if valueType != Deletion && key.ukey < savedKey.value {
              break;
            }
            OlderHidden(iter.es, sequence, iter.at, p, hi, valueType.Value?);
            valueType := key.typ;
            if valueType.Deletion? {
              savedKey := None;
              savedValue := [];
            } else {
              savedKey := Some(key.ukey);
              savedValue := iter.Val();
              p := iter.at;
            }
          }
          iter.Prev();
          if !iter.Valid() {
            break;
          }
        }
      }
      if valueType.Deletion? {
        valid := false;
        savedKey := None;
        savedValue := [];
        direction := Forward;
      } else {
        valid := true;
        cur := p;
      }
    }

    method Prev()
      requires Ok() && valid
      modifies this, iter
      ensures Ok() && (valid <==> old(Row()) > 0) && Row() == if old(Row()) > 0 then old(Row()) - 1 else |Table()|
    {
      ghost var p := cur;
      if direction.Forward? {
        savedKey := Some(iter.Key().ukey);
        while true
          invariant iter.Ok() && iter.Valid() && iter.at <= p && valid && cur == p && direction.Forward?
          invariant savedKey == Some(iter.es[p].key.ukey) && iter.Key().ukey == savedKey.value
          decreases iter.at
        {
          iter.Prev();
          if !iter.Valid() {
            valid := false;
            savedKey := None;
            savedValue := [];
            PrevRow(iter.es, sequence, p, |iter.es|);
            return;
          }
          if iter.Key().ukey < savedKey.value {
            break;
          }
        }
        direction := Reverse;
      }
      FindPrevUserEntry();
      PrevRow(iter.es, sequence, p, if valid then cur else |iter.es|);
    }

    method SeekToLast()
      requires Ok()
      modifies this, iter
      ensures Ok() && (valid <==> |Table()| > 0) && Row() == Before(|Table()|, |Table()|)
    {
      direction := Reverse;
      savedValue := [];
      iter.SeekToLast();
      FindPrevUserEntry();
      PrevRow(iter.es, sequence, |iter.es|, if valid then cur else |iter.es|);
    }
  }

  /** The first row whose key is not before `k`. */
  ghost function FirstRowFrom(rows: seq<Entry>, k: UserKey): (i: nat)
    ensures i <= |rows|
    ensures forall j :: 0 <= j < i ==> rows[j].key.ukey < k
    ensures i < |rows| ==> rows[i].key.ukey >= k
  {
    if rows == [] || rows[0].key.ukey >= k then 0 else 1 + FirstRowFrom(rows[1..], k)
  }

  lemma KeyOrder(es: seq<Entry>, i: nat, j: nat)
    requires Sorted(es) && i < |es| && j < |es| && es[i].key.ukey < es[j].key.ukey
    ensures i < j
  {
  }

  /** Skipping the key of the current row is looking for the next shown entry. */
  lemma NextWanted(es: seq<Entry>, s: nat, p: nat, from: nat, q: nat)
    requires Sorted(es) && from <= p < |es| && Shown(es, s, p) && q <= |es|
    requires forall j :: from <= j < q ==> !Wanted(es, s, Some(es[p].key.ukey), j)
    requires q < |es| ==> Wanted(es, s, Some(es[p].key.ukey), q)
    ensures p < q && forall j :: p < j < q ==> !Shown(es, s, j)
  {
    forall j | p < j < q ensures !Shown(es, s, j) {
      assert !Wanted(es, s, Some(es[p].key.ukey), j);
      assert Less(es[p].key, es[j].key);
    }
    if q < |es| {
      KeyOrder(es, p, q);
    }
  }

  lemma FirstWanted(es: seq<Entry>, s: nat, from: nat, q: nat)
    requires from <= q <= |es| && forall j :: from <= j < q ==> !Wanted(es, s, None, j)
    ensures forall j :: from <= j < q ==> !Shown(es, s, j)
  {
    forall j | from <= j < q ensures !Shown(es, s, j) {
      assert !Wanted(es, s, None, j);
    }
  }

  lemma NextRow(es: seq<Entry>, s: nat, p: nat, q: nat)
    requires p < q <= |es| && Shown(es, s, p) && forall j :: p < j < q ==> !Shown(es, s, j)
    ensures |Rows(es, s, q)| == |Rows(es, s, p)| + 1
    ensures q < |es| && Shown(es, s, q) ==> |Rows(es, s, q)| < |Rows(es, s, |es|)|
  {
    RowAt(es, s, p);
    NoRowsBetween(es, s, p + 1, q);
    if q < |es| && Shown(es, s, q) {
      RowAt(es, s, q);
    }
  }

  lemma FirstRow(es: seq<Entry>, s: nat, q: nat)
    requires q <= |es| && forall j :: 0 <= j < q ==> !Shown(es, s, j)
    ensures |Rows(es, s, q)| == 0
    ensures q < |es| && Shown(es, s, q) ==> 0 < |Rows(es, s, |es|)|
  {
    NoRowsBetween(es, s, 0, q);
    if q < |es| && Shown(es, s, q) {
      RowAt(es, s, q);
    }
  }

  /** `q` is the shown entry before `p`, or |es| if there is none. */
  lemma PrevRow(es: seq<Entry>, s: nat, p: nat, q: nat)
    requires p <= |es| && q <= |es|
    requires q < |es| ==> q < p && Shown(es, s, q) && forall j :: q < j < p ==> !Shown(es, s, j)
    requires q == |es| ==> forall j :: 0 <= j < p ==> !Shown(es, s, j)
    ensures q < |es| ==> |Rows(es, s, p)| == |Rows(es, s, q)| + 1
    ensures q == |es| ==> |Rows(es, s, p)| == 0
  {
    if q < |es| {
      RowBefore(es, s, p, q);
    } else {
      FirstRow(es, s, p);
    }
  }

  lemma RowBefore(es: seq<Entry>, s: nat, p: nat, q: nat)
    requires q < p <= |es| && Shown(es, s, q) && forall j :: q < j < p ==> !Shown(es, s, j)
    ensures |Rows(es, s, p)| == |Rows(es, s, q)| + 1
  {
    RowAt(es, s, q);
    NoRowsBetween(es, s, q + 1, p);
  }

  lemma SoughtDecides(es: seq<Entry>, s: nat, k: UserKey, i: nat)
    requires Sorted(es) && i == LowerBound(es, SeekKey(k, s))
    ensures Decided(es, s, None, i)
    ensures forall j :: 0 <= j < i && Shown(es, s, j) ==> es[j].key.ukey < k
    ensures forall j :: i <= j < |es| ==> es[j].key.ukey >= k
  {
    forall j | 0 <= j < i && Seen(es, s, j) ensures es[j].key.ukey < k {
      if es[j].key.ukey == k {
        NotBefore(es[j].key, k, s);
      }
    }
    forall m | i <= m < |es| ensures es[m].key.ukey >= k {
      assert i < m ==> Less(es[i].key, es[m].key);
    }
    hide Sorted, Less, LowerBound;
  }

  lemma RowSought(es: seq<Entry>, s: nat, k: UserKey, i: nat, q: nat)
    requires Sorted(es) && i <= q <= |es|
    requires forall j :: 0 <= j < i && Shown(es, s, j) ==> es[j].key.ukey < k
    requires forall j :: i <= j < |es| ==> es[j].key.ukey >= k
    requires forall j :: i <= j < q ==> !Shown(es, s, j)
    requires q < |es| ==> Shown(es, s, q)
    ensures |Rows(es, s, q)| == FirstRowFrom(Rows(es, s, |es|), k)
    ensures q < |es| ==> |Rows(es, s, q)| < |Rows(es, s, |es|)|
  {
    var rows := Rows(es, s, |es|);
    var n := |Rows(es, s, q)|;
    RowsGrow(es, s, q, |es|);
    forall j | 0 <= j < n ensures rows[j].key.ukey < k {
      assert rows[..n][j] in Rows(es, s, q);
      RowsFrom(es, s, q, rows[j]);
    }
    if q < |es| {
      RowAt(es, s, q);
    }
  }

  /** Going backwards: `p` is the newest entry met so far of the last key met, a value not yet hidden. */
  ghost predicate Candidate(es: seq<Entry>, s: nat, from: nat, p: nat, hi: nat)
  {
    && from <= p < hi <= |es| && Seen(es, s, p) && es[p].key.typ.Value?
    && (forall j :: from <= j < p ==> !Seen(es, s, j))
    && (forall j :: p < j < hi ==> !Shown(es, s, j))
  }

  /** A visible entry met going backwards hides the candidate of its key. */
  lemma OlderHidden(es: seq<Entry>, s: nat, i: nat, p: nat, hi: nat, hasCandidate: bool)
    requires i < hi <= |es| && Seen(es, s, i)
    requires hasCandidate ==> Candidate(es, s, i + 1, p, hi) && es[i].key.ukey == es[p].key.ukey
    requires !hasCandidate ==> forall j :: i < j < hi ==> !Shown(es, s, j)
    ensures forall j :: i < j < hi ==> !Shown(es, s, j)
  {
  }

  // ---------------------------------------------------------------------------
  // Whole runs of an iterator

  datatype Move = ToFirst | ToLast | To(target: UserKey) | Forth | Back

  /** The same moves on a plain cursor over the rows; steps from no row stay there. */
  ghost function Moved(rows: seq<Entry>, at: nat, m: Move): (r: nat)
    requires at <= |rows|
    ensures r <= |rows|
  {
    match m
    case ToFirst => 0
    case ToLast => Before(|rows|, |rows|)
    case To(k) => FirstRowFrom(rows, k)
    case Forth => if at < |rows| then at + 1 else at
    case Back => if at < |rows| then Before(|rows|, at) else at
  }

  ghost function Trace(rows: seq<Entry>, at: nat, moves: seq<Move>, n: nat): (r: nat)
    requires at <= |rows| && n <= |moves|
    ensures r <= |rows|
  {
    if n == 0 then at else Moved(rows, Trace(rows, at, moves, n - 1), moves[n - 1])
  }

  /** What the iterator shows on row `r`. */
  ghost function ShownAt(rows: seq<Entry>, r: nat): (o: Option<(UserKey, Slice)>)
  {
    if r < |rows| then Some((rows[r].key.ukey, rows[r].val)) else None
  }

  method Apply(it: DBIter, m: Move) returns (o: Option<(UserKey, Slice)>)
    requires it.Ok() && (it.valid <==> it.Row() < |it.Table()|)
    modifies it, it.iter
    ensures it.Ok() && (it.valid <==> it.Row() < |it.Table()|)
    ensures it.Row() == Moved(it.Table(), old(it.Row()), m) && o == ShownAt(it.Table(), it.Row())
  {
    hide Sorted, Shown, Rows, FirstRowFrom;
    match m {
      case ToFirst => it.SeekToFirst();
      case ToLast => it.SeekToLast();
      case To(k) => it.Seek(k);
      case Forth => if it.valid { it.Next(); }
      case Back => if it.valid { it.Prev(); }
    }
    if it.valid {
      var k := it.Key();
      var v := it.Val();
      o := Some((k, v));
    } else {
      o := None;
    }
  }

  /** After any sequence of moves the iterator shows what a cursor over the snapshot's map shows. */
  method Drive(es: seq<Entry>, s: nat, moves: seq<Move>) returns (seen: seq<Option<(UserKey, Slice)>>)
    requires Sorted(es)
    ensures |seen| == |moves|
    ensures var rows := Rows(es, s, |es|);
            forall i :: 0 <= i < |moves| ==> seen[i] == ShownAt(rows, Trace(rows, |rows|, moves, i + 1))
  {
    hide Sorted, Shown;
    var iter := new Cursor(es);
    var it := new DBIter(iter, s);
    ghost var rows := Rows(es, s, |es|);
    seen := [];
    for i := 0 to |moves|
      invariant fresh(it) && fresh(iter) && it.iter == iter && iter.es == es && it.sequence == s
      invariant it.Ok() && (it.valid <==> it.Row() < |rows|) && it.Row() == Trace(rows, |rows|, moves, i)
      invariant |seen| == i
      invariant forall j :: 0 <= j < i ==> seen[j] == ShownAt(rows, Trace(rows, |rows|, moves, j + 1))
    {
      var o := Apply(it, moves[i]);
      seen := seen + [o];
    }
  }
}
