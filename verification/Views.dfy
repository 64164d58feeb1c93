/**
 What a read at a snapshot means.

 `View` is the meaning of a collection of entries: the newest entry of a user key that a
 snapshot may see, unless that entry is a deletion.  `Read` is the reference: walk the history
 of writes backwards from the snapshot to the last operation on the key.
 */
module Views {
  import opened DbFormat

  // ---------------------------------------------------------------------------
  // Collections of entries

  ghost predicate Visible(e: Entry, k: UserKey, s: nat)
  {
    e.key.ukey == k && e.key.seqno <= s
  }

  ghost predicate Newest(es: set<Entry>, k: UserKey, s: nat, e: Entry)
  {
    && e in es
    && Visible(e, k, s)
    && forall f :: f in es && Visible(f, k, s) ==> f.key.seqno <= e.key.seqno
  }

  ghost predicate NoneVisible(es: set<Entry>, k: UserKey, s: nat)
  {
    forall e :: e in es ==> !Visible(e, k, s)
  }

  /** A user key and a sequence number name at most one entry. */
  ghost predicate UniqueSeq(es: set<Entry>)
  {
    forall e, f :: e in es && f in es && e.key.ukey == f.key.ukey && e.key.seqno == f.key.seqno ==> e == f
  }

  ghost function View(es: set<Entry>, k: UserKey, s: nat): (r: Option<Entry>)
    ensures r.Some? ==> Newest(es, k, s, r.value) && r.value.key.typ.Value?
    ensures r.None? ==> forall e :: Newest(es, k, s, e) ==> e.key.typ.Deletion?
  {
    if exists e :: Newest(es, k, s, e) && e.key.typ.Value?
    then var e :| Newest(es, k, s, e) && e.key.typ.Value?; Some(e)
    else None
  }

  /** The answer that a search which stops at `e` gives. */
  function Answer(e: Entry): (r: Option<Entry>)
  {
    if e.key.typ.Value? then Some(e) else None
  }

  lemma ViewOfNewest(es: set<Entry>, k: UserKey, s: nat, e: Entry)
    requires UniqueSeq(es) && Newest(es, k, s, e)
    ensures View(es, k, s) == Answer(e)
  {
    forall f | Newest(es, k, s, f) ensures f == e {
      assert f.key.seqno == e.key.seqno;
    }
  }

  lemma ViewOfNone(es: set<Entry>, k: UserKey, s: nat)
    requires NoneVisible(es, k, s)
    ensures View(es, k, s) == None
  {
  }

  /** A finite collection either shows nothing or has a newest visible entry. */
  lemma {:induction false} NewestExists(es: set<Entry>, k: UserKey, s: nat)
    ensures NoneVisible(es, k, s) || exists e :: Newest(es, k, s, e)
    decreases |es|
  {
    if !NoneVisible(es, k, s) {
      var e :| e in es && Visible(e, k, s);
      var rest := es - {e};
      NewestExists(rest, k, s);
      if NoneVisible(rest, k, s) {
        assert Newest(es, k, s, e);
      } else {
        var f :| Newest(rest, k, s, f);
        if f.key.seqno >= e.key.seqno {
          assert Newest(es, k, s, f);
        } else {
          assert Newest(es, k, s, e);
        }
      }
    }
  }

  // ---------------------------------------------------------------------------
  // Write histories

  datatype Op = Op(key: UserKey, typ: ValueType, val: Slice)

  /** The operation numbered i+1, as the entry that InsertInto adds for it. */
  function EntryAt(h: seq<Op>, i: nat): (e: Entry)
    requires i < |h|
  {
    Entry(InternalKey(h[i].key, i + 1, h[i].typ), h[i].val)
  }

  /** The entries of the operations numbered lo+1 .. hi. */
  ghost function Writes(h: seq<Op>, lo: nat, hi: nat): (es: set<Entry>)
    requires lo <= hi <= |h|
  {
    set i | lo <= i < hi :: EntryAt(h, i)
  }

  /** The last of the first `s` operations that concerns `k`, read as a value. */
  function Read(h: seq<Op>, k: UserKey, s: nat): (r: Option<Slice>)
    requires s <= |h|
  {
    if s == 0 then None
    else if h[s - 1].key == k then (if h[s - 1].typ.Value? then Some(h[s - 1].val) else None)
    else Read(h, k, s - 1)
  }

  function ValueOf(r: Option<Entry>): (v: Option<Slice>)
  {
    if r.Some? then Some(r.value.val) else None
  }

  lemma WritesUnique(h: seq<Op>, lo: nat, hi: nat)
    requires lo <= hi <= |h|
    ensures UniqueSeq(Writes(h, lo, hi))
  {
  }

  /** The set view of the whole history is the backwards walk. */
  lemma {:induction false} ViewIsRead(h: seq<Op>, n: nat, k: UserKey, s: nat)
    requires n <= |h|
    ensures ValueOf(View(Writes(h, 0, n), k, s)) == Read(h, k, if s < n then s else n)
  {
    var es := Writes(h, 0, n);
    var m := if s < n then s else n;
    var i := m;
    while i > 0 && h[i - 1].key != k
      invariant 0 <= i <= m
      invariant forall j :: i <= j < m ==> h[j].key != k
      invariant Read(h, k, m) == Read(h, k, i)
    {
      i := i - 1;
    }
    WritesUnique(h, 0, n);
    if i == 0 {
      forall e | e in es ensures !Visible(e, k, s) {
        var j :| 0 <= j < n && e == EntryAt(h, j);
      }
      ViewOfNone(es, k, s);
    } else {
      var e := EntryAt(h, i - 1);
      assert e in es;
      forall f | f in es && Visible(f, k, s) ensures f.key.seqno <= e.key.seqno {
        var j :| 0 <= j < n && f == EntryAt(h, j);
      }
      ViewOfNewest(es, k, s, e);
    }
  }

  // ---------------------------------------------------------------------------
  // Views of unions

  /** Collections with the same visible entries have the same view. */
  lemma SameVisible(es: set<Entry>, xs: set<Entry>, k: UserKey, s: nat)
    requires UniqueSeq(es)
    requires forall e :: Visible(e, k, s) ==> (e in es <==> e in xs)
    ensures View(es, k, s) == View(xs, k, s)
  {
    NewestExists(es, k, s);
    if NoneVisible(es, k, s) {
      ViewOfNone(es, k, s);
      ViewOfNone(xs, k, s);
    } else {
      var e :| Newest(es, k, s, e);
      ViewOfNewest(es, k, s, e);
      assert Newest(xs, k, s, e);
      forall f | Newest(xs, k, s, f) ensures f == e {
        assert f in es;
      }
    }
  }

  /** If what is on top is newer, it decides alone, or else what is below decides. */
  lemma ViewOfStack(top: set<Entry>, below: set<Entry>, k: UserKey, s: nat)
    requires UniqueSeq(top + below)
    requires forall e, x :: e in top && x in below && e.key.ukey == x.key.ukey ==> e.key.seqno > x.key.seqno
    ensures View(top + below, k, s) == if NoneVisible(top, k, s) then View(below, k, s) else View(top, k, s)
  {
    if NoneVisible(top, k, s) {
      SameVisible(top + below, below, k, s);
    } else {
      NewestExists(top, k, s);
      var e :| Newest(top, k, s, e);
      assert UniqueSeq(top);
      ViewOfNewest(top, k, s, e);
      assert Newest(top + below, k, s, e);
      ViewOfNewest(top + below, k, s, e);
    }
  }

  lemma WritesSplit(h: seq<Op>, lo: nat, mid: nat, hi: nat)
    requires lo <= mid <= hi <= |h|
    ensures Writes(h, lo, hi) == Writes(h, lo, mid) + Writes(h, mid, hi)
    ensures forall e, x :: e in Writes(h, mid, hi) && x in Writes(h, lo, mid) ==> e.key.seqno > x.key.seqno
  {
    forall e ensures e in Writes(h, lo, hi) <==> e in Writes(h, lo, mid) || e in Writes(h, mid, hi) {
      if e in Writes(h, lo, hi) {
        var i :| lo <= i < hi && e == EntryAt(h, i);
        assert i < mid || mid <= i;
      }
    }
  }

  lemma WritesExtend(h: seq<Op>, more: seq<Op>, lo: nat, hi: nat)
    requires lo <= hi <= |h|
    ensures Writes(h + more, lo, hi) == Writes(h, lo, hi)
  {
    forall i | lo <= i < hi ensures EntryAt(h + more, i) == EntryAt(h, i) {
      assert (h + more)[i] == h[i];
    }
  }
}
