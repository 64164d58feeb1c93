/**
 Memtables (db/memtable.cc): entries in the form of bytes in a skip list, compared by the internal keys
 they begin with.
 */
module MemTable {
  import opened DbFormat
  import opened Coding
  import opened Views
  import opened VersionModel
  import opened Comparators
  import opened Block
  import opened Table
  import opened TableLookup
  import SkipList

  /** The bytes of an entry: the internal key and the value, each after its length. */
  function EncodeEntry(u: Slice, s: nat, t: ValueType, value: Slice): (buf: Slice)
    requires s <= MAX_SEQUENCE
  {
    LengthPrefixed(EncodeInternalKey(u, s, t)) + LengthPrefixed(value)
  }

  predicate HasKey(buf: Slice)
  {
    TakeSlice(buf).Some? && Wf(TakeSlice(buf).value.0)
  }

  function KeyOf(buf: Slice): (key: Slice)
    requires HasKey(buf)
    ensures Wf(key)
  {
    TakeSlice(buf).value.0
  }

  /** MemTable::KeyComparator. */
  predicate Before(a: Slice, b: Slice)
  {
    HasKey(a) && HasKey(b) && Precedes(Internal, KeyOf(a), KeyOf(b))
  }

  lemma BeforeOrders()
    ensures SkipList.StrictOrder(Before)
  {
    hide Rank, TakeSlice, Packed;
  }

  /** Bytes that begin with the internal key of an entry. */
  predicate IsKey(buf: Slice, e: Entry)
  {
    HasKey(buf) && Encodes(Pair(KeyOf(buf), e.val), e)
  }

  /** The bytes of an entry, value and all. */
  predicate IsEntry(buf: Slice, e: Entry)
  {
    IsKey(buf, e) && ValueIn(buf) == Some(e.val)
  }

  function ValueIn(buf: Slice): (v: Option<Slice>)
    requires HasKey(buf)
  {
    var v := TakeSlice(TakeSlice(buf).value.1);
    if v.Some? then Some(v.value.0) else None
  }

  lemma KeyParses(u: Slice, s: nat, t: ValueType, rest: Slice, e: Entry)
    requires s <= MAX_SEQUENCE && |u| + PACKED_SIZE < TWO32 && e.key == InternalKey(Rank(u), s, t)
    ensures var buf := LengthPrefixed(EncodeInternalKey(u, s, t)) + rest;
            IsKey(buf, e) && TakeSlice(buf).value == (EncodeInternalKey(u, s, t), rest)
  {
    hide Rank, TakeSlice, LengthPrefixed, EncodeInternalKey, Encodes;
    SliceRoundTrip(EncodeInternalKey(u, s, t), rest);
    EncodingEncodes(u, e);
  }

  lemma EntryParses(u: Slice, s: nat, t: ValueType, value: Slice)
    requires s <= MAX_SEQUENCE && |u| + PACKED_SIZE < TWO32 && |value| < TWO32
    ensures IsEntry(EncodeEntry(u, s, t, value), Entry(InternalKey(Rank(u), s, t), value))
  {
    hide Rank, TakeSlice, LengthPrefixed, EncodeInternalKey, IsKey;
    KeyParses(u, s, t, LengthPrefixed(value), Entry(InternalKey(Rank(u), s, t), value));
    SliceRoundTrip(value, []);
    assert LengthPrefixed(value) + [] == LengthPrefixed(value);
  }

  /** Bytes are ordered as the keys they begin with. */
  lemma BeforeIsLess(a: Slice, x: Entry, b: Slice, y: Entry)
    requires IsKey(a, x) && IsKey(b, y)
    ensures Before(a, b) <==> Less(x.key, y.key)
  {
    hide Rank, TakeSlice, Encodes, Precedes;
    OrderKept(Pair(KeyOf(a), x.val), x, Pair(KeyOf(b), y.val), y);
  }

  ghost predicate StandFor(bufs: seq<Slice>, es: seq<Entry>)
  {
    |bufs| == |es| && forall i :: 0 <= i < |bufs| ==> IsEntry(bufs[i], es[i])
  }

  /** A search among the bytes ends where one among the entries does. */
  lemma SamePlace(bufs: seq<Slice>, es: seq<Entry>, buf: Slice, e: Entry)
    requires StandFor(bufs, es) && IsKey(buf, e)
    ensures SkipList.Position(Before, bufs, buf) == LowerBound(es, e.key)
  {
    hide IsKey, Before, Less, ValueIn;
    var n, m := SkipList.Position(Before, bufs, buf), LowerBound(es, e.key);
    if n < m {
      BeforeIsLess(bufs[n], es[n], buf, e);
    } else if m < n {
      BeforeIsLess(bufs[m], es[m], buf, e);
    }
  }

  lemma NoneEqual(bufs: seq<Slice>, es: seq<Entry>, buf: Slice, e: Entry)
    requires StandFor(bufs, es) && IsKey(buf, e)
    requires forall f :: f in es ==> f.key != e.key
    ensures SkipList.NoEqual(Before, bufs, buf)
  {
    hide IsKey, Before, ValueIn;
    forall p | 0 <= p < |bufs| ensures Before(bufs[p], buf) || Before(buf, bufs[p]) {
      BeforeIsLess(bufs[p], es[p], buf, e);
      BeforeIsLess(buf, e, bufs[p], es[p]);
      assert es[p].key != e.key;
    }
  }

  /** The entries with one more at its place. */
  function Placed(es: seq<Entry>, e: Entry): (r: seq<Entry>)
  {
    var n := LowerBound(es, e.key);
    es[..n] + [e] + es[n..]
  }

  lemma PlacedStand(bufs: seq<Slice>, es: seq<Entry>, buf: Slice, e: Entry)
    requires StandFor(bufs, es) && IsEntry(buf, e)
    ensures StandFor(SkipList.Inserted(Before, bufs, buf), Placed(es, e))
  {
    hide IsKey, Before, ValueIn;
    SamePlace(bufs, es, buf, e);
  }

  lemma PlacedSorted(es: seq<Entry>, e: Entry)
    requires Sorted(es) && forall f :: f in es ==> f.key != e.key
    ensures Sorted(Placed(es, e)) && Elems(Placed(es, e)) == Elems(es) + {e}
  {
    var n := LowerBound(es, e.key);
    forall p | n <= p < |es| ensures Less(e.key, es[p].key) {
      assert es[p].key != e.key;
      assert n < p ==> Less(es[n].key, es[p].key);
    }
    hide Less, LowerBound;
    var r := es[..n] + [e] + es[n..];
    forall p, q | 0 <= p < q < |r| ensures Less(r[p].key, r[q].key) {
      SkipList.SplicedAt(es, e, n, p);
      SkipList.SplicedAt(es, e, n, q);
    }
    assert es == es[..n] + es[n..];
  }

  /** What Get makes of the entry it finds: nothing, if it belongs to another user key. */
  method Parse(entry: Slice, u: Slice, ghost e: Entry) returns (r: Saved)
    requires IsEntry(entry, e)
    ensures r == if e.key.ukey != Rank(u) then NotFound else if e.key.typ.Value? then Found(e.val) else Deleted
  {
    hide Rank, Packed, EncodeInternalKey, TakeSlice;
    var key := KeyOf(entry);
    SameUserKey(Pair(key, e.val), e, u);
    ParsedType(Pair(key, e.val), e);
    r := NotFound;
    var c := CompareBytes(UserPart(Internal, key), u);
    if c == 0 {
      var typ := Packed(key) % 256;
      if typ == 1 {
        r := Found(ValueIn(entry).value);
      } else if typ == 0 {
        r := Deleted;
      }
    }
  }

  class MemTable {
    const table: SkipList.SkipList<Slice>
    ghost var entries: seq<Entry>

    ghost predicate Valid()
      reads this, table, table.head, table.nodes
    {
      table.Valid() && table.less == Before && StandFor(table.Contents(), entries) && Sorted(entries)
    }

    constructor ()
      ensures Valid() && entries == [] && fresh(table) && fresh(table.head) && table.nodes == {}
    {
      BeforeOrders();
      table := new SkipList.SkipList<Slice>(Before);
      entries := [];
    }

    /** Add, for any height that the list draws for the new node. */
    method Add(s: nat, t: ValueType, u: Slice, value: Slice, height: nat)
      requires Valid() && s <= MAX_SEQUENCE && |u| + PACKED_SIZE < TWO32 && |value| < TWO32
      requires forall f :: f in entries ==> f.key != InternalKey(Rank(u), s, t)
      requires 1 <= height <= SkipList.MAX_HEIGHT
      modifies this, table, table.head, table.nodes
      ensures Valid() && fresh(table.nodes - old(table.nodes))
      ensures Elems(entries) == old(Elems(entries)) + {Entry(InternalKey(Rank(u), s, t), value)}
    {
      hide Rank, IsEntry, EncodeEntry, StandFor, Sorted, Elems, Placed;
      var buf := EncodeEntry(u, s, t, value);
      ghost var e := Entry(InternalKey(Rank(u), s, t), value);
      EntryParses(u, s, t, value);
      assert IsKey(buf, e) by { EntryHasKey(buf, e); }
      NoneEqual(table.Contents(), entries, buf, e);
      PlacedStand(table.Contents(), entries, buf, e);
      PlacedSorted(entries, e);
      table.Insert(buf, height);
      entries := Placed(entries, e);
    }

    lemma EntryHasKey(buf: Slice, e: Entry)
      requires IsEntry(buf, e)
      ensures IsKey(buf, e)
    {
    }

    /** Get: the lookup key is the length, the user key and the snapshot, as if it were the newest value. */
    method Get(u: Slice, s: nat) returns (r: Saved)
      requires Valid() && s <= MAX_SEQUENCE && |u| + PACKED_SIZE < TWO32
      ensures r == SavedEntry(entries, Rank(u), s)
    {
      hide Rank, Before, IsEntry, IsKey, EncodeInternalKey, LengthPrefixed, Encodes, LowerBound, SkipList.Position,
          Less, Sorted;
      var target := LengthPrefixed(EncodeInternalKey(u, s, Value));
      ghost var seek := Entry(SeekKey(Rank(u), s), []);
      assert target + [] == target;
      KeyParses(u, s, Value, [], seek);
      var iter := new SkipList.Iterator<Slice>(table);
      iter.Seek(target);
      ghost var n := LowerBound(entries, seek.key);
      SamePlace(table.Contents(), entries, target, seek);
      r := NotFound;
      if iter.Valid() {
        r := Parse(iter.node.key, u, entries[n]);
      }
    }
  }
}
