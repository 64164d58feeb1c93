/**
 A lookup in the bytes of a table file is a lookup in the file's entries
 (table/table.cc: InternalGet, db/version_set.cc: SaveValue and the lookups of Version::Get).
 */
module TableLookup {
  import opened DbFormat
  import opened Views
  import opened VersionModel
  import opened Comparators
  import opened Block
  import opened Table

  /** The pair of a table that stands for an entry: its key is the entry's key in bytes. */
  predicate Encodes(p: Pair, e: Entry)
  {
    && e.key.seqno <= MAX_SEQUENCE && Wf(p.key) && p.val == e.val
    && p.key == EncodeInternalKey(UserPart(Internal, p.key), e.key.seqno, e.key.typ)
    && Rank(UserPart(Internal, p.key)) == e.key.ukey
  }

  ghost predicate EncodesAll(ps: seq<Pair>, es: seq<Entry>)
  {
    |ps| == |es| && forall i :: 0 <= i < |ps| ==> Encodes(ps[i], es[i])
  }

  lemma EncodingEncodes(u: Slice, e: Entry)
    requires e.key.seqno <= MAX_SEQUENCE && Rank(u) == e.key.ukey
    ensures Encodes(Pair(EncodeInternalKey(u, e.key.seqno, e.key.typ), e.val), e)
  {
    hide Rank;
    EncodedParts(u, e.key.seqno, e.key.typ);
  }

  /** Pairs are ordered as the entries they stand for. */
  lemma OrderKept(p: Pair, e: Entry, q: Pair, f: Entry)
    requires Encodes(p, e) && Encodes(q, f)
    ensures Precedes(Internal, p.key, q.key) <==> Less(e.key, f.key)
  {
    hide Rank, Precedes, EncodeInternalKey;
    EncodedOrder(UserPart(Internal, p.key), e.key.seqno, e.key.typ, UserPart(Internal, q.key), f.key.seqno, f.key.typ);
  }

  /** What a table builder is given is sorted as its comparator wants it. */
  lemma EncodingsSorted(ps: seq<Pair>, es: seq<Entry>)
    requires EncodesAll(ps, es) && Sorted(es)
    ensures SortedTable(ps)
  {
    hide Rank, Precedes, EncodeInternalKey;
    forall i, j | 0 <= i < j < |ps| ensures Precedes(Internal, ps[i].key, ps[j].key) {
      OrderKept(ps[i], es[i], ps[j], es[j]);
    }
  }

  /** Seeking in the pairs and seeking in the entries ends at the same place. */
  lemma SamePosition(ps: seq<Pair>, es: seq<Entry>, u: Slice, s: nat)
    requires EncodesAll(ps, es) && s <= MAX_SEQUENCE
    ensures forall i :: 0 <= i < |ps| ==> Wf(ps[i].key)
    ensures FirstAtOrAfter(Internal, ps, EncodeInternalKey(u, s, Value)) == LowerBound(es, SeekKey(Rank(u), s))
  {
    hide Rank, Precedes, EncodeInternalKey, FirstAtOrAfter, LowerBound;
    var target, seek := Pair(EncodeInternalKey(u, s, Value), []), Entry(SeekKey(Rank(u), s), []);
    EncodingEncodes(u, seek);
    var n, m := FirstAtOrAfter(Internal, ps, target.key), LowerBound(es, seek.key);
    if n < m {
      OrderKept(ps[n], es[n], target, seek);
    } else if m < n {
      OrderKept(ps[m], es[m], target, seek);
    }
  }

  // ---------------------------------------------------------------------------
  // The saver

  datatype Saved = NotFound | Deleted | Found(value: Slice) | Corrupt

  /** SaveValue: an entry of another user key counts as nothing found. */
  method SaveValue(found: Option<Pair>, u: Slice) returns (r: Saved)
    requires found.Some? ==> Wf(found.value.key)
    ensures found.None? ==> r == NotFound
    ensures found.Some? ==>
              r == if Packed(found.value.key) % 256 > 1 then Corrupt
                   else if UserPart(Internal, found.value.key) != u then NotFound
                   else if Packed(found.value.key) % 256 == 1 then Found(found.value.val) else Deleted
  {
    hide Rank, Packed;
    r := NotFound;
    if found.Some? {
      var typ := Packed(found.value.key) % 256;
      if typ > 1 {
        return Corrupt;
      }
      var c := CompareBytes(UserPart(Internal, found.value.key), u);
      if c == 0 {
        r := if typ == 1 then Found(found.value.val) else Deleted;
      }
    }
  }

  /** What the saver makes of the entry that a seek in the file's entries ends at. */
  function SavedEntry(es: seq<Entry>, k: UserKey, s: nat): (r: Saved)
  {
    var n := LowerBound(es, SeekKey(k, s));
    if n < |es| && es[n].key.ukey == k then
      if es[n].key.typ.Value? then Found(es[n].val) else Deleted
    else NotFound
  }

  lemma ParsedType(p: Pair, e: Entry)
    requires Encodes(p, e)
    ensures Packed(p.key) % 256 == if e.key.typ.Value? then 1 else 0
  {
    hide Rank;
    EncodedParts(UserPart(Internal, p.key), e.key.seqno, e.key.typ);
  }

  lemma SameUserKey(p: Pair, e: Entry, u: Slice)
    requires Encodes(p, e)
    ensures Wf(p.key) && p.val == e.val
    ensures UserPart(Internal, p.key) == u <==> e.key.ukey == Rank(u)
  {
    if e.key.ukey == Rank(u) {
      RankInjective(UserPart(Internal, p.key), u);
    }
  }

  /**
   For every table whose pairs stand for the entries of a file: looking up a user key at a snapshot in
   the bytes, through index, filter and block, hands back what a seek in the entries finds.
   */
  method GetFromTable(file: Slice, indexContents: Slice, filter: Option<Slice>, u: Slice, s: nat, ghost index: Info,
                      ghost blocks: seq<Info>, ghost groups: seq<seq<Slice>>, ghost es: seq<Entry>) returns (r: Saved)
    requires IsTable(file, index, filter, blocks, groups) && index.contents == indexContents
    requires EncodesAll(AllPairs(blocks), es) && s <= MAX_SEQUENCE
    ensures r == SavedEntry(es, Rank(u), s)
  {
    hide Rank, Precedes, EncodeInternalKey, FirstAtOrAfter, LowerBound, IsTable, Encodes, Packed, AllPairs;
    var key := EncodeInternalKey(u, s, Value);
    var found := InternalGet(file, indexContents, filter, key, index, blocks, groups);
    ghost var all := AllPairs(blocks);
    SamePosition(all, es, u, s);
    ghost var n := LowerBound(es, SeekKey(Rank(u), s));
    if n < |es| {
      ParsedType(all[n], es[n]);
      SameUserKey(all[n], es[n], u);
      EncodedParts(u, s, Value);
    }
    r := SaveValue(found, u);
  }

  /** What the saver gets is the newest entry of the file that the snapshot may see. */
  lemma SavedIsView(es: seq<Entry>, k: UserKey, s: nat)
    requires Sorted(es) && UniqueSeq(Elems(es))
    ensures SavedEntry(es, k, s) == NotFound <==> NoneVisible(Elems(es), k, s)
    ensures forall v :: SavedEntry(es, k, s) == Found(v) <==> ValueOf(View(Elems(es), k, s)) == Some(v)
  {
    SortedSeek(es, k, s);
    var n := LowerBound(es, SeekKey(k, s));
    if n < |es| && es[n].key.ukey == k {
      ViewOfNewest(Elems(es), k, s, es[n]);
    } else {
      NothingViewed(Elems(es), k, s);
    }
  }

  lemma NothingViewed(es: set<Entry>, k: UserKey, s: nat)
    requires NoneVisible(es, k, s)
    ensures View(es, k, s) == None
  {
  }
}
