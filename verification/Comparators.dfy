/**
 The order of keys as byte strings, and how index keys are shortened
 (util/comparator.cc, db/dbformat.cc).
 */
module Comparators {
  import opened DbFormat
  import opened Coding

  /** Order by user key alone, or by the user key and the packed number that follows it. */
  datatype Comparator = Bytewise | Internal

  const PACKED_SIZE: nat := 8

  predicate WellFormedKey(c: Comparator, key: Slice)
  {
    c.Internal? ==> |key| >= PACKED_SIZE
  }

  function ExtractUserKey(key: Slice): (u: Slice)
    requires |key| >= PACKED_SIZE
  {
    key[..|key| - PACKED_SIZE]
  }

  /** The packed sequence number and type at the end of an internal key. */
  function Packed(key: Slice): (n: nat)
    requires |key| >= PACKED_SIZE
  {
    FromFixed(key[|key| - PACKED_SIZE..])
  }

  function UserPart(c: Comparator, key: Slice): (u: Slice)
    requires WellFormedKey(c, key)
  {
    if c.Internal? then ExtractUserKey(key) else key
  }

  function Number(c: Comparator, key: Slice): (n: nat)
    requires WellFormedKey(c, key)
  {
    if c.Internal? then Packed(key) else 0
  }

  /** Increasing user key, then decreasing number. */
  predicate Precedes(c: Comparator, a: Slice, b: Slice)
    requires WellFormedKey(c, a) && WellFormedKey(c, b)
  {
    var ra, rb := Rank(UserPart(c, a)), Rank(UserPart(c, b));
    ra < rb || (ra == rb && Number(c, a) > Number(c, b))
  }

  /** BytewiseComparatorImpl::Compare and InternalKeyComparator::Compare. */
  method Compare(c: Comparator, a: Slice, b: Slice) returns (r: int)
    requires WellFormedKey(c, a) && WellFormedKey(c, b)
    ensures r < 0 <==> Precedes(c, a, b)
    ensures r > 0 <==> Precedes(c, b, a)
    ensures r == 0 <==> UserPart(c, a) == UserPart(c, b) && Number(c, a) == Number(c, b)
  {
    hide Rank;
    r := CompareBytes(UserPart(c, a), UserPart(c, b));
    if r == 0 && c.Internal? {
      var anum, bnum := Packed(a), Packed(b);
      if anum > bnum {
        r := -1;
      } else if anum < bnum {
        r := 1;
      }
    }
  }

  /** AppendInternalKey: the user key and the packed number, eight bytes, little endian. */
  function EncodeInternalKey(u: Slice, s: nat, t: ValueType): (key: Slice)
    requires s <= MAX_SEQUENCE
    ensures |key| == |u| + PACKED_SIZE
  {
    u + Fixed(PACKED_SIZE, Pack(s, t))
  }

  lemma PackBound(s: nat, t: ValueType)
    requires s <= MAX_SEQUENCE
    ensures Pack(s, t) < Pow2(64)
  {
    Pow2Widths();
  }

  lemma EncodedParts(u: Slice, s: nat, t: ValueType)
    requires s <= MAX_SEQUENCE
    ensures var key := EncodeInternalKey(u, s, t);
            ExtractUserKey(key) == u && Packed(key) == Pack(s, t)
  {
    PackBound(s, t);
    FixedRoundTrip(PACKED_SIZE, Pack(s, t));
    hide Fixed, FromFixed, Pow2, Pack;
    var key := EncodeInternalKey(u, s, t);
    assert key[..|u|] == u && key[|u|..] == Fixed(PACKED_SIZE, Pack(s, t));
  }

  /** Encoded keys are ordered as the parsed keys are. */
  lemma EncodedOrder(u: Slice, s: nat, t: ValueType, u': Slice, s': nat, t': ValueType)
    requires s <= MAX_SEQUENCE && s' <= MAX_SEQUENCE
    ensures Precedes(Internal, EncodeInternalKey(u, s, t), EncodeInternalKey(u', s', t'))
            <==> Less(InternalKey(Rank(u), s, t), InternalKey(Rank(u'), s', t'))
  {
    EncodedParts(u, s, t);
    EncodedParts(u', s', t');
  }

  // ---------------------------------------------------------------------------
  // Shortening

  /** The first difference decides. */
  lemma FirstDifference(a: Slice, b: Slice, i: nat)
    requires i < |a| && i < |b| && a[..i] == b[..i] && a[i] < b[i]
    ensures Rank(a) < Rank(b)
  {
    RankSplit(a, b, i);
    assert a[i..][0] == a[i] && b[i..][0] == b[i];
  }

  /** BytewiseComparatorImpl::FindShortestSeparator. */
  method ShortestSeparator(start: Slice, limit: Slice) returns (r: Slice)
    ensures |r| <= |start| && (r == start || Rank(start) < Rank(r))
    ensures r == start || Rank(r) < Rank(limit)
  {
    hide Rank;
    var minLength := if |start| < |limit| then |start| else |limit|;
    var diff := 0;
    while diff < minLength && start[diff] == limit[diff]
      invariant 0 <= diff <= minLength && start[..diff] == limit[..diff]
    {
      assert start[..diff + 1] == start[..diff] + [start[diff]] && limit[..diff + 1] == limit[..diff] + [limit[diff]];
      diff := diff + 1;
    }
    r := start;
    if diff < minLength {
      var b := start[diff];
      if b < 0xff && b as int + 1 < limit[diff] as int {
        r := start[..diff] + [b + 1];
        assert r[..diff] == start[..diff];
        FirstDifference(start, r, diff);
        FirstDifference(r, limit, diff);
      }
    }
  }

  /** BytewiseComparatorImpl::FindShortSuccessor. */
  method ShortSuccessor(key: Slice) returns (r: Slice)
    ensures |r| <= |key| && (r == key || Rank(key) < Rank(r))
  {
    hide Rank;
    for i := 0 to |key|
    {
      if key[i] != 0xff {
        r := key[..i] + [key[i] + 1];
        assert r[..i] == key[..i];
        FirstDifference(key, r, i);
        return;
      }
    }
    r := key;
  }

  const LAST_PACKED: nat := MAX_SEQUENCE * 256 + 1

  /**
   FindShortestSeparator: the result is at or after `start`, and before `limit` unless it is `start`.
   A shortened internal key has a user key that lies strictly between.
   */
  method FindShortestSeparator(c: Comparator, start: Slice, limit: Slice) returns (r: Slice)
    requires WellFormedKey(c, start) && WellFormedKey(c, limit)
    ensures WellFormedKey(c, r) && |r| <= |start|
    ensures r == start || (Precedes(c, start, r) && Precedes(c, r, limit))
    ensures r == start || Rank(UserPart(c, r)) < Rank(UserPart(c, limit))
    ensures r == start || (c.Internal? ==> Packed(r) == LAST_PACKED)
  {
    hide Rank, EncodeInternalKey, FromFixed;
    r := start;
    if c.Bytewise? {
      r := ShortestSeparator(start, limit);
    } else {
      var userStart := ExtractUserKey(start);
      var tmp := ShortestSeparator(userStart, ExtractUserKey(limit));
      var cmp := CompareBytes(userStart, tmp);
      if |tmp| < |userStart| && cmp < 0 {
        EncodedParts(tmp, MAX_SEQUENCE, Value);
        r := EncodeInternalKey(tmp, MAX_SEQUENCE, Value);
      }
    }
  }

  /** FindShortSuccessor: the result is at or after the key. */
  method FindShortSuccessor(c: Comparator, key: Slice) returns (r: Slice)
    requires WellFormedKey(c, key)
    ensures WellFormedKey(c, r) && |r| <= |key| && (r == key || Precedes(c, key, r))
  {
    hide Rank, EncodeInternalKey, FromFixed;
    r := key;
    if c.Bytewise? {
      r := ShortSuccessor(key);
    } else {
      var userKey := ExtractUserKey(key);
      var tmp := ShortSuccessor(userKey);
      var cmp := CompareBytes(userKey, tmp);
      if |tmp| < |userKey| && cmp < 0 {
        EncodedParts(tmp, MAX_SEQUENCE, Value);
        r := EncodeInternalKey(tmp, MAX_SEQUENCE, Value);
      }
    }
  }
}
