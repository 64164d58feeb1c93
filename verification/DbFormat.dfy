/**
 Internal keys and their order (db/dbformat.h, db/dbformat.cc, util/comparator.cc).

 The store compares user keys only through the user comparator.  The modules built on this
 one therefore speak about the position of a user key in that order, a `real`: `Rank` places
 every byte string so that comparing positions is comparing bytewise, and distinct strings
 have distinct positions.
 */
module DbFormat {

  type Byte = b: int | 0 <= b < 256
  type Slice = seq<Byte>

  /** The position of a user key in the user comparator's order. */
  type UserKey = real

  datatype Option<+T> = None | Some(value: T)

  datatype ValueType = Deletion | Value

  /** Sequence numbers leave the low eight bits of the packed word to the type. */
  const MAX_SEQUENCE: nat := 0xff_ffff_ffff_ffff

  /** config::kNumLevels. */
  const NUM_LEVELS: nat := 7

  datatype InternalKey = InternalKey(ukey: UserKey, seqno: nat, typ: ValueType)

  datatype Entry = Entry(key: InternalKey, val: Slice)

  /** The 64-bit word stored after the user key: (seq << 8) | type. */
  function Pack(s: nat, t: ValueType): (r: nat)
  {
    s * 256 + (if t.Value? then 1 else 0)
  }

  /** Increasing user key, then decreasing sequence number, then decreasing type. */
  predicate Less(a: InternalKey, b: InternalKey)
  {
    a.ukey < b.ukey || (a.ukey == b.ukey && Pack(a.seqno, a.typ) > Pack(b.seqno, b.typ))
  }

  /** The key a reader at snapshot `s` seeks with: before every entry of `k` it may see. */
  function SeekKey(k: UserKey, s: nat): (r: InternalKey)
  {
    InternalKey(k, s, Value)
  }

  // ---------------------------------------------------------------------------
  // Byte strings

  /** Reads the digits of `k` as a fraction in base 257, each byte shifted by one. */
  function Rank(k: Slice): (r: UserKey)
    ensures 0.0 <= r < 1.0
    ensures k != [] ==> r > 0.0
  {
    if k == [] then 0.0 else ((k[0] as int + 1) as real + Rank(k[1..])) / 257.0
  }

  /** Slice::compare: the first differing byte decides, then the length. */
  method CompareBytes(a: Slice, b: Slice) returns (r: int)
    ensures r < 0 <==> Rank(a) < Rank(b)
    ensures r > 0 <==> Rank(a) > Rank(b)
    ensures r == 0 <==> a == b
  {
    var minLen := if |a| < |b| then |a| else |b|;
    var i := 0;
    while i < minLen && a[i] == b[i]
      invariant 0 <= i <= minLen
      invariant a[..i] == b[..i]
    {
      assert a[..i + 1] == a[..i] + [a[i]] && b[..i + 1] == b[..i] + [b[i]];
      i := i + 1;
    }
    RankSplit(a, b, i);
    assert a == a[..i] + a[i..] && b == b[..i] + b[i..];
    if i < minLen {
      r := a[i] as int - b[i] as int;
    } else if |a| < |b| {
      r := -1;
    } else if |a| > |b| {
      r := 1;
    } else {
      r := 0;
    }
  }

  /** A common prefix does not influence the order. */
  lemma {:induction false} RankSplit(a: Slice, b: Slice, i: nat)
    requires i <= |a| && i <= |b| && a[..i] == b[..i]
    ensures Rank(a) < Rank(b) <==> Rank(a[i..]) < Rank(b[i..])
    ensures Rank(a) == Rank(b) <==> Rank(a[i..]) == Rank(b[i..])
  {
    if i == 0 {
      assert a[i..] == a && b[i..] == b;
    } else {
      assert a[0] == a[..i][0] == b[..i][0] == b[0];
      assert a[1..][..i - 1] == a[..i][1..] == b[..i][1..] == b[1..][..i - 1];
      RankSplit(a[1..], b[1..], i - 1);
      assert a[1..][i - 1..] == a[i..] && b[1..][i - 1..] == b[i..];
    }
  }

  /** Positions identify byte strings: the abstraction loses nothing. */
  lemma {:induction false} RankInjective(a: Slice, b: Slice)
    requires Rank(a) == Rank(b)
    ensures a == b
  {
    if a != [] && b != [] {
      assert a[0] == b[0];
      RankInjective(a[1..], b[1..]);
      assert a == [a[0]] + a[1..] && b == [b[0]] + b[1..];
    }
  }
}
