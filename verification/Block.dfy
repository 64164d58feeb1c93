/**
 Blocks: runs of prefix-compressed pairs with an array of restart points
 (table/block_builder.cc, table/block.cc).
 */
module Block {
  import opened DbFormat
  import opened Coding
  import opened Comparators

  datatype Pair = Pair(key: Slice, val: Slice)

  // ---------------------------------------------------------------------------
  // One entry

  /** shared length, rest of the key, value. */
  function EntryBytes(shared: nat, p: Pair): (s: Slice)
    requires shared <= |p.key|
    ensures |s| >= 3
  {
    Varint(shared) + Varint(|p.key| - shared) + Varint(|p.val|) + p.key[shared..] + p.val
  }

  /** The three lengths and what follows them. */
  datatype Header = Header(shared: nat, nonShared: nat, valueLength: nat, rest: Slice)

  function TakeThree(s: Slice): (r: Option<Header>)
  {
    var a := TakeVarint(s, 0, 32);
    if a.None? then None
    else
      var b := TakeVarint(a.value.1, 0, 32);
      if b.None? then None
      else
        var c := TakeVarint(b.value.1, 0, 32);
        if c.None? then None else Some(Header(a.value.0, b.value.0, c.value.0, c.value.1))
  }

  /** DecodeEntry: None for a truncated or malformed entry. */
  method DecodeEntry(s: Slice) returns (r: Option<Header>)
    ensures r == if |s| < 3 then None
                 else
                   var h := TakeThree(s);
                   if h.Some? && |h.value.rest| >= h.value.nonShared + h.value.valueLength then h else None
  {
    if |s| < 3 {
      return None;
    }
    var shared: nat, nonShared: nat, valueLength: nat, p := s[0], s[1], s[2], s;
    if shared < 128 && nonShared < 128 && valueLength < 128 {
      // Fast path: every length takes one byte.
      FastPath(s);
      p := p[3..];
    } else {
      var a := GetVarint(p, 32);
      if a.None? {
        return None;
      }
      shared, p := a.value.0, a.value.1;
      var b := GetVarint(p, 32);
      if b.None? {
        return None;
      }
      nonShared, p := b.value.0, b.value.1;
      var c := GetVarint(p, 32);
      if c.None? {
        return None;
      }
      valueLength, p := c.value.0, c.value.1;
    }
    if |p| < nonShared + valueLength {
      return None;
    }
    r := Some(Header(shared, nonShared, valueLength, p));
  }

  lemma OneByte(s: Slice)
    requires s != [] && s[0] < 128
    ensures TakeVarint(s, 0, 32) == Some((s[0] as nat, s[1..]))
  {
    VarintRoundTripOne(s[0], s[1..]);
    assert [s[0]] + s[1..] == s;
  }

  lemma VarintRoundTripOne(v: nat, rest: Slice)
    requires v < 128
    ensures TakeVarint([v] + rest, 0, 32) == Some((v, rest))
  {
    Pow2Widths();
    VarintRoundTrip(v, rest, 32);
    hide TakeVarint, Pow2;
    assert Varint(v) == [v];
  }

  lemma FastPath(s: Slice)
    requires |s| >= 3 && s[0] < 128 && s[1] < 128 && s[2] < 128
    ensures TakeThree(s) == Some(Header(s[0], s[1], s[2], s[3..]))
  {
    hide TakeVarint;
    OneByte(s);
    OneByte(s[1..]);
    assert s[1..][1..] == s[2..];
    OneByte(s[2..]);
    assert s[2..][1..] == s[3..];
  }

  lemma EntryHeader(shared: nat, p: Pair, rest: Slice)
    requires shared <= |p.key| < TWO32 && |p.val| < TWO32
    ensures TakeThree(EntryBytes(shared, p) + rest)
              == Some(Header(shared, |p.key| - shared, |p.val|, p.key[shared..] + p.val + rest))
  {
    hide TakeVarint, Varint, Pow2;
    Pow2Widths();
    var tail := p.key[shared..] + p.val + rest;
    var c, b := Varint(|p.val|) + tail, Varint(|p.key| - shared) + (Varint(|p.val|) + tail);
    assert EntryBytes(shared, p) + rest == Varint(shared) + b;
    VarintRoundTrip(shared, b, 32);
    VarintRoundTrip(|p.key| - shared, c, 32);
    VarintRoundTrip(|p.val|, tail, 32);
  }

  // ---------------------------------------------------------------------------
  // The layout of a block

  /**
   Where the entries of a block are: entry `i` takes the bytes from offsets[i] to offsets[i + 1] and
   repeats shared[i] bytes of the key before it; restart point `r` is at entry restarts[r].
   */
  datatype Layout = Layout(pairs: seq<Pair>, offsets: seq<nat>, shared: seq<nat>, restarts: seq<nat>)

  ghost predicate Shaped(l: Layout)
  {
    && |l.offsets| == |l.pairs| + 1 && |l.shared| == |l.pairs| && |l.restarts| > 0
    && l.offsets[0] == 0 && l.restarts[0] == 0
  }

  ghost predicate EntryLaidOut(data: Slice, l: Layout, i: nat)
    requires Shaped(l) && i < |l.pairs|
  {
    && l.shared[i] <= |l.pairs[i].key| < TWO32 && |l.pairs[i].val| < TWO32
    && (l.shared[i] > 0 ==> i > 0 && l.shared[i] <= |l.pairs[i - 1].key|
                            && l.pairs[i - 1].key[..l.shared[i]] == l.pairs[i].key[..l.shared[i]])
    && l.offsets[i] + |EntryBytes(l.shared[i], l.pairs[i])| == l.offsets[i + 1] <= |data|
    && data[l.offsets[i]..l.offsets[i + 1]] == EntryBytes(l.shared[i], l.pairs[i])
  }

  ghost predicate RestartsLaidOut(l: Layout)
    requires Shaped(l)
  {
    && (forall r :: 0 <= r < |l.restarts| ==> l.restarts[r] <= |l.pairs|
                                              && (l.pairs != [] ==> l.restarts[r] < |l.pairs|))
    && (forall r :: 0 <= r < |l.restarts| && l.restarts[r] < |l.pairs| ==> l.shared[l.restarts[r]] == 0)
    && (forall r, t :: 0 <= r < t < |l.restarts| ==> l.restarts[r] < l.restarts[t])
  }

  ghost predicate LaidOut(data: Slice, l: Layout)
  {
    && Shaped(l) && RestartsLaidOut(l)
    && (forall i :: 0 <= i < |l.pairs| ==> EntryLaidOut(data, l, i))
    && l.offsets[|l.pairs|] == |data|
  }

  lemma {:induction false} OffsetsIncrease(data: Slice, l: Layout, i: nat, j: nat)
    requires Shaped(l) && i <= j <= |l.pairs| && forall k :: 0 <= k < |l.pairs| ==> EntryLaidOut(data, l, k)
    ensures l.offsets[i] + 3 * (j - i) <= l.offsets[j]
  {
    if i < j {
      OffsetsIncrease(data, l, i, j - 1);
      assert EntryLaidOut(data, l, j - 1);
    }
  }

  // ---------------------------------------------------------------------------
  // Building

  class BlockBuilder {
    const restartInterval: nat
    var buffer: Slice
    var restarts: seq<nat>
    var counter: nat
    var finished: bool
    var lastKey: Slice
    ghost var layout: Layout

    ghost predicate Ok()
      reads this
    {
      && restartInterval >= 1 && counter <= restartInterval
      && LaidOut(buffer, layout)
      && RestartOffsets(layout, restarts)
      && (layout.pairs != [] ==> lastKey == layout.pairs[|layout.pairs| - 1].key)
      && (layout.pairs == [] ==> counter == 0 && lastKey == [] && |restarts| == 1)
    }

    ghost function Pairs(): (ps: seq<Pair>)
      reads this
    {
      layout.pairs
    }

    constructor (interval: nat)
      requires interval >= 1
      ensures Ok() && !finished && Pairs() == [] && CurrentSizeEstimate() == 8
    {
      restartInterval := interval;
      buffer, restarts, counter, finished, lastKey := [], [0], 0, false, [];
      layout := Layout([], [0], [], [0]);
    }

    method Reset()
      modifies this
      requires restartInterval >= 1
      ensures Ok() && !finished && Pairs() == [] && |buffer| == 0 && |restarts| == 1
    {
      buffer, restarts, counter, finished, lastKey := [], [0], 0, false, [];
      layout := Layout([], [0], [], [0]);
    }

    function CurrentSizeEstimate(): (n: nat)
      reads this
    {
      |buffer| + |restarts| * 4 + 4
    }

    /** How much of the previous key an entry may repeat. */
    method SharedLength(key: Slice) returns (shared: nat)
      ensures shared <= |key| && shared <= |lastKey| && lastKey[..shared] == key[..shared]
    {
      shared := 0;
      var minLength := if |lastKey| < |key| then |lastKey| else |key|;
      while shared < minLength && lastKey[shared] == key[shared]
        invariant shared <= minLength && lastKey[..shared] == key[..shared]
      {
        assert lastKey[..shared + 1] == lastKey[..shared] + [lastKey[shared]]
            && key[..shared + 1] == key[..shared] + [key[shared]];
        shared := shared + 1;
      }
    }

    method Add(key: Slice, val: Slice)
      requires Ok() && !finished && |key| < TWO32 && |val| < TWO32
      modifies this
      ensures Ok() && !finished && Pairs() == old(Pairs()) + [Pair(key, val)]
      ensures CurrentSizeEstimate() <= old(CurrentSizeEstimate()) + |key| + |val| + 19
    {
      hide LaidOut, EntryBytes, Varint;
      ghost var before, n, p := buffer, |layout.pairs|, Pair(key, val);
      var shared := 0;
      ghost var restarted := false;
      if counter < restartInterval {
        shared := SharedLength(key);
      } else {
        restarts := restarts + [|buffer|];
        counter := 0;
        restarted := true;
      }
      NothingShared(layout, buffer, lastKey, shared);
      var nonShared := |key| - shared;
      var lengths := AppendLengths(shared, nonShared, |val|);
      buffer := buffer + lengths;
      buffer := buffer + key[shared..];
      buffer := buffer + val;
      lastKey := lastKey[..shared] + key[shared..];
      counter := counter + 1;
      assert lastKey == key;
      assert buffer == before + EntryBytes(shared, p) by {
        EntryPieces(before, shared, p);
      }
      layout := Extended(layout, shared, p, |buffer|, restarted);
      ExtendedLaidOut(before, old(layout), shared, p, restarted);
      ExtendedRestarts(before, old(layout), old(restarts), shared, p, |buffer|, restarted);
    }

    /** Finish: the restart array and its length follow the entries. */
    method Finish() returns (contents: Slice)
      requires Ok() && !finished && |buffer| + 4 * (|restarts| + 1) < TWO32
      modifies this
      ensures finished && IsBlock(contents, old(layout)) && old(layout).pairs == old(Pairs())
      ensures |contents| == old(CurrentSizeEstimate())
    {
      hide LaidOut, Fixed;
      ghost var entries := buffer;
      for i := 0 to |restarts|
        invariant restarts == old(restarts) && layout == old(layout) && buffer == entries + RestartBytes(restarts, i)
      {
        RestartInside(entries, layout, i);
        var word := EncodeFixed32(restarts[i]);
        buffer := buffer + word;
      }
      var count := EncodeFixed32(|restarts|);
      buffer := buffer + count;
      finished := true;
      contents := buffer;
      FinishedBlock(entries, layout, restarts, contents);
    }

    method AppendLengths(shared: nat, nonShared: nat, valueLength: nat) returns (s: Slice)
      requires shared < TWO32 && nonShared < TWO32 && valueLength < TWO32
      ensures s == Varint(shared) + Varint(nonShared) + Varint(valueLength) && |s| <= 15
    {
      hide Varint;
      VarintLength(shared);
      VarintLength(nonShared);
      VarintLength(valueLength);
      var a := EncodeVarint32(shared);
      var b := EncodeVarint32(nonShared);
      var c := EncodeVarint32(valueLength);
      s := a + b + c;
    }
  }

  /** The offsets of the restart points are those of their entries. */
  ghost predicate RestartOffsets(l: Layout, restarts: seq<nat>)
  {
    |restarts| == |l.restarts| && forall r :: 0 <= r < |restarts| ==> l.restarts[r] < |l.offsets|
                                                                      && restarts[r] == l.offsets[l.restarts[r]]
  }

  lemma ExtendedRestarts(data: Slice, l: Layout, restarts: seq<nat>, shared: nat, p: Pair, end: nat, restarted: bool)
    requires LaidOut(data, l) && RestartOffsets(l, restarts)
    ensures RestartOffsets(Extended(l, shared, p, end, restarted), if restarted then restarts + [|data|] else restarts)
  {
    assert l.offsets[|l.pairs|] == |data|;
  }

  function RestartBytes(restarts: seq<nat>, n: nat): (s: Slice)
    requires n <= |restarts|
    ensures |s| == 4 * n
  {
    if n == 0 then [] else RestartBytes(restarts, n - 1) + Fixed(4, restarts[n - 1])
  }

  lemma RestartInside(data: Slice, l: Layout, r: nat)
    requires LaidOut(data, l) && r < |l.restarts|
    ensures l.restarts[r] <= |l.pairs| && |l.offsets| == |l.pairs| + 1 && l.offsets[l.restarts[r]] <= |data|
  {
    hide EntryLaidOut;
    OffsetsIncrease(data, l, l.restarts[r], |l.pairs|);
  }

  function Word(data: Slice, i: nat): (v: nat)
    requires i + 4 <= |data|
    ensures v < TWO32
  {
    DecodeFixed32(data[i..i + 4])
  }

  /** Where the entries of a finished block end. */
  function EntriesEnd(data: Slice, l: Layout): (n: int)
  {
    |data| - 4 * (|l.restarts| + 1)
  }

  /** A finished block: entries, restart array, number of restart points. */
  ghost predicate IsBlock(data: Slice, l: Layout)
  {
    var end := EntriesEnd(data, l);
    && 0 <= end && |data| < TWO32
    && LaidOut(data[..end], l)
    && (forall r :: 0 <= r < |l.restarts| ==> l.restarts[r] <= |l.pairs|
                                              && Word(data, end + 4 * r) == l.offsets[l.restarts[r]])
    && Word(data, |data| - 4) == |l.restarts|
  }

  lemma {:induction false} RestartWord(restarts: seq<nat>, n: nat, r: nat)
    requires r < n <= |restarts|
    ensures RestartBytes(restarts, n)[4 * r..4 * r + 4] == Fixed(4, restarts[r])
  {
    if r < n - 1 {
      RestartWord(restarts, n - 1, r);
    }
  }

  /** Each restart point can be read back from the end of the block. */
  lemma FinishedRestart(entries: Slice, l: Layout, restarts: seq<nat>, r: nat)
    requires LaidOut(entries, l) && RestartOffsets(l, restarts) && |entries| + 4 * (|restarts| + 1) < TWO32
    requires r < |restarts|
    ensures |RestartBytes(restarts, |restarts|)| == 4 * |restarts| && l.restarts[r] <= |l.pairs|
    ensures Word(entries + RestartBytes(restarts, |restarts|) + Fixed(4, |restarts|), |entries| + 4 * r)
            == l.offsets[l.restarts[r]]
  {
    hide Fixed, DecodeFixed32, LaidOut, RestartBytes;
    RestartWord(restarts, |restarts|, r);
    RestartInside(entries, l, r);
    WordInside(entries, RestartBytes(restarts, |restarts|), Fixed(4, |restarts|), r);
    Fixed32RoundTrip(restarts[r]);
  }

  lemma FinishedBlock(entries: Slice, l: Layout, restarts: seq<nat>, data: Slice)
    requires LaidOut(entries, l) && RestartOffsets(l, restarts) && |entries| + 4 * (|restarts| + 1) < TWO32
    requires data == entries + RestartBytes(restarts, |restarts|) + Fixed(4, |restarts|)
    ensures IsBlock(data, l)
  {
    hide Fixed, DecodeFixed32, LaidOut, RestartBytes, Word;
    var end, n := |entries|, |restarts|;
    assert data[..end] == entries;
    forall r | 0 <= r < n ensures l.restarts[r] <= |l.pairs| && Word(data, end + 4 * r) == l.offsets[l.restarts[r]] {
      FinishedRestart(entries, l, restarts, r);
    }
    LastWord(entries + RestartBytes(restarts, n), n);
  }

  lemma LastWord(s: Slice, n: nat)
    requires n < TWO32
    ensures Word(s + Fixed(4, n), |s|) == n
  {
    hide Fixed, DecodeFixed32;
    Fixed32RoundTrip(n);
    assert (s + Fixed(4, n))[|s|..|s| + 4] == Fixed(4, n);
  }

  lemma NothingShared(l: Layout, data: Slice, lastKey: Slice, shared: nat)
    requires l.pairs == [] ==> lastKey == []
    requires shared <= |lastKey|
    ensures l.pairs == [] ==> shared == 0
  {
  }

  lemma EntryPieces(before: Slice, shared: nat, p: Pair)
    requires shared <= |p.key|
    ensures before + (Varint(shared) + Varint(|p.key| - shared) + Varint(|p.val|)) + p.key[shared..] + p.val
              == before + EntryBytes(shared, p)
  {
    hide Varint;
    var a, b := Varint(shared) + Varint(|p.key| - shared) + Varint(|p.val|), p.key[shared..];
    assert before + a + b + p.val == before + (a + b + p.val);
  }

  /** One more entry at the end, as a new restart point or not. */
  ghost function Extended(l: Layout, shared: nat, p: Pair, end: nat, restarted: bool): (l': Layout)
  {
    Layout(l.pairs + [p], l.offsets + [end], l.shared + [shared], if restarted then l.restarts + [|l.pairs|]
           else l.restarts)
  }

  lemma ExtendedLaidOut(data: Slice, l: Layout, shared: nat, p: Pair, restarted: bool)
    requires LaidOut(data, l) && shared <= |p.key| < TWO32 && |p.val| < TWO32
    requires shared > 0 ==> l.pairs != [] && shared <= |l.pairs[|l.pairs| - 1].key|
                            && l.pairs[|l.pairs| - 1].key[..shared] == p.key[..shared]
    requires restarted ==> shared == 0 && l.pairs != []
    requires l.pairs == [] ==> |l.restarts| == 1
    ensures LaidOut(data + EntryBytes(shared, p), Extended(l, shared, p, |data| + |EntryBytes(shared, p)|, restarted))
  {
    hide EntryBytes, EntryLaidOut;
    var data' := data + EntryBytes(shared, p);
    var l' := Extended(l, shared, p, |data'|, restarted);
    forall i | 0 <= i <= |l.pairs| ensures EntryLaidOut(data', l', i) {
      if i < |l.pairs| {
        EntryStays(data, l, EntryBytes(shared, p), l', i);
      } else {
        EntryAdded(data, l, shared, p, restarted);
      }
    }
  }

  lemma EntryStays(data: Slice, l: Layout, more: Slice, l': Layout, i: nat)
    requires LaidOut(data, l) && i < |l.pairs| && Shaped(l')
    requires l.pairs <= l'.pairs && l.offsets <= l'.offsets && l.shared <= l'.shared
    ensures EntryLaidOut(data + more, l', i)
  {
    hide EntryBytes, RestartsLaidOut;
    OffsetsIncrease(data, l, i + 1, |l.pairs|);
    assert EntryLaidOut(data, l, i);
    assert l'.pairs[i] == l.pairs[i] && l'.offsets[i] == l.offsets[i] && l'.offsets[i + 1] == l.offsets[i + 1]
        && l'.shared[i] == l.shared[i];
    assert i > 0 ==> l'.pairs[i - 1] == l.pairs[i - 1];
    assert (data + more)[l.offsets[i]..l.offsets[i + 1]] == data[l.offsets[i]..l.offsets[i + 1]];
  }

  lemma EntryAdded(data: Slice, l: Layout, shared: nat, p: Pair, restarted: bool)
    requires LaidOut(data, l) && shared <= |p.key| < TWO32 && |p.val| < TWO32
    requires shared > 0 ==> l.pairs != [] && shared <= |l.pairs[|l.pairs| - 1].key|
                            && l.pairs[|l.pairs| - 1].key[..shared] == p.key[..shared]
    ensures EntryLaidOut(data + EntryBytes(shared, p),
                         Extended(l, shared, p, |data| + |EntryBytes(shared, p)|, restarted), |l.pairs|)
  {
    hide EntryBytes, RestartsLaidOut;
    assert (data + EntryBytes(shared, p))[|data|..|data| + |EntryBytes(shared, p)|] == EntryBytes(shared, p);
  }

  // ---------------------------------------------------------------------------
  // Reading

  /** Block::Block and NewIterator: where the entries end and how many restart points there are. */
  method Open(data: Slice) returns (r: Option<(nat, nat)>)
    ensures forall l :: IsBlock(data, l) ==> r == Some((EntriesEnd(data, l) as nat, |l.restarts|))
    ensures |data| < 4 ==> r.None?
  {
    hide LaidOut, DecodeFixed32;
    if |data| < 4 {
      return None;
    }
    var count := Word(data, |data| - 4);
    var maxRestarts := (|data| - 4) / 4;
    if count > maxRestarts {
      return None;
    }
    r := Some((|data| - (1 + count) * 4, count));
  }

  ghost predicate SortedPairs(c: Comparator, ps: seq<Pair>)
  {
    && (forall i :: 0 <= i < |ps| ==> WellFormedKey(c, ps[i].key))
    && (forall i, j :: 0 <= i < j < |ps| ==> Precedes(c, ps[i].key, ps[j].key))
  }

  /** Index of the first pair at or after the target. */
  ghost function FirstAtOrAfter(c: Comparator, ps: seq<Pair>, target: Slice): (n: nat)
    requires WellFormedKey(c, target) && forall i :: 0 <= i < |ps| ==> WellFormedKey(c, ps[i].key)
    ensures n <= |ps|
    ensures forall j :: 0 <= j < n ==> Precedes(c, ps[j].key, target)
    ensures n < |ps| ==> !Precedes(c, ps[n].key, target)
  {
    if ps == [] || !Precedes(c, ps[0].key, target) then 0
    else
      var n := FirstAtOrAfter(c, ps[1..], target);
      assert forall j :: 0 < j < |ps| ==> ps[j] == ps[1..][j - 1];
      1 + n
  }

  class Iter {
    const cmp: Comparator
    const data: Slice
    const restarts: nat
    const numRestarts: nat
    var current: nat
    var restartIndex: nat
    var key: Slice
    var valueStart: nat
    var valueEnd: nat
    ghost const layout: Layout
    ghost var at: nat

    ghost predicate Sound()
      reads this
    {
      && IsBlock(data, layout) && restarts == EntriesEnd(data, layout) && numRestarts == |layout.restarts|
      && at <= |layout.pairs|
    }

    /** At an entry: its offset, key, value, and the last restart point before it or at it. */
    ghost predicate Ok()
      reads this
    {
      && Sound()
      && (at == |layout.pairs| ==> current == restarts)
      && (at < |layout.pairs| ==>
            && current == layout.offsets[at] && key == layout.pairs[at].key
            && valueStart <= valueEnd <= |data| && data[valueStart..valueEnd] == layout.pairs[at].val
            && valueEnd == layout.offsets[at + 1]
            && restartIndex < numRestarts && layout.restarts[restartIndex] <= at)
    }

    /** About to decode entry `k`: the key buffer holds what the entry repeats. */
    ghost predicate Ready(k: nat)
      reads this
    {
      && Sound() && k <= |layout.pairs| && valueEnd == layout.offsets[k]
      && restartIndex < numRestarts && layout.restarts[restartIndex] <= k
      && (k < |layout.pairs| ==> layout.shared[k] <= |key| && layout.shared[k] <= |layout.pairs[k].key|
                                 && key[..layout.shared[k]] == layout.pairs[k].key[..layout.shared[k]])
    }

    predicate Valid()
      reads this
    {
      current < restarts
    }

    constructor (c: Comparator, contents: Slice, offset: nat, count: nat, ghost l: Layout)
      requires IsBlock(contents, l) && offset == EntriesEnd(contents, l) && count == |l.restarts|
      ensures Ok() && !Valid() && cmp == c && data == contents && layout == l && at == |l.pairs|
    {
      cmp, data, restarts, numRestarts, layout := c, contents, offset, count, l;
      current, restartIndex, key, valueStart, valueEnd := offset, count, [], 0, 0;
      at := |l.pairs|;
    }

    lemma ValidIsAt()
      requires Ok()
      ensures Valid() <==> at < |layout.pairs|
    {
      if at < |layout.pairs| {
        OffsetsIncrease(data[..restarts], layout, at, |layout.pairs|);
      }
    }

    method GetRestartPoint(index: nat) returns (offset: nat)
      requires Sound() && index < numRestarts
      ensures layout.restarts[index] <= |layout.pairs| && offset == layout.offsets[layout.restarts[index]]
    {
      hide LaidOut, DecodeFixed32;
      offset := Word(data, restarts + index * 4);
    }

    method SeekToRestartPoint(index: nat)
      requires Sound() && index < numRestarts
      modifies this
      ensures Ready(layout.restarts[index]) && at == old(at) && restartIndex == index
    {
      hide EntryLaidOut, DecodeFixed32;
      key := [];
      restartIndex := index;
      var offset := GetRestartPoint(index);
      valueStart, valueEnd := offset, offset;
    }

    /** Move to entry `k`, which starts where the last value ended. */
    method ParseNextKey(ghost k: nat) returns (more: bool)
      requires Ready(k)
      modifies this
      ensures Ok() && at == k && (more <==> k < |layout.pairs|)
    {
      hide DecodeFixed32, EntryBytes, TakeThree, EntryLaidOut, RestartsLaidOut;
      current := valueEnd;
      at := k;
      OffsetOrder(data[..restarts], layout, k, |layout.pairs|);
      if current >= restarts {
        current := restarts;
        restartIndex := numRestarts;
        return false;
      }
      var h := DecodeEntry(data[current..restarts]);
      assert data[..restarts][current..] == data[current..restarts];
      EntryDecoded(data[..restarts], layout, k);
      EntryValue(data, restarts, layout, k);
      KeyRebuilt(key, layout.pairs[k].key, layout.shared[k]);
      key := key[..h.value.shared] + h.value.rest[..h.value.nonShared];
      valueStart := restarts - |h.value.rest| + h.value.nonShared;
      valueEnd := valueStart + h.value.valueLength;
      AdvanceRestart();
      more := true;
    }

    /** Restart points before the current entry are left behind. */
    method AdvanceRestart()
      requires Ok() && at < |layout.pairs|
      modifies this`restartIndex
      ensures Ok()
    {
      hide DecodeFixed32, LaidOut;
      while restartIndex + 1 < numRestarts
        invariant Ok()
        decreases numRestarts - restartIndex
      {
        var next := GetRestartPoint(restartIndex + 1);
        if next >= current {
          break;
        }
        OffsetOrder(data[..restarts], layout, layout.restarts[restartIndex + 1], at);
        restartIndex := restartIndex + 1;
      }
    }
  
    lemma Basics()
      requires Sound()
      ensures numRestarts > 0 && layout.restarts[0] == 0 && restarts <= |data|
      ensures |layout.offsets| == |layout.pairs| + 1 && layout.offsets[|layout.pairs|] == restarts
      ensures forall r :: 0 <= r < numRestarts ==> layout.restarts[r] <= |layout.pairs|
                                                   && (layout.pairs != [] ==> layout.restarts[r] < |layout.pairs|)
    {
      hide DecodeFixed32, EntryLaidOut;
    }

    method Key() returns (k: Slice)
      requires Ok() && Valid()
      ensures at < |layout.pairs| && k == layout.pairs[at].key
    {
      ValidIsAt();
      k := key;
    }

    method Val() returns (v: Slice)
      requires Ok() && Valid()
      ensures at < |layout.pairs| && v == layout.pairs[at].val
    {
      ValidIsAt();
      v := data[valueStart..valueEnd];
    }

    method SeekToFirst()
      requires Ok()
      modifies this
      ensures Ok() && at == 0
    {
      hide LaidOut, DecodeFixed32;
      Basics();
      SeekToRestartPoint(0);
      var _ := ParseNextKey(0);
    }

    method Next()
      requires Ok() && Valid()
      modifies this
      ensures Ok() && at == old(at) + 1
    {
      ReadyForNext();
      var _ := ParseNextKey(at + 1);
    }

    /** The key of an entry starts like the one after it. */
    lemma ReadyForNext()
      requires Ok() && Valid()
      ensures at < |layout.pairs| && Ready(at + 1)
    {
      ValidIsAt();
      hide DecodeFixed32, RestartsLaidOut;
      assert at + 1 < |layout.pairs| ==> EntryLaidOut(data[..restarts], layout, at + 1);
    }

    method SeekToLast()
      requires Ok()
      modifies this
      ensures Ok() && at == if |layout.pairs| == 0 then 0 else |layout.pairs| - 1
    {
      hide LaidOut, DecodeFixed32, EntryLaidOut;
      ghost var n := |layout.pairs|;
      Basics();
      SeekToRestartPoint(numRestarts - 1);
      ghost var k := layout.restarts[numRestarts - 1];
      var more := ParseNextKey(k);
      while more && valueEnd < restarts
        invariant Ok() && at == k <= n && (more <==> k < n) && (n > 0 ==> k < n)
        decreases n - k
      {
        Basics();
        ValidIsAt();
        ReadyForNext();
        OffsetOrder(data[..restarts], layout, k + 1, n);
        k := k + 1;
        more := ParseNextKey(k);
      }
      Basics();
      if more {
        OffsetOrder(data[..restarts], layout, at + 1, n);
      }
    }

    method Prev()
      requires Ok() && Valid()
      modifies this
      ensures Ok() && at == if old(at) == 0 then |layout.pairs| else old(at) - 1
    {
      ValidIsAt();
      hide LaidOut, DecodeFixed32, EntryLaidOut;
      var original := current;
      ghost var p := at;
      // Scan backwards to a restart point before the current entry.
      while true
        invariant Ok() && at == p < |layout.pairs| && current == original
        decreases restartIndex
      {
        var offset := GetRestartPoint(restartIndex);
        OffsetOrder(data[..restarts], layout, layout.restarts[restartIndex], p);
        if offset < original {
          break;
        }
        if restartIndex == 0 {
          current := restarts;
          restartIndex := numRestarts;
          at := |layout.pairs|;
          FirstRestart(data[..restarts], layout);
          return;
        }
        RestartBefore(data[..restarts], layout, restartIndex);
        restartIndex := restartIndex - 1;
      }
      SeekToRestartPoint(restartIndex);
      ScanTo(original, layout.restarts[restartIndex], p);
    }

    /** Decode entries until one ends where entry `p` starts. */
    method ScanTo(original: nat, ghost from: nat, ghost p: nat)
      requires Ready(from) && from < p < |layout.pairs| && original == layout.offsets[p]
      modifies this
      ensures Ok() && at == p - 1
    {
      hide LaidOut, DecodeFixed32, EntryLaidOut;
      ghost var k := from;
      var more := ParseNextKey(k);
      while more && valueEnd < original
        invariant Ok() && at == k < p && more
        decreases p - k
      {
        OffsetOrder(data[..restarts], layout, k + 1, p);
        ValidIsAt();
        ReadyForNext();
        k := k + 1;
        more := ParseNextKey(k);
      }
      OffsetOrder(data[..restarts], layout, k + 1, p);
    }

    method Seek(target: Slice)
      requires Ok() && SortedPairs(cmp, layout.pairs) && WellFormedKey(cmp, target)
      modifies this
      ensures Ok() && at == FirstAtOrAfter(cmp, layout.pairs, target)
    {
      hide LaidOut, DecodeFixed32, EntryLaidOut, Precedes, TakeThree;
      Basics();
      var left: nat, right: nat := 0, numRestarts - 1;
      while left < right
        invariant Ok() && left <= right < numRestarts
        invariant left > 0 ==> layout.restarts[left] < |layout.pairs|
                               && Precedes(cmp, layout.pairs[layout.restarts[left]].key, target)
      {
        var mid := (left + right + 1) / 2;
        var midKey := RestartKey(mid);
        var r := Compare(cmp, midKey, target);
        if r < 0 {
          left := mid;
        } else {
          right := mid - 1;
        }
      }
      Basics();
      SeekToRestartPoint(left);
      ScanFrom(target, layout.restarts[left]);
    }

    /** The key of the entry at a restart point, which is stored whole. */
    method RestartKey(index: nat) returns (k: Slice)
      requires Ok() && 0 < index < numRestarts
      ensures layout.restarts[index] < |layout.pairs| && k == layout.pairs[layout.restarts[index]].key
    {
      hide DecodeFixed32, EntryLaidOut, TakeThree;
      var offset := GetRestartPoint(index);
      ghost var k0 := layout.restarts[index];
      LaterRestart(data[..restarts], layout, index);
      EntryDecoded(data[..restarts], layout, k0);
      assert data[..restarts][offset..] == data[offset..restarts];
      var h := DecodeEntry(data[offset..restarts]);
      k := h.value.rest[..h.value.nonShared];
    }

    /** Linear search for the first key at or after the target. */
    method ScanFrom(target: Slice, ghost from: nat)
      requires Ready(from) && SortedPairs(cmp, layout.pairs) && WellFormedKey(cmp, target)
      requires layout.pairs != [] ==> from < |layout.pairs|
      requires from > 0 && from < |layout.pairs| ==> Precedes(cmp, layout.pairs[from].key, target)
      modifies this
      ensures Ok() && at == FirstAtOrAfter(cmp, layout.pairs, target)
    {
      hide LaidOut, DecodeFixed32, EntryLaidOut, Precedes;
      Basics();
      ghost var k := from;
      ghost var n := FirstAtOrAfter(cmp, layout.pairs, target);
      BeforeFirst(cmp, layout.pairs, target, from);
      while true
        invariant Ready(k) && k <= n
        decreases |layout.pairs| - k
      {
        var more := ParseNextKey(k);
        if !more {
          return;
        }
        var r := Compare(cmp, key, target);
        if r >= 0 {
          return;
        }
        AtOrBefore(cmp, layout.pairs, target, k);
        ValidIsAt();
        ReadyForNext();
        k := k + 1;
      }
    }
  }

  lemma FirstRestart(data: Slice, l: Layout)
    requires LaidOut(data, l)
    ensures l.restarts[0] == 0
  {
  }

  lemma RestartBefore(data: Slice, l: Layout, r: nat)
    requires LaidOut(data, l) && r < |l.restarts|
    ensures r > 0 ==> l.restarts[r - 1] < l.restarts[r]
    ensures l.restarts[r] <= |l.pairs| && (l.pairs != [] ==> l.restarts[r] < |l.pairs|)
  {
  }

  lemma LaterRestart(data: Slice, l: Layout, r: nat)
    requires LaidOut(data, l) && 0 < r < |l.restarts|
    ensures l.restarts[r] < |l.pairs| && l.shared[l.restarts[r]] == 0
  {
    assert l.restarts[0] < l.restarts[r];
  }

  lemma Precede3(c: Comparator, a: Slice, b: Slice, t: Slice)
    requires WellFormedKey(c, a) && WellFormedKey(c, b) && WellFormedKey(c, t)
    requires Precedes(c, a, b) && Precedes(c, b, t)
    ensures Precedes(c, a, t)
  {
  }

  lemma AtOrBefore(c: Comparator, ps: seq<Pair>, target: Slice, k: nat)
    requires SortedPairs(c, ps) && WellFormedKey(c, target) && k < |ps| && Precedes(c, ps[k].key, target)
    ensures k < FirstAtOrAfter(c, ps, target)
  {
    hide Precedes;
    var n := FirstAtOrAfter(c, ps, target);
    if n < k {
      Precede3(c, ps[n].key, ps[k].key, target);
    }
  }

  lemma BeforeFirst(c: Comparator, ps: seq<Pair>, target: Slice, from: nat)
    requires SortedPairs(c, ps) && WellFormedKey(c, target)
    requires from > 0 && from < |ps| ==> Precedes(c, ps[from].key, target)
    requires from <= |ps| && (ps != [] ==> from < |ps|)
    ensures from <= FirstAtOrAfter(c, ps, target)
  {
    if 0 < from < |ps| {
      AtOrBefore(c, ps, target, from);
    }
  }

  lemma KeyRebuilt(buffer: Slice, key: Slice, shared: nat)
    requires shared <= |buffer| && shared <= |key| && buffer[..shared] == key[..shared]
    ensures buffer[..shared] + key[shared..] == key
  {
  }

  lemma OffsetOrder(data: Slice, l: Layout, i: nat, j: nat)
    requires LaidOut(data, l) && i <= |l.pairs| && j <= |l.pairs|
    ensures l.offsets[i] < l.offsets[j] <==> i < j
  {
    if i <= j {
      OffsetsIncrease(data, l, i, j);
    } else {
      OffsetsIncrease(data, l, j, i);
    }
  }

  /** The value is what the entry ends with. */
  lemma EntryValue(data: Slice, end: nat, l: Layout, k: nat)
    requires end <= |data| && LaidOut(data[..end], l) && k < |l.pairs|
    ensures |l.pairs[k].val| <= l.offsets[k + 1] <= end
    ensures data[l.offsets[k + 1] - |l.pairs[k].val|..l.offsets[k + 1]] == l.pairs[k].val
  {
    assert EntryLaidOut(data[..end], l, k);
    var p, n, a, b := l.pairs[k], l.shared[k], l.offsets[k], l.offsets[k + 1];
    var bytes := EntryBytes(n, p);
    assert bytes[|bytes| - |p.val|..] == p.val;
    hide EntryBytes, LaidOut, EntryLaidOut;
    assert data[..end][a..b] == data[a..b];
    assert data[a..b][|bytes| - |p.val|..] == data[b - |p.val|..b];
  }

  /** What DecodeEntry finds at entry `k`. */
  lemma EntryDecoded(data: Slice, l: Layout, k: nat)
    requires LaidOut(data, l) && k < |l.pairs|
    ensures l.offsets[k] + 3 <= l.offsets[k + 1] <= |data|
    ensures var p, n := l.pairs[k], l.shared[k];
            n <= |p.key| && TakeThree(data[l.offsets[k]..])
              == Some(Header(n, |p.key| - n, |p.val|, p.key[n..] + p.val + data[l.offsets[k + 1]..]))
  {
    hide TakeThree, EntryBytes;
    assert EntryLaidOut(data, l, k);
    var p, n, rest := l.pairs[k], l.shared[k], data[l.offsets[k + 1]..];
    EntryHeader(n, p, rest);
    assert data[l.offsets[k]..] == data[l.offsets[k]..l.offsets[k + 1]] + rest;
  }

  // ---------------------------------------------------------------------------
  // Round trip

  /** The pairs, at most three lengths and a restart offset for each, and an empty block. */
  function SizeBound(pairs: seq<Pair>): (n: nat)
  {
    if pairs == [] then 8
    else SizeBound(pairs[..|pairs| - 1]) + |pairs[|pairs| - 1].key| + |pairs[|pairs| - 1].val| + 19
  }

  lemma SizeOfNone()
    ensures SizeBound([]) == 8
  {
  }

  lemma SizeOfMore(ps: seq<Pair>, p: Pair)
    ensures SizeBound(ps + [p]) == SizeBound(ps) + |p.key| + |p.val| + 19
  {
    assert (ps + [p])[..|ps|] == ps;
  }

  /** Build a block of the pairs, if they fit into one. */
  method Build(pairs: seq<Pair>, interval: nat) returns (contents: Option<Slice>, ghost l: Layout)
    requires interval >= 1 && forall p :: p in pairs ==> |p.key| < TWO32 && |p.val| < TWO32
    ensures contents.Some? ==> IsBlock(contents.value, l) && l.pairs == pairs && |contents.value| <= SizeBound(pairs)
    ensures SizeBound(pairs) < TWO32 ==> contents.Some?
  {
    hide LaidOut, DecodeFixed32, RestartOffsets, SizeBound, IsBlock;
    var b := new BlockBuilder(interval);
    SizeOfNone();
    for i := 0 to |pairs|
      invariant fresh(b) && b.Ok() && !b.finished && b.Pairs() == pairs[..i]
      invariant b.CurrentSizeEstimate() <= SizeBound(pairs[..i])
    {
      assert pairs[i] in pairs;
      b.Add(pairs[i].key, pairs[i].val);
      assert pairs[..i + 1] == pairs[..i] + [pairs[i]];
      SizeOfMore(pairs[..i], pairs[i]);
    }
    assert pairs[..|pairs|] == pairs;
    l := b.layout;
    contents := None;
    if |b.buffer| + 4 * (|b.restarts| + 1) < TWO32 {
      var c := b.Finish();
      contents := Some(c);
    }
  }

  /** Scanning a built block from end to end yields exactly the pairs that were added, for every restart interval. */
  method BuildAndScan(pairs: seq<Pair>, interval: nat) returns (seen: Option<seq<Pair>>)
    requires interval >= 1 && forall p :: p in pairs ==> |p.key| < TWO32 && |p.val| < TWO32
    ensures seen.Some? ==> seen.value == pairs
    ensures SizeBound(pairs) < TWO32 ==> seen.Some?
  {
    hide IsBlock, LaidOut, DecodeFixed32, SizeBound;
    var contents, l := Build(pairs, interval);
    if contents.None? {
      return None;
    }
    var o := Open(contents.value);
    assert IsBlock(contents.value, l);
    var it := new Iter(Bytewise, contents.value, o.value.0, o.value.1, l);
    it.SeekToFirst();
    it.ValidIsAt();
    var out: seq<Pair> := [];
    while it.Valid()
      invariant fresh(it) && it.Ok() && it.layout == l && it.at == |out| <= |pairs| && out == pairs[..|out|]
      invariant it.Valid() <==> it.at < |pairs|
      decreases |pairs| - it.at
    {
      var k := it.Key();
      var v := it.Val();
      assert pairs[..|out| + 1] == pairs[..|out|] + [pairs[|out|]];
      out := out + [Pair(k, v)];
      it.Next();
      it.ValidIsAt();
    }
    seen := Some(out);
  }
}
