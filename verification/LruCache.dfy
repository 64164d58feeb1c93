/**
 One shard of the block cache (util/cache.cc: LRUCache).  What an operation does to the shard is a
 function on its state; the class is proved to compute it, and every run to keep the shard in order.
 */
module LruCache {
  import opened DbFormat
  import Table = HandleTable

  // ---------------------------------------------------------------------------
  // State

  /** An entry: `refs` counts the clients' handles, and the cache's own reference while it is in the cache. */
  datatype Handle = Handle(key: Slice, value: nat, charge: nat, inCache: bool, refs: nat)

  /**
   The shard: allocated entries, the entries nobody uses from the oldest to the newest, the entries in
   use, the sum of the charges, what a lookup finds, and the entries whose deleter has run.
   */
  datatype State = State(
    capacity: nat,
    handles: map<nat, Handle>,
    lru: seq<nat>,
    inUse: seq<nat>,
    usage: nat,
    contents: map<Slice, nat>,
    next: nat,
    deleted: seq<nat>
  )

  /** LRU_Remove, for the list that the entry is in. */
  function Drop(list: seq<nat>, e: nat): (r: seq<nat>)
  {
    if list == [] then [] else if list[0] == e then list[1..] else [list[0]] + Drop(list[1..], e)
  }

  function Unlinked(s: State, e: nat): (s': State)
  {
    s.(lru := Drop(s.lru, e), inUse := Drop(s.inUse, e))
  }

  function Refs(s: State, e: nat, n: nat): (s': State)
    requires e in s.handles
  {
    s.(handles := s.handles[e := s.handles[e].(refs := n)])
  }

  /** Ref: an entry that was in nobody's use moves to the list of those in use. */
  function Ref(s: State, e: nat): (s': State)
    requires e in s.handles
  {
    var h := s.handles[e];
    var s1 := if h.refs == 1 && h.inCache then Unlinked(s, e).(inUse := Drop(s.inUse, e) + [e]) else s;
    Refs(s1, e, h.refs + 1)
  }

  /** Unref: without references the deleter runs; with the cache's alone the entry is the newest one not in use. */
  function Unref(s: State, e: nat): (s': State)
    requires e in s.handles && s.handles[e].refs > 0
  {
    var h := s.handles[e];
    if h.refs == 1 then s.(handles := s.handles - {e}, deleted := s.deleted + [e])
    else
      var s1 := if h.inCache && h.refs == 2 then Unlinked(s, e).(lru := Drop(s.lru, e) + [e]) else s;
      Refs(s1, e, h.refs - 1)
  }

  /** FinishErase, for an entry that the table no longer has. */
  function FinishErase(s: State, e: nat): (s': State)
    requires e in s.handles && s.handles[e].refs > 0 && s.handles[e].charge <= s.usage
  {
    var h := s.handles[e];
    Unref(Unlinked(s, e).(handles := s.handles[e := h.(inCache := false)], usage := s.usage - h.charge), e)
  }

  // ---------------------------------------------------------------------------
  // What holds between operations

  predicate NoRepeats(list: seq<nat>)
  {
    forall i, j :: 0 <= i < j < |list| ==> list[i] != list[j]
  }

  function Sum(handles: map<nat, Handle>, list: seq<nat>): (n: nat)
  {
    if list == [] then 0 else (if list[0] in handles then handles[list[0]].charge else 0) + Sum(handles, list[1..])
  }

  ghost predicate Cached(s: State, e: nat)
  {
    e in s.handles && s.handles[e].inCache
  }

  /** In the cache with no reference but the cache's: on one list; with more: on the other. */
  ghost predicate Lists(s: State)
  {
    && NoRepeats(s.lru) && NoRepeats(s.inUse)
    && (forall e :: e in s.lru <==> Cached(s, e) && s.handles[e].refs == 1)
    && (forall e :: e in s.inUse <==> Cached(s, e) && s.handles[e].refs >= 2)
    && s.usage == Sum(s.handles, s.lru) + Sum(s.handles, s.inUse)
  }

  /** The table finds exactly the entries in the cache, but for one that has been taken out of the table. */
  ghost predicate Found(s: State, gone: Option<nat>)
  {
    && (forall key :: key in s.contents ==>
          Cached(s, s.contents[key]) && s.handles[s.contents[key]].key == key && gone != Some(s.contents[key]))
    && (forall e :: Cached(s, e) && gone != Some(e) ==> s.handles[e].key in s.contents
                                                        && s.contents[s.handles[e].key] == e)
  }

  /** Every entry ever made is allocated, or its deleter has run once. */
  ghost predicate Deleted(s: State)
  {
    && (forall e :: e in s.handles ==> e < s.next && s.handles[e].refs > 0)
    && NoRepeats(s.deleted)
    && (forall e: nat :: e in s.deleted <==> e < s.next && e !in s.handles)
  }

  ghost predicate InvBut(s: State, gone: Option<nat>)
  {
    Lists(s) && Found(s, gone) && Deleted(s)
  }

  ghost predicate Inv(s: State)
  {
    InvBut(s, None)
  }

  lemma {:induction false} Dropped(handles: map<nat, Handle>, list: seq<nat>, e: nat)
    requires NoRepeats(list)
    ensures NoRepeats(Drop(list, e)) && forall x :: x in Drop(list, e) <==> x in list && x != e
    ensures Sum(handles, Drop(list, e)) + (if e in list && e in handles then handles[e].charge else 0)
            == Sum(handles, list)
  {
    if list != [] {
      var rest := list[1..];
      Dropped(handles, rest, e);
      assert list == [list[0]] + rest;
      if list[0] != e {
        var d := Drop(rest, e);
        assert ([list[0]] + d)[1..] == d;
        assert list[0] !in rest;
      }
    }
  }

  lemma {:induction false} SumSame(handles: map<nat, Handle>, handles': map<nat, Handle>, list: seq<nat>)
    requires forall e :: e in list ==> e in handles && e in handles' && handles[e].charge == handles'[e].charge
    ensures Sum(handles', list) == Sum(handles, list)
  {
    if list != [] {
      SumSame(handles, handles', list[1..]);
    }
  }

  lemma {:induction false} SumLast(handles: map<nat, Handle>, list: seq<nat>, e: nat)
    requires e in handles
    ensures Sum(handles, list + [e]) == Sum(handles, list) + handles[e].charge
  {
    if list == [] {
      assert [e][1..] == [];
      assert [] + [e] == [e];
    } else {
      assert (list + [e])[1..] == list[1..] + [e];
      SumLast(handles, list[1..], e);
    }
  }

  lemma NoRepeatsLast(list: seq<nat>, e: nat)
    requires NoRepeats(list) && e !in list
    ensures NoRepeats(list + [e])
  {
  }

  // ---------------------------------------------------------------------------
  // References

  /** Only the references of an entry change: charges, keys and the cache's contents stay. */
  lemma SameSums(s: State, e: nat, n: nat, list: seq<nat>)
    requires e in s.handles && forall x :: x in list ==> x in s.handles
    ensures Sum(Refs(s, e, n).handles, list) == Sum(s.handles, list)
  {
    SumSame(s.handles, Refs(s, e, n).handles, list);
  }

  lemma FoundStays(s: State, s': State, gone: Option<nat>)
    requires Found(s, gone) && s'.contents == s.contents
    requires forall x :: Cached(s', x) <==> Cached(s, x)
    requires forall x :: Cached(s, x) ==> x in s'.handles && s'.handles[x].key == s.handles[x].key
    ensures Found(s', gone)
  {
  }

  /** The entry goes from one list to the end of the other. */
  lemma Moved(s: State, e: nat, n: nat, from: seq<nat>, to: seq<nat>)
    requires e in s.handles && e in from && e !in to && NoRepeats(from) && NoRepeats(to)
    requires (forall x :: x in from ==> x in s.handles) && (forall x :: x in to ==> x in s.handles)
    ensures Drop(to, e) == to
    ensures NoRepeats(Drop(from, e)) && NoRepeats(to + [e])
    ensures forall x :: x in Drop(from, e) <==> x in from && x != e
    ensures var h := Refs(s, e, n).handles;
            Sum(h, Drop(from, e)) + Sum(h, to + [e]) == Sum(s.handles, from) + Sum(s.handles, to)
  {
    NotThere(to, e);
    Dropped(s.handles, from, e);
    NoRepeatsLast(to, e);
    SumLast(s.handles, to, e);
    SameSums(s, e, n, Drop(from, e));
    SameSums(s, e, n, to + [e]);
  }

  lemma {:induction false} NotThere(list: seq<nat>, e: nat)
    requires e !in list
    ensures Drop(list, e) == list
  {
    if list != [] {
      NotThere(list[1..], e);
      assert list == [list[0]] + list[1..];
    }
  }

  lemma RefKeepsLists(s: State, e: nat)
    requires Lists(s) && e in s.handles && s.handles[e].refs > 0
    ensures Lists(Ref(s, e))
  {
    hide Drop, Sum, NoRepeats;
    var h := s.handles[e];
    if h.inCache && h.refs == 1 {
      Moved(s, e, 2, s.lru, s.inUse);
    } else {
      SameSums(s, e, h.refs + 1, s.lru);
      SameSums(s, e, h.refs + 1, s.inUse);
    }
  }

  lemma RefKeeps(s: State, e: nat, gone: Option<nat>)
    requires InvBut(s, gone) && e in s.handles
    ensures InvBut(Ref(s, e), gone)
  {
    hide Lists, Found, Drop, NoRepeats;
    RefKeepsLists(s, e);
    FoundStays(s, Ref(s, e), gone);
  }

  /** A client gives up its handle: the cache's own reference is not it. */
  ghost predicate Releasable(s: State, e: nat)
  {
    e in s.handles && s.handles[e].refs > (if s.handles[e].inCache then 1 else 0)
  }

  lemma UnrefKeepsLists(s: State, e: nat)
    requires Lists(s) && Releasable(s, e)
    ensures Lists(Unref(s, e))
  {
    hide Drop, Sum, NoRepeats;
    var h := s.handles[e];
    if h.refs == 1 {
      SumSame(s.handles, s.handles - {e}, s.lru);
      SumSame(s.handles, s.handles - {e}, s.inUse);
    } else if h.inCache && h.refs == 2 {
      Moved(s, e, 1, s.inUse, s.lru);
    } else {
      SameSums(s, e, h.refs - 1, s.lru);
      SameSums(s, e, h.refs - 1, s.inUse);
    }
  }

  lemma UnrefKeeps(s: State, e: nat, gone: Option<nat>)
    requires InvBut(s, gone) && Releasable(s, e)
    ensures InvBut(Unref(s, e), gone)
  {
    hide Lists, Found, Deleted, Drop;
    UnrefKeepsLists(s, e);
    FoundStays(s, Unref(s, e), gone);
    UnrefDeleted(s, e);
  }

  lemma UnrefDeleted(s: State, e: nat)
    requires Deleted(s) && Releasable(s, e)
    ensures Deleted(Unref(s, e))
  {
    hide NoRepeats, Drop;
    if s.handles[e].refs == 1 {
      NoRepeatsLast(s.deleted, e);
    }
  }

  // ---------------------------------------------------------------------------
  // Leaving the cache

  /** What FinishErase does before it gives up the cache's reference. */
  function Uncached(s: State, e: nat): (s': State)
    requires e in s.handles && s.handles[e].charge <= s.usage
  {
    Unlinked(s, e).(handles := s.handles[e := s.handles[e].(inCache := false)], usage := s.usage - s.handles[e].charge)
  }

  lemma UncachedKeeps(s: State, e: nat)
    requires InvBut(s, Some(e)) && Cached(s, e)
    ensures s.handles[e].charge <= s.usage && Inv(Uncached(s, e))
  {
    hide Lists, Found, Deleted;
    UncachedLists(s, e);
    UncachedFound(s, e);
    UncachedDeleted(s, e);
  }

  lemma UncachedLists(s: State, e: nat)
    requires Lists(s) && Deleted(s) && Cached(s, e)
    ensures s.handles[e].charge <= s.usage && Lists(Uncached(s, e))
  {
    hide Drop, Sum, NoRepeats;
    Dropped(s.handles, s.lru, e);
    Dropped(s.handles, s.inUse, e);
    var h' := s.handles[e := s.handles[e].(inCache := false)];
    SumSame(s.handles, h', Drop(s.lru, e));
    SumSame(s.handles, h', Drop(s.inUse, e));
  }

  lemma UncachedDeleted(s: State, e: nat)
    requires Deleted(s) && Cached(s, e) && s.handles[e].charge <= s.usage
    ensures Deleted(Uncached(s, e))
  {
    hide Drop, NoRepeats;
  }

  lemma UncachedFound(s: State, e: nat)
    requires Found(s, Some(e)) && Cached(s, e) && s.handles[e].charge <= s.usage
    ensures Found(Uncached(s, e), None)
  {
    hide Drop;
  }

  lemma FinishEraseKeeps(s: State, e: nat)
    requires InvBut(s, Some(e)) && Cached(s, e)
    ensures s.handles[e].refs > 0 && s.handles[e].charge <= s.usage && Inv(FinishErase(s, e))
  {
    UncachedKeeps(s, e);
    hide Lists, Found, Drop;
    UnrefKeeps(Uncached(s, e), e, None);
  }

  // ---------------------------------------------------------------------------
  // Operations

  /** table_.Remove and FinishErase. */
  function Erase(s: State, key: Slice): (s': State)
    requires Inv(s)
  {
    if key in s.contents then
      var e := s.contents[key];
      var s1 := s.(contents := s.contents - {key});
      RemovedFromTable(s, key);
      FinishEraseKeeps(s1, e);
      FinishErase(s1, e)
    else s
  }

  lemma RemovedFromTable(s: State, key: Slice)
    requires Inv(s) && key in s.contents
    ensures var e := s.contents[key];
            Cached(s, e) && Cached(s.(contents := s.contents - {key}), e)
                && InvBut(s.(contents := s.contents - {key}), Some(e))
  {
    hide Drop, Sum, NoRepeats;
  }

  lemma EraseKeeps(s: State, key: Slice)
    requires Inv(s)
    ensures Inv(Erase(s, key)) && Erase(s, key).contents == s.contents - {key}
  {
    hide InvBut, Cached, Drop;
    if key in s.contents {
      RemovedFromTable(s, key);
      FinishEraseKeeps(s.(contents := s.contents - {key}), s.contents[key]);
    } else {
      assert s.contents - {key} == s.contents;
    }
  }

  /** Throwing out the oldest entry that nobody uses: its deleter runs. */
  lemma OldestLeaves(s: State)
    requires Inv(s) && s.lru != []
    ensures s.lru[0] in s.handles && s.handles[s.lru[0]].key in s.contents
            && s.contents[s.handles[s.lru[0]].key] == s.lru[0]
    ensures var e := s.lru[0];
            var s' := Erase(s, s.handles[e].key);
            && s'.lru == s.lru[1..] && s'.inUse == s.inUse && s'.deleted == s.deleted + [e]
                && s'.handles == s.handles - {e}
            && s'.usage + s.handles[e].charge == s.usage && s'.capacity == s.capacity && s'.next == s.next
  {
    hide NoRepeats, Sum;
    var e := s.lru[0];
    assert Cached(s, e) && s.handles[e].refs == 1;
    NotThere(s.inUse, e);
    EraseKeeps(s, s.handles[e].key);
  }

  /** The loop of Insert that makes room. */
  function MakeRoom(s: State): (s': State)
    requires Inv(s)
    decreases |s.lru|
  {
    if s.usage > s.capacity && s.lru != [] then
      OldestLeaves(s);
      EraseKeeps(s, s.handles[s.lru[0]].key);
      MakeRoom(Erase(s, s.handles[s.lru[0]].key))
    else s
  }

  /** The loop of Prune. */
  function Pruned(s: State): (s': State)
    requires Inv(s)
    decreases |s.lru|
  {
    if s.lru != [] then
      OldestLeaves(s);
      EraseKeeps(s, s.handles[s.lru[0]].key);
      Pruned(Erase(s, s.handles[s.lru[0]].key))
    else s
  }

  /** Room is made by giving up the oldest entries that nobody uses, and no more of them than necessary. */
  lemma {:induction false} MakeRoomEvicts(s: State) returns (n: nat)
    requires Inv(s)
    ensures var s' := MakeRoom(s);
            && Inv(s') && n <= |s.lru| && s'.lru == s.lru[n..] && s'.inUse == s.inUse
                && s'.deleted == s.deleted + s.lru[..n]
            && (s'.usage <= s.capacity || s'.lru == []) && s'.capacity == s.capacity && s'.next == s.next
            && (n == 0 ==> s' == s)
            && (n > 0 ==> s.lru[n - 1] in s.handles && s'.usage + s.handles[s.lru[n - 1]].charge > s.capacity)
            && (forall e :: e in s'.handles <==> e in s.handles && e !in s.lru[..n])
            && (forall e :: e in s'.handles ==> s'.handles[e] == s.handles[e])
    decreases |s.lru|
  {
    hide Inv, Erase;
    n := 0;
    if s.usage > s.capacity && s.lru != [] {
      OldestLeaves(s);
      EraseKeeps(s, s.handles[s.lru[0]].key);
      var s1 := Erase(s, s.handles[s.lru[0]].key);
      var m := MakeRoomEvicts(s1);
      n := m + 1;
      OneMoreEvicted(s.lru, s1.lru, s.deleted, n);
    }
  }

  lemma OneMoreEvicted(lru: seq<nat>, rest: seq<nat>, deleted: seq<nat>, n: nat)
    requires 0 < n <= |lru| && rest == lru[1..]
    ensures rest[n - 1..] == lru[n..] && deleted + [lru[0]] + rest[..n - 1] == deleted + lru[..n]
    ensures n > 1 ==> rest[n - 2] == lru[n - 1]
    ensures lru[..n] == [lru[0]] + rest[..n - 1]
  {
  }

  lemma {:induction false} PrunedKeeps(s: State)
    requires Inv(s)
    ensures Inv(Pruned(s)) && Pruned(s).lru == [] && Pruned(s).inUse == s.inUse
            && Pruned(s).deleted == s.deleted + s.lru
    decreases |s.lru|
  {
    hide Inv, Erase;
    if s.lru != [] {
      OldestLeaves(s);
      EraseKeeps(s, s.handles[s.lru[0]].key);
      var s1 := Erase(s, s.handles[s.lru[0]].key);
      PrunedKeeps(s1);
      assert s.lru == [s.lru[0]] + s.lru[1..];
      assert s.deleted + [s.lru[0]] + s1.lru == s.deleted + s.lru;
    }
  }

  /** A new entry, in the table if the cache caches at all. */
  function Inserted(s: State, key: Slice, value: nat, charge: nat): (s': State)
  {
    var e := s.next;
    if s.capacity > 0 then
      s.(handles := s.handles[e := Handle(key, value, charge, true, 2)], inUse := s.inUse + [e],
         usage := s.usage + charge,
         contents := s.contents[key := e], next := e + 1)
    else s.(handles := s.handles[e := Handle(key, value, charge, false, 1)], next := e + 1)
  }

  /** The entry that a new one takes the place of. */
  function Replaced(s: State, key: Slice): (r: Option<nat>)
  {
    if s.capacity > 0 && key in s.contents then Some(s.contents[key]) else None
  }

  lemma InsertedLists(s: State, key: Slice, value: nat, charge: nat)
    requires Lists(s) && Deleted(s)
    ensures Lists(Inserted(s, key, value, charge))
  {
    hide NoRepeats, Sum;
    var e, s' := s.next, Inserted(s, key, value, charge);
    assert e !in s.handles && e !in s.inUse && e !in s.lru;
    SumSame(s.handles, s'.handles, s.lru);
    SumSame(s.handles, s'.handles, s.inUse);
    if s.capacity > 0 {
      SumLast(s'.handles, s.inUse, e);
      NoRepeatsLast(s.inUse, e);
    }
  }

  lemma InsertedFound(s: State, key: Slice, value: nat, charge: nat)
    requires Found(s, None) && Deleted(s)
    ensures Found(Inserted(s, key, value, charge), Replaced(s, key)) && Deleted(Inserted(s, key, value, charge))
    ensures Replaced(s, key).Some? ==> Cached(Inserted(s, key, value, charge), Replaced(s, key).value)
  {
    hide NoRepeats;
  }

  lemma InsertedKeeps(s: State, key: Slice, value: nat, charge: nat)
    requires Inv(s)
    ensures InvBut(Inserted(s, key, value, charge), Replaced(s, key))
    ensures Replaced(s, key).Some? ==> Cached(Inserted(s, key, value, charge), Replaced(s, key).value)
  {
    hide Lists, Found, Deleted, Inserted, Cached, Replaced;
    InsertedLists(s, key, value, charge);
    InsertedFound(s, key, value, charge);
  }

  /** Insert, up to making room. */
  function Stored(s: State, key: Slice, value: nat, charge: nat): (s': State)
    requires Inv(s)
  {
    InsertedKeeps(s, key, value, charge);
    var s1 := Inserted(s, key, value, charge);
    if Replaced(s, key).Some? then
      FinishEraseKeeps(s1, Replaced(s, key).value);
      FinishErase(s1, Replaced(s, key).value)
    else s1
  }

  lemma StoredKeeps(s: State, key: Slice, value: nat, charge: nat)
    requires Inv(s)
    ensures Inv(Stored(s, key, value, charge))
  {
    InsertedKeeps(s, key, value, charge);
    hide InvBut;
    var r := Replaced(s, key);
    if r.Some? {
      FinishEraseKeeps(Inserted(s, key, value, charge), r.value);
    }
  }

  // ---------------------------------------------------------------------------
  // Runs

  datatype Op =
    | Insert(key: Slice, value: nat, charge: nat)
    | Lookup(wanted: Slice)
    | Release(handle: nat)
    | EraseKey(unwanted: Slice)
    | Prune

  ghost predicate Enabled(s: State, op: Op)
  {
    Inv(s) && (op.Release? ==> Releasable(s, op.handle))
  }

  ghost function Next(s: State, op: Op): (s': State)
    requires Enabled(s, op)
  {
    match op
    case Insert(key, value, charge) =>
      StoredKeeps(s, key, value, charge);
      MakeRoom(Stored(s, key, value, charge))
    case Lookup(key) => if key in s.contents then Ref(s, s.contents[key]) else s
    case Release(e) => Unref(s, e)
    case EraseKey(key) => Erase(s, key)
    case Prune => Pruned(s)
  }

  lemma StepKeeps(s: State, op: Op)
    requires Enabled(s, op)
    ensures Inv(Next(s, op))
    ensures op.Insert? ==> Next(s, op).usage <= s.capacity || Next(s, op).lru == []
  {
    hide InvBut;
    match op {
      case Insert(key, value, charge) =>
        StoredKeeps(s, key, value, charge);
        var n := MakeRoomEvicts(Stored(s, key, value, charge));
        SameCapacity(s, key, value, charge);
      case Lookup(key) =>
        if key in s.contents {
          LookedUp(s, key);
          RefKeeps(s, s.contents[key], None);
        }
      case Release(e) => UnrefKeeps(s, e, None);
      case EraseKey(key) => EraseKeeps(s, key);
      case Prune => PrunedKeeps(s);
    }
  }

  lemma LookedUp(s: State, key: Slice)
    requires Inv(s) && key in s.contents
    ensures s.contents[key] in s.handles && s.handles[s.contents[key]].key == key
  {
  }

  lemma SameCapacity(s: State, key: Slice, value: nat, charge: nat)
    requires Inv(s)
    ensures Stored(s, key, value, charge).capacity == s.capacity
  {
    hide InvBut;
  }

  function Fresh(capacity: nat): (s: State)
  {
    State(capacity, map[], [], [], 0, map[], 0, [])
  }

  ghost predicate Run(states: seq<State>, ops: seq<Op>, capacity: nat)
  {
    && |states| == |ops| + 1 && states[0] == Fresh(capacity)
    && forall i :: 0 <= i < |ops| ==> Taken(states[i], ops[i], states[i + 1])
  }

  ghost predicate Taken(s: State, op: Op, s': State)
  {
    Enabled(s, op) && s' == Next(s, op)
  }

  /**
   In every run: the table finds exactly the cached entries, the usage is the sum of their charges, an
   entry is on the list of those not in use exactly if the cache's reference is its only one, every entry
   is allocated or its deleter has run exactly once, and an insertion leaves the cache within its capacity
   unless everything in it is in use.
   */
  lemma {:induction false} RunKeeps(states: seq<State>, ops: seq<Op>, capacity: nat, i: nat)
    requires Run(states, ops, capacity) && i < |states|
    ensures Inv(states[i]) && states[i].capacity == capacity
    ensures i > 0 && ops[i - 1].Insert? ==> states[i].usage <= capacity || states[i].lru == []
  {
    hide Inv, Next;
    if i == 0 {
      FreshKeeps(capacity);
    } else {
      RunKeeps(states, ops, capacity, i - 1);
      assert Taken(states[i - 1], ops[i - 1], states[i]);
      StepKeeps(states[i - 1], ops[i - 1]);
      CapacityStays(states[i - 1], ops[i - 1]);
    }
  }

  lemma FreshKeeps(capacity: nat)
    ensures Inv(Fresh(capacity))
  {
  }

  lemma CapacityStays(s: State, op: Op)
    requires Enabled(s, op)
    ensures Next(s, op).capacity == s.capacity
  {
    hide InvBut;
    match op {
      case Insert(key, value, charge) =>
        StoredKeeps(s, key, value, charge);
        var n := MakeRoomEvicts(Stored(s, key, value, charge));
        SameCapacity(s, key, value, charge);
      case Lookup(_) =>
      case Release(_) =>
      case EraseKey(_) =>
      case Prune => PrunedCapacity(s);
    }
  }

  lemma {:induction false} PrunedCapacity(s: State)
    requires Inv(s)
    ensures Pruned(s).capacity == s.capacity
    decreases |s.lru|
  {
    if s.lru != [] {
      OldestLeaves(s);
      EraseKeeps(s, s.handles[s.lru[0]].key);
      hide Inv, Erase;
      PrunedCapacity(Erase(s, s.handles[s.lru[0]].key));
    }
  }

  // ---------------------------------------------------------------------------
  // The cache

  class LRUCache {
    const capacity: nat
    const table: Table.HandleTable
    /** The memory of the entries, by address. */
    var handles: map<nat, Handle>
    var lru: seq<nat>
    var inUse: seq<nat>
    var usage: nat
    var next: nat
    var deleted: seq<nat>

    ghost function View(): (s: State)
      reads this, table
    {
      State(capacity, handles, lru, inUse, usage, table.contents, next, deleted)
    }

    ghost predicate Ok()
      reads this, table
    {
      table.Ok() && Inv(View())
    }

    constructor (size: nat)
      ensures Ok() && View() == Fresh(size) && fresh(table)
    {
      capacity := size;
      table := new Table.HandleTable();
      handles, lru, inUse, usage, next, deleted := map[], [], [], 0, 0, [];
      new;
      FreshKeeps(size);
    }

    method Unlink(e: nat)
      modifies this
      ensures View() == Unlinked(old(View()), e)
    {
      lru := Drop(lru, e);
      inUse := Drop(inUse, e);
    }

    method TakeRef(e: nat)
      requires e in handles
      modifies this
      ensures View() == Ref(old(View()), e)
    {
      if handles[e].refs == 1 && handles[e].inCache {
        Unlink(e);
        inUse := inUse + [e];
      }
      handles := handles[e := handles[e].(refs := handles[e].refs + 1)];
    }

    method DropRef(e: nat)
      requires e in handles && handles[e].refs > 0
      modifies this
      ensures View() == Unref(old(View()), e)
    {
      ghost var s := View();
      var refs := handles[e].refs - 1;
      handles := handles[e := handles[e].(refs := refs)];
      if refs == 0 {
        deleted := deleted + [e];
        handles := handles - {e};
        assert handles == s.handles - {e};
      } else if handles[e].inCache && refs == 1 {
        Unlink(e);
        lru := lru + [e];
      }
    }

    method Finish(e: nat)
      requires e in handles && handles[e].refs > 0 && handles[e].charge <= usage
      modifies this
      ensures View() == FinishErase(old(View()), e)
    {
      Unlink(e);
      handles := handles[e := handles[e].(inCache := false)];
      usage := usage - handles[e].charge;
      DropRef(e);
    }

    /** Taking an entry out of the table and of the cache. */
    method RemoveKey(key: Slice)
      requires Ok()
      modifies this, table
      ensures Ok() && View() == Erase(old(View()), key)
    {
      hide Inv, InvBut;
      ghost var s := View();
      EraseKeeps(s, key);
      var e := table.Remove(key, Table.HashSlice(key));
      if e.Some? {
        RemovedFromTable(s, key);
        FinishEraseKeeps(s.(contents := s.contents - {key}), e.value);
        Finish(e.value);
      } else {
        assert s.contents - {key} == s.contents;
      }
    }

    method Lookup(key: Slice) returns (r: Option<nat>)
      requires Ok()
      modifies this
      ensures Ok() && View() == Next(old(View()), Op.Lookup(key))
      ensures r == if key in old(View()).contents then Some(old(View()).contents[key]) else None
    {
      hide InvBut;
      ghost var s := View();
      StepKeeps(s, Op.Lookup(key));
      r := table.Lookup(key, Table.HashSlice(key));
      if r.Some? {
        LookedUp(s, key);
        TakeRef(r.value);
      }
    }

    method Release(handle: nat)
      requires Ok() && Releasable(View(), handle)
      modifies this
      ensures Ok() && View() == Next(old(View()), Op.Release(handle))
    {
      hide InvBut;
      StepKeeps(View(), Op.Release(handle));
      DropRef(handle);
    }

    method EraseEntry(key: Slice)
      requires Ok()
      modifies this, table
      ensures Ok() && View() == Next(old(View()), Op.EraseKey(key))
    {
      hide InvBut, Inv;
      RemoveKey(key);
    }

    method PruneAll()
      requires Ok()
      modifies this, table
      ensures Ok() && View() == Next(old(View()), Op.Prune)
    {
      hide InvBut, Inv, Erase;
      while lru != []
        invariant Ok() && Pruned(old(View())) == Pruned(View())
        decreases |lru|
      {
        OldestLeaves(View());
        EraseKeeps(View(), handles[lru[0]].key);
        RemoveKey(handles[lru[0]].key);
      }
    }

    /** Insert, up to making room. */
    method Store(key: Slice, value: nat, charge: nat) returns (e: nat)
      requires Ok()
      modifies this, table
      ensures Ok() && View() == Stored(old(View()), key, value, charge) && e == old(next)
    {
      hide InvBut, Inv;
      ghost var s := View();
      StoredKeeps(s, key, value, charge);
      e := next;
      next := next + 1;
      if capacity > 0 {
        handles := handles[e := Handle(key, value, charge, true, 2)];
        inUse := inUse + [e];
        usage := usage + charge;
        var displaced := table.Insert(e, key, Table.HashSlice(key));
        InsertedKeeps(s, key, value, charge);
        if displaced.Some? {
          FinishEraseKeeps(View(), displaced.value);
          Finish(displaced.value);
        }
      } else {
        handles := handles[e := Handle(key, value, charge, false, 1)];
      }
    }

    method Insert(key: Slice, value: nat, charge: nat) returns (e: nat)
      requires Ok()
      modifies this, table
      ensures Ok() && View() == Next(old(View()), Op.Insert(key, value, charge)) && e == old(next)
    {
      hide InvBut, Inv, Erase, Stored;
      e := Store(key, value, charge);
      ghost var s := View();
      while usage > capacity && lru != []
        invariant Ok() && MakeRoom(s) == MakeRoom(View())
        decreases |lru|
      {
        OldestLeaves(View());
        EraseKeeps(View(), handles[lru[0]].key);
        RemoveKey(handles[lru[0]].key);
      }
    }
  }
}
