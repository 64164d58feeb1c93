/**
 The skip list under a memtable (db/skiplist.h).

 One writer inserts while readers search without a lock.  Keys are compared by a function given to the
 list, as the comparator is in the source; it has to be a strict order.
 */
module SkipList {
  import opened DbFormat

  const MAX_HEIGHT: nat := 12

  ghost predicate StrictOrder<K(!new)>(less: (K, K) -> bool)
  {
    && (forall a :: !less(a, a))
    && (forall a, b, c :: less(a, b) && less(b, c) ==> less(a, c))
  }

  ghost predicate Ascending<K>(less: (K, K) -> bool, keys: seq<K>)
  {
    forall p, q :: 0 <= p < q < |keys| ==> less(keys[p], keys[q])
  }

  /** How many keys come before the first one that is not less than `key`. */
  function Position<K>(less: (K, K) -> bool, keys: seq<K>, key: K): (p: nat)
    ensures p <= |keys|
    ensures forall q :: 0 <= q < p ==> less(keys[q], key)
    ensures p < |keys| ==> !less(keys[p], key)
  {
    if keys == [] || !less(keys[0], key) then 0 else 1 + Position(less, keys[1..], key)
  }

  /** The list with `key` at its place. */
  function Inserted<K>(less: (K, K) -> bool, keys: seq<K>, key: K): (r: seq<K>)
  {
    var p := Position(less, keys, key);
    keys[..p] + [key] + keys[p..]
  }

  ghost predicate NoEqual<K>(less: (K, K) -> bool, keys: seq<K>, key: K)
  {
    forall p :: 0 <= p < |keys| ==> less(keys[p], key) || less(key, keys[p])
  }

  /** Everything that is less stands before the place, everything else after it. */
  lemma PositionSplits<K(!new)>(less: (K, K) -> bool, keys: seq<K>, key: K)
    requires StrictOrder(less) && Ascending(less, keys)
    ensures forall p :: Position(less, keys, key) <= p < |keys| ==> !less(keys[p], key)
  {
    var n := Position(less, keys, key);
    forall p | n <= p < |keys| ensures !less(keys[p], key) {
      assert n < p ==> less(keys[n], keys[p]);
    }
  }

  /** In a sorted list, only one place has lesser keys on its left and no lesser key on its right. */
  lemma PositionIs<K(!new)>(less: (K, K) -> bool, keys: seq<K>, key: K, p: nat)
    requires StrictOrder(less) && Ascending(less, keys) && p <= |keys|
    requires p > 0 ==> less(keys[p - 1], key)
    requires p < |keys| ==> !less(keys[p], key)
    ensures Position(less, keys, key) == p
  {
    PositionSplits(less, keys, key);
  }

  lemma InsertedAscending<K(!new)>(less: (K, K) -> bool, keys: seq<K>, key: K)
    requires StrictOrder(less) && Ascending(less, keys) && NoEqual(less, keys, key)
    ensures Ascending(less, Inserted(less, keys, key))
    ensures forall k :: k in Inserted(less, keys, key) <==> k in keys || k == key
  {
    PositionSplits(less, keys, key);
    hide Position, StrictOrder;
    Spliced(less, keys, key, Position(less, keys, key));
  }

  lemma Spliced<K(!new)>(less: (K, K) -> bool, keys: seq<K>, key: K, n: nat)
    requires n <= |keys| && Ascending(less, keys)
    requires forall p :: 0 <= p < n ==> less(keys[p], key)
    requires forall p :: n <= p < |keys| ==> less(key, keys[p])
    ensures Ascending(less, keys[..n] + [key] + keys[n..])
    ensures forall k :: k in keys[..n] + [key] + keys[n..] <==> k in keys || k == key
  {
    var r := keys[..n] + [key] + keys[n..];
    forall p, q | 0 <= p < q < |r| ensures less(r[p], r[q]) {
      SplicedAt(keys, key, n, p);
      SplicedAt(keys, key, n, q);
    }
    assert keys == keys[..n] + keys[n..];
  }

  lemma SplicedAt<K>(keys: seq<K>, key: K, n: nat, p: nat)
    requires n <= |keys| && p <= |keys|
    ensures (keys[..n] + [key] + keys[n..])[p] == if p < n then keys[p] else if p == n then key else keys[p - 1]
  {
  }

  // ---------------------------------------------------------------------------
  // Searching while the writer stores links

  /** What the links of each level say, top level last, and the height that a search starts from. */
  datatype Lists<!K> = Lists(levels: seq<seq<K>>, maxHeight: nat)

  ghost predicate PartOf<K>(upper: seq<K>, lower: seq<K>)
  {
    forall k :: k in upper ==> k in lower
  }

  /** Each level is a sorted part of the one below. */
  ghost predicate Layered<K>(less: (K, K) -> bool, s: Lists<K>)
  {
    && |s.levels| == MAX_HEIGHT && 1 <= s.maxHeight <= MAX_HEIGHT
    && (forall i :: 0 <= i < MAX_HEIGHT ==> Ascending(less, s.levels[i]))
    && (forall i, j :: 0 <= i && i + 1 == j < MAX_HEIGHT ==> PartOf(s.levels[j], s.levels[i]))
    && (forall i :: s.maxHeight <= i < MAX_HEIGHT ==> s.levels[i] == [])
  }

  /** Where a search stands: at a node, or at the head, on a level. */
  datatype Search<!K> = Searching(at: Option<K>, level: nat) | Done(found: Option<K>)

  ghost predicate Stands<K>(less: (K, K) -> bool, s: Lists<K>, key: K, r: Search<K>)
  {
    r.Searching? ==>
      && r.level < |s.levels|
      && (r.at.Some? ==> r.at.value in s.levels[r.level] && less(r.at.value, key))
  }

  function Link<K>(keys: seq<K>, p: int): (k: Option<K>)
    requires p >= -1
  {
    if p + 1 < |keys| then Some(keys[p + 1]) else None
  }

  /** What a node's link on a level leads to. */
  ghost predicate LinkOf<K>(keys: seq<K>, at: Option<K>, next: Option<K>)
  {
    exists p :: -1 <= p < |keys| && at == (if p < 0 then None else Some(keys[p])) && next == Link(keys, p)
  }

  ghost predicate LoadStep<K(!new)>(less: (K, K) -> bool, s: Lists<K>, key: K, r: Search<K>, r': Search<K>)
  {
    && r.Searching? && r.level < |s.levels|
    && exists next: Option<K> :: LinkOf(s.levels[r.level], r.at, next)
         && r' == if next.Some? && less(next.value, key) then Searching(next, r.level)
                  else if r.level == 0 then Done(next)
                  else Searching(r.at, r.level - 1)
  }

  datatype Store<K> = Raise(height: nat) | Publish(level: nat, key: K)

  /** One store of the writer: a new height, or the link that puts a key on one more level. */
  ghost predicate StoreStep<K>(less: (K, K) -> bool, s: Lists<K>, w: Store<K>, s': Lists<K>)
  {
    match w
    case Raise(h) => s.maxHeight < h <= MAX_HEIGHT && s' == s.(maxHeight := h)
    case Publish(i, k) =>
      && i < s.maxHeight && i < |s.levels|
      && NoEqual(less, s.levels[i], k)
      && (i > 0 ==> k in s.levels[i - 1])
      && s' == s.(levels := s.levels[i := Inserted(less, s.levels[i], k)])
  }

  lemma StoreKeeps<K(!new)>(less: (K, K) -> bool, s: Lists<K>, w: Store<K>, s': Lists<K>)
    requires StrictOrder(less) && Layered(less, s) && StoreStep(less, s, w, s')
    ensures Layered(less, s')
    ensures forall i, k :: 0 <= i < MAX_HEIGHT && k in s.levels[i] ==> k in s'.levels[i]
  {
    hide StrictOrder, Ascending, NoEqual, Inserted;
    if w.Publish? {
      InsertedAscending(less, s.levels[w.level], w.key);
    }
  }

  lemma LoadKeeps<K(!new)>(less: (K, K) -> bool, s: Lists<K>, key: K, r: Search<K>, r': Search<K>)
    requires StrictOrder(less) && Layered(less, s) && Stands(less, s, key, r) && LoadStep(less, s, key, r, r')
    ensures Stands(less, s, key, r')
    ensures r'.Done? ==> r'.found == Link(s.levels[0], Position(less, s.levels[0], key) - 1)
  {
    hide StrictOrder, Ascending, Position;
    var next: Option<K> :| LinkOf(s.levels[r.level], r.at, next)
         && r' == if next.Some? && less(next.value, key) then Searching(next, r.level)
                  else if r.level == 0 then Done(next)
                  else Searching(r.at, r.level - 1);
    if r'.Done? {
      var keys := s.levels[0];
      var p :| -1 <= p < |keys| && r.at == (if p < 0 then None else Some(keys[p])) && next == Link(keys, p);
      PositionIs(less, keys, key, p + 1);
    }
  }

  datatype Event<K> = Stored(w: Store<K>) | Loaded

  /** A run of one search with the stores of the writer between its loads. */
  ghost predicate Run<K(!new)>(less: (K, K) -> bool, key: K, ss: seq<Lists<K>>, rs: seq<Search<K>>, es: seq<Event<K>>)
  {
    && |ss| == |rs| == |es| + 1
    && Layered(less, ss[0])
    && rs[0].Searching? && rs[0].at == None && rs[0].level < ss[0].maxHeight
    && forall i :: 0 <= i < |es| ==>
         if es[i].Stored? then StoreStep(less, ss[i], es[i].w, ss[i + 1]) && rs[i + 1] == rs[i]
         else LoadStep(less, ss[i], key, rs[i], rs[i + 1]) && ss[i + 1] == ss[i]
  }

  lemma {:induction false} RunStands<K(!new)>(less: (K, K) -> bool, key: K, ss: seq<Lists<K>>, rs: seq<Search<K>>,
                                              es: seq<Event<K>>, n: nat)
    requires StrictOrder(less) && Run(less, key, ss, rs, es) && n < |ss|
    ensures Layered(less, ss[n]) && Stands(less, ss[n], key, rs[n])
    ensures forall k :: k in ss[0].levels[0] ==> k in ss[n].levels[0]
  {
    hide StrictOrder, Layered, StoreStep, LoadStep, Stands;
    if n == 0 {
      assert Stands(less, ss[0], key, rs[0]) by { SearchStarts(less, ss[0], key, rs[0]); }
    } else {
      RunStands(less, key, ss, rs, es, n - 1);
      if es[n - 1].Stored? {
        StoreKeeps(less, ss[n - 1], es[n - 1].w, ss[n]);
        StaysStanding(less, ss[n - 1], ss[n], key, rs[n]);
      } else {
        LoadKeeps(less, ss[n - 1], key, rs[n - 1], rs[n]);
      }
    }
  }

  lemma SearchStarts<K(!new)>(less: (K, K) -> bool, s: Lists<K>, key: K, r: Search<K>)
    requires Layered(less, s) && r.Searching? && r.at == None && r.level < s.maxHeight
    ensures Stands(less, s, key, r)
  {
  }

  lemma StaysStanding<K(!new)>(less: (K, K) -> bool, s: Lists<K>, s': Lists<K>, key: K, r: Search<K>)
    requires Layered(less, s) && Layered(less, s') && Stands(less, s, key, r)
    requires forall i, k :: 0 <= i < MAX_HEIGHT && k in s.levels[i] ==> k in s'.levels[i]
    ensures Stands(less, s', key, r)
    ensures forall k :: k in s.levels[0] ==> k in s'.levels[0]
  {
    hide Ascending;
  }

  /**
   However the writer's stores fall between a reader's loads, the reader finds what a search at the moment
   of its last load would have found; so it misses no key that was there when it began.
   */
  lemma ReadersFind<K(!new)>(less: (K, K) -> bool, key: K, ss: seq<Lists<K>>, rs: seq<Search<K>>, es: seq<Event<K>>,
                             n: nat)
    requires StrictOrder(less) && Run(less, key, ss, rs, es)
    requires n < |es| && es[n].Loaded? && rs[n + 1].Done?
    ensures Layered(less, ss[n])
    ensures rs[n + 1].found == Link(ss[n].levels[0], Position(less, ss[n].levels[0], key) - 1)
    ensures forall k :: k in ss[0].levels[0] && !less(k, key) ==>
              rs[n + 1].found.Some? && (rs[n + 1].found.value == k || less(rs[n + 1].found.value, k))
  {
    hide StrictOrder, LoadStep, StoreStep, Stands, Position;
    RunStands(less, key, ss, rs, es, n);
    LoadKeeps(less, ss[n], key, rs[n], rs[n + 1]);
    var keys := ss[n].levels[0];
    forall k | k in ss[0].levels[0] && !less(k, key)
      ensures rs[n + 1].found.Some? && (rs[n + 1].found.value == k || less(rs[n + 1].found.value, k))
    {
      var q :| 0 <= q < |keys| && keys[q] == k;
      assert q >= Position(less, keys, key);
    }
  }

  // ---------------------------------------------------------------------------
  // Nodes and links

  class Node<K(==)> {
    const key: K
    var next: seq<Node?<K>>

    constructor (key: K, height: nat)
      ensures this.key == key && |next| == height
      ensures forall i :: 0 <= i < height ==> next[i] == null
    {
      this.key := key;
      next := seq(height, _ => null);
    }

    method SetNext(n: nat, x: Node?<K>)
      requires n < |next|
      modifies this
      ensures next == old(next)[n := x]
    {
      next := next[n := x];
    }
  }

  function At<K>(nodes: seq<Node<K>>, p: int): (x: Node?<K>)
    requires p >= 0
  {
    if p < |nodes| then nodes[p] else null
  }

  function Keys<K>(nodes: seq<Node<K>>): (r: seq<K>)
    ensures |r| == |nodes|
    ensures forall p :: 0 <= p < |r| ==> r[p] == nodes[p].key
  {
    seq(|nodes|, p requires 0 <= p < |nodes| => nodes[p].key)
  }

  function Splice<T>(s: seq<T>, p: nat, x: T): (r: seq<T>)
    requires p <= |s|
    ensures |r| == |s| + 1
  {
    s[..p] + [x] + s[p..]
  }

  lemma AtIn<K>(row: seq<Node<K>>, q: nat)
    requires q < |row|
    ensures At(row, q) == row[q]
  {
  }

  lemma SpliceAt<K>(row: seq<Node<K>>, p: nat, x: Node<K>, q: nat)
    requires p <= |row|
    ensures At(Splice(row, p, x), q) == if q < p then At(row, q) else if q == p then x else At(row, q - 1)
  {
  }

  lemma KeysPart<K>(upper: seq<Node<K>>, lower: seq<Node<K>>)
    requires PartOf(upper, lower)
    ensures PartOf(Keys(upper), Keys(lower))
  {
    forall k | k in Keys(upper) ensures k in Keys(lower) {
      var p :| 0 <= p < |upper| && Keys(upper)[p] == k;
      assert upper[p] in lower;
      var q :| 0 <= q < |lower| && lower[q] == upper[p];
      assert Keys(lower)[q] == k;
    }
  }

  lemma KeysOfSplice<K>(nodes: seq<Node<K>>, p: nat, x: Node<K>)
    requires p <= |nodes|
    ensures Keys(Splice(nodes, p, x)) == Splice(Keys(nodes), p, x.key)
  {
  }

  class SkipList<K(0,==,!new)> {
    const less: (K, K) -> bool
    const head: Node<K>
    var maxHeight: nat
    ghost var nodes: set<Node<K>>
    ghost var levels: seq<seq<Node<K>>>

    static ghost predicate Follows(row: seq<Node<K>>, i: nat, p: nat)
      requires p < |row|
      reads row
    {
      i < |row[p].next| && row[p].next[i] == At(row, p + 1)
    }

    /** The links of a level run through these nodes. */
    ghost predicate Runs(row: seq<Node<K>>, i: nat)
      reads head, row
    {
      && i < |head.next| && head.next[i] == At(row, 0)
      && (forall p :: 0 <= p < |row| ==> Follows(row, i, p))
    }

    ghost predicate Linked(i: nat)
      reads this, head, nodes
      requires i < |levels|
    {
      (forall x :: x in levels[i] ==> x in nodes) && Runs(levels[i], i)
    }

    /** Each level is a sorted part of the one below. */
    ghost predicate Layers(rows: seq<seq<Node<K>>>)
      reads this`maxHeight
    {
      && |rows| == MAX_HEIGHT && 1 <= maxHeight <= MAX_HEIGHT
      && (forall i :: 0 <= i < MAX_HEIGHT ==> Ascending(less, Keys(rows[i])))
      && (forall i, j :: 0 <= i && i + 1 == j < MAX_HEIGHT ==> PartOf(rows[j], rows[i]))
      && (forall i :: maxHeight <= i < MAX_HEIGHT ==> rows[i] == [])
    }

    ghost predicate Valid()
      reads this, head, nodes
    {
      && StrictOrder(less)
      && head !in nodes
      && Layers(levels)
      && (forall i :: 0 <= i < MAX_HEIGHT ==> Linked(i))
    }

    /** The keys, in order. */
    ghost function Contents(): (r: seq<K>)
      reads this
      requires |levels| == MAX_HEIGHT
    {
      Keys(levels[0])
    }

    /** A place in a level: -1 is the head. */
    ghost predicate Place(i: nat, x: Node<K>, p: int)
      reads this
      requires i < |levels|
    {
      -1 <= p < |levels[i]| && x == (if p < 0 then head else levels[i][p])
    }

    constructor (less: (K, K) -> bool)
      requires StrictOrder(less)
      ensures Valid() && fresh(head) && nodes == {} && this.less == less && Contents() == []
    {
      this.less := less;
      var k: K := *;
      head := new Node(k, MAX_HEIGHT);
      maxHeight := 1;
      nodes := {};
      levels := seq(MAX_HEIGHT, _ => []);
    }

    lemma NextAt(i: nat, x: Node<K>, p: int)
      requires Valid() && i < MAX_HEIGHT && Place(i, x, p)
      ensures i < |x.next| && x.next[i] == At(levels[i], p + 1)
    {
      hide StrictOrder, Ascending, PartOf;
      assert Linked(i);
      assert p >= 0 ==> Follows(levels[i], i, p);
    }

    /** A node of a level has its place on the level below. */
    lemma Below(i: nat, x: Node<K>, p: int) returns (q: int)
      requires Valid() && 0 < i < MAX_HEIGHT && Place(i, x, p)
      ensures Place(i - 1, x, q) && (q >= 0 <==> p >= 0)
    {
      hide StrictOrder, Ascending, Linked;
      assert PartOf(levels[i], levels[i - 1]);
      if p < 0 {
        q := -1;
      } else {
        assert x in levels[i - 1];
        q :| 0 <= q < |levels[i - 1]| && levels[i - 1][q] == x;
      }
    }

    predicate KeyIsAfterNode(key: K, n: Node?<K>)
    {
      n != null && less(n.key, key)
    }

    /** The last place of a level that comes before a key. */
    ghost predicate LastBefore(i: nat, key: K, x: Node<K>)
      reads this
      requires i < |levels|
    {
      Place(i, x, Position(less, Keys(levels[i]), key) - 1)
    }

    lemma StopsAt(i: nat, key: K, x: Node<K>, p: int)
      requires Valid() && i < MAX_HEIGHT && Place(i, x, p)
      requires p >= 0 ==> less(x.key, key)
      requires !KeyIsAfterNode(key, At(levels[i], p + 1))
      ensures LastBefore(i, key, x) && Position(less, Keys(levels[i]), key) == p + 1
    {
      hide StrictOrder, Ascending, PartOf, Linked, Position;
      PositionIs(less, Keys(levels[i]), key, p + 1);
    }

    lemma Sized()
      requires Valid()
      ensures |levels| == MAX_HEIGHT && 1 <= maxHeight <= MAX_HEIGHT
    {
    }

    method FindGreaterOrEqual(key: K) returns (r: Node?<K>, prev: seq<Node<K>>)
      requires Valid()
      ensures r == At(levels[0], Position(less, Contents(), key))
      ensures |prev| == maxHeight && forall i :: 0 <= i < maxHeight ==> LastBefore(i, key, prev[i])
    {
      hide Valid, Position, LastBefore, Keys;
      Sized();
      var level := maxHeight - 1;
      var x: Node<K> := head;
      ghost var p := -1;
      prev := [];
      while true
        invariant 0 <= level < maxHeight && |prev| == maxHeight - 1 - level
        invariant Place(level, x, p) && (p >= 0 ==> less(x.key, key))
        invariant forall j :: 0 <= j < |prev| ==> LastBefore(level + 1 + j, key, prev[j])
        decreases level, |levels[level]| - p
      {
        NextAt(level, x, p);
        var next := x.next[level];
        if KeyIsAfterNode(key, next) {
          x, p := next, p + 1;
        } else {
          StopsAt(level, key, x, p);
          prev := [x] + prev;
          if level == 0 {
            return next, prev;
          }
          p := Below(level, x, p);
          level := level - 1;
        }
      }
    }

    method FindLessThan(key: K) returns (x: Node<K>)
      requires Valid()
      ensures LastBefore(0, key, x)
    {
      hide Valid, Position, LastBefore, Keys;
      Sized();
      var level := maxHeight - 1;
      x := head;
      ghost var p := -1;
      while true
        invariant 0 <= level < maxHeight
        invariant Place(level, x, p) && (p >= 0 ==> less(x.key, key))
        decreases level, |levels[level]| - p
      {
        NextAt(level, x, p);
        var next := x.next[level];
        if next == null || !less(next.key, key) {
          StopsAt(level, key, x, p);
          if level == 0 {
            return;
          }
          p := Below(level, x, p);
          level := level - 1;
        } else {
          x, p := next, p + 1;
        }
      }
    }

    method FindLast() returns (x: Node<K>)
      requires Valid()
      ensures Place(0, x, |levels[0]| - 1)
    {
      hide Valid, Position, LastBefore, Keys;
      Sized();
      var level := maxHeight - 1;
      x := head;
      ghost var p := -1;
      while true
        invariant 0 <= level < maxHeight
        invariant Place(level, x, p)
        decreases level, |levels[level]| - p
      {
        NextAt(level, x, p);
        var next := x.next[level];
        if next == null {
          if level == 0 {
            return;
          }
          p := Below(level, x, p);
          level := level - 1;
        } else {
          x, p := next, p + 1;
        }
      }
    }

    method Contains(key: K) returns (r: bool)
      requires Valid()
      ensures r <==> !NoEqual(less, Contents(), key)
    {
      hide Valid, Position, NoEqual;
      Sized();
      var x, _ := FindGreaterOrEqual(key);
      FirstDecides(key);
      r := x != null && !less(key, x.key);
    }

    /** If the first key that is not less is greater, none is equal. */
    lemma FirstDecides(key: K)
      requires Valid()
      ensures var n := Position(less, Contents(), key);
              NoEqual(less, Contents(), key) <==> n == |levels[0]| || less(key, levels[0][n].key)
    {
      var keys, n := Contents(), Position(less, Contents(), key);
      hide Position, Linked, PartOf;
      assert Ascending(less, keys);
      PositionSplits(less, keys, key);
      forall q | n < q < |keys| ensures less(keys[n], keys[q]) {
      }
    }

    // -------------------------------------------------------------------------
    // Insert

    ghost function View(): (s: Lists<K>)
      reads this
    {
      Lists(seq(|levels|, i requires 0 <= i < |levels| reads this => Keys(levels[i])), maxHeight)
    }

    lemma ViewIsLayered()
      requires Valid()
      ensures Layered(less, View())
    {
      hide StrictOrder, Ascending, Linked;
      forall i, j | 0 <= i && i + 1 == j < MAX_HEIGHT ensures PartOf(View().levels[j], View().levels[i]) {
        KeysPart(levels[j], levels[i]);
      }
    }

    lemma Distinct(i: nat, p: nat, q: nat)
      requires Valid() && i < MAX_HEIGHT && p < q < |levels[i]|
      ensures levels[i][p] != levels[i][q]
    {
      hide Linked, PartOf;
      var keys := Keys(levels[i]);
      assert Ascending(less, keys);
      assert less(keys[p], keys[q]);
    }

    /** When all links are as before except the two that lead to the new node and on from it. */
    lemma RunsAgain(i: nat, x: Node<K>, row: seq<Node<K>>, p: nat)
      requires p <= |row| && i < |head.next| && head.next[i] == (if p == 0 then x else At(row, 0))
      requires i < |x.next| && x.next[i] == At(row, p)
      requires forall q :: 0 <= q < |row| ==> i < |row[q].next| && row[q].next[i] == if q == p - 1 then x
               else At(row, q + 1)
      ensures Runs(Splice(row, p, x), i)
    {
      hide Splice, At;
      var row' := Splice(row, p, x);
      SpliceAt(row, p, x, 0);
      forall q | 0 <= q < |row'| ensures Follows(row', i, q) {
        SpliceAt(row, p, x, q);
        SpliceAt(row, p, x, q + 1);
        AtIn(row', q);
        if q < p {
          AtIn(row, q);
        } else if q > p {
          AtIn(row, q - 1);
        }
      }
    }

    /** The two stores that put a node behind another one on a level. */
    method StoreLinks(i: nat, x: Node<K>, prev: Node<K>, ghost row: seq<Node<K>>, ghost p: nat)
      requires Runs(row, i) && i < |x.next| && i < |prev.next| && x != head && x !in row && head !in row
      requires p <= |row| && prev == (if p == 0 then head else row[p - 1])
      requires forall q :: 0 <= q < |row| && q != p - 1 ==> row[q] != prev
      modifies x, prev
      ensures x.next == old(x.next)[i := At(row, p)]
      ensures prev.next == old(prev.next)[i := x]
      ensures Runs(Splice(row, p, x), i)
      ensures forall j :: 0 <= j < |levels| && j != i && old(Runs(levels[j], j)) ==> Runs(levels[j], j)
    {
      assert p > 0 ==> Follows(row, i, p - 1);
      assert prev.next[i] == At(row, p);
      forall q | 0 <= q < |row| ensures i < |row[q].next| && row[q].next[i] == At(row, q + 1) {
        assert Follows(row, i, q);
      }
      hide At;
      x.SetNext(i, prev.next[i]);
      prev.SetNext(i, x);
      assert Runs(Splice(row, p, x), i) by {
        hide Follows, Runs;
        RunsAgain(i, x, row, p);
      }
      forall j | 0 <= j < |levels| && j != i && old(Runs(levels[j], j)) ensures Runs(levels[j], j) {
        forall q | 0 <= q < |levels[j]| ensures Follows(levels[j], j, q) {
          assert old(Follows(levels[j], j, q));
        }
      }
    }

    /** The node before a place appears nowhere else. */
    lemma OnlyThere(i: nat, x: Node<K>, p: nat)
      requires Valid() && i < MAX_HEIGHT && Place(i, x, p - 1)
      ensures forall q :: 0 <= q < |levels[i]| && q != p - 1 ==> levels[i][q] != x
    {
      hide StrictOrder, Ascending, PartOf, Runs;
      assert Linked(i);
      forall q | 0 <= q < |levels[i]| && q != p - 1 ensures levels[i][q] != x {
        if q < p - 1 {
          Distinct(i, q, p - 1);
        } else if p > 0 {
          Distinct(i, p - 1, q);
        }
      }
    }

    static lemma SplicedPart(upper: seq<Node<K>>, row: seq<Node<K>>, lower: seq<Node<K>>, p: nat, x: Node<K>)
      requires p <= |row|
      ensures PartOf(upper, row) ==> PartOf(upper, Splice(row, p, x))
      ensures PartOf(row, lower) && x in lower ==> PartOf(Splice(row, p, x), lower)
      ensures x in Splice(row, p, x)
      ensures forall q :: 0 <= q <= |row| ==> Splice(row, p, x)[q] in row || Splice(row, p, x)[q] == x
    {
      assert row == row[..p] + row[p..];
    }

    /** The keys of a level with the new node are the keys with the new key. */
    lemma SplicedKeys(row: seq<Node<K>>, x: Node<K>)
      requires StrictOrder(less) && Ascending(less, Keys(row)) && NoEqual(less, Keys(row), x.key)
      ensures Ascending(less, Keys(Splice(row, Position(less, Keys(row), x.key), x)))
      ensures Keys(Splice(row, Position(less, Keys(row), x.key), x)) == Inserted(less, Keys(row), x.key)
    {
      hide Position, StrictOrder, Ascending, NoEqual;
      KeysOfSplice(row, Position(less, Keys(row), x.key), x);
      InsertedAscending(less, Keys(row), x.key);
    }

    /** What a level with a new node is to the levels around it. */
    lemma LayersAgain(rows: seq<seq<Node<K>>>, i: nat, x: Node<K>)
      requires StrictOrder(less) && Layers(rows) && i < maxHeight && NoEqual(less, Keys(rows[i]), x.key)
      requires i > 0 ==> x in rows[i - 1]
      ensures var p := Position(less, Keys(rows[i]), x.key);
              && Layers(rows[i := Splice(rows[i], p, x)])
              && x in Splice(rows[i], p, x)
              && forall q :: 0 <= q <= |rows[i]| ==> Splice(rows[i], p, x)[q] in rows[i]
                                                     || Splice(rows[i], p, x)[q] == x
      ensures var p := Position(less, Keys(rows[i]), x.key);
              Keys(Splice(rows[i], p, x)) == Inserted(less, Keys(rows[i]), x.key)
    {
      hide StrictOrder, Ascending, PartOf, Position, Keys, NoEqual, Inserted, Splice;
      var p := Position(less, Keys(rows[i]), x.key);
      SplicedKeys(rows[i], x);
      SplicedPart(if i + 1 < MAX_HEIGHT then rows[i + 1] else [], rows[i], if i > 0 then rows[i - 1] else [], p, x);
    }

    /** A node goes on one more level. */
    method Publish(i: nat, x: Node<K>, prev: Node<K>)
      requires Valid() && i < maxHeight && i < |x.next| && x != head
      requires LastBefore(i, x.key, prev) && NoEqual(less, Keys(levels[i]), x.key)
      requires forall j :: 0 <= j < MAX_HEIGHT ==> (x in levels[j] <==> j < i)
      modifies this`levels, this`nodes, x, prev
      ensures Valid() && nodes == old(nodes) + {x}
      ensures levels == old(levels)[i := Splice(old(levels[i]), Position(less, Keys(old(levels[i])), x.key), x)]
      ensures Keys(levels[i]) == Inserted(less, old(Keys(levels[i])), x.key)
      ensures x in levels[i] && |x.next| == |old(x.next)|
      ensures StoreStep(less, old(View()), Store.Publish(i, x.key), View())
    {
      hide StrictOrder, Ascending, PartOf, Position, Keys, NoEqual, Inserted, Splice, At, Runs;
      ghost var p: int := Position(less, Keys(levels[i]), x.key);
      ghost var row := levels[i];
      assert Linked(i) && prev != x;
      NextAt(i, prev, p - 1);
      OnlyThere(i, prev, p);
      LayersAgain(levels, i, x);
      hide Layers;
      StoreLinks(i, x, prev, row, p);
      levels := levels[i := Splice(row, p, x)];
      nodes := nodes + {x};
      assert Linked(i);
      forall j | 0 <= j < MAX_HEIGHT && j != i ensures Linked(j) {
        assert old(Linked(j));
      }
    }

    /** The keys of every level are among the keys of the lowest. */
    lemma {:induction false} NoEqualAbove(i: nat, key: K)
      requires Layers(levels) && i < MAX_HEIGHT && NoEqual(less, Keys(levels[0]), key)
      ensures NoEqual(less, Keys(levels[i]), key)
    {
      if i > 0 {
        NoEqualAbove(i - 1, key);
        assert PartOf(levels[i], levels[i - 1]);
        KeysPart(levels[i], levels[i - 1]);
        var upper, lower := Keys(levels[i]), Keys(levels[i - 1]);
        forall p | 0 <= p < |upper| ensures less(upper[p], key) || less(key, upper[p]) {
          assert upper[p] in lower;
        }
      }
    }

    /** A new height: the levels below it are empty. */
    method Raise(height: nat)
      requires Valid() && maxHeight < height <= MAX_HEIGHT
      modifies this`maxHeight
      ensures Valid() && maxHeight == height
      ensures StoreStep(less, old(View()), Store.Raise(height), View())
    {
      hide StrictOrder, Ascending, PartOf, Keys;
      maxHeight := height;
      forall i | 0 <= i < MAX_HEIGHT ensures Linked(i) {
        assert old(Linked(i));
        forall p | 0 <= p < |levels[i]| ensures Follows(levels[i], i, p) {
          assert old(Follows(levels[i], i, p));
        }
      }
    }

    /** Where the key goes on every level below the height, which becomes the list's if it is higher. */
    method FindPrevious(key: K, height: nat) returns (prev: seq<Node<K>>)
      requires Valid() && NoEqual(less, Contents(), key) && 1 <= height <= MAX_HEIGHT
      modifies this`maxHeight
      ensures Valid() && maxHeight == if height > old(maxHeight) then height else old(maxHeight)
      ensures |prev| == maxHeight && forall i :: 0 <= i < maxHeight ==> LastBefore(i, key, prev[i])
      ensures forall i :: 0 <= i < MAX_HEIGHT ==> NoEqual(less, Keys(levels[i]), key)
    {
      hide Valid, Position, Keys, NoEqual, Inserted, Splice, At, Runs, Linked, View, StoreStep, PartOf, StrictOrder;
      var _, found := FindGreaterOrEqual(key);
      Sized();
      forall i | 0 <= i < MAX_HEIGHT ensures NoEqual(less, Keys(levels[i]), key) {
        InBase(i, key);
      }
      prev := found;
      if height > maxHeight {
        forall i | maxHeight <= i < height ensures LastBefore(i, key, head) {
          EmptyAbove(i, key);
        }
        prev := found + seq(height - maxHeight, _ => head);
        forall i | 0 <= i < height ensures LastBefore(i, key, prev[i]) {
          assert prev[i] == if i < |found| then found[i] else head;
        }
        Raise(height);
      }
    }

    /**
     Insert, for any height drawn: every store on the way is a step that concurrent searches withstand, and
     in the end the key is at its place on the levels below the height and nowhere else.
     */
    method Insert(key: K, height: nat)
      requires Valid() && NoEqual(less, Contents(), key) && 1 <= height <= MAX_HEIGHT
      modifies this`levels, this`nodes, this`maxHeight, head, nodes
      ensures Valid() && fresh(nodes - old(nodes))
      ensures maxHeight == if height > old(maxHeight) then height else old(maxHeight)
      ensures Contents() == Inserted(less, old(Contents()), key)
      ensures forall i :: 0 <= i < MAX_HEIGHT ==>
                Keys(levels[i]) == if i < height then Inserted(less, old(Keys(levels[i])), key)
                    else old(Keys(levels[i]))
    {
      hide Valid, Position, Keys, NoEqual, Inserted, Splice, At, Runs, Linked, View, StoreStep, PartOf, StrictOrder;
      var prev := FindPrevious(key, height);
      Sized();
      Held();
      var x := new Node(key, height);
      for i := 0 to height
        invariant Valid() && |levels| == MAX_HEIGHT && x != head && x.key == key && |x.next| == height
        invariant height <= maxHeight && maxHeight == if height > old(maxHeight) then height else old(maxHeight)
        invariant nodes == old(nodes) + (if i == 0 then {} else {x})
        invariant forall j :: i <= j < MAX_HEIGHT ==> levels[j] == old(levels[j])
        invariant forall j :: i <= j < height ==> LastBefore(j, key, prev[j])
        invariant forall j :: 0 <= j < i ==> x in levels[j]
        invariant forall j :: 0 <= j < i ==> Keys(levels[j]) == Inserted(less, old(Keys(levels[j])), key)
      {
        Publish(i, x, prev[i]);
      }
    }

    /** A key of the list is at its own place. */
    lemma PositionOfKey(n: nat)
      requires Valid() && n < |levels[0]|
      ensures Position(less, Contents(), levels[0][n].key) == n
    {
      hide Position, Linked, PartOf;
      var keys := Contents();
      assert Ascending(less, keys);
      PositionIs(less, keys, keys[n], n);
    }

    lemma Held()
      requires Valid()
      ensures head !in nodes && forall i, p :: 0 <= i < MAX_HEIGHT && 0 <= p < |levels[i]| ==> levels[i][p] in nodes
    {
      forall i, p | 0 <= i < MAX_HEIGHT && 0 <= p < |levels[i]| ensures levels[i][p] in nodes {
        assert Linked(i) && levels[i][p] in levels[i];
      }
    }

    lemma InBase(i: nat, key: K)
      requires Valid() && NoEqual(less, Contents(), key) && i < MAX_HEIGHT
      ensures NoEqual(less, Keys(levels[i]), key)
    {
      NoEqualAbove(i, key);
    }

    lemma EmptyAbove(i: nat, key: K)
      requires Valid() && maxHeight <= i < MAX_HEIGHT
      ensures LastBefore(i, key, head)
    {
      assert levels[i] == [];
    }
  }

  // ---------------------------------------------------------------------------
  // Iterators

  class Iterator<K(0,==,!new)> {
    const list: SkipList<K>
    var node: Node?<K>

    /** The iterator is at the n-th key; past the last one it is not valid. */
    ghost predicate Stands(n: nat)
      reads this, list
    {
      |list.levels| == MAX_HEIGHT && n <= |list.levels[0]| && node == At(list.levels[0], n)
    }

    constructor (list: SkipList<K>)
      requires |list.levels| == MAX_HEIGHT
      ensures this.list == list && Stands(|list.levels[0]|)
    {
      this.list := list;
      node := null;
    }

    predicate Valid()
      reads this
    {
      node != null
    }

    method Seek(target: K)
      requires list.Valid()
      modifies this
      ensures Stands(Position(list.less, list.Contents(), target))
    {
      list.Sized();
      var x, _ := list.FindGreaterOrEqual(target);
      node := x;
    }

    method SeekToFirst()
      requires list.Valid()
      modifies this
      ensures Stands(0)
    {
      list.Sized();
      list.NextAt(0, list.head, -1);
      node := list.head.next[0];
    }

    method SeekToLast()
      requires list.Valid()
      modifies this
      ensures Stands(if |list.levels[0]| == 0 then 0 else |list.levels[0]| - 1)
    {
      list.Sized();
      list.Held();
      var x := list.FindLast();
      node := if x == list.head then null else x;
    }

    method Next(ghost n: nat)
      requires list.Valid() && Stands(n) && Valid()
      modifies this
      ensures Stands(n + 1)
    {
      list.NextAt(0, node, n);
      node := node.next[0];
    }

    /** There are no links backwards: the last node before the current key is searched for. */
    method Prev(ghost n: nat)
      requires list.Valid() && Stands(n) && Valid()
      modifies this
      ensures if n > 0 then Stands(n - 1) else !Valid()
    {
      list.Held();
      list.PositionOfKey(n);
      var x := list.FindLessThan(node.key);
      node := if x == list.head then null else x;
    }
  }
}
