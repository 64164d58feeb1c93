/**
 The hash table of the cache (util/cache.cc: HandleTable): an array of chains that is doubled when
 there are more entries than chains.
 */
module HandleTable {
  import opened DbFormat
  import opened Coding
  import Filter

  /** HashSlice: Hash with seed 0. */
  function HashSlice(key: Slice): (h: nat)
    ensures h < TWO32
  {
    Filter.HashFrom(|key| * Filter.HASH_M % TWO32, key) % TWO32
  }

  /** A cache entry, as far as the table looks at it. */
  datatype Item = Item(id: nat, key: Slice, hash: nat)

  // ---------------------------------------------------------------------------
  // Chains

  /** Every item is in the chain of its hash, and no key is there twice. */
  ghost predicate Placed(list: seq<seq<Item>>)
  {
    && (forall b, i :: 0 <= b < |list| && 0 <= i < |list[b]| ==> list[b][i].hash == HashSlice(list[b][i].key)
                                                                 && list[b][i].hash % |list| == b)
    && (forall b, i, j :: 0 <= b < |list| && 0 <= i < j < |list[b]| ==> list[b][i].key != list[b][j].key)
  }

  /** Is the entry in the chain where a lookup goes? */
  ghost predicate Finds(list: seq<seq<Item>>, key: Slice, id: nat)
  {
    |list| > 0 && Item(id, key, HashSlice(key)) in list[HashSlice(key) % |list|]
  }

  /** The chains hold exactly what the map says. */
  ghost predicate Holds(list: seq<seq<Item>>, contents: map<Slice, nat>)
  {
    forall key: Slice, id: nat :: Finds(list, key, id) <==> key in contents && contents[key] == id
  }

  function Total(list: seq<seq<Item>>): (n: nat)
  {
    if list == [] then 0 else Total(list[..|list| - 1]) + |list[|list| - 1]|
  }

  lemma {:induction false} TotalUpdate(list: seq<seq<Item>>, b: nat, chain: seq<Item>)
    requires b < |list|
    ensures Total(list[b := chain]) + |list[b]| == Total(list) + |chain|
  {
    var n := |list| - 1;
    if b == n {
      assert list[b := chain][..n] == list[..n];
    } else {
      assert list[b := chain][..n] == list[..n][b := chain];
      TotalUpdate(list[..n], b, chain);
    }
  }

  lemma NoTotal()
    ensures Total([]) == 0
  {
  }

  lemma TotalStep(list: seq<seq<Item>>, i: nat)
    requires i < |list|
    ensures Total(list[..i + 1]) == Total(list[..i]) + |list[i]|
  {
    assert list[..i + 1][..i] == list[..i];
  }

  lemma {:induction false} TotalOfEmpty(n: nat)
    ensures Total(seq(n, _ => [])) == 0
  {
    if n > 0 {
      var list: seq<seq<Item>> := seq(n, _ => []);
      assert list[..n - 1] == seq(n - 1, _ => []);
      TotalOfEmpty(n - 1);
    }
  }

  /** A chain with another item in front or at its end, for a key that it does not have. */
  lemma AddedPlaced(list: seq<seq<Item>>, item: Item, b: nat, chain: seq<Item>)
    requires Placed(list) && b < |list| && item.hash == HashSlice(item.key) && item.hash % |list| == b
    requires forall i :: 0 <= i < |list[b]| ==> list[b][i].key != item.key
    requires chain == [item] + list[b] || chain == list[b] + [item]
    ensures Placed(list[b := chain])
    ensures forall key: Slice, id: nat :: Finds(list[b := chain], key, id) <==>
            Finds(list, key, id) || (key == item.key && id == item.id)
  {
    hide HashSlice;
    var list' := list[b := chain];
    forall key: Slice, id: nat ensures Finds(list', key, id) <==>
        Finds(list, key, id) || (key == item.key && id == item.id) {
      var c := HashSlice(key) % |list|;
      assert list'[c] == if c == b then chain else list[c];
    }
  }

  /** A chain in which an item takes the place of one with the same key. */
  lemma ReplacedPlaced(list: seq<seq<Item>>, item: Item, b: nat, p: nat)
    requires Placed(list) && b < |list| && p < |list[b]| && list[b][p].key == item.key && item.hash == list[b][p].hash
    ensures Placed(list[b := list[b][p := item]])
    ensures forall key: Slice, id: nat :: Finds(list[b := list[b][p := item]], key, id)
                              <==> if key == item.key then id == item.id else Finds(list, key, id)
  {
    hide HashSlice;
    var list' := list[b := list[b][p := item]];
    forall key: Slice, id: nat ensures Finds(list', key, id) <==> if key == item.key then id == item.id
        else Finds(list, key, id) {
      var c := HashSlice(key) % |list|;
      if c == b {
        UpdatedHas(list[b], p, item, Item(id, key, HashSlice(key)));
        if key == item.key && Item(id, key, HashSlice(key)) in list'[b] {
          var i :| 0 <= i < |list[b]| && list'[b][i] == Item(id, key, HashSlice(key));
          assert i == p;
        }
      } else {
        assert list'[c] == list[c];
      }
    }
  }

  lemma UpdatedHas(chain: seq<Item>, p: nat, item: Item, x: Item)
    requires p < |chain|
    ensures item in chain[p := item]
    ensures x != item && x != chain[p] ==> (x in chain[p := item] <==> x in chain)
  {
    assert chain[p := item][p] == item;
    if x != chain[p] && x in chain {
      var i :| 0 <= i < |chain| && chain[i] == x;
      assert chain[p := item][i] == x;
    }
  }

  /** A chain without one of its items. */
  lemma RemovedPlaced(list: seq<seq<Item>>, b: nat, p: nat)
    requires Placed(list) && b < |list| && p < |list[b]|
    ensures Placed(list[b := list[b][..p] + list[b][p + 1..]])
    ensures forall key: Slice, id: nat :: Finds(list[b := list[b][..p] + list[b][p + 1..]], key, id)
                              <==> key != list[b][p].key && Finds(list, key, id)
  {
    hide HashSlice;
    var chain := list[b][..p] + list[b][p + 1..];
    var list' := list[b := chain];
    assert forall i :: 0 <= i < |chain| ==> chain[i] == list[b][if i < p then i else i + 1];
    forall key: Slice, id: nat ensures Finds(list', key, id) <==> key != list[b][p].key && Finds(list, key, id) {
      var c := HashSlice(key) % |list|;
      if c == b {
        ShortenedHas(list[b], p, Item(id, key, HashSlice(key)));
      } else {
        assert list'[c] == list[c];
      }
    }
  }

  lemma ShortenedHas(chain: seq<Item>, p: nat, x: Item)
    requires p < |chain| && forall i, j :: 0 <= i < j < |chain| ==> chain[i].key != chain[j].key
    ensures x in chain[..p] + chain[p + 1..] ==> x in chain && x.key != chain[p].key
    ensures x in chain && x != chain[p] ==> x in chain[..p] + chain[p + 1..]
  {
    var short := chain[..p] + chain[p + 1..];
    if x in short {
      var i :| 0 <= i < |short| && short[i] == x;
      assert chain[if i < p then i else i + 1] == x;
    }
    if x in chain && x != chain[p] {
      var i :| 0 <= i < |chain| && chain[i] == x;
      assert short[if i < p then i else i - 1] == x;
    }
  }

  lemma HoldsWith(list: seq<seq<Item>>, list': seq<seq<Item>>, contents: map<Slice, nat>, key: Slice, id: nat)
    requires Holds(list, contents)
    requires forall k: Slice, i: nat :: Finds(list', k, i) <==> if k == key then i == id else Finds(list, k, i)
    ensures Holds(list', contents[key := id])
  {
    hide Finds;
  }

  lemma HoldsWithout(list: seq<seq<Item>>, list': seq<seq<Item>>, contents: map<Slice, nat>, key: Slice)
    requires Holds(list, contents)
    requires forall k: Slice, i: nat :: Finds(list', k, i) <==> k != key && Finds(list, k, i)
    ensures Holds(list', contents - {key})
  {
    hide Finds;
  }

  /** What Insert does when the key is there. */
  lemma Replaced(list: seq<seq<Item>>, contents: map<Slice, nat>, item: Item, b: nat, p: nat)
    requires Placed(list) && Holds(list, contents) && b < |list| && p < |list[b]| && list[b][p].key == item.key
             && item.hash == list[b][p].hash
    ensures var list' := list[b := list[b][p := item]];
            Placed(list') && Holds(list', contents[item.key := item.id]) && Total(list') == Total(list)
  {
    hide HashSlice, Placed, Total, Finds;
    var list' := list[b := list[b][p := item]];
    ReplacedPlaced(list, item, b, p);
    assert forall k: Slice, i: nat :: Finds(list', k, i) <==> if k == item.key then i == item.id else Finds(list, k, i);
    HoldsWith(list, list', contents, item.key, item.id);
    TotalUpdate(list, b, list[b][p := item]);
  }

  /** What Insert does when the key is new. */
  lemma Added(list: seq<seq<Item>>, contents: map<Slice, nat>, item: Item, b: nat)
    requires Placed(list) && Holds(list, contents) && b < |list| && item.hash == HashSlice(item.key)
             && item.hash % |list| == b
    requires item.key !in contents && forall i :: 0 <= i < |list[b]| ==> list[b][i].key != item.key
    ensures var list' := list[b := list[b] + [item]];
            Placed(list') && Holds(list', contents[item.key := item.id]) && Total(list') == Total(list) + 1
  {
    hide HashSlice, Placed, Total, Finds;
    var list' := list[b := list[b] + [item]];
    AddedPlaced(list, item, b, list[b] + [item]);
    forall k: Slice, i: nat ensures Finds(list', k, i) <==> if k == item.key then i == item.id else Finds(list, k, i) {
      assert k == item.key ==> !Finds(list, k, i);
    }
    HoldsWith(list, list', contents, item.key, item.id);
    TotalUpdate(list, b, list[b] + [item]);
  }

  /** What Remove does when the key is there. */
  lemma Removed(list: seq<seq<Item>>, contents: map<Slice, nat>, b: nat, p: nat)
    requires Placed(list) && Holds(list, contents) && b < |list| && p < |list[b]|
    ensures var list' := list[b := list[b][..p] + list[b][p + 1..]];
            Placed(list') && Holds(list', contents - {list[b][p].key}) && Total(list') + 1 == Total(list)
  {
    hide HashSlice, Placed, Total, Finds;
    var list' := list[b := list[b][..p] + list[b][p + 1..]];
    RemovedPlaced(list, b, p);
    HoldsWithout(list, list', contents, list[b][p].key);
    TotalUpdate(list, b, list[b][..p] + list[b][p + 1..]);
  }

  class HandleTable {
    var elems: nat
    /** The length is a power of two, so that taking the low bits of a hash is taking a remainder. */
    var list: seq<seq<Item>>
    ghost var contents: map<Slice, nat>

    ghost predicate Ok()
      reads this
    {
      && |list| >= 4 && Placed(list) && Holds(list, contents)
      && elems == Total(list) == |contents|
    }

    constructor ()
      ensures Ok() && contents == map[]
    {
      elems := 0;
      list := seq(4, _ => []);
      contents := map[];
      TotalOfEmpty(4);
    }

    /** FindPointer: where in its chain the key is, or the end of the chain. */
    method FindPointer(key: Slice, hash: nat) returns (p: nat)
      requires Ok() && hash == HashSlice(key)
      ensures var chain := list[hash % |list|];
              && p <= |chain|
              && (p < |chain| <==> key in contents)
              && (p < |chain| ==> chain[p].key == key && chain[p].hash == hash && chain[p].id == contents[key])
              && (p == |chain| ==> forall i :: 0 <= i < |chain| ==> chain[i].key != key)
    {
      hide HashSlice, Total;
      p := 0;
      var b := hash % |list|;
      while p < |list[b]| && (list[b][p].hash != hash || list[b][p].key != key)
        invariant p <= |list[b]|
        invariant forall i :: 0 <= i < p ==> list[b][i].key != key
      {
        p := p + 1;
      }
      assert p < |list[b]| ==> Finds(list, key, list[b][p].id);
      assert key in contents ==> Finds(list, key, contents[key]);
    }

    method Lookup(key: Slice, hash: nat) returns (r: Option<nat>)
      requires Ok() && hash == HashSlice(key)
      ensures r == if key in contents then Some(contents[key]) else None
    {
      hide HashSlice, Placed, Holds, Total;
      var p := FindPointer(key, hash);
      var chain := list[hash % |list|];
      r := if p < |chain| then Some(chain[p].id) else None;
    }

    /** Insert: the new entry takes the place of one with the same key, which is returned. */
    method Insert(id: nat, key: Slice, hash: nat) returns (replaced: Option<nat>)
      requires Ok() && hash == HashSlice(key)
      modifies this
      ensures Ok() && contents == old(contents)[key := id]
      ensures replaced == if key in old(contents) then Some(old(contents)[key]) else None
    {
      hide HashSlice, Placed, Total, Holds;
      var p := FindPointer(key, hash);
      var b, item := hash % |list|, Item(id, key, hash);
      var chain := list[b];
      if p < |chain| {
        replaced := Some(chain[p].id);
        Replaced(list, contents, item, b, p);
        list := list[b := chain[p := item]];
        contents := contents[key := id];
      } else {
        replaced := None;
        Added(list, contents, item, b);
        list := list[b := chain + [item]];
        contents := contents[key := id];
        elems := elems + 1;
        if elems > |list| {
          Resize();
        }
      }
    }

    lemma ReplacedItem(b: nat, p: nat)
      requires Placed(list) && b < |list| && p < |list[b]|
      ensures list[b][p].hash % |list| == b && list[b][p].hash == HashSlice(list[b][p].key)
    {
      hide HashSlice;
    }

    method Remove(key: Slice, hash: nat) returns (r: Option<nat>)
      requires Ok() && hash == HashSlice(key)
      modifies this
      ensures Ok() && contents == old(contents) - {key}
      ensures r == if key in old(contents) then Some(old(contents)[key]) else None
    {
      hide HashSlice, Placed, Total, Holds;
      var p := FindPointer(key, hash);
      var b := hash % |list|;
      var chain := list[b];
      r := None;
      if p < |chain| {
        r := Some(chain[p].id);
        Removed(list, contents, b, p);
        list := list[b := chain[..p] + chain[p + 1..]];
        contents := contents - {key};
        elems := elems - 1;
      }
    }

    /** Resize: every item moves to the front of its chain among twice as many, or more. */
    method Resize()
      requires |list| >= 4 && Placed(list) && Holds(list, contents) && elems == Total(list) == |contents|
      modifies this
      ensures Ok() && contents == old(contents)
    {
      hide HashSlice, Placed, Total, Holds;
      var newLength: nat := 4;
      while newLength < elems
        invariant newLength >= 4
        decreases elems - newLength
      {
        newLength := newLength * 2;
      }
      var newList: seq<seq<Item>> := seq(newLength, _ => []);
      TotalOfEmpty(newLength);
      EmptyPlaced(newLength);
      var count := 0;
      assert list[..0] == [];
      NoTotal();
      for i := 0 to |list|
        invariant list == old(list) && contents == old(contents) && elems == old(elems)
        invariant |newList| == newLength && Placed(newList) && count == Total(newList) == Total(list[..i])
        invariant Moved(list, newList, i, 0)
      {
        newList := MoveChain(newList, i);
        count := count + |list[i]|;
        TotalStep(list, i);
      }
      assert list[..|list|] == list;
      assert count == elems;
      AllMoved(list, newList, contents);
      list := newList;
    }

    /** The items of one chain, one after the other. */
    method MoveChain(newList0: seq<seq<Item>>, i: nat) returns (newList: seq<seq<Item>>)
      requires Placed(list) && i < |list| && |newList0| >= 4 && Placed(newList0) && Moved(list, newList0, i, 0)
      ensures |newList| == |newList0| && Placed(newList) && Moved(list, newList, i + 1, 0)
      ensures Total(newList) == Total(newList0) + |list[i]|
    {
      hide HashSlice, Placed, Total, Moved;
      newList := newList0;
      for j := 0 to |list[i]|
        invariant |newList| == |newList0| && Placed(newList) && Moved(list, newList, i, j)
        invariant Total(newList) == Total(newList0) + j
      {
        var h := list[i][j];
        var b := h.hash % |newList|;
        ReplacedItem(i, j);
        NotYetMoved(list, newList, i, j);
        AddedPlaced(newList, h, b, [h] + newList[b]);
        TotalUpdate(newList, b, [h] + newList[b]);
        OneMoved(list, newList, newList[b := [h] + newList[b]], i, j);
        newList := newList[b := [h] + newList[b]];
      }
      ChainMoved(list, newList, i);
    }
  }

  lemma EmptyPlaced(n: nat)
    ensures Placed(seq(n, _ => []))
  {
  }

  /** Has the entry been reached after `i` chains and `j` items of the next? */
  ghost predicate Reached(list: seq<seq<Item>>, i: nat, j: nat, item: Item)
  {
    || (exists b :: 0 <= b < i && b < |list| && item in list[b])
    || (i < |list| && j <= |list[i]| && item in list[i][..j])
  }

  /** The new chains hold exactly the entries that have been reached. */
  ghost predicate Moved(list: seq<seq<Item>>, newList: seq<seq<Item>>, i: nat, j: nat)
  {
    forall key: Slice, id: nat :: Finds(newList, key, id) <==> Reached(list, i, j, Item(id, key, HashSlice(key)))
  }

  /** No key is reached twice. */
  lemma NotYetMoved(list: seq<seq<Item>>, newList: seq<seq<Item>>, i: nat, j: nat)
    requires Placed(list) && Placed(newList) && Moved(list, newList, i, j) && i < |list| && j < |list[i]|
             && |newList| > 0
    ensures var b := list[i][j].hash % |newList|;
            forall k :: 0 <= k < |newList[b]| ==> newList[b][k].key != list[i][j].key
  {
    hide HashSlice, Reached;
    var h := list[i][j];
    var b := h.hash % |newList|;
    forall k | 0 <= k < |newList[b]| ensures newList[b][k].key != h.key {
      var x := newList[b][k];
      assert x == Item(x.id, x.key, HashSlice(x.key)) && x.hash % |newList| == b;
      assert Finds(newList, x.key, x.id);
      SameChain(list, i, j, x);
    }
  }

  lemma SameChain(list: seq<seq<Item>>, i: nat, j: nat, x: Item)
    requires Placed(list) && i < |list| && j < |list[i]| && Reached(list, i, j, x)
    ensures x.key != list[i][j].key
  {
    hide HashSlice;
    assert list[i][j].hash == HashSlice(list[i][j].key) && list[i][j].hash % |list| == i;
    if c :| 0 <= c < i && c < |list| && x in list[c] {
      var p :| 0 <= p < |list[c]| && list[c][p] == x;
      assert list[c][p].hash == HashSlice(x.key) && list[c][p].hash % |list| == c;
    } else {
      var p :| 0 <= p < j && list[i][p] == x;
    }
  }

  lemma OneMoved(list: seq<seq<Item>>, newList: seq<seq<Item>>, newList': seq<seq<Item>>, i: nat, j: nat)
    requires Placed(list) && Moved(list, newList, i, j) && i < |list| && j < |list[i]|
    requires forall key: Slice, id: nat :: Finds(newList', key, id) <==>
             Finds(newList, key, id) || (key == list[i][j].key && id == list[i][j].id)
    ensures Moved(list, newList', i, j + 1)
  {
    hide Finds, HashSlice;
    var h := list[i][j];
    assert h == Item(h.id, h.key, HashSlice(h.key));
    assert list[i][..j + 1] == list[i][..j] + [h];
    forall item ensures Reached(list, i, j + 1, item) <==> Reached(list, i, j, item) || item == h {
    }
  }

  lemma ChainMoved(list: seq<seq<Item>>, newList: seq<seq<Item>>, i: nat)
    requires i < |list| && Moved(list, newList, i, |list[i]|)
    ensures Moved(list, newList, i + 1, 0)
  {
    hide Finds, HashSlice;
    assert list[i][..|list[i]|] == list[i];
    forall item ensures Reached(list, i + 1, 0, item) <==> Reached(list, i, |list[i]|, item) {
      ReachedChain(list, i, item);
    }
  }

  lemma ReachedChain(list: seq<seq<Item>>, i: nat, item: Item)
    requires i < |list|
    ensures Reached(list, i + 1, 0, item) <==> Reached(list, i, |list[i]|, item)
  {
    assert list[i][..|list[i]|] == list[i];
    if item in list[i] {
      assert Reached(list, i + 1, 0, item);
    }
  }

  lemma AllMoved(list: seq<seq<Item>>, newList: seq<seq<Item>>, contents: map<Slice, nat>)
    requires Placed(list) && Holds(list, contents) && Moved(list, newList, |list|, 0) && |list| > 0
    ensures Holds(newList, contents)
  {
    hide HashSlice;
    forall key: Slice, id: nat ensures Finds(newList, key, id) <==> Finds(list, key, id) {
      var item := Item(id, key, HashSlice(key));
      assert Finds(newList, key, id) <==> Reached(list, |list|, 0, item);
      if b :| 0 <= b < |list| && item in list[b] {
        var p :| 0 <= p < |list[b]| && list[b][p] == item;
        assert list[b][p].hash % |list| == b;
      }
    }
  }
}
