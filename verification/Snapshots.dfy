/**
 The list of live snapshots (db/snapshot.h): a doubly-linked circular list with a dummy head, in the order
 in which the snapshots were taken.
 */
module Snapshots {

  class SnapshotImpl {
    const number: nat
    var prev: SnapshotImpl?
    var next: SnapshotImpl?

    constructor (number: nat)
      ensures this.number == number && prev == null && next == null
    {
      this.number := number;
      prev := null;
      next := null;
    }
  }

  function Successor(ring: seq<SnapshotImpl>, i: nat): (s: SnapshotImpl)
    requires i < |ring|
  {
    if i + 1 < |ring| then ring[i + 1] else ring[0]
  }

  ghost predicate Joined(ring: seq<SnapshotImpl>, i: nat)
    requires i < |ring|
    reads ring
  {
    ring[i].next == Successor(ring, i) && Successor(ring, i).prev == ring[i]
  }

  /** Links in both directions between neighbours, and each snapshot once. */
  ghost predicate Linked(ring: seq<SnapshotImpl>)
    reads ring
  {
    && (forall i, j :: 0 <= i < j < |ring| ==> ring[i] != ring[j])
    && forall i :: 0 <= i < |ring| ==> Joined(ring, i)
  }

  function Without(ring: seq<SnapshotImpl>, k: nat): (r: seq<SnapshotImpl>)
    requires k < |ring|
    ensures |r| == |ring| - 1
  {
    ring[..k] + ring[k + 1..]
  }

  /** Only the neighbour before the place gets another successor. */
  lemma SuccessorWithout(ring: seq<SnapshotImpl>, k: nat, i: nat)
    requires 0 < k < |ring| && i < |ring| - 1
    ensures var j := if i < k then i else i + 1;
            && Without(ring, k)[i] == ring[j]
            && Successor(Without(ring, k), i) == Successor(ring, if i == k - 1 then k else j)
  {
  }

  lemma SuccessorOf(ring: seq<SnapshotImpl>, k: nat)
    requires 0 < k < |ring|
    ensures Successor(ring, k - 1) == ring[k] && Successor(ring, k) in ring
  {
  }

  class SnapshotList {
    const list: SnapshotImpl
    ghost var order: seq<SnapshotImpl>

    /** Snapshots are taken at sequence numbers that never decrease. */
    ghost predicate Valid()
      reads this, [list] + order
    {
      Linked([list] + order) && forall i, j :: 0 <= i < j < |order| ==> order[i].number <= order[j].number
    }

    constructor ()
      ensures Valid() && order == [] && fresh(list)
    {
      list := new SnapshotImpl(0);
      order := [];
      new;
      list.prev, list.next := list, list;
    }

    method Empty() returns (r: bool)
      requires Valid()
      ensures r <==> order == []
    {
      r := list.next == list;
      assert list == ([list] + order)[0] && Joined([list] + order, 0);
    }

    /** No live snapshot is older. */
    method Oldest() returns (s: SnapshotImpl)
      requires Valid() && order != []
      ensures s == order[0] && forall t :: t in order ==> s.number <= t.number
    {
      assert list == ([list] + order)[0] && Joined([list] + order, 0);
      s := list.next;
    }

    method Newest() returns (s: SnapshotImpl)
      requires Valid() && order != []
      ensures s == order[|order| - 1] && forall t :: t in order ==> t.number <= s.number
    {
      assert Joined([list] + order, |order|);
      s := list.prev;
    }

    method New(number: nat) returns (s: SnapshotImpl)
      requires Valid() && forall t :: t in order ==> t.number <= number
      modifies this, [list] + order
      ensures Valid() && fresh(s) && s.number == number
      ensures order == old(order) + [s]
    {
      ghost var ring := [list] + order;
      assert Joined(ring, |order|);
      s := new SnapshotImpl(number);
      s.next := list;
      s.prev := list.prev;
      s.prev.next := s;
      s.next.prev := s;
      order := order + [s];
      ghost var ring' := [list] + order;
      assert ring' == ring + [s];
      forall i | 0 <= i < |ring'| ensures Joined(ring', i) {
        assert i < |ring| ==> old(Joined(ring, i));
      }
    }

    method Delete(s: SnapshotImpl, ghost k: nat)
      requires Valid() && k < |order| && order[k] == s
      modifies this, [list] + order
      ensures Valid() && order == old(order)[..k] + old(order)[k + 1..]
    {
      ghost var ring := [list] + order;
      assert Joined(ring, k) && Joined(ring, k + 1);
      Unlink(s, ring, k + 1);
      order := order[..k] + order[k + 1..];
      assert [list] + order == Without(ring, k + 1);
    }

    static method Unlink(s: SnapshotImpl, ghost ring: seq<SnapshotImpl>, ghost k: nat)
      requires Linked(ring) && 0 < k < |ring| && ring[k] == s
      modifies ring
      ensures Linked(Without(ring, k))
    {
      SuccessorOf(ring, k);
      hide Successor, Without;
      assert Joined(ring, k - 1) && Joined(ring, k);
      forall i | 0 <= i < |ring| && i != k ensures Successor(ring, i) != s.next {
        assert Joined(ring, i);
      }
      s.prev.next := s.next;
      s.next.prev := s.prev;
      forall i | 0 <= i < |ring| - 1 ensures Joined(Without(ring, k), i) {
        SuccessorWithout(ring, k, i);
        assert old(Joined(ring, if i < k then i else i + 1));
      }
      forall i, j | 0 <= i < j < |ring| - 1 ensures Without(ring, k)[i] != Without(ring, k)[j] {
        SuccessorWithout(ring, k, i);
        SuccessorWithout(ring, k, j);
      }
    }
  }
}
