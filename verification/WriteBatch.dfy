/**
 Batches as bytes (db/write_batch.cc).
 */
module WriteBatch {
  import opened DbFormat
  import opened Coding

  const HEADER: nat := 12
  const TYPE_DELETION: Byte := 0
  const TYPE_VALUE: Byte := 1

  datatype Op = Put(key: Slice, val: Slice) | Delete(key: Slice)

  /** What a memtable is handed for one operation. */
  datatype Insertion = Insertion(number: nat, op: Op)

  // ---------------------------------------------------------------------------
  // The encoding

  function OpBytes(op: Op): (s: Slice)
    ensures |s| > 0
  {
    match op
    case Put(key, val) => [TYPE_VALUE] + LengthPrefixed(key) + LengthPrefixed(val)
    case Delete(key) => [TYPE_DELETION] + LengthPrefixed(key)
  }

  function OpsBytes(ops: seq<Op>): (s: Slice)
  {
    if ops == [] then [] else OpsBytes(ops[..|ops| - 1]) + OpBytes(ops[|ops| - 1])
  }

  predicate OpFits(op: Op)
  {
    |op.key| < TWO32 && (op.Put? ==> |op.val| < TWO32)
  }

  ghost predicate Fits(ops: seq<Op>)
  {
    |ops| < TWO32 && forall i :: 0 <= i < |ops| ==> OpFits(ops[i])
  }

  lemma OpsBytesPlus(ops: seq<Op>, op: Op)
    ensures OpsBytes(ops + [op]) == OpsBytes(ops) + OpBytes(op)
  {
    hide OpBytes;
    assert (ops + [op])[..|ops|] == ops;
  }

  lemma {:induction false} OpsBytesJoin(a: seq<Op>, b: seq<Op>)
    ensures OpsBytes(a + b) == OpsBytes(a) + OpsBytes(b)
    decreases |b|
  {
    hide OpBytes;
    if b == [] {
      assert a + b == a;
    } else {
      var init, last := b[..|b| - 1], b[|b| - 1];
      assert b == init + [last] && a + b == a + init + [last];
      OpsBytesPlus(a + init, last);
      OpsBytesPlus(init, last);
      OpsBytesJoin(a, init);
      hide OpsBytes;
      Assoc(OpsBytes(a), OpsBytes(init), OpBytes(last));
    }
  }

  // ---------------------------------------------------------------------------
  // Reading a batch

  /** One record and what follows it. */
  function TakeOp(s: Slice): (r: Option<(Op, Slice)>)
    ensures r.Some? ==> |r.value.1| < |s|
  {
    if s == [] then None
    else if s[0] == TYPE_VALUE then
      var key := TakeSlice(s[1..]);
      if key.None? then None
      else
        var val := TakeSlice(key.value.1);
        if val.None? then None else Some((Put(key.value.0, val.value.0), val.value.1))
    else if s[0] == TYPE_DELETION then
      var key := TakeSlice(s[1..]);
      if key.None? then None else Some((Delete(key.value.0), key.value.1))
    else None
  }

  /** The records of a batch; false if one of them is malformed. */
  function TakeOps(s: Slice): (r: (seq<Op>, bool))
    decreases |s|
  {
    if s == [] then ([], true)
    else
      var t := TakeOp(s);
      if t.None? then ([], false)
      else
        var more := TakeOps(t.value.1);
        ([t.value.0] + more.0, more.1)
  }

  lemma OpBack(op: Op, rest: Slice)
    requires OpFits(op)
    ensures TakeOp(OpBytes(op) + rest) == Some((op, rest))
  {
    hide TakeSlice, LengthPrefixed;
    match op
    case Put(key, val) =>
      var s := OpBytes(op) + rest;
      assert s[1..] == LengthPrefixed(key) + (LengthPrefixed(val) + rest);
      SliceRoundTrip(key, LengthPrefixed(val) + rest);
      SliceRoundTrip(val, rest);
    case Delete(key) =>
      assert (OpBytes(op) + rest)[1..] == LengthPrefixed(key) + rest;
      SliceRoundTrip(key, rest);
  }

  lemma NotEmpty(op: Op, rest: Slice)
    ensures OpBytes(op) + rest != []
  {
  }

  /** Every operation of a batch is read back, in order. */
  lemma {:induction false} OpsBack(ops: seq<Op>)
    requires forall i :: 0 <= i < |ops| ==> OpFits(ops[i])
    ensures TakeOps(OpsBytes(ops)) == (ops, true)
    decreases |ops|
  {
    hide OpBytes, TakeOp;
    if ops != [] {
      var rest := ops[1..];
      assert ops == [ops[0]] + rest;
      OpsBytesJoin([ops[0]], rest);
      OpsBytesPlus([], ops[0]);
      assert [] + [ops[0]] == [ops[0]];
      assert OpsBytes(ops) == OpBytes(ops[0]) + OpsBytes(rest);
      NotEmpty(ops[0], OpsBytes(rest));
      OpBack(ops[0], OpsBytes(rest));
      OpsBack(rest);
    }
  }

  /** The operations numbered from `first` on. */
  function NumberedFrom(ops: seq<Op>, first: nat): (r: seq<Insertion>)
    ensures |r| == |ops| && forall i :: 0 <= i < |ops| ==> r[i] == Insertion(first + i, ops[i])
  {
    seq(|ops|, i requires 0 <= i < |ops| => Insertion(first + i, ops[i]))
  }

  // ---------------------------------------------------------------------------
  // The batch

  class Batch {
    var rep: Slice
    ghost var ops: seq<Op>
    ghost var sequence: nat

    ghost predicate Ok()
      reads this
    {
      && Fits(ops) && sequence < TWO64
      && rep == Fixed(8, sequence) + Fixed(4, |ops|) + OpsBytes(ops)
    }

    constructor ()
      ensures Ok() && ops == [] && sequence == 0
    {
      rep := Fixed(8, 0) + Fixed(4, 0);
      ops, sequence := [], 0;
    }

    lemma Parts()
      requires Ok()
      ensures |rep| >= HEADER && rep[..8] == Fixed(8, sequence) && rep[8..12] == Fixed(4, |ops|)
              && rep[12..] == OpsBytes(ops)
    {
      hide Fixed, OpsBytes;
    }

    method Count() returns (n: nat)
      requires Ok()
      ensures n == |ops|
    {
      hide OpsBytes, Fixed, FromFixed, Pow2;
      Parts();
      Pow2Widths();
      FixedRoundTrip(4, |ops|);
      n := FromFixed(rep[8..12]);
    }

    method SetSequence(s: nat)
      requires Ok() && s < TWO64
      modifies this
      ensures Ok() && ops == old(ops) && sequence == s
    {
      hide OpsBytes, Fixed;
      Parts();
      rep := Fixed(8, s) + rep[8..];
      sequence := s;
      assert rep == Fixed(8, s) + Fixed(4, |ops|) + OpsBytes(ops);
    }

    method Sequence() returns (s: nat)
      requires Ok()
      ensures s == sequence
    {
      hide OpsBytes, Fixed, FromFixed, Pow2;
      Parts();
      Pow2Widths();
      FixedRoundTrip(8, sequence);
      s := FromFixed(rep[..8]);
    }

    /** SetCount, and then the bytes of the new records. */
    method Extend(n: nat, bytes: Slice, ghost more: seq<Op>)
      requires Ok() && n == |ops| + |more| && bytes == OpsBytes(more) && Fits(ops + more)
      modifies this
      ensures Ok() && ops == old(ops) + more && sequence == old(sequence)
    {
      hide OpsBytes, Fixed;
      Parts();
      OpsBytesJoin(ops, more);
      rep := rep[..8] + Fixed(4, n) + rep[12..];
      rep := rep + bytes;
      ops := ops + more;
      assert rep == Fixed(8, sequence) + Fixed(4, |ops|) + OpsBytes(ops);
    }

    method Put(key: Slice, val: Slice)
      requires Ok() && |ops| + 1 < TWO32 && |key| < TWO32 && |val| < TWO32
      modifies this
      ensures Ok() && ops == old(ops) + [Op.Put(key, val)] && sequence == old(sequence)
    {
      hide Fixed, LengthPrefixed;
      var n := Count();
      OneOp(Op.Put(key, val));
      Extend(n + 1, [TYPE_VALUE] + LengthPrefixed(key) + LengthPrefixed(val), [Op.Put(key, val)]);
    }

    method Delete(key: Slice)
      requires Ok() && |ops| + 1 < TWO32 && |key| < TWO32
      modifies this
      ensures Ok() && ops == old(ops) + [Op.Delete(key)] && sequence == old(sequence)
    {
      hide Fixed, LengthPrefixed;
      var n := Count();
      OneOp(Op.Delete(key));
      Extend(n + 1, [TYPE_DELETION] + LengthPrefixed(key), [Op.Delete(key)]);
    }

    /** WriteBatchInternal::Append: the records of `src` follow; its header does not. */
    method Append(src: Batch)
      requires Ok() && src.Ok() && src != this && |ops| + |src.ops| < TWO32
      modifies this
      ensures Ok() && ops == old(ops) + src.ops && sequence == old(sequence)
    {
      hide Fixed, OpsBytes;
      var n := Count();
      var m := src.Count();
      src.Parts();
      Extend(n + m, src.rep[HEADER..], src.ops);
    }

    /** InsertInto: every operation goes to the memtable under its own number. */
    method InsertInto() returns (mem: seq<Insertion>, ok: bool)
      requires Ok()
      ensures ok && mem == NumberedFrom(ops, sequence)
    {
      hide Fixed, OpsBytes, FromFixed;
      var first := Sequence();
      var found;
      found, ok := Iterate(rep);
      Iterated(rep, ops, sequence);
      mem := NumberedFrom(found, first);
    }
  }

  lemma OneOp(op: Op)
    ensures OpsBytes([op]) == OpBytes(op)
  {
    assert OpsBytes([]) == [];
  }

  /** What iterating over the bytes of a batch finds, and whether they are well formed. */
  function IteratedOps(rep: Slice): (r: (seq<Op>, bool))
  {
    if |rep| < HEADER then ([], false)
    else
      var t := TakeOps(rep[HEADER..]);
      (t.0, t.1 && |t.0| == FromFixed(rep[8..12]))
  }

  /** WriteBatch::Iterate: too small, a bad record or a wrong count is an error. */
  method Iterate(rep: Slice) returns (found: seq<Op>, ok: bool)
    ensures (found, ok) == IteratedOps(rep)
  {
    hide TakeOp;
    found := [];
    if |rep| < HEADER {
      return found, false;
    }
    var input := rep[HEADER..];
    while input != []
      invariant TakeOps(rep[HEADER..]).0 == found + TakeOps(input).0
      invariant TakeOps(rep[HEADER..]).1 == TakeOps(input).1
      decreases |input|
    {
      var t := TakeOp(input);
      if t.None? {
        assert found + [] == found;
        return found, false;
      }
      found := found + [t.value.0];
      input := t.value.1;
    }
    assert found + [] == found;
    ok := |found| == FromFixed(rep[8..12]);
  }

  lemma Iterated(rep: Slice, ops: seq<Op>, s: nat)
    requires Fits(ops) && s < TWO64 && rep == Fixed(8, s) + Fixed(4, |ops|) + OpsBytes(ops)
    ensures IteratedOps(rep) == (ops, true)
  {
    hide Fixed, FromFixed, OpsBytes, TakeOps, Pow2;
    assert rep[HEADER..] == OpsBytes(ops) && rep[8..12] == Fixed(4, |ops|);
    Pow2Widths();
    FixedRoundTrip(4, |ops|);
    OpsBack(ops);
  }
}
