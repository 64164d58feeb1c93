/**
 Messages and their descriptors (nanopb: pb.h, pb_common.c), for statically allocated fields.
 */
module PbModel {
  import opened DbFormat

  /** Data types, with the size in bytes of an integer or the room for the contents of a byte string. */
  datatype LType =
    | VarintType(size: nat)
    | UVarintType(size: nat)
    | SVarintType(size: nat)
    | Fixed32Type
    | Fixed64Type
    | BytesType(room: nat)
    | StringType(room: nat)
    | MessageType(fields: seq<Field>)
    | FixedBytesType(size: nat)

  /** How often a field occurs; a proto3 field is optional without a flag of its own. */
  datatype HType = Required | Optional(hasFlag: bool) | Repeated(arraySize: nat) | OneOf

  /** A field.  A member of a oneof after the first is joined: it shares the place of the member before it. */
  datatype Field = Field(tag: nat, h: HType, l: LType, initial: Value, joined: bool)

  /** A string is its characters up to the first zero byte or the end of its buffer. */
  datatype Value = Number(n: int) | Blob(b: Slice) | Message(slots: seq<Slot>)

  /** What the structure holds for a field, or for all members of a oneof together. */
  datatype Slot =
    | One(v: Value)
    | Maybe(has: bool, v: Value)
    | Many(count: nat, items: seq<Value>)
    | Choice(which: nat, v: Value)

  predicate IsInteger(l: LType)
  {
    l.VarintType? || l.UVarintType? || l.SVarintType? || l.Fixed32Type? || l.Fixed64Type?
  }

  // ---------------------------------------------------------------------------
  // Where fields are

  /** How many places the first `n` fields take. */
  function Places(fields: seq<Field>, n: nat): (p: nat)
    requires n <= |fields|
    ensures n > 0 ==> 0 < p <= n
  {
    if n == 0 then 0 else Places(fields, n - 1) + (if n > 1 && fields[n - 1].joined then 0 else 1)
  }

  /** Where the structure holds field `i`. */
  function PlaceOf(fields: seq<Field>, i: nat): (p: nat)
    requires i < |fields|
  {
    Places(fields, i + 1) - 1
  }

  /** How many of the first `n` fields are required. */
  function RequiredBefore(fields: seq<Field>, n: nat): (c: nat)
    requires n <= |fields|
  {
    if n == 0 then 0 else RequiredBefore(fields, n - 1) + (if fields[n - 1].h.Required? then 1 else 0)
  }

  ghost predicate DistinctTags(fields: seq<Field>)
  {
    forall i, j :: 0 <= i < j < |fields| ==> fields[i].tag != fields[j].tag
  }

  /** Is there a field with the tag? */
  ghost predicate HasTag(fields: seq<Field>, tag: nat)
  {
    exists i :: 0 <= i < |fields| && fields[i].tag == tag
  }

  /** pb_field_iter_t: a position in the descriptor, and what goes with it. */
  class FieldIter {
    const fields: seq<Field>
    var pos: nat
    var place: nat
    var requiredFieldIndex: nat

    ghost predicate Ok()
      reads this
    {
      if fields == [] then pos == 0 && place == 0 && requiredFieldIndex == 0
      else pos < |fields| && place == PlaceOf(fields, pos) && requiredFieldIndex == RequiredBefore(fields, pos)
    }

    constructor (descriptor: seq<Field>)
      ensures Ok() && fields == descriptor && pos == 0
    {
      fields := descriptor;
      pos, place, requiredFieldIndex := 0, 0, 0;
      new;
      FirstPlace();
    }

    lemma FirstPlace()
      ensures fields != [] ==> PlaceOf(fields, 0) == 0 && RequiredBefore(fields, 0) == 0
    {
      if fields != [] {
        assert Places(fields, 1) == Places(fields, 0) + 1;
      }
    }

    method Begin()
      modifies this
      ensures Ok() && pos == 0
    {
      pos, place, requiredFieldIndex := 0, 0, 0;
      FirstPlace();
    }

    /** pb_field_iter_next: false when it has wrapped around to the first field. */
    method Next() returns (more: bool)
      requires Ok()
      modifies this
      ensures Ok() && (more <==> old(pos) + 1 < |fields|) && pos == if more then old(pos) + 1 else 0
    {
      if fields == [] {
        return false;
      }
      var prev := fields[pos];
      if pos + 1 == |fields| {
        Begin();
        return false;
      }
      pos := pos + 1;
      // Members of a oneof stay at the same place.
      if !fields[pos].joined {
        place := place + 1;
      }
      if prev.h.Required? {
        requiredFieldIndex := requiredFieldIndex + 1;
      }
      more := true;
    }

    /** pb_field_iter_find: search from the current position, wrapping around once. */
    method Find(tag: nat) returns (found: bool)
      requires Ok() && fields != []
      modifies this
      ensures Ok() && (found <==> HasTag(fields, tag)) && (found ==> fields[pos].tag == tag)
      ensures !found ==> pos == old(pos)
    {
      var start := pos;
      ghost var wrapped := false;
      while true
        invariant Ok() && start < |fields|
        invariant if wrapped then pos <= start else start <= pos
        invariant forall i :: 0 <= i < |fields| && (if wrapped then i < pos || start <= i else start <= i < pos) ==>
                  fields[i].tag != tag
        invariant wrapped ==> pos < start
        decreases if wrapped then start - pos else start + 1 + |fields| - pos
      {
        if fields[pos].tag == tag {
          return true;
        }
        var more := Next();
        if !more {
          wrapped := true;
        }
        if pos == start {
          break;
        }
      }
      found := false;
    }
  }
}
