/**
 Encoding messages (nanopb: pb_encode.c).  What a message is encoded as is a function; the encoder,
 which goes over every submessage twice, first to learn its size, is proved to write just that.
 */
module PbEncode {
  import opened DbFormat
  import opened Coding
  import opened PbModel
  import opened PbWire

  // ---------------------------------------------------------------------------
  // The encoding

  function WireType(l: LType): (wt: nat)
    ensures wt < 8
  {
    match l
    case VarintType(_) => WT_VARINT
    case UVarintType(_) => WT_VARINT
    case SVarintType(_) => WT_VARINT
    case Fixed32Type => WT_32BIT
    case Fixed64Type => WT_64BIT
    case _ => WT_STRING
  }

  function TagBytes(wt: nat, tag: nat): (s: Slice)
  {
    Varint(tag * 8 + wt)
  }

  /** Both parts, or nothing if one of them cannot be encoded. */
  function Both(a: Option<Slice>, b: Option<Slice>): (r: Option<Slice>)
  {
    if a.Some? && b.Some? then Some(a.value + b.value) else None
  }

  /** With the length in front, which is a size_t. */
  function Prefixed(a: Option<Slice>): (r: Option<Slice>)
  {
    if a.Some? && |a.value| < TWO64 then Some(LengthPrefixed(a.value)) else None
  }

  /** A value without its tag; a value of another kind than the type cannot be in the structure. */
  function EncValue(l: LType, v: Value): (r: Option<Slice>)
    decreases l, 0
  {
    match (l, v)
    case (VarintType(size), Number(n)) =>
      if size in {1, 2, 4, 8} && -TWO63 <= n < TWO63 then Some(Varint(AsUnsigned(n))) else None
    case (UVarintType(size), Number(n)) => if size in {1, 2, 4, 8} && 0 <= n < TWO64 then Some(Varint(n)) else None
    case (SVarintType(size), Number(n)) =>
      if size in {1, 2, 4, 8} && -TWO63 <= n < TWO63 then Some(Varint(ZigZag(n))) else None
    case (Fixed32Type, Number(n)) => if 0 <= n < TWO32 then Some(Fixed(4, n)) else None
    case (Fixed64Type, Number(n)) => if 0 <= n < TWO64 then Some(Fixed(8, n)) else None
    case (BytesType(room), Blob(b)) => if |b| > room then None else Prefixed(Some(b))
    case (StringType(_), Blob(b)) => Prefixed(Some(b))
    case (FixedBytesType(_), Blob(b)) => Prefixed(Some(b))
    case (MessageType(fields), Message(slots)) => Prefixed(EncFields(fields, slots, |fields|))
    case _ => None
  }

  /** The first `n` items one after the other, each with the tag if there is one. */
  function EncItems(l: LType, items: seq<Value>, n: nat, tag: Slice): (r: Option<Slice>)
    requires n <= |items|
    decreases l, 1, n
  {
    if n == 0 then Some([]) else Both(EncItems(l, items, n - 1, tag), Both(Some(tag), EncValue(l, items[n - 1])))
  }

  /** Is the field at the value that a proto3 message does not write? */
  predicate IsDefault(f: Field, slot: Slot)
    decreases f, 0
  {
    match (f.h, slot)
    case (Required, _) => false
    case (Repeated(_), Many(count, _)) => count == 0
    case (OneOf, Choice(which, _)) => which == 0
    case (Optional(hasFlag), Maybe(has, _)) => !has
    case (Optional(hasFlag), One(v)) => IsZero(f.l, v)
    case _ => false
  }

  predicate IsZero(l: LType, v: Value)
    decreases l, 1
  {
    match (l, v)
    case (BytesType(_), Blob(b)) => b == []
    case (StringType(_), Blob(b)) => b == []
    case (FixedBytesType(size), _) => size == 0
    case (MessageType(fields), Message(slots)) => AllDefault(fields, slots, |fields|)
    case (_, Number(n)) => n == 0
    case _ => false
  }

  predicate AllDefault(fields: seq<Field>, slots: seq<Slot>, n: nat)
    requires n <= |fields|
    decreases fields, n
  {
    n > 0 ==>
      && AllDefault(fields, slots, n - 1)
      && PlaceOf(fields, n - 1) < |slots| && IsDefault(fields[n - 1], slots[PlaceOf(fields, n - 1)])
  }

  /** A field with its tag, or nothing for a field that is absent. */
  function EncField(f: Field, slot: Slot): (r: Option<Slice>)
    decreases f, 0
  {
    var tag := TagBytes(WireType(f.l), f.tag);
    match (f.h, slot)
    case (Required, One(v)) => Both(Some(tag), EncValue(f.l, v))
    case (Optional(true), Maybe(has, v)) => if has then Both(Some(tag), EncValue(f.l, v)) else Some([])
    case (Optional(false), One(v)) => if IsZero(f.l, v) then Some([]) else Both(Some(tag), EncValue(f.l, v))
    case (Repeated(arraySize), Many(count, items)) =>
      if count == 0 then Some([])
      else if count > arraySize || count > |items| then None
      else if IsInteger(f.l) then Both(Some(TagBytes(WT_STRING, f.tag)), Prefixed(EncItems(f.l, items, count, [])))
      else EncItems(f.l, items, count, tag)
    case (OneOf, Choice(which, v)) => if which == f.tag then Both(Some(tag), EncValue(f.l, v)) else Some([])
    case _ => None
  }

  /** The first `n` fields of a message. */
  function EncFields(fields: seq<Field>, slots: seq<Slot>, n: nat): (r: Option<Slice>)
    requires n <= |fields|
    decreases fields, n
  {
    if n == 0 then Some([])
    else if PlaceOf(fields, n - 1) >= |slots| then None
    else Both(EncFields(fields, slots, n - 1), EncField(fields[n - 1], slots[PlaceOf(fields, n - 1)]))
  }

  /** pb_encode's result: all fields, in the order of the descriptor. */
  function EncMessage(fields: seq<Field>, slots: seq<Slot>): (r: Option<Slice>)
  {
    EncFields(fields, slots, |fields|)
  }

  /** What the encoder may rely on: tags of 29 bits, and inside of submessages too. */
  ghost predicate Wf(fields: seq<Field>)
    decreases fields, 2
  {
    forall i :: 0 <= i < |fields| ==> WfField(fields[i])
  }

  ghost predicate WfField(f: Field)
    decreases f, 1
  {
    f.tag < 0x2000_0000 && WfType(f.l)
  }

  ghost predicate WfType(l: LType)
    decreases l, 0
  {
    l.MessageType? ==> Wf(l.fields)
  }

  // ---------------------------------------------------------------------------
  // Streams

  /** pb_ostream_t: a stream without a callback only counts. */
  class OStream {
    const sizing: bool
    const maxSize: nat
    var bytesWritten: nat
    /** All that the callback has been handed. */
    var state: Slice

    predicate Ok()
      reads this
    {
      sizing || bytesWritten <= maxSize
    }

    constructor (onlySize: bool, max: nat, start: Slice)
      ensures Ok() && sizing == onlySize && maxSize == max && bytesWritten == 0 && state == start
    {
      sizing, maxSize, bytesWritten, state := onlySize, max, 0, start;
    }

    /** There is something to write and room for it, from `bytes0` on. */
    predicate Fits(bytes0: nat, bytes: Option<Slice>)
    {
      bytes.Some? && (sizing || bytes0 + |bytes.value| <= maxSize)
    }

    /** Where the stream is after writing `done`. */
    predicate Past(bytes0: nat, state0: Slice, done: Slice)
      reads this
    {
      Ok() && bytesWritten == bytes0 + |done| && state == state0 + (if sizing then [] else done)
    }

    /** The bytes were written; or there are none, or there is no room for them. */
    twostate predicate Wrote(new bytes: Option<Slice>, ok: bool)
      reads this
    {
      Ok() && (ok <==> Fits(old(bytesWritten), bytes)) && (ok ==> Past(old(bytesWritten), old(state), bytes.value))
    }

    /** pb_write. */
    method Write(buf: Slice) returns (ok: bool)
      requires Ok()
      modifies this
      ensures Wrote(Some(buf), ok)
    {
      if !sizing {
        if bytesWritten + |buf| > maxSize {
          return false;
        }
        state := state + buf;
      }
      bytesWritten := bytesWritten + |buf|;
      ok := true;
    }

    /** pb_write without a buffer, for a stream that only counts. */
    method Skip(count: nat, ghost bytes: Slice)
      requires sizing && count == |bytes|
      modifies this
      ensures Wrote(Some(bytes), true)
    {
      bytesWritten := bytesWritten + count;
    }

    /** pb_encode_varint: the buffer of ten bytes is never overrun. */
    method EncodeVarint(value: nat) returns (ok: bool)
      requires Ok() && value < TWO64
      modifies this
      ensures Wrote(Some(Varint(value)), ok)
    {
      if value <= 0x7f {
        ok := Write([value]);
        return;
      }
      var buffer: Slice, v := [], value;
      while v != 0
        invariant bytesWritten == old(bytesWritten) && state == old(state)
        invariant buffer == [] ==> v == value
        invariant buffer != [] ==> buffer[|buffer| - 1] >= 128
        invariant v > 0 ==> buffer + Varint(v) == Varint(value)
        invariant v == 0 ==> buffer != [] && buffer[..|buffer| - 1] + [buffer[|buffer| - 1] - 128] == Varint(value)
      {
        ghost var before, w := buffer, v;
        buffer := buffer + [v % 128 + 128];
        v := v / 128;
        assert buffer[..|buffer| - 1] == before;
        if v > 0 {
          assert Varint(w) == [w % 128 + 128] + Varint(v);
          Assoc(before, [w % 128 + 128], Varint(v));
        }
      }
      VarintLength64(value);
      var last := |buffer| - 1;
      assert last < 10;
      buffer := buffer[..last] + [buffer[last] - 128];
      ok := Write(buffer);
    }

    /** pb_encode_tag. */
    method EncodeTag(wt: nat, tag: nat) returns (ok: bool)
      requires Ok() && wt < 8 && tag < TWO32
      modifies this
      ensures Wrote(Some(TagBytes(wt, tag)), ok)
    {
      ok := EncodeVarint(tag * 8 + wt);
    }

    /** pb_encode_string. */
    method EncodeString(buffer: Slice) returns (ok: bool)
      requires Ok() && |buffer| < TWO64
      modifies this
      ensures Wrote(Some(LengthPrefixed(buffer)), ok)
    {
      hide Varint;
      ok := EncodeVarint(|buffer|);
      if !ok {
        return;
      }
      ok := Write(buffer);
      Then(this, old(bytesWritten), old(state), Varint(|buffer|), Some(buffer), ok);
    }
  }

  /** Writing one part after another. */
  lemma Then(s: OStream, bytes0: nat, state0: Slice, done: Slice, b: Option<Slice>, ok: bool)
    requires s.Ok() && (ok <==> s.Fits(bytes0 + |done|, b))
    requires ok ==> s.Past(bytes0 + |done|, state0 + (if s.sizing then [] else done), b.value)
    ensures ok <==> s.Fits(bytes0, Both(Some(done), b))
    ensures ok ==> s.Past(bytes0, state0, done + b.value)
  {
    if ok && !s.sizing {
      Assoc(state0, done, b.value);
    }
  }

  /** What does not fit does not fit with more after it. */
  lemma MoreNeedsMore(s: OStream, bytes0: nat, a: Option<Slice>, b: Option<Slice>)
    requires s.Fits(bytes0, Both(a, b))
    ensures s.Fits(bytes0, a)
  {
  }

  // ---------------------------------------------------------------------------
  // The encoder

  /** pb_enc_varint, pb_enc_uvarint, pb_enc_svarint, pb_enc_fixed32, pb_enc_fixed64. */
  method EncodeInteger(stream: OStream, l: LType, n: int) returns (ok: bool)
    requires stream.Ok() && IsInteger(l)
    modifies stream
    ensures stream.Wrote(EncValue(l, Number(n)), ok)
  {
    hide Varint, Fixed;
    ok := false;
    match l {
      case VarintType(size) =>
        if size in {1, 2, 4, 8} && -TWO63 <= n < TWO63 {
          ok := stream.EncodeVarint(AsUnsigned(n));
        }
      case UVarintType(size) =>
        if size in {1, 2, 4, 8} && 0 <= n < TWO64 {
          ok := stream.EncodeVarint(n);
        }
      case SVarintType(size) =>
        if size in {1, 2, 4, 8} && -TWO63 <= n < TWO63 {
          ok := stream.EncodeVarint(ZigZag(n));
        }
      case Fixed32Type =>
        if 0 <= n < TWO32 {
          ok := stream.Write(Fixed(4, n));
        }
      case Fixed64Type =>
        if 0 <= n < TWO64 {
          ok := stream.Write(Fixed(8, n));
        }
    }
  }

  /** pb_encode_submessage: the first pass counts, the second writes as much as the first has counted. */
  method EncodeSubmessage(stream: OStream, fields: seq<Field>, slots: seq<Slot>) returns (ok: bool)
    requires stream.Ok() && Wf(fields)
    modifies stream
    ensures stream.Wrote(Prefixed(EncMessage(fields, slots)), ok)
    decreases fields, |fields| + 1
  {
    hide Varint, EncFields;
    var counting := new OStream(true, 0, []);
    ok := EncodeFields(counting, fields, slots);
    if !ok {
      return;
    }
    var size := counting.bytesWritten;
    ghost var bytes := EncMessage(fields, slots).value;
    assert size == |bytes|;
    // A size is a size_t.
    if size >= TWO64 {
      return false;
    }
    ok := stream.EncodeVarint(size);
    if !ok {
      return;
    }
    if stream.sizing {
      stream.Skip(size, bytes);
      Then(stream, old(stream.bytesWritten), old(stream.state), Varint(size), Some(bytes), true);
      return true;
    }
    if stream.bytesWritten + size > stream.maxSize {
      return false;
    }
    var substream := new OStream(false, size, stream.state);
    var status := EncodeFields(substream, fields, slots);
    stream.bytesWritten := stream.bytesWritten + substream.bytesWritten;
    stream.state := substream.state;
    // The test for "submsg size changed" never succeeds.
    assert substream.bytesWritten == size;
    Then(stream, old(stream.bytesWritten), old(stream.state), Varint(size), Some(bytes), true);
    ok := status;
  }

  /** The encoder that PB_ENCODERS has for a type. */
  method EncodeValue(stream: OStream, l: LType, v: Value) returns (ok: bool)
    requires stream.Ok() && WfType(l)
    modifies stream
    ensures stream.Wrote(EncValue(l, v), ok)
    decreases l, 0
  {
    hide Varint, Fixed, EncFields;
    ok := false;
    if v.Number? && IsInteger(l) {
      ok := EncodeInteger(stream, l, v.n);
    } else if v.Blob? && (l.BytesType? || l.StringType? || l.FixedBytesType?) {
      // Nothing in memory is longer than a size_t can say.
      if (l.BytesType? ==> |v.b| <= l.room) && |v.b| < TWO64 {
        ok := stream.EncodeString(v.b);
      }
    } else if v.Message? && l.MessageType? {
      ok := EncodeSubmessage(stream, l.fields, v.slots);
    }
  }

  /** The items of an array, one after the other, with a tag for each or none. */
  method EncodeItems(stream: OStream, l: LType, items: seq<Value>, count: nat, tag: Option<nat>) returns (ok: bool)
    requires stream.Ok() && count <= |items| && (tag.Some? ==> tag.value < 0x2000_0000) && WfType(l)
    modifies stream
    ensures stream.Wrote(EncItems(l, items, count, ItemTag(l, tag)), ok)
    decreases l, 1
  {
    hide EncValue, TagBytes;
    ghost var t := ItemTag(l, tag);
    assert old(stream.state) + [] == old(stream.state);
    for i := 0 to count
      invariant stream.Ok() && EncItems(l, items, i, t).Some?
      invariant stream.Past(old(stream.bytesWritten), old(stream.state), EncItems(l, items, i, t).value)
    {
      ghost var done := EncItems(l, items, i, t).value;
      if tag.Some? {
        ok := stream.EncodeTag(WireType(l), tag.value);
        Then(stream, old(stream.bytesWritten), old(stream.state), done, Some(t), ok);
        if !ok {
          TagFails(stream, old(stream.bytesWritten), l, items, i, t);
          FailsLater(stream, old(stream.bytesWritten), l, items, i, count, t);
          return;
        }
      }
      assert done + [] == done;
      ok := EncodeValue(stream, l, items[i]);
      Then(stream, old(stream.bytesWritten), old(stream.state), done + t, EncValue(l, items[i]), ok);
      OneItem(l, items, i, t);
      if !ok {
        FailsLater(stream, old(stream.bytesWritten), l, items, i, count, t);
        return;
      }
    }
    ok := true;
  }

  function ItemTag(l: LType, tag: Option<nat>): (t: Slice)
  {
    if tag.Some? then TagBytes(WireType(l), tag.value) else []
  }

  lemma OneItem(l: LType, items: seq<Value>, i: nat, t: Slice)
    requires i < |items|
    ensures EncItems(l, items, i + 1, t) == Both(Both(EncItems(l, items, i, t), Some(t)), EncValue(l, items[i]))
  {
    hide EncValue;
    var a, b := EncItems(l, items, i, t), EncValue(l, items[i]);
    if a.Some? && b.Some? {
      Assoc(a.value, t, b.value);
    }
  }

  lemma {:induction false} ItemsGrow(s: OStream, bytes0: nat, l: LType, items: seq<Value>, i: nat, n: nat, t: Slice)
    requires i <= n <= |items| && s.Fits(bytes0, EncItems(l, items, n, t))
    ensures s.Fits(bytes0, EncItems(l, items, i, t))
    decreases n
  {
    hide EncValue;
    if i < n {
      MoreNeedsMore(s, bytes0, EncItems(l, items, n - 1, t), Both(Some(t), EncValue(l, items[n - 1])));
      ItemsGrow(s, bytes0, l, items, i, n - 1, t);
    }
  }

  /** If an item does not fit, the array does not. */
  lemma FailsLater(s: OStream, bytes0: nat, l: LType, items: seq<Value>, i: nat, n: nat, t: Slice)
    requires i < n <= |items| && !s.Fits(bytes0, EncItems(l, items, i + 1, t))
    ensures !s.Fits(bytes0, EncItems(l, items, n, t))
  {
    hide EncItems;
    if s.Fits(bytes0, EncItems(l, items, n, t)) {
      ItemsGrow(s, bytes0, l, items, i + 1, n, t);
    }
  }

  /** If the tag of an item does not fit, the item does not. */
  lemma TagFails(s: OStream, bytes0: nat, l: LType, items: seq<Value>, i: nat, t: Slice)
    requires i < |items| && !s.Fits(bytes0, Both(EncItems(l, items, i, t), Some(t)))
    ensures !s.Fits(bytes0, EncItems(l, items, i + 1, t))
  {
    OneItem(l, items, i, t);
    hide EncItems, EncValue;
    if s.Fits(bytes0, EncItems(l, items, i + 1, t)) {
      MoreNeedsMore(s, bytes0, Both(EncItems(l, items, i, t), Some(t)), EncValue(l, items[i]));
    }
  }

  /** encode_array: integers are packed into one record, whose size is known or counted first. */
  method EncodeArray(stream: OStream, f: Field, items: seq<Value>, count: nat) returns (ok: bool)
    requires stream.Ok() && f.h.Repeated? && WfField(f)
    modifies stream
    ensures stream.Wrote(EncField(f, Many(count, items)), ok)
    decreases f.l, 4
  {
    hide TagBytes, EncItems, Varint;
    assert old(stream.state) + [] == old(stream.state);
    if count == 0 {
      return true;
    }
    // Nothing beyond the end of the array is read.
    if count > f.h.arraySize || count > |items| {
      return false;
    }
    if !IsInteger(f.l) {
      ok := EncodeItems(stream, f.l, items, count, Some(f.tag));
      return;
    }
    ghost var packed := EncItems(f.l, items, count, []);
    ok := stream.EncodeTag(WT_STRING, f.tag);
    if !ok {
      NoTagNoField(stream, old(stream.bytesWritten), TagBytes(WT_STRING, f.tag), Prefixed(packed));
      return;
    }
    ok := EncodePacked(stream, f.l, items, count);
    Then(stream, old(stream.bytesWritten), old(stream.state), TagBytes(WT_STRING, f.tag), Prefixed(packed), ok);
  }

  lemma NoTagNoField(s: OStream, bytes0: nat, tag: Slice, rest: Option<Slice>)
    requires !s.Fits(bytes0, Some(tag))
    ensures !s.Fits(bytes0, Both(Some(tag), rest))
  {
  }

  /** How many bytes an item of fixed width takes. */
  function FixedWidth(l: LType): (w: nat)
  {
    if l.Fixed32Type? then 4 else if l.Fixed64Type? then 8 else 0
  }

  lemma {:induction false} FixedItems(l: LType, items: seq<Value>, n: nat)
    requires n <= |items| && FixedWidth(l) > 0
    ensures EncItems(l, items, n, []).Some? <==> forall i :: 0 <= i < n ==> EncValue(l, items[i]).Some?
    ensures EncItems(l, items, n, []).Some? ==> |EncItems(l, items, n, []).value| == FixedWidth(l) * n
  {
    hide Fixed;
    if n > 0 {
      FixedItems(l, items, n - 1);
    }
  }

  /** The size of packed items: known beforehand for fixed widths, counted otherwise. */
  method PackedSize(l: LType, items: seq<Value>, count: nat) returns (size: Option<nat>)
    requires IsInteger(l) && count <= |items|
    ensures var bytes := EncItems(l, items, count, []);
            (size.Some? <==> bytes.Some?) && (size.Some? ==> size.value == |bytes.value|)
    decreases l, 2
  {
    hide EncItems, EncValue;
    if l.Fixed32Type? || l.Fixed64Type? {
      FixedItems(l, items, count);
      // Whatever is in the array is a word of that width.
      if exists i :: 0 <= i < count && EncValue(l, items[i]).None? {
        return None;
      }
      return Some(if l.Fixed32Type? then 4 * count else 8 * count);
    }
    var counting := new OStream(true, 0, []);
    var ok := EncodeItems(counting, l, items, count, None);
    size := if ok then Some(counting.bytesWritten) else None;
  }

  /** The size of the packed items, and the items. */
  method EncodePacked(stream: OStream, l: LType, items: seq<Value>, count: nat) returns (ok: bool)
    requires stream.Ok() && IsInteger(l) && count <= |items|
    modifies stream
    ensures stream.Wrote(Prefixed(EncItems(l, items, count, [])), ok)
    decreases l, 3
  {
    hide EncItems, Varint;
    var size := PackedSize(l, items, count);
    ghost var bytes := EncItems(l, items, count, []);
    // A size is a size_t.
    if size.None? || size.value >= TWO64 {
      return false;
    }
    ok := stream.EncodeVarint(size.value);
    if !ok {
      return;
    }
    if stream.sizing {
      stream.Skip(size.value, bytes.value);
      ok := true;
    } else {
      ok := EncodeItems(stream, l, items, count, None);
    }
    Then(stream, old(stream.bytesWritten), old(stream.state), Varint(size.value), bytes, ok);
  }

  /** encode_basic_field. */
  method EncodeField(stream: OStream, f: Field, slot: Slot) returns (ok: bool)
    requires stream.Ok() && WfField(f)
    modifies stream
    ensures stream.Wrote(EncField(f, slot), ok)
    decreases f, 0
  {
    hide TagBytes, EncValue, IsZero, EncItems;
    assert old(stream.state) + [] == old(stream.state);
    ok := false;
    match (f.h, slot) {
      case (Required, One(v)) => ok := EncodeTagged(stream, f, v);
      case (Optional(true), Maybe(has, v)) =>
        ok := true;
        if has {
          ok := EncodeTagged(stream, f, v);
        }
      case (Optional(false), One(v)) =>
        ok := true;
        var implicitHas := !IsZero(f.l, v);
        if implicitHas {
          ok := EncodeTagged(stream, f, v);
        }
      case (Repeated(_), Many(count, items)) => ok := EncodeArray(stream, f, items, count);
      case (OneOf, Choice(which, v)) =>
        ok := true;
        if which == f.tag {
          ok := EncodeTagged(stream, f, v);
        }
      case _ =>
    }
  }

  method EncodeTagged(stream: OStream, f: Field, v: Value) returns (ok: bool)
    requires stream.Ok() && WfField(f)
    modifies stream
    ensures stream.Wrote(Both(Some(TagBytes(WireType(f.l), f.tag)), EncValue(f.l, v)), ok)
    decreases f.l, 2
  {
    hide TagBytes, EncValue;
    ok := stream.EncodeTag(WireType(f.l), f.tag);
    if !ok {
      return;
    }
    ok := EncodeValue(stream, f.l, v);
    Then(stream, old(stream.bytesWritten), old(stream.state), TagBytes(WireType(f.l), f.tag), EncValue(f.l, v), ok);
  }

  lemma {:induction false} FieldsGrow(s: OStream, bytes0: nat, fields: seq<Field>, slots: seq<Slot>, i: nat, n: nat)
    requires i <= n <= |fields| && s.Fits(bytes0, EncFields(fields, slots, n))
    ensures s.Fits(bytes0, EncFields(fields, slots, i))
    decreases n
  {
    hide EncField;
    if i < n {
      MoreNeedsMore(s, bytes0, EncFields(fields, slots, n - 1), EncField(fields[n - 1], slots[PlaceOf(fields, n - 1)]));
      FieldsGrow(s, bytes0, fields, slots, i, n - 1);
    }
  }

  /** pb_encode: every field in turn, each at its place in the structure. */
  method EncodeFields(stream: OStream, fields: seq<Field>, slots: seq<Slot>) returns (ok: bool)
    requires stream.Ok() && Wf(fields)
    modifies stream
    ensures stream.Wrote(EncMessage(fields, slots), ok)
    decreases fields, 0
  {
    hide EncField;
    var iter := new FieldIter(fields);
    assert old(stream.state) + [] == old(stream.state);
    if fields == [] {
      return true;
    }
    while true
      invariant iter.Ok() && fresh(iter) && iter.fields == fields && stream.Ok()
      invariant EncFields(fields, slots, iter.pos).Some?
      invariant stream.Past(old(stream.bytesWritten), old(stream.state), EncFields(fields, slots, iter.pos).value)
      decreases |fields| - iter.pos
    {
      ghost var i := iter.pos;
      ghost var done := EncFields(fields, slots, i).value;
      // Every field has a place in the structure.
      if iter.place >= |slots| {
        FieldsFail(stream, old(stream.bytesWritten), fields, slots, i);
        return false;
      }
      ok := EncodeField(stream, fields[iter.pos], slots[iter.place]);
      Then(stream, old(stream.bytesWritten), old(stream.state), done, EncField(fields[i], slots[iter.place]), ok);
      if !ok {
        FieldsFail(stream, old(stream.bytesWritten), fields, slots, i);
        return;
      }
      var more := iter.Next();
      if !more {
        return true;
      }
    }
  }

  lemma FieldsFail(s: OStream, bytes0: nat, fields: seq<Field>, slots: seq<Slot>, i: nat)
    requires i < |fields| && !s.Fits(bytes0, EncFields(fields, slots, i + 1))
    ensures !s.Fits(bytes0, EncMessage(fields, slots))
  {
    hide EncFields;
    if s.Fits(bytes0, EncMessage(fields, slots)) {
      FieldsGrow(s, bytes0, fields, slots, i + 1, |fields|);
    }
  }

  /** pb_get_encoded_size. */
  method GetEncodedSize(fields: seq<Field>, slots: seq<Slot>) returns (size: Option<nat>)
    requires Wf(fields)
    ensures var bytes := EncMessage(fields, slots);
            (size.Some? <==> bytes.Some?) && (size.Some? ==> size.value == |bytes.value|)
  {
    var stream := new OStream(true, 0, []);
    var ok := EncodeFields(stream, fields, slots);
    size := if ok then Some(stream.bytesWritten) else None;
  }

  /** pb_encode into a buffer of `bufsize` bytes: it succeeds exactly if the message fits. */
  method EncodeToBuffer(fields: seq<Field>, slots: seq<Slot>, bufsize: nat) returns (r: Option<Slice>)
    requires Wf(fields)
    ensures var bytes := EncMessage(fields, slots);
            r == if bytes.Some? && |bytes.value| <= bufsize then bytes else None
  {
    hide EncMessage;
    var stream := new OStream(false, bufsize, []);
    var ok := EncodeFields(stream, fields, slots);
    ghost var bytes := EncMessage(fields, slots);
    assert bytes.Some? ==> [] + bytes.value == bytes.value;
    r := if ok then Some(stream.state) else None;
  }
}
