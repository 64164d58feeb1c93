/**
 Decoding messages (nanopb: pb_decode.c).  What a run of bytes does to a message structure is a
 function; the decoder, with its streams bounded by substreams, is proved to compute it.
 */
module PbDecode {
  import opened DbFormat
  import opened Coding
  import opened PbModel
  import opened PbWire

  // ---------------------------------------------------------------------------
  // Initial values

  function InitialValue(l: LType, initial: Value): (v: Value)
    decreases l, 1
  {
    if l.MessageType? then Message(Defaults(l.fields, |l.fields|)) else initial
  }

  /** pb_field_set_to_default.  What an array or a oneof holds besides its count does not matter. */
  function DefaultSlot(f: Field): (slot: Slot)
    decreases f, 0
  {
    match f.h
    case Required => One(InitialValue(f.l, f.initial))
    case Optional(hasFlag) => if hasFlag then Maybe(false, InitialValue(f.l, f.initial))
        else One(InitialValue(f.l, f.initial))
    case Repeated(arraySize) => Many(0, seq(arraySize, _ => Number(0)))
    case OneOf => Choice(0, Number(0))
  }

  /** pb_message_set_to_defaults, for the places of the first `n` fields. */
  function Defaults(fields: seq<Field>, n: nat): (slots: seq<Slot>)
    requires n <= |fields|
    ensures |slots| == Places(fields, n)
    decreases fields, n
  {
    if n == 0 then []
    else
      var init := Defaults(fields, n - 1);
      if n > 1 && fields[n - 1].joined then init else init + [DefaultSlot(fields[n - 1])]
  }

  // ---------------------------------------------------------------------------
  // Values

  /** An integer of the type from the bytes, unless it is too large for it. */
  function DecInteger(l: LType, s: Slice): (r: Option<(Value, Slice)>)
    requires IsInteger(l)
    ensures r.Some? ==> |r.value.1| < |s|
  {
    match l
    case VarintType(size) =>
      var t := TakeVarint(s, 0, 64);
      if t.None? || size !in {1, 2, 4, 8} then None
      else
        // Narrow fields look at 32 bits only.
        var n := AsSigned(t.value.0, if size == 8 then 8 else 4);
        if -(Width(size) as int) <= 2 * n < Width(size) then Some((Number(n), t.value.1)) else None
    case UVarintType(size) =>
      var t := TakeVarint(s, 0, 64);
      if t.None? || size !in {1, 2, 4, 8} || t.value.0 % TWO64 >= Width(size) then None
      else Some((Number(t.value.0 % TWO64), t.value.1))
    case SVarintType(size) =>
      var t := TakeVarint(s, 0, 64);
      if t.None? || size !in {1, 2, 4, 8} then None
      else
        var n := UnZigZag(t.value.0 % TWO64);
        if -(Width(size) as int) <= 2 * n < Width(size) then Some((Number(n), t.value.1)) else None
    case Fixed32Type => if |s| < 4 then None else Some((Number(FromFixed(s[..4])), s[4..]))
    case Fixed64Type => if |s| < 8 then None else Some((Number(FromFixed(s[..8])), s[8..]))
  }

  /** What a buffer holds as a string: the bytes before the first zero. */
  function Terminated(b: Slice): (r: Slice)
    ensures |r| <= |b|
  {
    if b == [] || b[0] == 0 then [] else [b[0]] + Terminated(b[1..])
  }

  function Zeros(n: nat): (b: Slice)
    ensures |b| == n && forall i :: 0 <= i < n ==> b[i] == 0
  {
    seq(n, _ => 0)
  }

  /** One value of the type; `v0` is what a submessage is merged into, unless it starts clean. */
  function DecValue(l: LType, clean: bool, v0: Value, s: Slice): (r: Option<(Value, Slice)>)
    ensures r.Some? ==> |r.value.1| < |s|
    decreases l, 0
  {
    if IsInteger(l) then DecInteger(l, s)
    else
      var t := TakeString(s);
      match l
      case BytesType(room) => if t.None? || |t.value.0| > room then None else Some((Blob(t.value.0), t.value.1))
      case StringType(room) => if t.None? || |t.value.0| + 1 > room then None
          else Some((Blob(Terminated(t.value.0)), t.value.1))
      case FixedBytesType(size) =>
        if t.None? then None
        else if t.value.0 == [] then Some((Blob(Zeros(size)), t.value.1))
        else if |t.value.0| != size then None
        else Some((Blob(t.value.0), t.value.1))
      case MessageType(fields) =>
        if t.None? then None
        else
          var slots := if !clean && v0.Message? then v0.slots else Defaults(fields, |fields|);
          var m := DecFields(fields, slots, {}, t.value.0);
          if m.None? then None else Some((Message(m.value), t.value.1))
  }

  /** The items of a packed array, until the bytes are used up. */
  function DecPacked(l: LType, count: nat, items: seq<Value>, arraySize: nat, s: Slice): (r: Option<Slot>)
    requires IsInteger(l)
    decreases |s|
  {
    if s == [] then Some(Many(count, items))
    else if count >= arraySize || count >= |items| then None
    else
      var d := DecInteger(l, s);
      if d.None? then None else DecPacked(l, count + 1, items[count := d.value.0], arraySize, d.value.1)
  }

  /** decode_static_field. */
  function DecField(f: Field, slot: Slot, wt: nat, s: Slice): (r: Option<(Slot, Slice)>)
    ensures r.Some? ==> |r.value.1| < |s|
    decreases f, 0
  {
    match (f.h, slot)
    case (Required, One(v)) =>
      var d := DecValue(f.l, false, v, s);
      if d.None? then None else Some((One(d.value.0), d.value.1))
    case (Optional(true), Maybe(_, v)) =>
      var d := DecValue(f.l, false, v, s);
      if d.None? then None else Some((Maybe(true, d.value.0), d.value.1))
    case (Optional(false), One(v)) =>
      var d := DecValue(f.l, false, v, s);
      if d.None? then None else Some((One(d.value.0), d.value.1))
    case (Repeated(arraySize), Many(count, items)) =>
      if wt == WT_STRING && IsInteger(f.l) then
        var t := TakeString(s);
        if t.None? then None
        else
          var m := DecPacked(f.l, count, items, arraySize, t.value.0);
          if m.None? then None else Some((m.value, t.value.1))
      else if count >= arraySize || count >= |items| then None
      else
        var d := DecValue(f.l, true, items[count], s);
        if d.None? then None else Some((Many(count + 1, items[count := d.value.0]), d.value.1))
    case (OneOf, Choice(_, v)) =>
      var d := DecValue(f.l, true, v, s);
      if d.None? then None else Some((Choice(f.tag, d.value.0), d.value.1))
    case _ => None
  }

  // ---------------------------------------------------------------------------
  // Messages

  /** The index of the field with a tag, the fields searched from `i` on. */
  function IndexOf(fields: seq<Field>, tag: nat, i: nat): (r: Option<nat>)
    requires i <= |fields|
    ensures r.Some? ==> i <= r.value < |fields| && fields[r.value].tag == tag
    ensures r.None? ==> forall j :: i <= j < |fields| ==> fields[j].tag != tag
    decreases |fields| - i
  {
    if i == |fields| then None
    else if fields[i].tag == tag then Some(i)
    else IndexOf(fields, tag, i + 1)
  }

  /** pb_skip_field: what follows a field of the wire type. */
  function AfterField(wt: nat, s: Slice): (r: Option<Slice>)
    ensures r.Some? ==> |r.value| < |s|
  {
    if wt == WT_VARINT then AfterVarint(s)
    else if wt == WT_64BIT then (if |s| < 8 then None else Some(s[8..]))
    else if wt == WT_STRING then
      var t := TakeString(s);
      if t.None? then None else Some(t.value.1)
    else if wt == WT_32BIT then (if |s| < 4 then None else Some(s[4..]))
    else None
  }

  function AfterVarint(s: Slice): (r: Option<Slice>)
    ensures r.Some? ==> |r.value| < |s|
    decreases |s|
  {
    if s == [] then None else if s[0] < 128 then Some(s[1..]) else AfterVarint(s[1..])
  }

  /** Which required fields are checked for. */
  const MAX_REQUIRED_FIELDS: nat := 64

  function Counted(fields: seq<Field>): (n: nat)
  {
    var n := RequiredBefore(fields, |fields|);
    if n > MAX_REQUIRED_FIELDS then MAX_REQUIRED_FIELDS else n
  }

  predicate AllSeen(seen: set<nat>, n: nat)
  {
    forall i :: 0 <= i < n ==> i in seen
  }

  /** pb_decode_noinit: what the bytes make of the structure, if nothing is wrong with them. */
  function DecFields(fields: seq<Field>, slots: seq<Slot>, seen: set<nat>, s: Slice): (r: Option<seq<Slot>>)
    decreases fields, |s|
  {
    var end := if AllSeen(seen, Counted(fields)) then Some(slots) else None;
    if s == [] then end
    else
      var t := Take32(s);
      if t.None? then None
      // A zero ends the message.
      else if t.value.0 == 0 then end
      else
        var tag, wt, rest := t.value.0 / 8, t.value.0 % 8, t.value.1;
        var found := IndexOf(fields, tag, 0);
        if found.None? then
          // In a message without fields, the terminator of the descriptor is taken for a field of no size.
          if fields == [] && tag == 0 then None
          else
            var skipped := AfterField(wt, rest);
            if skipped.None? then None else DecFields(fields, slots, seen, skipped.value)
        else
          var i := found.value;
          var p, k := PlaceOf(fields, i), RequiredBefore(fields, i);
          var seen' := if fields[i].h.Required? && k < MAX_REQUIRED_FIELDS then seen + {k} else seen;
          if p >= |slots| then None
          else
            var d := DecField(fields[i], slots[p], wt, rest);
            if d.None? then None else DecFields(fields, slots[p := d.value.0], seen', d.value.1)
  }

  /** pb_decode: into a structure that is set to defaults first. */
  function DecMessage(fields: seq<Field>, s: Slice): (r: Option<seq<Slot>>)
  {
    DecFields(fields, Defaults(fields, |fields|), {}, s)
  }

  // ---------------------------------------------------------------------------
  // Streams

  /** The seven bits of a byte, at their place among 64. */
  function LowBits(byte: Byte, bitpos: nat): (n: nat)
  {
    byte % 128 * Pow2(bitpos) % Pow2(64)
  }

  lemma VarintStep(s: Slice, bitpos: nat)
    requires s != [] && bitpos < 64
    ensures TakeVarint(s, bitpos, 64)
         == if s[0] < 128 then Some((LowBits(s[0], bitpos), s[1..]))
            else var t := TakeVarint(s[1..], bitpos + 7, 64);
                 if t.None? then None else Some((LowBits(s[0], bitpos) + t.value.0, t.value.1))
  {
    hide Pow2;
    assert s[0] % 128 == if s[0] < 128 then s[0] else s[0] - 128;
  }

  lemma NoVarint(s: Slice)
    ensures forall bitpos: nat :: s == [] || bitpos >= 64 ==> TakeVarint(s, bitpos, 64) == None
  {
  }

  /** pb_istream_t over a buffer: a substream is a copy with fewer bytes left. */
  class IStream {
    const buf: Slice
    var state: nat
    var bytesLeft: nat

    ghost predicate Ok()
      reads this
    {
      state + bytesLeft <= |buf|
    }

    ghost function Left(): (s: Slice)
      requires Ok()
      reads this
    {
      buf[state..state + bytesLeft]
    }

    constructor (buffer: Slice, at: nat, size: nat)
      requires at + size <= |buffer|
      ensures Ok() && buf == buffer && state == at && bytesLeft == size
    {
      buf, state, bytesLeft := buffer, at, size;
    }

    /** The stream has moved on, within its bounds, and `rest` is left. */
    twostate predicate Moved(new rest: Slice)
      requires old(Ok())
      reads this
    {
      Ok() && state + bytesLeft == old(state + bytesLeft) && Left() == rest
    }

    /** The stream is still within its bounds. */
    twostate predicate Bounded()
      requires old(Ok())
      reads this
    {
      Ok() && state + bytesLeft == old(state + bytesLeft)
    }

    /** The stream has given up the middle of a record, at worst. */
    twostate predicate Within()
      requires old(Ok())
      reads this
    {
      Ok() && state + bytesLeft <= old(state + bytesLeft)
    }

    /** pb_read; without a buffer, the bytes are skipped. */
    method Read(count: nat) returns (r: Option<Slice>)
      requires Ok()
      modifies this
      ensures r.Some? <==> count <= |old(Left())|
      ensures if r.Some? then r.value == old(Left())[..count] && Moved(old(Left())[count..]) else Bounded()
    {
      if bytesLeft < count {
        return None;
      }
      r := Some(buf[state..state + count]);
      state := state + count;
      bytesLeft := bytesLeft - count;
    }

    /** pb_readbyte. */
    method ReadByte() returns (r: Option<Byte>)
      requires Ok()
      modifies this
      ensures r.Some? <==> old(Left()) != []
      ensures if r.Some? then r.value == old(Left())[0] && Moved(old(Left())[1..]) else Bounded()
    {
      if bytesLeft == 0 {
        return None;
      }
      r := Some(buf[state]);
      state := state + 1;
      bytesLeft := bytesLeft - 1;
    }

    /** pb_decode_varint32. */
    method DecodeVarint32() returns (r: Option<nat>)
      requires Ok()
      modifies this
      ensures var t := Take32(old(Left()));
              (r.Some? <==> t.Some?) && if r.Some? then r.value == t.value.0 && Moved(t.value.1) else Bounded()
    {
      hide Pow2;
      var byte := ReadByte();
      if byte.None? {
        return None;
      }
      if byte.value < 128 {
        return Some(byte.value);
      }
      var bitpos: nat, result: nat := 7, byte.value % 128;
      while true
        invariant Ok() && Bounded()
        invariant Take32(old(Left())) == TakeMore(Left(), bitpos, result)
        decreases bytesLeft
      {
        byte := ReadByte();
        if byte.None? {
          return None;
        }
        if bitpos >= 32 {
          var signExtension := if bitpos < 63 then 0xff else 0x01;
          if byte.value % 128 != 0 && (result / TWO31 == 0 || byte.value != signExtension) {
            return None;
          }
        } else {
          result := result + byte.value % 128 * Pow2(bitpos) % TWO32;
        }
        bitpos := bitpos + 7;
        if byte.value < 128 {
          break;
        }
      }
      // The last byte was for bits 28 and up, so only four bits fit.
      if bitpos == 35 && byte.value / 16 != 0 {
        return None;
      }
      r := Some(result);
    }

    /** pb_decode_varint: bits beyond the 64th are lost. */
    method DecodeVarint() returns (r: Option<nat>)
      requires Ok()
      modifies this
      ensures var t := TakeVarint(old(Left()), 0, 64);
              (r.Some? <==> t.Some?) && if r.Some? then r.value == t.value.0 && Moved(t.value.1) else Bounded()
    {
      hide Pow2, TakeVarint, LowBits;
      NoVarint(Left());
      var bitpos: nat, result: nat := 0, 0;
      while true
        invariant Ok() && Bounded()
        invariant var t := TakeVarint(Left(), bitpos, 64);
                  TakeVarint(old(Left()), 0, 64) == if t.None? then None else Some((result + t.value.0, t.value.1))
        decreases bytesLeft
      {
        ghost var before := Left();
        NoVarint(before);
        if bitpos >= 64 {
          return None;
        }
        var byte := ReadByte();
        if byte.None? {
          return None;
        }
        VarintStep(before, bitpos);
        result := result + LowBits(byte.value, bitpos);
        bitpos := bitpos + 7;
        if byte.value < 128 {
          return Some(result);
        }
      }
    }

    /** pb_make_string_substream: the length, and a stream over as many bytes. */
    method MakeStringSubstream() returns (substream: Option<IStream>)
      requires Ok()
      modifies this
      ensures Ok()
      ensures var t := TakeString(old(Left()));
              && (substream.Some? <==> t.Some?)
              && (substream.Some? ==>
                    var sub := substream.value;
                    && fresh(sub) && sub.Ok() && sub.Left() == t.value.0 && sub.buf == buf && sub.state == state
                    && sub.state + sub.bytesLeft + bytesLeft == old(state + bytesLeft)
                    && buf[sub.state + sub.bytesLeft..sub.state + sub.bytesLeft + bytesLeft] == t.value.1)
              && (substream.None? ==> Bounded())
    {
      hide Take32;
      var size := DecodeVarint32();
      if size.None? {
        return None;
      }
      if bytesLeft < size.value {
        return None;
      }
      var sub := new IStream(buf, state, size.value);
      bytesLeft := bytesLeft - size.value;
      substream := Some(sub);
    }

    /** pb_close_string_substream: whatever the reader of the substream has left is skipped. */
    method CloseStringSubstream(substream: IStream)
      requires substream.Ok() && substream != this && substream.buf == buf
      requires substream.state + substream.bytesLeft + bytesLeft <= |buf|
      modifies this, substream
      ensures Ok() && state == old(substream.state + substream.bytesLeft) && bytesLeft == old(bytesLeft)
    {
      if substream.bytesLeft > 0 {
        var skipped := substream.Read(substream.bytesLeft);
      }
      state := substream.state;
    }

    /** Reading a string through a substream, as bytes. */
    method ReadString() returns (r: Option<Slice>)
      requires Ok()
      modifies this
      ensures var t := TakeString(old(Left()));
              (r.Some? <==> t.Some?) && if r.Some? then r.value == t.value.0 && Moved(t.value.1) else Bounded()
    {
      hide Take32;
      var size := DecodeVarint32();
      if size.None? {
        return None;
      }
      r := Read(size.value);
    }

    /** pb_skip_varint. */
    method SkipVarint() returns (ok: bool)
      requires Ok()
      modifies this
      ensures var t := AfterVarint(old(Left()));
              (ok <==> t.Some?) && if ok then Moved(t.value) else Bounded()
    {
      while true
        invariant Ok() && Bounded()
        invariant AfterVarint(old(Left())) == AfterVarint(Left())
        decreases bytesLeft
      {
        var byte := ReadByte();
        if byte.None? {
          return false;
        }
        if byte.value < 128 {
          return true;
        }
      }
    }

    /** pb_skip_field. */
    method SkipField(wt: nat) returns (ok: bool)
      requires Ok()
      modifies this
      ensures var t := AfterField(wt, old(Left()));
              (ok <==> t.Some?) && if ok then Moved(t.value) else Bounded()
    {
      hide TakeString, AfterVarint;
      var r: Option<Slice> := None;
      if wt == WT_VARINT {
        ok := SkipVarint();
        return;
      } else if wt == WT_64BIT {
        r := Read(8);
      } else if wt == WT_STRING {
        r := ReadString();
      } else if wt == WT_32BIT {
        r := Read(4);
      }
      ok := r.Some?;
    }
  }

  // ---------------------------------------------------------------------------
  // The decoder

  /** Tags are distinct, in submessages too: the field that a search ends at does not depend on where it starts. */
  ghost predicate TagsApart(fields: seq<Field>)
    decreases fields, 2
  {
    DistinctTags(fields) && forall i :: 0 <= i < |fields| ==> TagsApartIn(fields[i])
  }

  ghost predicate TagsApartIn(f: Field)
    decreases f, 1
  {
    TypeTagsApart(f.l)
  }

  ghost predicate TypeTagsApart(l: LType)
    decreases l, 0
  {
    l.MessageType? ==> TagsApart(l.fields)
  }

  /** pb_dec_varint, pb_dec_uvarint, pb_dec_svarint, pb_dec_fixed32, pb_dec_fixed64. */
  method DecodeInteger(stream: IStream, l: LType) returns (r: Option<Value>)
    requires stream.Ok() && IsInteger(l)
    modifies stream
    ensures stream.Bounded()
    ensures var d := DecInteger(l, old(stream.Left()));
            (r.Some? <==> d.Some?) && (r.Some? ==> r.value == d.value.0 && stream.Moved(d.value.1))
  {
    hide TakeVarint, FromFixed, AsSigned, UnZigZag;
    r := None;
    match l {
      case VarintType(size) =>
        var value := stream.DecodeVarint();
        if value.Some? && size in {1, 2, 4, 8} {
          var svalue := AsSigned(value.value, if size == 8 then 8 else 4);
          if -(Width(size) as int) <= 2 * svalue < Width(size) {
            r := Some(Number(svalue));
          }
        }
      case UVarintType(size) =>
        var value := stream.DecodeVarint();
        if value.Some? && size in {1, 2, 4, 8} && value.value % TWO64 < Width(size) {
          r := Some(Number(value.value % TWO64));
        }
      case SVarintType(size) =>
        var value := stream.DecodeVarint();
        if value.Some? && size in {1, 2, 4, 8} {
          var svalue := UnZigZag(value.value % TWO64);
          if -(Width(size) as int) <= 2 * svalue < Width(size) {
            r := Some(Number(svalue));
          }
        }
      case Fixed32Type =>
        var bytes := stream.Read(4);
        if bytes.Some? {
          r := Some(Number(FromFixed(bytes.value)));
        }
      case Fixed64Type =>
        var bytes := stream.Read(8);
        if bytes.Some? {
          r := Some(Number(FromFixed(bytes.value)));
        }
    }
  }

  /** pb_dec_bytes, pb_dec_string, pb_dec_fixed_length_bytes. */
  method DecodeBlob(stream: IStream, l: LType, ghost clean: bool, ghost v0: Value) returns (r: Option<Value>)
    requires stream.Ok() && (l.BytesType? || l.StringType? || l.FixedBytesType?)
    modifies stream
    ensures stream.Bounded()
    ensures var d := DecValue(l, clean, v0, old(stream.Left()));
            (r.Some? <==> d.Some?) && (r.Some? ==> r.value == d.value.0 && stream.Moved(d.value.1))
  {
    hide TakeString;
    var bytes := stream.ReadString();
    r := None;
    if bytes.None? {
      return;
    }
    var b := bytes.value;
    if l.BytesType? {
      if |b| <= l.room {
        r := Some(Blob(b));
      }
    } else if l.StringType? {
      if |b| + 1 <= l.room {
        r := Some(Blob(Terminated(b)));
      }
    } else if b == [] {
      r := Some(Blob(Zeros(l.size)));
    } else if |b| == l.size {
      r := Some(Blob(b));
    }
  }

  /** pb_dec_submessage: array items and members of a oneof start from the defaults. */
  method DecodeSubmessage(stream: IStream, l: LType, clean: bool, v0: Value) returns (r: Option<Value>)
    requires stream.Ok() && l.MessageType? && TagsApart(l.fields)
    modifies stream
    ensures stream.Within()
    ensures var d := DecValue(l, clean, v0, old(stream.Left()));
            (r.Some? <==> d.Some?) && (r.Some? ==> r.value == d.value.0 && stream.Moved(d.value.1))
    decreases l, 0
  {
    hide TakeString, DecFields, TagsApart, Defaults;
    var substream := stream.MakeStringSubstream();
    if substream.None? {
      return None;
    }
    var slots := if !clean && v0.Message? then v0.slots else Defaults(l.fields, |l.fields|);
    var status := DecodeNoInit(substream.value, l.fields, slots);
    stream.CloseStringSubstream(substream.value);
    r := if status.Some? then Some(Message(status.value)) else None;
  }

  /** The decoder that PB_DECODERS has for a type. */
  method DecodeValue(stream: IStream, l: LType, clean: bool, v0: Value) returns (r: Option<Value>)
    requires stream.Ok() && TypeTagsApart(l)
    modifies stream
    ensures stream.Within()
    ensures var d := DecValue(l, clean, v0, old(stream.Left()));
            (r.Some? <==> d.Some?) && (r.Some? ==> r.value == d.value.0 && stream.Moved(d.value.1))
    decreases l, 1
  {
    hide TakeString, DecFields, DecInteger, TagsApart;
    if IsInteger(l) {
      r := DecodeInteger(stream, l);
    } else if l.MessageType? {
      r := DecodeSubmessage(stream, l, clean, v0);
    } else {
      r := DecodeBlob(stream, l, clean, v0);
    }
  }

  /** The packed branch of decode_static_field. */
  method DecodePacked(stream: IStream, f: Field, count0: nat, items0: seq<Value>) returns (r: Option<Slot>)
    requires stream.Ok() && f.h.Repeated? && IsInteger(f.l)
    modifies stream
    ensures stream.Within()
    ensures var d := DecField(f, Many(count0, items0), WT_STRING, old(stream.Left()));
            (r.Some? <==> d.Some?) && (r.Some? ==> r.value == d.value.0 && stream.Moved(d.value.1))
  {
    hide TakeString, DecInteger;
    var substream := stream.MakeStringSubstream();
    if substream.None? {
      return None;
    }
    var sub := substream.value;
    var count: nat, items := count0, items0;
    ghost var end, at, left := sub.state + sub.bytesLeft, stream.state, stream.bytesLeft;
    while sub.bytesLeft > 0 && count < f.h.arraySize && count < |items|
      invariant sub.Ok() && sub.state + sub.bytesLeft == end
      invariant stream.Ok() && stream.state == at && stream.bytesLeft == left
      invariant DecPacked(f.l, count0, items0, f.h.arraySize, TakeString(old(stream.Left())).value.0)
             == DecPacked(f.l, count, items, f.h.arraySize, sub.Left())
      decreases sub.bytesLeft
    {
      var item := DecodeInteger(sub, f.l);
      if item.None? {
        return None;
      }
      items := items[count := item.value];
      count := count + 1;
    }
    if sub.bytesLeft != 0 {
      return None;
    }
    stream.CloseStringSubstream(sub);
    r := Some(Many(count, items));
  }

  /** decode_static_field. */
  method DecodeField(stream: IStream, f: Field, slot: Slot, wt: nat) returns (r: Option<Slot>)
    requires stream.Ok() && TagsApartIn(f)
    modifies stream
    ensures stream.Within()
    ensures var d := DecField(f, slot, wt, old(stream.Left()));
            (r.Some? <==> d.Some?) && (r.Some? ==> r.value == d.value.0 && stream.Moved(d.value.1))
    decreases f, 0
  {
    hide TakeString, DecValue, DecPacked, TypeTagsApart;
    r := None;
    match (f.h, slot) {
      case (Required, One(v)) =>
        var d := DecodeValue(stream, f.l, false, v);
        r := if d.Some? then Some(One(d.value)) else None;
      case (Optional(true), Maybe(_, v)) =>
        var d := DecodeValue(stream, f.l, false, v);
        r := if d.Some? then Some(Maybe(true, d.value)) else None;
      case (Optional(false), One(v)) =>
        var d := DecodeValue(stream, f.l, false, v);
        r := if d.Some? then Some(One(d.value)) else None;
      case (Repeated(arraySize), Many(count, items)) =>
        if wt == WT_STRING && IsInteger(f.l) {
          r := DecodePacked(stream, f, count, items);
        } else if count < arraySize && count < |items| {
          var d := DecodeValue(stream, f.l, true, items[count]);
          r := if d.Some? then Some(Many(count + 1, items[count := d.value])) else None;
        }
      case (OneOf, Choice(_, v)) =>
        var d := DecodeValue(stream, f.l, true, v);
        r := if d.Some? then Some(Choice(f.tag, d.value)) else None;
      case _ =>
    }
  }

  /** How many required fields the descriptor has, by walking to its end from anywhere in it. */
  method CountRequired(iter: FieldIter) returns (count: nat)
    requires iter.Ok()
    modifies iter
    ensures iter.Ok() && count == RequiredBefore(iter.fields, |iter.fields|)
  {
    count := 0;
    if iter.fields == [] {
      return;
    }
    var last := false;
    while true
      invariant iter.Ok()
      decreases |iter.fields| - iter.pos
    {
      count := iter.requiredFieldIndex;
      last := iter.fields[iter.pos].h.Required?;
      ghost var at := iter.pos;
      var more := iter.Next();
      if !more {
        assert at + 1 == |iter.fields|;
        break;
      }
    }
    if last {
      count := count + 1;
    }
  }

  /** The check at the end of a message. */
  method CheckRequired(iter: FieldIter, seen: set<nat>) returns (ok: bool)
    requires iter.Ok()
    modifies iter
    ensures iter.Ok() && ok == AllSeen(seen, Counted(iter.fields))
  {
    var count := CountRequired(iter);
    if count > MAX_REQUIRED_FIELDS {
      count := MAX_REQUIRED_FIELDS;
    }
    ok := forall i :: 0 <= i < count ==> i in seen;
  }

  lemma IndexFound(fields: seq<Field>, i: nat, from: nat)
    requires DistinctTags(fields) && from <= i < |fields|
    ensures IndexOf(fields, fields[i].tag, from) == Some(i)
    decreases i - from
  {
    if from < i {
      IndexFound(fields, i, from + 1);
    }
  }

  /** What one field does, in terms of the message. */
  lemma FieldStep(fields: seq<Field>, slots: seq<Slot>, seen: set<nat>, s: Slice, i: nat)
    requires s != [] && Take32(s).Some? && Take32(s).value.0 != 0
             && IndexOf(fields, Take32(s).value.0 / 8, 0) == Some(i)
    ensures PlaceOf(fields, i) >= |slots| ==> DecFields(fields, slots, seen, s) == None
    ensures PlaceOf(fields, i) < |slots| ==>
              var p, k := PlaceOf(fields, i), RequiredBefore(fields, i);
              var d := DecField(fields[i], slots[p], Take32(s).value.0 % 8, Take32(s).value.1);
              DecFields(fields, slots, seen, s)
              == if d.None? then None
                 else DecFields(fields, slots[p := d.value.0],
                                if fields[i].h.Required? && k < MAX_REQUIRED_FIELDS then seen + {k}
                                    else seen, d.value.1)
  {
    hide DecField, Take32, IndexOf, PlaceOf, RequiredBefore;
  }

  lemma UnknownStep(fields: seq<Field>, slots: seq<Slot>, seen: set<nat>, s: Slice)
    requires s != [] && Take32(s).Some? && Take32(s).value.0 != 0 && IndexOf(fields, Take32(s).value.0 / 8, 0) == None
    ensures var skipped := AfterField(Take32(s).value.0 % 8, Take32(s).value.1);
            DecFields(fields, slots, seen, s)
            == if (fields == [] && Take32(s).value.0 / 8 == 0) || skipped.None? then None
               else DecFields(fields, slots, seen, skipped.value)
  {
    hide DecField, Take32, IndexOf, AfterField;
  }

  lemma EndStep(fields: seq<Field>, slots: seq<Slot>, seen: set<nat>, s: Slice)
    ensures s != [] && Take32(s).None? ==> DecFields(fields, slots, seen, s) == None
    ensures s == [] || (Take32(s).Some? && Take32(s).value.0 == 0)
            ==> DecFields(fields, slots, seen, s) == if AllSeen(seen, Counted(fields)) then Some(slots) else None
  {
    hide DecField, Take32, IndexOf, AfterField, AllSeen, Counted;
  }

  /** pb_decode_noinit. */
  method DecodeNoInit(stream: IStream, fields: seq<Field>, slots0: seq<Slot>) returns (r: Option<seq<Slot>>)
    requires stream.Ok() && TagsApart(fields)
    modifies stream
    ensures stream.Within() && (r.Some? ==> stream.Bounded()) && r == DecFields(fields, slots0, {}, old(stream.Left()))
    decreases fields, 3
  {
    hide DecFields, DecField, Take32, AfterField, IndexOf, Places, RequiredBefore, TagsApartIn, AllSeen, Counted;
    var slots, seen: set<nat> := slots0, {};
    var iter := new FieldIter(fields);
    while stream.bytesLeft > 0
      invariant iter.Ok() && fresh(iter) && iter.fields == fields
      invariant stream.Ok() && stream.Bounded()
      invariant DecFields(fields, slots0, {}, old(stream.Left())) == DecFields(fields, slots, seen, stream.Left())
      decreases stream.bytesLeft
    {
      ghost var s := stream.Left();
      EndStep(fields, slots, seen, s);
      var temp := stream.DecodeVarint32();
      if temp.None? {
        return None;
      }
      // A zero ends the message.
      if temp.value == 0 {
        var complete := CheckRequired(iter, seen);
        return if complete then Some(slots) else None;
      }
      var tag, wireType := temp.value / 8, temp.value % 8;
      if fields == [] {
        UnknownStep(fields, slots, seen, s);
        // The terminator of the descriptor, with tag zero and size zero, is no integer.
        if tag == 0 {
          return None;
        }
        var skipped := stream.SkipField(wireType);
        if !skipped {
          return None;
        }
      } else {
        var found := iter.Find(tag);
        if !found {
          UnknownStep(fields, slots, seen, s);
          var skipped := stream.SkipField(wireType);
          if !skipped {
            return None;
          }
        } else {
          IndexFound(fields, iter.pos, 0);
          FieldStep(fields, slots, seen, s, iter.pos);
          // Every field has a place in the structure.
          if iter.place >= |slots| {
            return None;
          }
          var f := fields[iter.pos];
          if f.h.Required? && iter.requiredFieldIndex < MAX_REQUIRED_FIELDS {
            seen := seen + {iter.requiredFieldIndex};
          }
          var slot := DecodeField(stream, f, slots[iter.place], wireType);
          if slot.None? {
            return None;
          }
          slots := slots[iter.place := slot.value];
        }
      }
    }
    EndStep(fields, slots, seen, stream.Left());
    var complete := CheckRequired(iter, seen);
    r := if complete then Some(slots) else None;
  }

  /** pb_decode, from a buffer. */
  method Decode(buffer: Slice, fields: seq<Field>) returns (r: Option<seq<Slot>>)
    requires TagsApart(fields)
    ensures r == DecMessage(fields, buffer)
  {
    var stream := new IStream(buffer, 0, |buffer|);
    assert stream.Left() == buffer;
    r := DecodeNoInit(stream, fields, Defaults(fields, |fields|));
  }
}
