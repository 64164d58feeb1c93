/**
 Decoding what was encoded gives the message back, up to what is absent (nanopb: pb_encode.c, pb_decode.c).
 */
module PbRoundTrip {
  import opened DbFormat
  import opened Coding
  import opened PbModel
  import opened PbWire
  import opened PbEncode
  import opened PbDecode

  // ---------------------------------------------------------------------------
  // Descriptors and messages

  /** The descriptors that the generator writes, for messages without extensions, callbacks and pointers. */
  ghost predicate Descriptor(fields: seq<Field>)
    decreases fields, 2
  {
    && DistinctTags(fields)
    && (forall i :: 0 <= i < |fields| ==> DescribesField(fields[i]))
    && (forall i :: 0 <= i < |fields| && fields[i].joined ==> i > 0 && fields[i].h.OneOf? && fields[i - 1].h.OneOf?)
  }

  ghost predicate DescribesField(f: Field)
    decreases f, 1
  {
    && 0 < f.tag < 0x2000_0000 && DescribesType(f.l)
    // A field without a flag starts at the value that is not written.
    && (f.h == Optional(false) && !f.l.MessageType? ==> f.initial == ZeroOf(f.l))
  }

  function ZeroOf(l: LType): (v: Value)
  {
    if IsInteger(l) then Number(0) else if l.FixedBytesType? then Blob(Zeros(l.size)) else Blob([])
  }

  ghost predicate DescribesType(l: LType)
    decreases l, 0
  {
    l.MessageType? ==> Descriptor(l.fields)
  }

  /** Bytes whose length a 32-bit number can say. */
  predicate Short(bytes: Option<Slice>)
  {
    bytes.Some? && |bytes.value| < TWO32
  }

  /** A value that the memory for it can hold, a string with its end; and submessages are shorter than 4 GB. */
  ghost predicate FitsValue(l: LType, v: Value)
    decreases l, 1
  {
    match (l, v)
    case (VarintType(size), Number(n)) => size in {1, 2, 4, 8} && -(Width(size) as int) <= 2 * n < Width(size)
    case (UVarintType(size), Number(n)) => size in {1, 2, 4, 8} && 0 <= n < Width(size)
    case (SVarintType(size), Number(n)) => size in {1, 2, 4, 8} && -(Width(size) as int) <= 2 * n < Width(size)
    case (Fixed32Type, Number(n)) => 0 <= n < TWO32
    case (Fixed64Type, Number(n)) => 0 <= n < TWO64
    case (BytesType(room), Blob(b)) => |b| <= room && |b| < TWO32
    case (StringType(room), Blob(b)) => |b| < room && |b| < TWO32 && 0 !in b
    case (FixedBytesType(size), Blob(b)) => |b| == size < TWO32
    case (MessageType(fields), Message(slots)) => FitsMessage(fields, slots) && Short(EncMessage(fields, slots))
    case _ => false
  }

  ghost predicate FitsSlot(f: Field, slot: Slot)
    decreases f, 0
  {
    match (f.h, slot)
    case (Required, One(v)) => FitsValue(f.l, v)
    case (Optional(true), Maybe(has, v)) => has ==> FitsValue(f.l, v)
    case (Optional(false), One(v)) => FitsValue(f.l, v)
    case (Repeated(arraySize), Many(count, items)) =>
      && count <= arraySize == |items|
      && (forall k :: 0 <= k < count ==> FitsValue(f.l, items[k]))
      && (IsInteger(f.l) ==> Short(EncItems(f.l, items, count, [])))
    case (OneOf, Choice(which, v)) => which == f.tag ==> FitsValue(f.l, v)
    case _ => false
  }

  ghost predicate FitsMessage(fields: seq<Field>, slots: seq<Slot>)
    decreases fields, 1
  {
    |slots| == Places(fields, |fields|) && forall i :: 0 <= i < |fields| ==> FitsAt(fields, slots, i)
  }

  ghost predicate FitsAt(fields: seq<Field>, slots: seq<Slot>, i: nat)
    requires i < |fields|
    decreases fields, 0
  {
    PlaceOf(fields, i) < |slots| && FitsSlot(fields[i], slots[PlaceOf(fields, i)])
  }

  // ---------------------------------------------------------------------------
  // What decoding makes of the encoding of a message

  ghost function Rebuilt(l: LType, v: Value): (w: Value)
    decreases l, 0
  {
    if l.MessageType? && v.Message? then Message(After(l.fields, v.slots, |l.fields|)) else v
  }

  ghost function RebuiltItems(l: LType, items: seq<Value>, into: seq<Value>, n: nat): (r: seq<Value>)
    requires n <= |items| == |into|
    ensures |r| == |into|
    decreases l, 1, n
  {
    if n == 0 then into else RebuiltItems(l, items, into, n - 1)[n - 1 := Rebuilt(l, items[n - 1])]
  }

  /** The place of a field once its bytes have been read, which was `cur` before. */
  ghost function SlotAfter(f: Field, slot: Slot, cur: Slot): (r: Slot)
    decreases f, 0
  {
    match (f.h, slot)
    case (Required, One(v)) => One(Rebuilt(f.l, v))
    case (Optional(true), Maybe(has, v)) => if has then Maybe(true, Rebuilt(f.l, v)) else cur
    case (Optional(false), One(v)) => if IsZero(f.l, v) then cur else One(Rebuilt(f.l, v))
    case (Repeated(_), Many(count, items)) =>
      if count == 0 || count > |items| || !cur.Many? || |cur.items| != |items| then cur
      else Many(count, RebuiltItems(f.l, items, cur.items, count))
    case (OneOf, Choice(which, v)) => if which == f.tag then Choice(which, Rebuilt(f.l, v)) else cur
    case _ => cur
  }

  /** The structure once the bytes of the first `n` fields have been read. */
  ghost function After(fields: seq<Field>, slots: seq<Slot>, n: nat): (r: seq<Slot>)
    requires n <= |fields|
    ensures |r| == Places(fields, |fields|)
    decreases fields, n
  {
    if n == 0 then Defaults(fields, |fields|)
    else
      var cur, p := After(fields, slots, n - 1), PlaceOf(fields, n - 1);
      if p < |cur| && p < |slots| then cur[p := SlotAfter(fields[n - 1], slots[p], cur[p])] else cur
  }

  // ---------------------------------------------------------------------------
  // Places

  lemma {:induction false} PlacesGrow(fields: seq<Field>, n: nat, m: nat)
    requires n <= m <= |fields|
    ensures Places(fields, n) <= Places(fields, m)
    decreases m
  {
    if n < m {
      PlacesGrow(fields, n, m - 1);
    }
  }

  /** Every place starts at the default of the first field that has it. */
  lemma {:induction false} DefaultAt(fields: seq<Field>, n: nat, i: nat)
    requires i < n <= |fields| && (i == 0 || !fields[i].joined)
    ensures PlaceOf(fields, i) < Places(fields, n) && Defaults(fields, n)[PlaceOf(fields, i)] == DefaultSlot(fields[i])
    decreases n
  {
    hide DefaultSlot;
    PlacesGrow(fields, i + 1, n);
    if i < n - 1 {
      DefaultAt(fields, n - 1, i);
    }
  }

  /** Places beyond those of the fields read so far are untouched. */
  lemma {:induction false} Untouched(fields: seq<Field>, slots: seq<Slot>, n: nat, p: nat)
    requires n <= |fields| && Places(fields, n) <= p < Places(fields, |fields|)
    ensures After(fields, slots, n)[p] == Defaults(fields, |fields|)[p]
    decreases n
  {
    hide SlotAfter, Defaults;
    if n > 0 {
      PlacesGrow(fields, n - 1, n);
      Untouched(fields, slots, n - 1, p);
    }
  }

  /** What the decoder finds in the place of the next field. */
  ghost predicate Ready(f: Field, cur: Slot)
  {
    if f.h.OneOf? then cur.Choice? && cur.which != f.tag else cur == DefaultSlot(f)
  }

  /** After a member of a oneof, its place names that member or an earlier one, or none. */
  lemma {:induction false} ChoiceSoFar(fields: seq<Field>, slots: seq<Slot>, n: nat)
    requires Descriptor(fields) && FitsMessage(fields, slots) && 0 < n <= |fields| && fields[n - 1].h.OneOf?
    ensures Places(fields, n) <= Places(fields, |fields|)
    ensures var cur := After(fields, slots, n)[Places(fields, n) - 1];
            cur.Choice? && forall j :: n <= j < |fields| ==> cur.which != fields[j].tag
    decreases n, 0
  {
    hide Defaults, Rebuilt;
    PlacesGrow(fields, n, |fields|);
    var p := PlaceOf(fields, n - 1);
    ReadyNext(fields, slots, n - 1);
    assert FitsAt(fields, slots, n - 1);
  }

  lemma {:induction false} ReadyNext(fields: seq<Field>, slots: seq<Slot>, n: nat)
    requires Descriptor(fields) && FitsMessage(fields, slots) && n < |fields|
    ensures PlaceOf(fields, n) < Places(fields, |fields|)
    ensures Ready(fields[n], After(fields, slots, n)[PlaceOf(fields, n)])
    ensures fields[n].h.OneOf? ==> forall j :: n <= j < |fields| ==>
            After(fields, slots, n)[PlaceOf(fields, n)].which != fields[j].tag
    decreases n, 1
  {
    hide After, Defaults;
    PlacesGrow(fields, n + 1, |fields|);
    if n > 0 && fields[n].joined {
      ChoiceSoFar(fields, slots, n);
    } else {
      Untouched(fields, slots, n, PlaceOf(fields, n));
      DefaultAt(fields, |fields|, n);
    }
  }

  // ---------------------------------------------------------------------------
  // Values are read back

  lemma IntegerBack(l: LType, n: int, rest: Slice)
    requires IsInteger(l) && FitsValue(l, Number(n))
    ensures EncValue(l, Number(n)).Some?
            && DecInteger(l, EncValue(l, Number(n)).value + rest) == Some((Number(n), rest))
  {
    hide Varint, TakeVarint, Fixed, FromFixed, Pow2, AsSigned, UnZigZag, ZigZag;
    Pow2Widths();
    match l {
      case VarintType(size) =>
        LowBytes(n, size);
        LowBytes(n, if size == 8 then 8 else 4);
        VarintRoundTrip(AsUnsigned(n), rest, 64);
      case UVarintType(size) =>
        VarintRoundTrip(n, rest, 64);
        SmallMod(n, TWO64);
      case SVarintType(size) =>
        ZigZagBack(n);
        VarintRoundTrip(ZigZag(n), rest, 64);
        SmallMod(ZigZag(n), TWO64);
      case Fixed32Type =>
        FixedRoundTrip(4, n);
        assert (Fixed(4, n) + rest)[..4] == Fixed(4, n) && (Fixed(4, n) + rest)[4..] == rest;
      case Fixed64Type =>
        FixedRoundTrip(8, n);
        assert (Fixed(8, n) + rest)[..8] == Fixed(8, n) && (Fixed(8, n) + rest)[8..] == rest;
    }
  }

  lemma {:induction false} NoZeroInside(b: Slice)
    requires 0 !in b
    ensures Terminated(b) == b
  {
    if b != [] {
      NoZeroInside(b[1..]);
      assert b == [b[0]] + b[1..];
    }
  }

  lemma BlobBack(l: LType, b: Slice, clean: bool, v0: Value, rest: Slice)
    requires (l.BytesType? || l.StringType? || l.FixedBytesType?) && FitsValue(l, Blob(b))
    ensures EncValue(l, Blob(b)).Some?
            && DecValue(l, clean, v0, EncValue(l, Blob(b)).value + rest) == Some((Blob(b), rest))
  {
    hide TakeString, LengthPrefixed;
    StringBack(b, rest);
    NoZeros(b);
    if l.FixedBytesType? && b == [] {
      assert Zeros(l.size) == b;
    }
  }

  lemma NoZeros(b: Slice)
    ensures 0 !in b ==> Terminated(b) == b
  {
    if 0 !in b {
      NoZeroInside(b);
    }
  }

  /** A value is read back from its encoding, whatever follows. */
  lemma {:induction false} ValueBack(l: LType, v: Value, clean: bool, v0: Value, initial: Value, rest: Slice)
    requires DescribesType(l) && FitsValue(l, v) && (l.MessageType? && !clean ==> v0 == InitialValue(l, initial))
    ensures EncValue(l, v).Some? && DecValue(l, clean, v0, EncValue(l, v).value + rest) == Some((Rebuilt(l, v), rest))
    decreases l, 0
  {
    if IsInteger(l) {
      IntegerBack(l, v.n, rest);
    } else if !l.MessageType? {
      BlobBack(l, v.b, clean, v0, rest);
    } else {
      hide TakeString, LengthPrefixed, EncFields, DecFields, After, Defaults, FitsMessage, Descriptor;
      var bytes := EncMessage(l.fields, v.slots).value;
      StringBack(bytes, rest);
      MessageBack(l.fields, v.slots);
    }
  }

  // ---------------------------------------------------------------------------
  // Fields are read back

  lemma IndexBack(fields: seq<Field>, i: nat, j: nat)
    requires DistinctTags(fields) && j <= i < |fields|
    ensures IndexOf(fields, fields[i].tag, j) == Some(i)
    decreases i - j
  {
    if j < i {
      IndexBack(fields, i, j + 1);
    }
  }

  ghost function SeenWith(fields: seq<Field>, i: nat, seen: set<nat>): (r: set<nat>)
    requires i < |fields|
  {
    if fields[i].h.Required? && RequiredBefore(fields, i) < MAX_REQUIRED_FIELDS then
        seen + {RequiredBefore(fields, i)} else seen
  }

  /** One tag and what belongs to it. */
  lemma TagBack(fields: seq<Field>, i: nat, cur: seq<Slot>, seen: set<nat>, wt: nat, s: Slice, slot: Slot, rest: Slice)
    requires Descriptor(fields) && i < |fields| && wt < 8 && PlaceOf(fields, i) < |cur|
    requires DecField(fields[i], cur[PlaceOf(fields, i)], wt, s) == Some((slot, rest))
    ensures DecFields(fields, cur, seen, TagBytes(wt, fields[i].tag) + s)
         == DecFields(fields, cur[PlaceOf(fields, i) := slot], SeenWith(fields, i, seen), rest)
  {
    hide DecField, Take32, Varint, IndexOf, PlaceOf, RequiredBefore;
    var f := fields[i];
    assert DescribesField(f);
    IndexBack(fields, i, 0);
    Varint32Back(f.tag * 8 + wt, s);
  }

  lemma {:induction false} PackedBack(l: LType, items: seq<Value>, into: seq<Value>, arraySize: nat, n: nat,
                                      more: Slice)
    requires IsInteger(l) && n <= |items| == |into| && n <= arraySize
    requires forall k :: 0 <= k < n ==> FitsValue(l, items[k])
    ensures EncItems(l, items, n, []).Some?
    ensures DecPacked(l, 0, into, arraySize, EncItems(l, items, n, []).value + more)
         == DecPacked(l, n, RebuiltItems(l, items, into, n), arraySize, more)
    decreases n
  {
    hide DecInteger, EncValue, FitsValue;
    if n == 0 {
      assert [] + more == more;
    } else {
      var v := items[n - 1];
      NumberOnly(l, v);
      IntegerBack(l, v.n, more);
      var b := EncValue(l, v).value;
      PackedBack(l, items, into, arraySize, n - 1, b + more);
      var a := EncItems(l, items, n - 1, []).value;
      assert a + ([] + b) + more == a + (b + more);
    }
  }

  lemma NumberOnly(l: LType, v: Value)
    requires IsInteger(l) && FitsValue(l, v)
    ensures v.Number?
  {
  }

  /** The value of a field, read by its own rules. */
  lemma {:induction false} FieldValueBack(f: Field, v: Value, clean: bool, v0: Value, rest: Slice)
    requires DescribesField(f) && FitsValue(f.l, v)
             && (f.l.MessageType? && !clean ==> v0 == InitialValue(f.l, f.initial))
    ensures EncValue(f.l, v).Some?
            && DecValue(f.l, clean, v0, EncValue(f.l, v).value + rest) == Some((Rebuilt(f.l, v), rest))
    decreases f, 0
  {
    hide EncValue, DecValue, Rebuilt, FitsValue;
    ValueBack(f.l, v, clean, v0, f.initial, rest);
  }

  /** The items of an array that is not packed, each with its tag. */
  lemma {:induction false} ItemsBack(fields: seq<Field>, i: nat, cur: seq<Slot>, seen: set<nat>, items: seq<Value>,
                                     into: seq<Value>,
                                     n: nat, more: Slice)
    requires Descriptor(fields) && i < |fields| && fields[i].h.Repeated? && !IsInteger(fields[i].l)
    requires n <= |items| == |into| && n <= fields[i].h.arraySize
    requires PlaceOf(fields, i) < |cur| && cur[PlaceOf(fields, i)] == Many(0, into)
    requires forall k :: 0 <= k < n ==> FitsValue(fields[i].l, items[k])
    ensures var f := fields[i];
            var bytes := EncItems(f.l, items, n, TagBytes(WireType(f.l), f.tag));
            && bytes.Some?
            && DecFields(fields, cur, seen, bytes.value + more)
            == DecFields(fields, cur[PlaceOf(fields, i) := Many(n, RebuiltItems(f.l, items, into, n))], seen, more)
    decreases fields, 0, n
  {
    hide DecFields, EncValue, DecValue, TagBytes, FitsValue, Descriptor, Rebuilt, PlaceOf, DescribesField;
    var f, p := fields[i], PlaceOf(fields, i);
    var tag := TagBytes(WireType(f.l), f.tag);
    if n == 0 {
      assert [] + more == more;
      assert cur[p := Many(0, into)] == cur;
    } else {
      var v := items[n - 1];
      Described(fields, i);
      FieldValueBack(f, v, true, RebuiltItems(f.l, items, into, n - 1)[n - 1], more);
      var b := EncValue(f.l, v).value;
      ItemsBack(fields, i, cur, seen, items, into, n - 1, tag + (b + more));
      var a := EncItems(f.l, items, n - 1, tag).value;
      assert a + (tag + b) + more == a + (tag + (b + more));
      var cur' := cur[p := Many(n - 1, RebuiltItems(f.l, items, into, n - 1))];
      var slot := Many(n, RebuiltItems(f.l, items, into, n));
      TagBack(fields, i, cur', seen, WireType(f.l), b + more, slot, more);
      assert cur'[p := slot] == cur[p := slot];
    }
  }

  lemma Described(fields: seq<Field>, i: nat)
    requires Descriptor(fields) && i < |fields|
    ensures DescribesField(fields[i])
  {
    hide DescribesField;
  }

  /** A single value with its tag. */
  lemma {:induction false} OneBack(fields: seq<Field>, i: nat, cur: seq<Slot>, seen: set<nat>, v: Value, v0: Value,
                                   clean: bool,
                                   slot: Slot, rest: Slice)
    requires Descriptor(fields) && i < |fields| && PlaceOf(fields, i) < |cur| && FitsValue(fields[i].l, v)
    requires fields[i].l.MessageType? && !clean ==> v0 == InitialValue(fields[i].l, fields[i].initial)
    requires forall s :: DecField(fields[i], cur[PlaceOf(fields, i)], WireType(fields[i].l), s) ==
                         var d := DecValue(fields[i].l, clean, v0, s);
                         if d.None? then None else Some((SlotOf(fields[i], d.value.0), d.value.1))
    requires slot == SlotOf(fields[i], Rebuilt(fields[i].l, v))
    ensures var f := fields[i];
            var bytes := Both(Some(TagBytes(WireType(f.l), f.tag)), EncValue(f.l, v));
            && bytes.Some?
            && DecFields(fields, cur, seen, bytes.value + rest)
            == DecFields(fields, cur[PlaceOf(fields, i) := slot], SeenWith(fields, i, seen), rest)
    decreases fields, 0, 0
  {
    hide DecFields, EncValue, DecValue, DecField, TagBytes, FitsValue, Descriptor, Rebuilt, PlaceOf, DescribesField,
        SeenWith;
    var f := fields[i];
    Described(fields, i);
    FieldValueBack(f, v, clean, v0, rest);
    var tag, b := TagBytes(WireType(f.l), f.tag), EncValue(f.l, v).value;
    assert tag + b + rest == tag + (b + rest);
    TagBack(fields, i, cur, seen, WireType(f.l), b + rest, slot, rest);
  }

  /** How a field that is not an array holds a value that has been read. */
  function SlotOf(f: Field, v: Value): (slot: Slot)
  {
    match f.h
    case Optional(true) => Maybe(true, v)
    case OneOf => Choice(f.tag, v)
    case _ => One(v)
  }

  /** The bytes of one field take the structure from one stage to the next. */
  lemma {:induction false} FieldBack(fields: seq<Field>, slots: seq<Slot>, i: nat, seen: set<nat>, rest: Slice)
    requires Descriptor(fields) && FitsMessage(fields, slots) && i < |fields|
    ensures PlaceOf(fields, i) < |slots| && EncField(fields[i], slots[PlaceOf(fields, i)]).Some?
    ensures DecFields(fields, After(fields, slots, i), seen, EncField(fields[i], slots[PlaceOf(fields, i)]).value
                      + rest)
         == DecFields(fields, After(fields, slots, i + 1), SeenWith(fields, i, seen), rest)
    decreases fields, 1
  {
    hide DecFields, EncValue, DecValue, TagBytes, FitsValue, Descriptor, Rebuilt, PlaceOf, DescribesField, EncItems,
        IsZero,
         RequiredBefore, RebuiltItems, InitialValue;
    ReadyNext(fields, slots, i);
    assert FitsAt(fields, slots, i);
    assert FitsSlot(fields[i], slots[PlaceOf(fields, i)]);
    var f, p := fields[i], PlaceOf(fields, i);
    var before, slot := After(fields, slots, i), slots[p];
    var cur := before[p];
    var next := SlotAfter(f, slot, cur);
    assert After(fields, slots, i + 1) == before[p := next];
    hide After;
    assert [] + rest == rest;
    assert before[p := cur] == before;
    match (f.h, slot) {
      case (Required, One(v)) =>
        OneBack(fields, i, before, seen, v, cur.v, false, next, rest);
      case (Optional(true), Maybe(has, v)) =>
        if has {
          OneBack(fields, i, before, seen, v, cur.v, false, next, rest);
        }
      case (Optional(false), One(v)) =>
        if !IsZero(f.l, v) {
          OneBack(fields, i, before, seen, v, cur.v, false, next, rest);
        }
      case (OneOf, Choice(which, v)) =>
        if which == f.tag {
          OneBack(fields, i, before, seen, v, cur.v, true, next, rest);
        }
      case (Repeated(arraySize), Many(count, items)) =>
        if count > 0 && !IsInteger(f.l) {
          ItemsBack(fields, i, before, seen, items, cur.items, count, rest);
        } else if count > 0 {
          PackedFieldBack(fields, i, before, seen, items, cur.items, count, rest);
        }
    }
  }

  lemma PackedFieldBack(fields: seq<Field>, i: nat, cur: seq<Slot>, seen: set<nat>, items: seq<Value>,
                        into: seq<Value>, n: nat, rest: Slice)
    requires Descriptor(fields) && i < |fields| && fields[i].h.Repeated? && IsInteger(fields[i].l)
    requires n <= |items| == |into| && n <= fields[i].h.arraySize
    requires PlaceOf(fields, i) < |cur| && cur[PlaceOf(fields, i)] == Many(0, into)
    requires Short(EncItems(fields[i].l, items, n, []))
    requires forall k :: 0 <= k < n ==> FitsValue(fields[i].l, items[k])
    ensures var f := fields[i];
            var bytes := Both(Some(TagBytes(WT_STRING, f.tag)), Prefixed(EncItems(f.l, items, n, [])));
            && bytes.Some?
            && DecFields(fields, cur, seen, bytes.value + rest)
            == DecFields(fields, cur[PlaceOf(fields, i) := Many(n, RebuiltItems(f.l, items, into, n))], seen, rest)
  {
    hide DecFields, EncValue, DecInteger, TagBytes, FitsValue, Descriptor, Rebuilt, PlaceOf, EncItems, RebuiltItems,
        TakeString, LengthPrefixed;
    var f := fields[i];
    var packed := EncItems(f.l, items, n, []).value;
    PackedBack(f.l, items, into, f.h.arraySize, n, []);
    assert packed + [] == packed;
    StringBack(packed, rest);
    var tag := TagBytes(WT_STRING, f.tag);
    assert tag + LengthPrefixed(packed) + rest == tag + (LengthPrefixed(packed) + rest);
    TagBack(fields, i, cur, seen, WT_STRING, LengthPrefixed(packed) + rest,
            Many(n, RebuiltItems(f.l, items, into, n)), rest);
  }

  // ---------------------------------------------------------------------------
  // Messages are read back

  /** The required fields among the first `n`. */
  ghost function SeenTo(fields: seq<Field>, n: nat): (seen: set<nat>)
    requires n <= |fields|
  {
    if n == 0 then {} else SeenWith(fields, n - 1, SeenTo(fields, n - 1))
  }

  lemma {:induction false} SeenAll(fields: seq<Field>, n: nat, k: nat)
    requires n <= |fields| && k < RequiredBefore(fields, n) && k < MAX_REQUIRED_FIELDS
    ensures k in SeenTo(fields, n)
  {
    if k < RequiredBefore(fields, n - 1) {
      SeenAll(fields, n - 1, k);
    }
  }

  lemma AllRequiredSeen(fields: seq<Field>)
    ensures AllSeen(SeenTo(fields, |fields|), Counted(fields))
  {
    hide SeenTo;
    forall k | 0 <= k < Counted(fields) ensures k in SeenTo(fields, |fields|) {
      SeenAll(fields, |fields|, k);
    }
  }

  lemma {:induction false} FieldsBack(fields: seq<Field>, slots: seq<Slot>, n: nat, rest: Slice)
    requires Descriptor(fields) && FitsMessage(fields, slots) && n <= |fields|
    ensures EncFields(fields, slots, n).Some?
    ensures DecFields(fields, Defaults(fields, |fields|), {}, EncFields(fields, slots, n).value + rest)
         == DecFields(fields, After(fields, slots, n), SeenTo(fields, n), rest)
    decreases fields, 2, n
  {
    hide DecFields, EncField, Descriptor, FitsMessage, SeenWith;
    if n == 0 {
      assert [] + rest == rest;
    } else {
      FieldBack(fields, slots, n - 1, SeenTo(fields, n - 1), rest);
      var b := EncField(fields[n - 1], slots[PlaceOf(fields, n - 1)]).value;
      FieldsBack(fields, slots, n - 1, b + rest);
      var a := EncFields(fields, slots, n - 1).value;
      assert a + b + rest == a + (b + rest);
    }
  }

  /** A message is read back from its encoding. */
  lemma {:induction false} MessageBack(fields: seq<Field>, slots: seq<Slot>)
    requires Descriptor(fields) && FitsMessage(fields, slots)
    ensures EncMessage(fields, slots).Some?
    ensures DecMessage(fields, EncMessage(fields, slots).value) == Some(After(fields, slots, |fields|))
    decreases fields, 3
  {
    hide EncFields, Descriptor, FitsMessage, After, Defaults;
    FieldsBack(fields, slots, |fields|, []);
    AllRequiredSeen(fields);
    var bytes := EncMessage(fields, slots).value;
    assert bytes + [] == bytes;
  }

  // ---------------------------------------------------------------------------
  // The same message

  ghost predicate SameValue(l: LType, v: Value, w: Value)
    decreases l, 1
  {
    if l.MessageType? then v.Message? && w.Message? && SameMessage(l.fields, v.slots, w.slots) else v == w
  }

  /** Present in both and with the same contents, or absent in both. */
  ghost predicate SameSlot(f: Field, a: Slot, b: Slot)
    decreases f, 0
  {
    match (f.h, a, b)
    case (Required, One(v), One(w)) => SameValue(f.l, v, w)
    case (Optional(true), Maybe(has, v), Maybe(has', w)) => has == has' && (has ==> SameValue(f.l, v, w))
    case (Optional(false), One(v), One(w)) => SameValue(f.l, v, w)
    case (Repeated(_), Many(n, xs), Many(n', ys)) =>
      n == n' && n <= |xs| && n <= |ys| && forall k :: 0 <= k < n ==> SameValue(f.l, xs[k], ys[k])
    case (OneOf, Choice(which, v), Choice(which', w)) =>
      (which == f.tag <==> which' == f.tag) && (which == f.tag ==> SameValue(f.l, v, w))
    case _ => false
  }

  ghost predicate SameAt(fields: seq<Field>, a: seq<Slot>, b: seq<Slot>, i: nat)
    requires i < |fields|
    decreases fields, 0
  {
    var p := PlaceOf(fields, i);
    p < |a| && p < |b| && SameSlot(fields[i], a[p], b[p])
  }

  ghost predicate SameMessage(fields: seq<Field>, a: seq<Slot>, b: seq<Slot>)
    decreases fields, 1
  {
    forall i :: 0 <= i < |fields| ==> SameAt(fields, a, b, i)
  }

  lemma {:induction false} DefaultChoice(fields: seq<Field>, i: nat)
    requires Descriptor(fields) && i < |fields| && fields[i].h.OneOf?
    ensures PlaceOf(fields, i) < Places(fields, |fields|)
            && Defaults(fields, |fields|)[PlaceOf(fields, i)] == Choice(0, Number(0))
  {
    if i > 0 && fields[i].joined {
      DefaultChoice(fields, i - 1);
    } else {
      DefaultAt(fields, |fields|, i);
    }
  }

  lemma {:induction false} AllDefaultAt(fields: seq<Field>, slots: seq<Slot>, n: nat, i: nat)
    requires i < n <= |fields| && AllDefault(fields, slots, n)
    ensures PlaceOf(fields, i) < |slots| && IsDefault(fields[i], slots[PlaceOf(fields, i)])
    decreases n
  {
    hide IsDefault, PlaceOf;
    if i < n - 1 {
      AllDefaultAt(fields, slots, n - 1, i);
    }
  }

  /** A value that is not written is the one the decoder starts with. */
  lemma {:induction false} ZeroSame(l: LType, v: Value, initial: Value)
    requires DescribesType(l) && FitsValue(l, v) && IsZero(l, v) && (!l.MessageType? ==> initial == ZeroOf(l))
    ensures SameValue(l, v, InitialValue(l, initial))
    decreases l, 0
  {
    if l.MessageType? {
      hide AllDefault, FitsMessage, Descriptor, Defaults;
      DefaultSame(l.fields, v.slots);
    }
  }

  lemma {:induction false} ZeroFieldSame(f: Field, v: Value)
    requires DescribesField(f) && f.h == Optional(false) && FitsValue(f.l, v) && IsZero(f.l, v)
    ensures SameValue(f.l, v, InitialValue(f.l, f.initial))
    decreases f, 0
  {
    hide SameValue, FitsValue, InitialValue, IsZero;
    ZeroSame(f.l, v, f.initial);
  }

  lemma {:induction false} DefaultSame(fields: seq<Field>, slots: seq<Slot>)
    requires Descriptor(fields) && FitsMessage(fields, slots) && AllDefault(fields, slots, |fields|)
    ensures SameMessage(fields, slots, Defaults(fields, |fields|))
    decreases fields, 2
  {
    hide AllDefault, Defaults, PlaceOf;
    forall i | 0 <= i < |fields| ensures SameAt(fields, slots, Defaults(fields, |fields|), i) {
      DefaultSameAt(fields, slots, i);
    }
  }

  lemma {:induction false} DefaultSameAt(fields: seq<Field>, slots: seq<Slot>, i: nat)
    requires Descriptor(fields) && FitsMessage(fields, slots) && AllDefault(fields, slots, |fields|) && i < |fields|
    ensures SameAt(fields, slots, Defaults(fields, |fields|), i)
    decreases fields, 1
  {
    hide AllDefault, Defaults, PlaceOf, SameValue, FitsValue, IsZero, InitialValue, Descriptor, DescribesField;
    var f, p := fields[i], PlaceOf(fields, i);
    Described(fields, i);
    AllDefaultAt(fields, slots, |fields|, i);
    assert FitsAt(fields, slots, i) && FitsSlot(f, slots[p]);
    if f.h.OneOf? {
      DefaultChoice(fields, i);
      TagsPositive(fields, i);
    } else {
      NotJoined(fields, i);
      DefaultAt(fields, |fields|, i);
      if f.h == Optional(false) {
        ZeroFieldSame(f, slots[p].v);
      }
    }
  }

  lemma TagsPositive(fields: seq<Field>, i: nat)
    requires Descriptor(fields) && i < |fields|
    ensures fields[i].tag > 0
  {
    assert DescribesField(fields[i]);
  }

  lemma NotJoined(fields: seq<Field>, i: nat)
    requires Descriptor(fields) && i < |fields| && !fields[i].h.OneOf?
    ensures !fields[i].joined
  {
  }

  lemma {:induction false} RebuiltSame(l: LType, v: Value)
    requires DescribesType(l) && FitsValue(l, v)
    ensures SameValue(l, v, Rebuilt(l, v))
    decreases l, 0
  {
    if l.MessageType? {
      hide FitsMessage, Descriptor, After;
      AfterSame(l.fields, v.slots);
    }
  }

  lemma {:induction false} RebuiltFieldSame(f: Field, v: Value)
    requires DescribesField(f) && FitsValue(f.l, v)
    ensures SameValue(f.l, v, Rebuilt(f.l, v))
    decreases f, 0
  {
    hide SameValue, FitsValue, Rebuilt;
    RebuiltSame(f.l, v);
  }

  lemma {:induction false} RebuiltItem(l: LType, items: seq<Value>, into: seq<Value>, n: nat, k: nat)
    requires k < n <= |items| == |into|
    ensures RebuiltItems(l, items, into, n)[k] == Rebuilt(l, items[k])
    decreases n
  {
    hide Rebuilt;
    if k < n - 1 {
      RebuiltItem(l, items, into, n - 1, k);
    }
  }

  /** What has just been read is what was written. */
  lemma {:induction false} SlotAfterSame(f: Field, slot: Slot, cur: Slot)
    requires DescribesField(f) && FitsSlot(f, slot) && Ready(f, cur)
    ensures SameSlot(f, slot, SlotAfter(f, slot, cur))
    decreases f, 1
  {
    hide SameValue, FitsValue, Rebuilt, IsZero, InitialValue, DescribesField, RebuiltItems;
    match (f.h, slot) {
      case (Required, One(v)) => RebuiltFieldSame(f, v);
      case (Optional(true), Maybe(has, v)) =>
        if has {
          RebuiltFieldSame(f, v);
        }
      case (Optional(false), One(v)) =>
        if IsZero(f.l, v) {
          ZeroFieldSame(f, v);
        } else {
          RebuiltFieldSame(f, v);
        }
      case (Repeated(_), Many(count, items)) =>
        forall k | 0 <= k < count ensures SameValue(f.l, items[k], RebuiltItems(f.l, items, cur.items, count)[k]) {
          RebuiltItem(f.l, items, cur.items, count, k);
          RebuiltFieldSame(f, items[k]);
        }
      case (OneOf, Choice(which, v)) =>
        if which == f.tag {
          RebuiltFieldSame(f, v);
        }
    }
  }

  /** Only members of one oneof share a place. */
  lemma {:induction false} SharedPlace(fields: seq<Field>, i: nat, n: nat)
    requires Descriptor(fields) && i < n < |fields| && PlaceOf(fields, i) == PlaceOf(fields, n)
    ensures fields[i].h.OneOf? && fields[n].h.OneOf?
    decreases n
  {
    PlacesGrow(fields, i + 1, n);
    assert fields[n].joined;
    if i < n - 1 {
      SharedPlace(fields, i, n - 1);
    }
  }

  /** Reading a later field does not disturb what has been read. */
  lemma LaterField(fields: seq<Field>, slots: seq<Slot>, n: nat, i: nat)
    requires Descriptor(fields) && FitsMessage(fields, slots) && i < n < |fields|
    requires SameAt(fields, slots, After(fields, slots, n), i)
    ensures SameAt(fields, slots, After(fields, slots, n + 1), i)
  {
    hide SameValue, FitsValue, Rebuilt, PlaceOf;
    ReadyNext(fields, slots, n);
    assert FitsAt(fields, slots, n) && FitsSlot(fields[n], slots[PlaceOf(fields, n)]);
    if PlaceOf(fields, i) == PlaceOf(fields, n) {
      SharedPlace(fields, i, n);
    }
  }

  lemma {:induction false} AfterSameTo(fields: seq<Field>, slots: seq<Slot>, n: nat, i: nat)
    requires Descriptor(fields) && FitsMessage(fields, slots) && i < n <= |fields|
    ensures SameAt(fields, slots, After(fields, slots, n), i)
    decreases fields, 2, n
  {
    if i < n - 1 {
      hide SameAt, Descriptor, FitsMessage, After;
      AfterSameTo(fields, slots, n - 1, i);
      LaterField(fields, slots, n - 1, i);
    } else {
      hide SameSlot, SlotAfter, PlaceOf, DescribesField, Descriptor;
      ReadyNext(fields, slots, i);
      Described(fields, i);
      assert FitsAt(fields, slots, i);
      var p := PlaceOf(fields, i);
      SlotAfterSame(fields[i], slots[p], After(fields, slots, i)[p]);
    }
  }

  lemma {:induction false} AfterSame(fields: seq<Field>, slots: seq<Slot>)
    requires Descriptor(fields) && FitsMessage(fields, slots)
    ensures SameMessage(fields, slots, After(fields, slots, |fields|))
    decreases fields, 3
  {
    hide SameAt, Descriptor, FitsMessage, After;
    forall i | 0 <= i < |fields| ensures SameAt(fields, slots, After(fields, slots, |fields|), i) {
      AfterSameTo(fields, slots, |fields|, i);
    }
  }

  /** Every message that fits its memory survives encoding and decoding, up to the contents of what is absent. */
  lemma RoundTrip(fields: seq<Field>, slots: seq<Slot>) returns (decoded: seq<Slot>)
    requires Descriptor(fields) && FitsMessage(fields, slots)
    ensures EncMessage(fields, slots).Some?
    ensures DecMessage(fields, EncMessage(fields, slots).value) == Some(decoded)
    ensures SameMessage(fields, slots, decoded)
  {
    hide Descriptor, FitsMessage, After, SameMessage;
    MessageBack(fields, slots);
    AfterSame(fields, slots);
    decoded := After(fields, slots, |fields|);
  }

  /** A string without a zero byte is read back exactly if there is room for the zero byte after it. */
  lemma StringReadable(room: nat, b: Slice, rest: Slice)
    requires |b| <= room && |b| < TWO32 && 0 !in b
    ensures EncValue(StringType(room), Blob(b)).Some?
    ensures DecValue(StringType(room), false, Blob([]), EncValue(StringType(room), Blob(b)).value + rest)
         == if |b| < room then Some((Blob(b), rest)) else None
  {
    hide TakeString, LengthPrefixed;
    StringBack(b, rest);
    NoZeroInside(b);
  }

  // ---------------------------------------------------------------------------
  // The encoder and the decoder

  lemma {:induction false} DescriptorServes(fields: seq<Field>)
    requires Descriptor(fields)
    ensures Wf(fields) && TagsApart(fields)
    decreases fields, 2
  {
    forall i | 0 <= i < |fields| ensures WfField(fields[i]) && TagsApartIn(fields[i]) {
      Described(fields, i);
      FieldServes(fields[i]);
    }
  }

  lemma {:induction false} FieldServes(f: Field)
    requires DescribesField(f)
    ensures WfField(f) && TagsApartIn(f)
    decreases f, 1
  {
    TypeServes(f.l);
  }

  lemma {:induction false} TypeServes(l: LType)
    requires DescribesType(l)
    ensures WfType(l) && TypeTagsApart(l)
    decreases l, 0
  {
    if l.MessageType? {
      DescriptorServes(l.fields);
    }
  }

  /** Sizing a message, writing it into a buffer of that size and reading the buffer gives the message back. */
  method SizeEncodeDecode(fields: seq<Field>, slots: seq<Slot>) returns (decoded: seq<Slot>)
    requires Descriptor(fields) && FitsMessage(fields, slots)
    ensures SameMessage(fields, slots, decoded)
  {
    hide Descriptor, FitsMessage, SameMessage, Wf, TagsApart, EncMessage, DecMessage;
    ghost var same := RoundTrip(fields, slots);
    DescriptorServes(fields);
    var size := GetEncodedSize(fields, slots);
    var buffer := EncodeToBuffer(fields, slots, size.value);
    var r := Decode(buffer.value, fields);
    decoded := r.value;
  }
}
