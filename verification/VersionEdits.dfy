/**
 The records of the descriptor log (db/version_edit.cc).
 */
module VersionEdits {
  import opened DbFormat
  import opened Coding


  /** FileMetaData as it is written: number, size, and the range of encoded internal keys. */
  datatype FileMeta = FileMeta(number: nat, size: nat, smallest: Slice, largest: Slice)

  /** `deletedFiles` is the ordered set of (level, number), as an ascending list. */
  datatype VersionEdit = VersionEdit(
    comparator: Option<Slice>,
    logNumber: Option<nat>,
    prevLogNumber: Option<nat>,
    nextFileNumber: Option<nat>,
    lastSequence: Option<nat>,
    compactPointers: seq<(nat, Slice)>,
    deletedFiles: seq<(nat, nat)>,
    newFiles: seq<(nat, FileMeta)>
  )

  const EMPTY_EDIT := VersionEdit(None, None, None, None, None, [], [], [])

  /** One tagged field of a record. */
  datatype Field =
    | ComparatorName(name: Slice)
    | LogNumber(log: nat)
    | NextFileNumber(next: nat)
    | LastSequence(last: nat)
    | CompactPointer(pointerLevel: nat, key: Slice)
    | DeletedFile(deletedLevel: nat, number: nat)
    | NewFile(newLevel: nat, meta: FileMeta)
    | PrevLogNumber(prev: nat)

  function TagOf(f: Field): (t: nat)
  {
    match f
    case ComparatorName(_) => 1
    case LogNumber(_) => 2
    case NextFileNumber(_) => 3
    case LastSequence(_) => 4
    case CompactPointer(_, _) => 5
    case DeletedFile(_, _) => 6
    case NewFile(_, _) => 7
    case PrevLogNumber(_) => 9
  }

  // ---------------------------------------------------------------------------
  // Encoding

  /** What follows the tag. */
  function Payload(f: Field): (s: Slice)
  {
    match f
    case ComparatorName(name) => LengthPrefixed(name)
    case LogNumber(n) => Varint(n)
    case NextFileNumber(n) => Varint(n)
    case LastSequence(n) => Varint(n)
    case CompactPointer(level, key) => Varint(level) + LengthPrefixed(key)
    case DeletedFile(level, n) => Varint(level) + Varint(n)
    case NewFile(level, m) => Varint(level) + Varint(m.number) + Varint(m.size) + LengthPrefixed(m.smallest)
        + LengthPrefixed(m.largest)
    case PrevLogNumber(n) => Varint(n)
  }

  function FieldBytes(f: Field): (s: Slice)
  {
    Varint(TagOf(f)) + Payload(f)
  }

  function FieldsBytes(fs: seq<Field>): (s: Slice)
  {
    if fs == [] then [] else FieldsBytes(fs[..|fs| - 1]) + FieldBytes(fs[|fs| - 1])
  }

  function Pointers(e: VersionEdit): (fs: seq<Field>)
    ensures |fs| == |e.compactPointers|
    ensures forall i :: 0 <= i < |fs| ==> fs[i] == CompactPointer(e.compactPointers[i].0, e.compactPointers[i].1)
  {
    seq(|e.compactPointers|,
        i requires 0 <= i < |e.compactPointers| => CompactPointer(e.compactPointers[i].0, e.compactPointers[i].1))
  }

  function Deletions(e: VersionEdit): (fs: seq<Field>)
    ensures |fs| == |e.deletedFiles|
    ensures forall i :: 0 <= i < |fs| ==> fs[i] == DeletedFile(e.deletedFiles[i].0, e.deletedFiles[i].1)
  {
    seq(|e.deletedFiles|, i requires 0 <= i < |e.deletedFiles| => DeletedFile(e.deletedFiles[i].0, e.deletedFiles[i].1))
  }

  function Additions(e: VersionEdit): (fs: seq<Field>)
    ensures |fs| == |e.newFiles|
    ensures forall i :: 0 <= i < |fs| ==> fs[i] == NewFile(e.newFiles[i].0, e.newFiles[i].1)
  {
    seq(|e.newFiles|, i requires 0 <= i < |e.newFiles| => NewFile(e.newFiles[i].0, e.newFiles[i].1))
  }

  /** The fields that are present, in the order in which they are written. */
  function Scalars(e: VersionEdit): (fs: seq<Field>)
  {
    (if e.comparator.Some? then [ComparatorName(e.comparator.value)] else [])
    + (if e.logNumber.Some? then [LogNumber(e.logNumber.value)] else [])
    + (if e.prevLogNumber.Some? then [PrevLogNumber(e.prevLogNumber.value)] else [])
    + (if e.nextFileNumber.Some? then [NextFileNumber(e.nextFileNumber.value)] else [])
    + (if e.lastSequence.Some? then [LastSequence(e.lastSequence.value)] else [])
  }

  function Fields(e: VersionEdit): (fs: seq<Field>)
  {
    Scalars(e) + Pointers(e) + Deletions(e) + Additions(e)
  }

  lemma FieldsBytesPlus(fs: seq<Field>, f: Field)
    ensures FieldsBytes(fs + [f]) == FieldsBytes(fs) + FieldBytes(f)
  {
    hide FieldBytes;
    assert (fs + [f])[..|fs|] == fs;
  }

  lemma {:induction false} FieldsBytesJoin(a: seq<Field>, b: seq<Field>)
    ensures FieldsBytes(a + b) == FieldsBytes(a) + FieldsBytes(b)
    decreases |b|
  {
    hide FieldBytes;
    if b == [] {
      assert a + b == a;
    } else {
      var init, last := b[..|b| - 1], b[|b| - 1];
      assert b == init + [last] && a + b == a + init + [last];
      FieldsBytesPlus(a + init, last);
      FieldsBytesPlus(init, last);
      FieldsBytesJoin(a, init);
      hide FieldsBytes;
      Assoc(FieldsBytes(a), FieldsBytes(init), FieldBytes(last));
    }
  }

  lemma OneField(f: Field)
    ensures FieldsBytes([f]) == FieldBytes(f)
  {
    assert FieldsBytes([]) == [];
  }

  /** VersionEdit::EncodeTo. */
  method EncodeTo(e: VersionEdit, dst0: Slice) returns (dst: Slice)
    ensures dst == dst0 + FieldsBytes(Fields(e))
  {
    hide FieldBytes, FieldsBytes, Scalars;
    dst := EncodeScalars(e, dst0);
    dst := EncodeLists(e, dst);
    var s, p, d, a := Scalars(e), Pointers(e), Deletions(e), Additions(e);
    FieldsBytesJoin(s, p + d + a);
    assert s + (p + d + a) == Fields(e);
    Assoc(dst0, FieldsBytes(s), FieldsBytes(p + d + a));
  }

  /** The three lists, one loop each. */
  method EncodeLists(e: VersionEdit, dst0: Slice) returns (dst: Slice)
    ensures dst == dst0 + FieldsBytes(Pointers(e) + Deletions(e) + Additions(e))
  {
    hide FieldBytes, FieldsBytes;
    ghost var fs: seq<Field> := [];
    NoFields();
    dst := dst0;
    for i := 0 to |e.compactPointers|
      invariant fs == Pointers(e)[..i] && dst == dst0 + FieldsBytes(fs)
    {
      var f := CompactPointer(e.compactPointers[i].0, e.compactPointers[i].1);
      dst := dst + FieldBytes(f);
      fs := AppendField(dst0, fs, f);
    }
    ghost var p := fs;
    assert p == Pointers(e);
    for i := 0 to |e.deletedFiles|
      invariant fs == p + Deletions(e)[..i] && dst == dst0 + FieldsBytes(fs)
    {
      var f := DeletedFile(e.deletedFiles[i].0, e.deletedFiles[i].1);
      dst := dst + FieldBytes(f);
      fs := AppendField(dst0, fs, f);
    }
    ghost var pd := fs;
    assert pd == Pointers(e) + Deletions(e);
    for i := 0 to |e.newFiles|
      invariant fs == pd + Additions(e)[..i] && dst == dst0 + FieldsBytes(fs)
    {
      var f := NewFile(e.newFiles[i].0, e.newFiles[i].1);
      dst := dst + FieldBytes(f);
      fs := AppendField(dst0, fs, f);
    }
    assert fs == Pointers(e) + Deletions(e) + Additions(e);
  }

  method AppendIf(present: bool, f: Field, dst: Slice, ghost dst0: Slice, ghost fs: seq<Field>) returns (dst': Slice)
    requires dst == dst0 + FieldsBytes(fs)
    ensures dst' == dst0 + FieldsBytes(fs + if present then [f] else [])
  {
    hide FieldBytes, FieldsBytes;
    dst' := dst;
    if present {
      dst' := dst' + FieldBytes(f);
      ghost var _ := AppendField(dst0, fs, f);
    } else {
      assert fs + [] == fs;
    }
  }

  method EncodeScalars(e: VersionEdit, dst0: Slice) returns (dst: Slice)
    ensures dst == dst0 + FieldsBytes(Scalars(e))
  {
    hide FieldBytes, FieldsBytes;
    NoFields();
    var a := if e.comparator.Some? then [ComparatorName(e.comparator.value)] else [];
    var b := if e.logNumber.Some? then [LogNumber(e.logNumber.value)] else [];
    var c := if e.prevLogNumber.Some? then [PrevLogNumber(e.prevLogNumber.value)] else [];
    var d := if e.nextFileNumber.Some? then [NextFileNumber(e.nextFileNumber.value)] else [];
    dst := AppendIf(e.comparator.Some?, ComparatorName(if e.comparator.Some? then e.comparator.value else []), dst0,
                    dst0, []);
    dst := AppendIf(e.logNumber.Some?, LogNumber(if e.logNumber.Some? then e.logNumber.value else 0), dst, dst0,
                    [] + a);
    dst := AppendIf(e.prevLogNumber.Some?, PrevLogNumber(if e.prevLogNumber.Some? then e.prevLogNumber.value else 0),
                    dst, dst0, [] + a + b);
    dst := AppendIf(e.nextFileNumber.Some?, NextFileNumber(if e.nextFileNumber.Some? then e.nextFileNumber.value
                                                           else 0), dst, dst0, [] + a + b + c);
    dst := AppendIf(e.lastSequence.Some?, LastSequence(if e.lastSequence.Some? then e.lastSequence.value else 0), dst,
                    dst0, [] + a + b + c + d);
    assert [] + a == a;
  }

  lemma NoFields()
    ensures FieldsBytes([]) == []
  {
  }

  lemma AppendField(dst0: Slice, fs: seq<Field>, f: Field) returns (fs': seq<Field>)
    ensures fs' == fs + [f] && dst0 + FieldsBytes(fs') == dst0 + FieldsBytes(fs) + FieldBytes(f)
  {
    fs' := fs + [f];
    FieldsBytesPlus(fs, f);
    hide *;
    Assoc(dst0, FieldsBytes(fs), FieldBytes(f));
  }

  // ---------------------------------------------------------------------------
  // Decoding

  function TakeLevel(s: Slice): (r: Option<(nat, Slice)>)
    ensures r.Some? ==> |r.value.1| < |s|
  {
    var v := TakeVarint(s, 0, 32);
    if v.Some? && v.value.0 < NUM_LEVELS then v else None
  }

  /** A number with the field that holds it. */
  function TakeNumber(s: Slice): (r: Option<(nat, Slice)>)
    ensures r.Some? ==> |r.value.1| < |s|
  {
    TakeVarint(s, 0, 64)
  }

  function TakeMeta(level: nat, s: Slice): (r: Option<(Field, Slice)>)
    ensures r.Some? ==> |r.value.1| < |s|
  {
    var number := TakeNumber(s);
    if number.None? then None
    else
      var size := TakeNumber(number.value.1);
      if size.None? then None
      else
        var smallest := TakeSlice(size.value.1);
        if smallest.None? then None
        else
          var largest := TakeSlice(smallest.value.1);
          if largest.None? then None
          else Some((NewFile(level, FileMeta(number.value.0, size.value.0, smallest.value.0, largest.value.0)),
                     largest.value.1))
  }

  /** The field after a tag, or None where the source reports an error. */
  function TakeField(tag: nat, s: Slice): (r: Option<(Field, Slice)>)
    ensures r.Some? ==> |r.value.1| < |s|
  {
    if tag == 1 then
      var name := TakeSlice(s);
      if name.None? then None else Some((ComparatorName(name.value.0), name.value.1))
    else if tag == 2 || tag == 3 || tag == 4 || tag == 9 then
      var n := TakeNumber(s);
      if n.None? then None
      else Some((if tag == 2 then LogNumber(n.value.0) else if tag == 3 then NextFileNumber(n.value.0)
                 else if tag == 4 then LastSequence(n.value.0) else PrevLogNumber(n.value.0), n.value.1))
    else if tag == 5 || tag == 6 || tag == 7 then
      var level := TakeLevel(s);
      if level.None? then None
      else if tag == 5 then
        var key := TakeSlice(level.value.1);
        if key.None? then None else Some((CompactPointer(level.value.0, key.value.0), key.value.1))
      else if tag == 6 then
        var n := TakeNumber(level.value.1);
        if n.None? then None else Some((DeletedFile(level.value.0, n.value.0), n.value.1))
      else TakeMeta(level.value.0, level.value.1)
    else None
  }

  predicate Before(a: (nat, nat), b: (nat, nat))
  {
    a.0 < b.0 || (a.0 == b.0 && a.1 < b.1)
  }

  /** Insertion into the ordered set. */
  function Insert(ps: seq<(nat, nat)>, p: (nat, nat)): (r: seq<(nat, nat)>)
  {
    if ps == [] then [p]
    else if Before(p, ps[0]) then [p] + ps
    else if p == ps[0] then ps
    else [ps[0]] + Insert(ps[1..], p)
  }

  function Put(e: VersionEdit, f: Field): (e': VersionEdit)
  {
    match f
    case ComparatorName(name) => e.(comparator := Some(name))
    case LogNumber(n) => e.(logNumber := Some(n))
    case NextFileNumber(n) => e.(nextFileNumber := Some(n))
    case LastSequence(n) => e.(lastSequence := Some(n))
    case CompactPointer(level, key) => e.(compactPointers := e.compactPointers + [(level, key)])
    case DeletedFile(level, n) => e.(deletedFiles := Insert(e.deletedFiles, (level, n)))
    case NewFile(level, m) => e.(newFiles := e.newFiles + [(level, m)])
    case PrevLogNumber(n) => e.(prevLogNumber := Some(n))
  }

  /** Field by field until the input is used up; None for a record that is not an edit. */
  function Decode(s: Slice, e: VersionEdit): (r: Option<VersionEdit>)
    decreases |s|
  {
    var tag := TakeVarint(s, 0, 32);
    if tag.None? then (if s == [] then Some(e) else None)
    else
      var f := TakeField(tag.value.0, tag.value.1);
      if f.None? then None else Decode(f.value.1, Put(e, f.value.0))
  }

  /** VersionEdit::DecodeFrom, into an edit that has just been made. */
  method DecodeFrom(src: Slice) returns (r: Option<VersionEdit>)
    ensures r == Decode(src, EMPTY_EDIT)
  {
    hide TakeVarint, TakeField, Put;
    var input := src;
    var e := EMPTY_EDIT;
    while true
      invariant Decode(src, EMPTY_EDIT) == Decode(input, e)
      decreases |input|
    {
      var tag := GetVarint(input, 32);
      if tag.None? {
        break;
      }
      var f := TakeField(tag.value.0, tag.value.1);
      if f.None? {
        return None;
      }
      e := Put(e, f.value.0);
      input := f.value.1;
    }
    r := if input == [] then Some(e) else None;
  }

  // ---------------------------------------------------------------------------
  // Round trip

  /** Values that fit the widths of the fields they are written to. */
  predicate FieldFits(f: Field)
  {
    match f
    case ComparatorName(name) => |name| < TWO32
    case LogNumber(n) => n < TWO64
    case NextFileNumber(n) => n < TWO64
    case LastSequence(n) => n < TWO64
    case CompactPointer(level, key) => level < NUM_LEVELS && |key| < TWO32
    case DeletedFile(level, n) => level < NUM_LEVELS && n < TWO64
    case NewFile(level, m) => level < NUM_LEVELS && m.number < TWO64 && m.size < TWO64 && |m.smallest| < TWO32
        && |m.largest| < TWO32
    case PrevLogNumber(n) => n < TWO64
  }

  lemma TakeNumberBack(n: nat, rest: Slice)
    requires n < TWO64
    ensures TakeNumber(Varint(n) + rest) == Some((n, rest))
  {
    Pow2Widths();
    hide Pow2, Varint;
    VarintRoundTrip(n, rest, 64);
  }

  lemma TakeSmallBack(n: nat, rest: Slice)
    requires n < NUM_LEVELS + 3
    ensures TakeVarint(Varint(n) + rest, 0, 32) == Some((n, rest))
    ensures n < NUM_LEVELS ==> TakeLevel(Varint(n) + rest) == Some((n, rest))
  {
    Pow2Widths();
    hide Pow2, Varint, TakeVarint;
    VarintRoundTrip(n, rest, 32);
  }

  lemma MetaBack(level: nat, m: FileMeta, rest: Slice)
    requires FieldFits(NewFile(level, m))
    ensures TakeMeta(level, Varint(m.number) + Varint(m.size) + LengthPrefixed(m.smallest) + LengthPrefixed(m.largest)
                     + rest)
              == Some((NewFile(level, m), rest))
  {
    hide Varint, TakeVarint, TakeSlice, LengthPrefixed, TakeNumber;
    var d := LengthPrefixed(m.largest) + rest;
    var c := LengthPrefixed(m.smallest) + d;
    var b := Varint(m.size) + c;
    assert Varint(m.number) + Varint(m.size) + LengthPrefixed(m.smallest) + LengthPrefixed(m.largest) + rest
        == Varint(m.number) + b;
    TakeNumberBack(m.number, b);
    TakeNumberBack(m.size, c);
    SliceRoundTrip(m.smallest, d);
    SliceRoundTrip(m.largest, rest);
  }

  lemma FieldBack(f: Field, rest: Slice)
    requires FieldFits(f)
    ensures TakeField(TagOf(f), Payload(f) + rest) == Some((f, rest))
  {
    hide Varint, TakeVarint, TakeSlice, LengthPrefixed, TakeNumber, TakeLevel, TakeMeta;
    match f
    case ComparatorName(name) => SliceRoundTrip(name, rest);
    case LogNumber(n) => TakeNumberBack(n, rest);
    case NextFileNumber(n) => TakeNumberBack(n, rest);
    case LastSequence(n) => TakeNumberBack(n, rest);
    case CompactPointer(level, key) =>
      assert Payload(f) + rest == Varint(level) + (LengthPrefixed(key) + rest);
      TakeSmallBack(level, LengthPrefixed(key) + rest);
      SliceRoundTrip(key, rest);
    case DeletedFile(level, n) =>
      assert Payload(f) + rest == Varint(level) + (Varint(n) + rest);
      TakeSmallBack(level, Varint(n) + rest);
      TakeNumberBack(n, rest);
    case NewFile(level, m) =>
      var body := Varint(m.number) + Varint(m.size) + LengthPrefixed(m.smallest) + LengthPrefixed(m.largest) + rest;
      assert Payload(f) + rest == Varint(level) + body;
      TakeSmallBack(level, body);
      MetaBack(level, m, rest);
    case PrevLogNumber(n) => TakeNumberBack(n, rest);
  }

  function PutAll(e: VersionEdit, fs: seq<Field>): (e': VersionEdit)
    decreases |fs|
  {
    if fs == [] then e else PutAll(Put(e, fs[0]), fs[1..])
  }

  ghost predicate AllFit(fs: seq<Field>)
  {
    forall i :: 0 <= i < |fs| ==> FieldFits(fs[i])
  }

  lemma DecodeStep(f: Field, rest: Slice, e: VersionEdit)
    requires FieldFits(f)
    ensures Decode(FieldBytes(f) + rest, e) == Decode(rest, Put(e, f))
  {
    hide Varint, TakeVarint, TakeField, Payload, Put;
    assert FieldBytes(f) + rest == Varint(TagOf(f)) + (Payload(f) + rest);
    TakeSmallBack(TagOf(f), Payload(f) + rest);
    FieldBack(f, rest);
  }

  lemma {:induction false} DecodeAll(fs: seq<Field>, e: VersionEdit)
    requires AllFit(fs)
    ensures Decode(FieldsBytes(fs), e) == Some(PutAll(e, fs))
    decreases |fs|
  {
    hide FieldBytes, TakeField, Put;
    if fs != [] {
      var rest := fs[1..];
      assert fs == [fs[0]] + rest;
      FieldsBytesJoin([fs[0]], rest);
      OneField(fs[0]);
      DecodeStep(fs[0], FieldsBytes(rest), e);
      DecodeAll(rest, Put(e, fs[0]));
    }
  }

  ghost predicate Ascending(ps: seq<(nat, nat)>)
  {
    forall i, j :: 0 <= i < j < |ps| ==> Before(ps[i], ps[j])
  }

  /** An edit whose set of deletions is one, and whose values fit. */
  ghost predicate Encodable(e: VersionEdit)
  {
    Ascending(e.deletedFiles) && AllFit(Fields(e))
  }

  lemma {:induction false} PutAllJoin(e: VersionEdit, a: seq<Field>, b: seq<Field>)
    ensures PutAll(e, a + b) == PutAll(PutAll(e, a), b)
    decreases |a|
  {
    hide Put;
    if a == [] {
      assert a + b == b;
    } else {
      assert (a + b)[1..] == a[1..] + b;
      PutAllJoin(Put(e, a[0]), a[1..], b);
    }
  }

  lemma {:induction false} PutPointers(e: VersionEdit, e0: VersionEdit, n: nat)
    requires n <= |e.compactPointers| && e0.compactPointers == []
    ensures PutAll(e0, Pointers(e)[..n]) == e0.(compactPointers := e.compactPointers[..n])
  {
    if n > 0 {
      PutPointers(e, e0, n - 1);
      assert Pointers(e)[..n] == Pointers(e)[..n - 1] + [Pointers(e)[n - 1]];
      PutAllJoin(e0, Pointers(e)[..n - 1], [Pointers(e)[n - 1]]);
      PutOne(PutAll(e0, Pointers(e)[..n - 1]), Pointers(e)[n - 1]);
    }
  }

  lemma PutOne(e: VersionEdit, f: Field)
    ensures PutAll(e, [f]) == Put(e, f)
  {
    assert [f][1..] == [];
  }

  lemma {:induction false} InsertLast(ps: seq<(nat, nat)>, p: (nat, nat))
    requires forall i :: 0 <= i < |ps| ==> Before(ps[i], p)
    ensures Insert(ps, p) == ps + [p]
  {
    if ps != [] {
      InsertLast(ps[1..], p);
    }
  }

  lemma {:induction false} PutDeletions(e: VersionEdit, e0: VersionEdit, n: nat)
    requires n <= |e.deletedFiles| && e0.deletedFiles == [] && Ascending(e.deletedFiles)
    ensures PutAll(e0, Deletions(e)[..n]) == e0.(deletedFiles := e.deletedFiles[..n])
  {
    if n > 0 {
      PutDeletions(e, e0, n - 1);
      assert Deletions(e)[..n] == Deletions(e)[..n - 1] + [Deletions(e)[n - 1]];
      PutAllJoin(e0, Deletions(e)[..n - 1], [Deletions(e)[n - 1]]);
      PutOne(PutAll(e0, Deletions(e)[..n - 1]), Deletions(e)[n - 1]);
      InsertLast(e.deletedFiles[..n - 1], e.deletedFiles[n - 1]);
    }
  }

  lemma {:induction false} PutAdditions(e: VersionEdit, e0: VersionEdit, n: nat)
    requires n <= |e.newFiles| && e0.newFiles == []
    ensures PutAll(e0, Additions(e)[..n]) == e0.(newFiles := e.newFiles[..n])
  {
    if n > 0 {
      PutAdditions(e, e0, n - 1);
      assert Additions(e)[..n] == Additions(e)[..n - 1] + [Additions(e)[n - 1]];
      PutAllJoin(e0, Additions(e)[..n - 1], [Additions(e)[n - 1]]);
      PutOne(PutAll(e0, Additions(e)[..n - 1]), Additions(e)[n - 1]);
    }
  }

  lemma PutScalars(e: VersionEdit)
    ensures PutAll(EMPTY_EDIT, Scalars(e)) == e.(compactPointers := [], deletedFiles := [], newFiles := [])
  {
    hide PutAll;
    var a := if e.comparator.Some? then [ComparatorName(e.comparator.value)] else [];
    var b := if e.logNumber.Some? then [LogNumber(e.logNumber.value)] else [];
    var c := if e.prevLogNumber.Some? then [PrevLogNumber(e.prevLogNumber.value)] else [];
    var d := if e.nextFileNumber.Some? then [NextFileNumber(e.nextFileNumber.value)] else [];
    var f := if e.lastSequence.Some? then [LastSequence(e.lastSequence.value)] else [];
    PutAllJoin(EMPTY_EDIT, a + b + c + d, f);
    PutAllJoin(EMPTY_EDIT, a + b + c, d);
    PutAllJoin(EMPTY_EDIT, a + b, c);
    PutAllJoin(EMPTY_EDIT, a, b);
    var e1 := PutMaybe(EMPTY_EDIT, a);
    var e2 := PutMaybe(e1, b);
    var e3 := PutMaybe(e2, c);
    var e4 := PutMaybe(e3, d);
    var e5 := PutMaybe(e4, f);
  }

  lemma PutMaybe(e: VersionEdit, fs: seq<Field>) returns (e': VersionEdit)
    requires |fs| <= 1
    ensures e' == PutAll(e, fs) && e' == if fs == [] then e else Put(e, fs[0])
  {
    e' := PutAll(e, fs);
    if fs != [] {
      assert fs == [fs[0]];
      PutOne(e, fs[0]);
    }
  }

  /** Decoding an encoded edit gives it back. */
  lemma EditRoundTrip(e: VersionEdit)
    requires Encodable(e)
    ensures Decode(FieldsBytes(Fields(e)), EMPTY_EDIT) == Some(e)
  {
    DecodeAll(Fields(e), EMPTY_EDIT);
    hide *;
    FieldsPut(e);
  }

  lemma FieldsPut(e: VersionEdit)
    requires Ascending(e.deletedFiles)
    ensures PutAll(EMPTY_EDIT, Fields(e)) == e
  {
    hide PutAll, Put, Scalars;
    var s, p, d, a := Scalars(e), Pointers(e), Deletions(e), Additions(e);
    PutAllJoin(EMPTY_EDIT, s + p + d, a);
    PutAllJoin(EMPTY_EDIT, s + p, d);
    PutAllJoin(EMPTY_EDIT, s, p);
    PutScalars(e);
    var e0 := e.(compactPointers := [], deletedFiles := [], newFiles := []);
    assert p[..|p|] == p && d[..|d|] == d && a[..|a|] == a;
    PutPointers(e, e0, |p|);
    assert e.compactPointers[..|p|] == e.compactPointers && e.deletedFiles[..|d|] == e.deletedFiles
        && e.newFiles[..|a|] == e.newFiles;
    var e1 := e0.(compactPointers := e.compactPointers);
    PutDeletions(e, e1, |d|);
    var e2 := e1.(deletedFiles := e.deletedFiles);
    PutAdditions(e, e2, |a|);
  }
}
