/**
 The log file format: records cut into fragments that never cross a block boundary
 (db/log_format.h, db/log_writer.cc, db/log_reader.cc).
 */
module Log {
  import opened DbFormat
  import opened Coding

  const BLOCK_SIZE: nat := 32768
  const HEADER_SIZE: nat := 7

  const FULL_TYPE: Byte := 1
  const FIRST_TYPE: Byte := 2
  const MIDDLE_TYPE: Byte := 3
  const LAST_TYPE: Byte := 4

  // ---------------------------------------------------------------------------
  // What is on disk

  function Zeros(n: nat): (s: Slice)
    ensures |s| == n
  {
    if n == 0 then [] else [0] + Zeros(n - 1)
  }

  /** Bytes left unused before a fragment can start: a block's last bytes hold no header. */
  function Pad(pos: nat): (n: nat)
    ensures n < HEADER_SIZE
    ensures (pos + n) % BLOCK_SIZE + HEADER_SIZE <= BLOCK_SIZE
  {
    var leftover := BLOCK_SIZE - pos % BLOCK_SIZE;
    if leftover < HEADER_SIZE then
      assert (pos + leftover) % BLOCK_SIZE == 0;
      leftover
    else 0
  }

  /** Where the header of a fragment written at `pos` starts. */
  function Header(pos: nat): (h: nat)
    ensures pos <= h && h == pos + Pad(pos)
    ensures h % BLOCK_SIZE + HEADER_SIZE <= BLOCK_SIZE
  {
    pos + Pad(pos)
  }

  function Checksum(t: Byte, payload: Slice): (crc: nat)
    ensures crc < TWO32
  {
    ExtendBound(0, [t] + payload);
    Extend(0, [t] + payload)
  }

  /** One physical record: masked checksum, length, type, payload. */
  function Frame(t: Byte, payload: Slice): (s: Slice)
    requires |payload| < 65536
    ensures |s| == HEADER_SIZE + |payload|
  {
    Fixed(4, Mask(Checksum(t, payload))) + [|payload| % 256, |payload| / 256, t] + payload
  }

  function FragmentType(begin: bool, end: bool): (t: Byte)
  {
    if begin && end then FULL_TYPE else if begin then FIRST_TYPE else if end then LAST_TYPE else MIDDLE_TYPE
  }

  /** How much of `n` bytes fits into a fragment whose header is at `h`. */
  function FragmentLength(h: nat, n: nat): (m: nat)
    requires h % BLOCK_SIZE + HEADER_SIZE <= BLOCK_SIZE
    ensures m <= n && h % BLOCK_SIZE + HEADER_SIZE + m <= BLOCK_SIZE
  {
    var avail := BLOCK_SIZE - h % BLOCK_SIZE - HEADER_SIZE;
    if n < avail then n else avail
  }

  /** Is there room for a header but for no byte of payload? */
  predicate NoRoom(pos: nat)
  {
    Header(pos) % BLOCK_SIZE + HEADER_SIZE == BLOCK_SIZE
  }

  /** The bytes of a record, or of what is left of one, appended at offset `pos` of the file. */
  function Fragments(pos: nat, data: Slice, begin: bool): (s: Slice)
    ensures |s| >= HEADER_SIZE
    decreases |data|, NoRoom(pos)
  {
    var h := Header(pos);
    var n := FragmentLength(h, |data|);
    var s := Zeros(Pad(pos)) + Frame(FragmentType(begin, n == |data|), data[..n]);
    if n == |data| then s
    else
      AfterFullBlock(h, n, |data|);
      s + Fragments(h + HEADER_SIZE + n, data[n..], false)
  }

  lemma AfterFullBlock(h: nat, n: nat, m: nat)
    requires h % BLOCK_SIZE + HEADER_SIZE <= BLOCK_SIZE && n == FragmentLength(h, m) && n < m
    ensures (h + HEADER_SIZE + n) % BLOCK_SIZE == 0 && !NoRoom(h + HEADER_SIZE + n)
    ensures n == 0 ==> h % BLOCK_SIZE + HEADER_SIZE == BLOCK_SIZE
  {
  }

  /** The file that a sequence of records makes. */
  function LogFile(records: seq<Slice>): (s: Slice)
  {
    if records == [] then []
    else
      var init := LogFile(records[..|records| - 1]);
      init + Fragments(|init|, records[|records| - 1], true)
  }

  // ---------------------------------------------------------------------------
  // Writing

  lemma ChecksumByPieces(t: Byte, payload: Slice)
    ensures Extend(Extend(0, [t]), payload) == Checksum(t, payload)
  {
    ExtendJoin(0, [t], payload);
  }

  class Writer {
    var dest: Slice
    var blockOffset: nat

    ghost predicate Ok()
      reads this
    {
      blockOffset <= BLOCK_SIZE && blockOffset % BLOCK_SIZE == |dest| % BLOCK_SIZE
    }

    /** A writer that appends to a file of which something has been written. */
    constructor (file: Slice)
      ensures Ok() && dest == file
    {
      dest := file;
      blockOffset := |file| % BLOCK_SIZE;
    }

    method EmitPhysicalRecord(t: Byte, payload: Slice)
      requires Ok() && blockOffset + HEADER_SIZE + |payload| <= BLOCK_SIZE
      modifies this
      ensures Ok() && dest == old(dest) + Frame(t, payload)
    {
      hide Extend, Mask, Pow2, FromFixed, Checksum, Fixed;
      var n := |payload|;
      var crc := Extend(Extend(0, [t]), payload);
      assert crc == Checksum(t, payload) && crc < TWO32 by {
        ChecksumByPieces(t, payload);
      }
      var buf := EncodeFixed32(Mask(crc));
      buf := buf + [n % 256, n / 256, t];
      assert buf + payload == Frame(t, payload);
      ghost var dest0, offset0 := dest, blockOffset;
      dest := dest + buf;
      dest := dest + payload;
      blockOffset := blockOffset + HEADER_SIZE + n;
      Assoc(dest0, buf, payload);
      SameOffset(offset0, |dest0|, HEADER_SIZE + n);
    }

    static lemma SameOffset(a: nat, b: nat, n: nat)
      requires a % BLOCK_SIZE == b % BLOCK_SIZE
      ensures (a + n) % BLOCK_SIZE == (b + n) % BLOCK_SIZE
    {
    }

    /** Start a new block if the rest of this one is too short for a header. */
    method FillTrailer()
      requires Ok()
      modifies this
      ensures Ok() && dest == old(dest) + Zeros(Pad(|old(dest)|)) && blockOffset == |dest| % BLOCK_SIZE
    {
      var leftover := BLOCK_SIZE - blockOffset;
      if leftover < HEADER_SIZE {
        if leftover > 0 {
          dest := dest + Zeros(leftover);
        }
        blockOffset := 0;
      }
    }

    /** One round of the fragmentation loop. */
    method AddFragment(data: Slice, begin: bool) returns (n: nat)
      requires Ok()
      modifies this
      ensures Ok() && n <= |data|
      ensures old(dest) + Fragments(|old(dest)|, data, begin) == if n == |data| then dest
              else dest + Fragments(|dest|, data[n..], false)
      ensures n == 0 && data != [] ==> NoRoom(|old(dest)|) && !NoRoom(|dest|)
    {
      hide Fragments, Frame, Zeros;
      FillTrailer();
      assert |dest| == Header(|old(dest)|) by {
        LengthOfZeros(Pad(|old(dest)|));
      }
      var avail := BLOCK_SIZE - blockOffset - HEADER_SIZE;
      n := if |data| < avail then |data| else avail;
      var end := n == |data|;
      ghost var h := |dest|;
      EmitPhysicalRecord(FragmentType(begin, end), data[..n]);
      FragmentsStep(old(dest), data, begin, n);
      if !end {
        AfterFullBlock(h, n, |data|);
      }
    }

    method AddRecord(slice: Slice)
      requires Ok()
      modifies this
      ensures Ok() && dest == old(dest) + Fragments(|old(dest)|, slice, true)
    {
      hide Fragments, Pad, Header, NoRoom;
      var ptr: nat, left: nat := 0, |slice|;
      var begin := true;
      assert slice[0..] == slice;
      while true
        invariant Ok() && ptr + left == |slice|
        invariant dest + Fragments(|dest|, slice[ptr..], begin) == old(dest) + Fragments(|old(dest)|, slice, true)
        decreases left, NoRoom(|dest|)
      {
        var length := AddFragment(slice[ptr..], begin);
        assert slice[ptr..][length..] == slice[ptr + length..];
        ptr := ptr + length;
        left := left - length;
        begin := false;
        if left == 0 {
          break;
        }
      }
    }
  }

  lemma LengthOfZeros(n: nat)
    ensures |Zeros(n)| == n
  {
  }

  lemma FragmentsStep(before: Slice, data: Slice, begin: bool, n: nat)
    requires n == FragmentLength(Header(|before|), |data|)
    ensures var after := before + Zeros(Pad(|before|)) + Frame(FragmentType(begin, n == |data|), data[..n]);
            before + Fragments(|before|, data, begin)
              == if n == |data| then after else after + Fragments(|after|, data[n..], false)
  {
    hide Checksum, Mask, Fixed, Zeros, Pad, Frame;
    var z, f := Zeros(Pad(|before|)), Frame(FragmentType(begin, n == |data|), data[..n]);
    assert Fragments(|before|, data, begin) == if n == |data| then z + f
        else z + f + Fragments(|before| + |z + f|, data[n..], false);
    assert |before + z + f| == |before| + |z + f|;
    hide *;
    Assoc(before, z, f);
    if n < |data| {
      Assoc(before, z + f, Fragments(|before| + |z + f|, data[n..], false));
    }
  }

  /** Writing the records one after the other makes the log file. */
  method WriteLog(records: seq<Slice>) returns (file: Slice)
    ensures file == LogFile(records)
  {
    var w := new Writer([]);
    for i := 0 to |records|
      invariant w.Ok() && fresh(w) && w.dest == LogFile(records[..i])
    {
      assert records[..i + 1][..i] == records[..i];
      w.AddRecord(records[i]);
    }
    assert records[..|records|] == records;
    file := w.dest;
  }

  // ---------------------------------------------------------------------------
  // Reading one physical record

  /** The outcome at an offset of the file, and the offset to go on from. */
  datatype Physical = Eof | Bad(next: nat, report: bool) | Fragment(typ: Byte, payload: Slice, next: nat)

  /** ReadPhysicalRecord as a function of the file and the offset, without the block buffer. */
  function PhysicalAt(file: Slice, p: nat): (r: Physical)
    ensures !r.Eof? ==> p < r.next <= |file|
  {
    var h := Header(p);
    if h + HEADER_SIZE > |file| then Eof
    else
      var n: nat := file[h + 4] as int + 256 * file[h + 5] as int;
      var t := file[h + 6];
      var blockEnd := h - h % BLOCK_SIZE + BLOCK_SIZE;
      var end := if blockEnd <= |file| then blockEnd else |file|;
      if h + HEADER_SIZE + n > end then (if blockEnd <= |file| then Bad(end, true) else Eof)
      else if t == 0 && n == 0 then Bad(end, false)
      else if Unmask(DecodeFixed32(file[h..h + 4])) != Checksum(t, file[h + 7..h + 7 + n]) then Bad(end, true)
      else Fragment(t, file[h + 7..h + 7 + n], h + 7 + n)
  }

  /** kEof and kBadRecord: the two values beyond the types of records. */
  const EOF: nat := 5
  const BAD_RECORD: nat := 6

  // ---------------------------------------------------------------------------
  // Reading a record

  /** A record or the end of the file, where reading goes on, and how many corruptions were reported. */
  datatype Logical = Logical(record: Option<Slice>, next: nat, reports: nat)

  function Reported(n: nat, r: Logical): (r': Logical)
  {
    r.(reports := r.reports + n)
  }

  /** ReadRecord as a function of the file, the offset and the part of a record collected so far. */
  function LogicalAt(file: Slice, p: nat, collecting: bool, scratch: Slice): (r: Logical)
    requires p <= |file|
    ensures r.next <= |file| && (r.record.Some? ==> p < r.next)
    decreases |file| - p
  {
    match PhysicalAt(file, p)
    case Eof => Logical(None, |file|, 0)
    case Bad(next, report) =>
      Reported((if report then 1 else 0) + (if collecting then 1 else 0),
               LogicalAt(file, next, false, if collecting then [] else scratch))
    case Fragment(t, fragment, next) =>
      var unfinished := if collecting && scratch != [] then 1 else 0;
      if t == FULL_TYPE then Logical(Some(fragment), next, unfinished)
      else if t == FIRST_TYPE then Reported(unfinished, LogicalAt(file, next, true, fragment))
      else if t == MIDDLE_TYPE then
        if collecting then LogicalAt(file, next, true, scratch + fragment)
            else Reported(1, LogicalAt(file, next, false, scratch))
      else if t == LAST_TYPE then
        if collecting then Logical(Some(scratch + fragment), next, 0)
            else Reported(1, LogicalAt(file, next, false, scratch))
      else if t as nat == EOF then Logical(None, next, 0)
      else if t as nat == BAD_RECORD then
        Reported(if collecting then 1 else 0, LogicalAt(file, next, false, if collecting then [] else scratch))
      else Reported(1, LogicalAt(file, next, false, []))
  }

  /** One round of reading a record. */
  lemma LogicalStep(file: Slice, p: nat, collecting: bool, scratch: Slice)
    requires p <= |file|
    ensures var r := LogicalAt(file, p, collecting, scratch);
            match PhysicalAt(file, p)
            case Eof => r == Logical(None, |file|, 0)
            case Bad(next, report) =>
              r == Reported((if report then 1 else 0) + (if collecting then 1 else 0),
                            LogicalAt(file, next, false, if collecting then [] else scratch))
            case Fragment(t, fragment, next) =>
              var unfinished := if collecting && scratch != [] then 1 else 0;
              if t == FULL_TYPE then r == Logical(Some(fragment), next, unfinished)
              else if t == FIRST_TYPE then r == Reported(unfinished, LogicalAt(file, next, true, fragment))
              else if t == MIDDLE_TYPE then
                if collecting then r == LogicalAt(file, next, true, scratch + fragment)
                    else r == Reported(1, LogicalAt(file, next, false, scratch))
              else if t == LAST_TYPE then
                if collecting then r == Logical(Some(scratch + fragment), next, 0)
                    else r == Reported(1, LogicalAt(file, next, false, scratch))
              else if t as nat == EOF then r == Logical(None, next, 0)
              else if t as nat == BAD_RECORD then
                r == Reported(if collecting then 1 else 0,
                              LogicalAt(file, next, false, if collecting then [] else scratch))
              else r == Reported(1, LogicalAt(file, next, false, []))
  {
    hide PhysicalAt;
  }

  lemma SameHeader(file: Slice, p: nat, q: nat)
    requires Header(p) == Header(q)
    ensures PhysicalAt(file, p) == PhysicalAt(file, q)
  {
    hide Pad, Header, Checksum, Unmask, DecodeFixed32;
  }

  lemma TrailerPad(end: nat, n: nat)
    requires end % BLOCK_SIZE == 0 && n < HEADER_SIZE && n <= end
    ensures Pad(end - n) == n
  {
    if n > 0 {
      assert (end - n) % BLOCK_SIZE == BLOCK_SIZE - n;
    }
  }

  /** A buffered header lies inside one block, and the buffer ends where the block or the file does. */
  lemma BufferedHeader(p: nat, filePos: nat, size: nat, eof: bool)
    requires p + HEADER_SIZE <= filePos <= size
    requires !eof ==> filePos % BLOCK_SIZE == 0 && filePos - p <= BLOCK_SIZE
    requires eof ==> filePos == size && filePos - p <= filePos % BLOCK_SIZE
    ensures Header(p) == p
    ensures var blockEnd := p - p % BLOCK_SIZE + BLOCK_SIZE;
            (blockEnd <= size <==> !eof) && filePos == if blockEnd <= size then blockEnd else size
  {
    var n := filePos - p;
    if eof {
      assert p % BLOCK_SIZE == filePos % BLOCK_SIZE - n;
    } else if n < BLOCK_SIZE {
      assert p % BLOCK_SIZE == BLOCK_SIZE - n;
    } else {
      assert p % BLOCK_SIZE == 0;
    }
  }

  /** The same outcome, read off the rest `buffer` of the block that starts at offset `p`. */
  function PhysicalIn(buffer: Slice, eof: bool, p: nat): (r: Physical)
    requires |buffer| >= HEADER_SIZE
  {
    var n: nat := buffer[4] as int + 256 * buffer[5] as int;
    var t := buffer[6];
    if HEADER_SIZE + n > |buffer| then (if eof then Eof else Bad(p + |buffer|, true))
    else if t == 0 && n == 0 then Bad(p + |buffer|, false)
    else if Unmask(DecodeFixed32(buffer[..4])) != Checksum(t, buffer[7..7 + n]) then Bad(p + |buffer|, true)
    else Fragment(t, buffer[7..7 + n], p + 7 + n)
  }

  lemma BufferedIs(file: Slice, p: nat, filePos: nat, buffer: Slice, eof: bool)
    requires p + HEADER_SIZE <= filePos <= |file| && buffer == file[p..filePos]
    requires !eof ==> filePos % BLOCK_SIZE == 0 && filePos - p <= BLOCK_SIZE
    requires eof ==> filePos == |file| && filePos - p <= filePos % BLOCK_SIZE
    ensures PhysicalAt(file, p) == PhysicalIn(buffer, eof, p)
  {
    hide Pad, Header, Checksum, Unmask, DecodeFixed32;
    BufferedHeader(p, filePos, |file|, eof);
    var n: nat := buffer[4] as int + 256 * buffer[5] as int;
    assert buffer[4] == file[p + 4] && buffer[5] == file[p + 5] && buffer[6] == file[p + 6];
    assert buffer[..4] == file[p..p + 4];
    if HEADER_SIZE + n <= |buffer| {
      Within(file, p, filePos, 7, 7 + n);
    }
  }

  lemma Within(file: Slice, lo: nat, hi: nat, i: nat, j: nat)
    requires lo <= hi <= |file| && i <= j <= hi - lo
    ensures file[lo..hi][i..j] == file[lo + i..lo + j]
  {
    var a, b := file[lo..hi][i..j], file[lo + i..lo + j];
    forall k | 0 <= k < j - i ensures a[k] == b[k] {
      assert a[k] == file[lo..hi][i + k];
    }
  }

  ghost predicate Buffered(file: Slice, filePos: nat, buffer: Slice, eof: bool)
    requires |buffer| <= filePos <= |file|
  {
    && buffer == file[filePos - |buffer|..filePos]
    && (!eof ==> filePos % BLOCK_SIZE == 0 && |buffer| <= BLOCK_SIZE)
    && (eof ==> filePos == |file| && |buffer| <= filePos % BLOCK_SIZE)
  }

  class Reader {
    const file: Slice
    var filePos: nat
    var buffer: Slice
    var eof: bool
    var reports: nat

    /** The buffer holds the unread rest of the last block read; a short block was the last one. */
    ghost predicate Ok()
      reads this
    {
      |buffer| <= filePos <= |file| && Buffered(file, filePos, buffer, eof)
    }

    function Offset(): (p: nat)
      reads this
      requires |buffer| <= filePos
    {
      filePos - |buffer|
    }

    constructor (contents: Slice)
      ensures Ok() && file == contents && Offset() == 0 && reports == 0
    {
      file := contents;
      filePos, buffer, eof, reports := 0, [], false, 0;
    }

    /** Read up to a block's worth of bytes. */
    method ReadBlock()
      requires Ok() && !eof
      modifies this
      ensures Ok() && filePos == (if old(filePos) + BLOCK_SIZE <= |file| then old(filePos) + BLOCK_SIZE else |file|)
      ensures |buffer| == filePos - old(filePos) && (eof <==> |buffer| < BLOCK_SIZE) && reports == old(reports)
    {
      var n := if filePos + BLOCK_SIZE <= |file| then BLOCK_SIZE else |file| - filePos;
      buffer := file[filePos..filePos + n];
      filePos := filePos + n;
      if |buffer| < BLOCK_SIZE {
        eof := true;
      }
    }

    /** What a call has to achieve, in terms of the file alone. */
    twostate predicate ReadPhysical(p: nat, typ: nat, fragment: Slice)
      reads this
    {
      && Ok()
      && match PhysicalAt(file, p)
         case Eof => typ == EOF && Offset() == |file| && reports == old(reports)
         case Bad(next, report) => typ == BAD_RECORD && Offset() == next
             && reports == old(reports) + (if report then 1 else 0)
         case Fragment(t, payload, next) => typ == t as nat && fragment == payload && Offset() == next
                                            && reports == old(reports)
    }

    method ReadPhysicalRecord() returns (typ: nat, fragment: Slice)
      requires Ok()
      modifies this
      ensures ReadPhysical(old(Offset()), typ, fragment)
    {
      hide Pad, Header, Checksum, Unmask, DecodeFixed32;
      fragment := [];
      while |buffer| < HEADER_SIZE
        invariant Ok() && reports == old(reports)
        invariant Header(Offset()) == Header(old(Offset()))
        decreases !eof, |file| - filePos
      {
        if !eof {
          // The last read was a full one, so what is left is a trailer to skip.
          TrailerPad(filePos, |buffer|);
          TrailerPad(filePos, 0);
          ReadBlock();
        } else {
          buffer := [];
          return EOF, fragment;
        }
      }
      SameHeader(file, old(Offset()), Offset());
      typ, fragment := ParseHeader();
    }

    method ReadRecord() returns (ok: bool, record: Slice)
      requires Ok()
      modifies this
      ensures Ok()
      ensures var r := LogicalAt(file, old(Offset()), false, []);
              && ok == r.record.Some? && (ok ==> record == r.record.value && Offset() == r.next)
              && reports == old(reports) + r.reports
    {
      hide PhysicalAt, LogicalAt, Buffered;
      record := [];
      var scratch: Slice := [];
      var collecting := false;
      while true
        invariant Ok()
        invariant var r, r0 := LogicalAt(file, Offset(), collecting, scratch),
                  LogicalAt(file, old(Offset()), false, []);
                  r.record == r0.record && r.next == r0.next && reports + r.reports == old(reports) + r0.reports
        decreases |file| - Offset()
      {
        LogicalStep(file, Offset(), collecting, scratch);
        var typ, fragment := ReadPhysicalRecord();
        if typ == FULL_TYPE as nat {
          if collecting && scratch != [] {
            reports := reports + 1;
          }
          return true, fragment;
        } else if typ == FIRST_TYPE as nat {
          if collecting && scratch != [] {
            reports := reports + 1;
          }
          scratch := fragment;
          collecting := true;
        } else if typ == MIDDLE_TYPE as nat {
          if !collecting {
            reports := reports + 1;
          } else {
            scratch := scratch + fragment;
          }
        } else if typ == LAST_TYPE as nat {
          if !collecting {
            reports := reports + 1;
          } else {
            return true, scratch + fragment;
          }
        } else if typ == EOF {
          return false, [];
        } else if typ == BAD_RECORD {
          if collecting {
            reports := reports + 1;
            collecting := false;
            scratch := [];
          }
        } else {
          reports := reports + 1;
          collecting := false;
          scratch := [];
        }
      }
    }

    method ParseHeader() returns (typ: nat, fragment: Slice)
      requires Ok() && |buffer| >= HEADER_SIZE
      modifies this
      ensures ReadPhysical(old(Offset()), typ, fragment)
    {
      hide Pad, Header, Checksum, Unmask, DecodeFixed32, PhysicalAt;
      BufferedIs(file, Offset(), filePos, buffer, eof);
      typ, fragment := ParseBuffer();
    }

    method ParseBuffer() returns (typ: nat, fragment: Slice)
      requires Ok() && |buffer| >= HEADER_SIZE
      modifies this
      ensures Ok()
      ensures match PhysicalIn(old(buffer), old(eof), old(Offset()))
              case Eof => typ == EOF && Offset() == |file| && reports == old(reports)
              case Bad(next, report) => typ == BAD_RECORD && Offset() == next
                  && reports == old(reports) + (if report then 1 else 0)
              case Fragment(t, payload, next) => typ == t as nat && fragment == payload && Offset() == next
                                                 && reports == old(reports)
    {
      hide Checksum, Unmask, DecodeFixed32;
      var header := buffer;
      var length: nat := header[4] as int + 256 * header[5] as int;
      var t := header[6];
      fragment := [];
      if HEADER_SIZE + length > |buffer| {
        buffer := [];
        if !eof {
          reports := reports + 1;
          return BAD_RECORD, fragment;
        }
        return EOF, fragment;
      }
      if t == 0 && length == 0 {
        buffer := [];
        return BAD_RECORD, fragment;
      }
      if Unmask(DecodeFixed32(header[..4])) != Checksum(t, header[7..7 + length]) {
        buffer := [];
        reports := reports + 1;
        return BAD_RECORD, fragment;
      }
      buffer := buffer[HEADER_SIZE + length..];
      fragment := header[HEADER_SIZE..HEADER_SIZE + length];
      typ := t as nat;
    }
  }

  // ---------------------------------------------------------------------------
  // Reading back what was written, whole or cut short

  /** The bytes at `p` of the file, as far as it goes, are those of `s`. */
  ghost predicate At(whole: Slice, p: nat, s: Slice)
  {
    p + |s| <= |whole| && whole[p..p + |s|] == s
  }

  lemma AtParts(whole: Slice, p: nat, a: Slice, b: Slice)
    requires At(whole, p, a + b)
    ensures At(whole, p, a) && At(whole, p + |a|, b)
  {
    Within(whole, p, p + |a + b|, 0, |a|);
    Within(whole, p, p + |a + b|, |a|, |a + b|);
    assert (a + b)[..|a|] == a && (a + b)[|a|..] == b;
  }

  lemma AtIndex(whole: Slice, p: nat, s: Slice, cut: nat, i: nat)
    requires At(whole, p, s) && cut <= |whole| && i < |s| && p + i < cut
    ensures whole[..cut][p + i] == s[i]
  {
    assert whole[p..p + |s|][i] == whole[p + i];
  }

  lemma AtSlice(whole: Slice, p: nat, s: Slice, cut: nat, i: nat, j: nat)
    requires At(whole, p, s) && cut <= |whole| && i <= j <= |s| && p + j <= cut
    ensures whole[..cut][p + i..p + j] == s[i..j]
  {
    Within(whole, p, p + |s|, i, j);
    Within(whole, 0, cut, p + i, p + j);
    assert whole[0..cut] == whole[..cut];
  }

  lemma FrameParts(t: Byte, payload: Slice)
    requires |payload| < 65536
    ensures var f := Frame(t, payload);
            && f[..4] == Fixed(4, Mask(Checksum(t, payload))) && f[6] == t && f[7..] == payload
            && f[4] as int + 256 * f[5] as int == |payload|
  {
    hide Fixed, Checksum, Mask;
  }

  lemma WholeFrame(file: Slice, p: nat, t: Byte, payload: Slice)
    requires var h := Header(p);
             && h % BLOCK_SIZE + HEADER_SIZE + |payload| <= BLOCK_SIZE && t != 0
                 && h + HEADER_SIZE + |payload| <= |file|
             && file[h + 4] as int + 256 * file[h + 5] as int == |payload| && file[h + 6] == t
             && Unmask(DecodeFixed32(file[h..h + 4])) == Checksum(t, payload)
             && file[h + 7..h + 7 + |payload|] == payload
    ensures PhysicalAt(file, p) == Fragment(t, payload, Header(p) + HEADER_SIZE + |payload|)
  {
    hide Pad, Header, Checksum, Unmask, DecodeFixed32;
  }

  lemma TornFrame(file: Slice, p: nat, n: nat)
    requires var h := Header(p);
             && h % BLOCK_SIZE + HEADER_SIZE + n <= BLOCK_SIZE && |file| < h + HEADER_SIZE + n
             && (h + HEADER_SIZE <= |file| ==> file[h + 4] as int + 256 * file[h + 5] as int == n)
    ensures PhysicalAt(file, p) == Eof
  {
    hide Pad, Header, Checksum, Unmask, DecodeFixed32;
  }

  /** A frame is read back if all of it is there; if it was cut short, the file seems to end before it. */
  lemma FrameRead(whole: Slice, p: nat, t: Byte, payload: Slice, cut: nat)
    requires |payload| < 65536 && Header(p) % BLOCK_SIZE + HEADER_SIZE + |payload| <= BLOCK_SIZE && t != 0
    requires At(whole, Header(p), Frame(t, payload)) && p <= cut <= |whole|
    ensures PhysicalAt(whole[..cut], p)
              == if Header(p) + HEADER_SIZE + |payload| <= cut then
                  Fragment(t, payload, Header(p) + HEADER_SIZE + |payload|) else Eof
  {
    hide PhysicalAt, Pad, Header, Mask, Unmask, Checksum, At, DecodeFixed32, Fixed;
    var h, f, file := Header(p), Frame(t, payload), whole[..cut];
    FrameParts(t, payload);
    hide Frame;
    if h + HEADER_SIZE <= cut {
      AtIndex(whole, h, f, cut, 4);
      AtIndex(whole, h, f, cut, 5);
    }
    if h + HEADER_SIZE + |payload| <= cut {
      AtIndex(whole, h, f, cut, 6);
      AtSlice(whole, h, f, cut, 0, 4);
      assert f[0..4] == f[..4];
      AtSlice(whole, h, f, cut, 7, 7 + |payload|);
      assert f[7..7 + |payload|] == f[7..];
      UnmaskOfMask(Checksum(t, payload));
      Fixed32RoundTrip(Mask(Checksum(t, payload)));
      WholeFrame(file, p, t, payload);
    } else {
      TornFrame(file, p, |payload|);
    }
  }

  /** The first fragment at `p`, and what follows it. */
  lemma FirstFragment(whole: Slice, p: nat, data: Slice, begin: bool, cut: nat, n: nat)
    requires At(whole, p, Fragments(p, data, begin)) && p <= cut <= |whole|
    requires n == FragmentLength(Header(p), |data|)
    ensures var next := Header(p) + HEADER_SIZE + n;
            && PhysicalAt(whole[..cut], p)
               == (if next <= cut then Fragment(FragmentType(begin, n == |data|), data[..n], next) else Eof)
            && (n == |data| ==> p + |Fragments(p, data, begin)| == next)
            && (n < |data| ==> At(whole, next, Fragments(next, data[n..], false))
                               && p + |Fragments(p, data, begin)| == next + |Fragments(next, data[n..], false)|)
  {
    hide PhysicalAt, Checksum, Mask, Fixed, Zeros, Pad, At;
    var h := Header(p);
    var z, f := Zeros(Pad(p)), Frame(FragmentType(begin, n == |data|), data[..n]);
    var next := h + HEADER_SIZE + n;
    LengthOfZeros(Pad(p));
    assert Fragments(p, data, begin) == if n == |data| then z + f else z + f + Fragments(next, data[n..], false);
    assert |f| == HEADER_SIZE + n;
    hide Fragments, Header, Frame;
    if n < |data| {
      AtParts(whole, p, z + f, Fragments(next, data[n..], false));
    }
    AtParts(whole, p, z, f);
    FrameRead(whole, p, FragmentType(begin, n == |data|), data[..n], cut);
  }

  /** Reading at the start of a record, or of what is left of one, finds all of it or the end of the file. */
  lemma {:induction false} FragmentsRead(whole: Slice, p: nat, data: Slice, begin: bool, scratch: Slice, cut: nat)
    requires At(whole, p, Fragments(p, data, begin)) && p <= cut <= |whole|
    ensures LogicalAt(whole[..cut], p, !begin, scratch)
              == if p + |Fragments(p, data, begin)| <= cut
                 then Logical(Some(if begin then data else scratch + data), p + |Fragments(p, data, begin)|, 0)
                 else Logical(None, cut, 0)
    decreases |data|, NoRoom(p)
  {
    hide Fragments, PhysicalAt, At, Pad, Header;
    var h := Header(p);
    var n := FragmentLength(h, |data|);
    var next := h + HEADER_SIZE + n;
    FirstFragment(whole, p, data, begin, cut, n);
    if n == |data| {
      assert data[..n] == data;
    } else {
      AfterFullBlock(h, n, |data|);
      if next <= cut {
        var collected := if begin then data[..n] else scratch + data[..n];
        FragmentsRead(whole, next, data[n..], false, collected, cut);
        assert data[..n] + data[n..] == data;
        Assoc(scratch, data[..n], data[n..]);
      }
    }
  }

  /** All records from offset `p` on, and the number of corruptions reported on the way. */
  function RecordsFrom(file: Slice, p: nat): (r: (seq<Slice>, nat))
    requires p <= |file|
    decreases |file| - p
  {
    var r := LogicalAt(file, p, false, []);
    if r.record.None? then ([], r.reports)
    else
      var more := RecordsFrom(file, r.next);
      ([r.record.value] + more.0, r.reports + more.1)
  }

  /** The loop of every user of the reader. */
  method ReadLog(file: Slice) returns (records: seq<Slice>, reports: nat)
    ensures (records, reports) == RecordsFrom(file, 0)
  {
    var reader := new Reader(file);
    records := [];
    hide LogicalAt;
    while true
      invariant reader.Ok() && fresh(reader) && reader.file == file
      invariant RecordsFrom(file, 0).0 == records + RecordsFrom(file, reader.Offset()).0
      invariant RecordsFrom(file, 0).1 == reader.reports + RecordsFrom(file, reader.Offset()).1
      decreases |file| - reader.Offset()
    {
      var ok, record := reader.ReadRecord();
      if !ok {
        assert records + [] == records;
        break;
      }
      records := records + [record];
    }
    reports := reader.reports;
  }

  lemma {:induction false} LogFilePrefix(records: seq<Slice>, i: nat)
    requires i <= |records|
    ensures |LogFile(records[..i])| <= |LogFile(records)|
    ensures LogFile(records)[..|LogFile(records[..i])|] == LogFile(records[..i])
  {
    if i == |records| {
      assert records[..i] == records;
    } else {
      var init := records[..|records| - 1];
      assert init[..i] == records[..i];
      LogFilePrefix(init, i);
    }
  }

  lemma RecordAt(records: seq<Slice>, i: nat)
    requires i < |records|
    ensures var p := |LogFile(records[..i])|;
            && At(LogFile(records), p, Fragments(p, records[i], true))
            && p + |Fragments(p, records[i], true)| == |LogFile(records[..i + 1])|
  {
    hide Fragments;
    var upto := records[..i + 1];
    assert upto[..i] == records[..i];
    LogFilePrefix(records, i + 1);
    Within(LogFile(records), 0, |LogFile(upto)|, |LogFile(records[..i])|, |LogFile(upto)|);
    assert LogFile(records)[0..|LogFile(upto)|] == LogFile(upto);
  }

  /** How many records end within the first `cut` bytes. */
  function Complete(records: seq<Slice>, cut: nat): (n: nat)
    ensures n <= |records|
    ensures |LogFile(records[..n])| <= cut
    ensures n < |records| ==> cut < |LogFile(records[..n + 1])|
  {
    if |LogFile(records)| <= cut then
      assert records[..|records|] == records;
      |records|
    else
      var init := records[..|records| - 1];
      var n := Complete(init, cut);
      assert init[..n] == records[..n];
      assert n + 1 < |records| ==> init[..n + 1] == records[..n + 1];
      assert n + 1 == |records| ==> records[..n + 1] == records;
      n
  }

  lemma {:induction false} ReadFromRecord(records: seq<Slice>, cut: nat, i: nat)
    requires cut <= |LogFile(records)| && i <= Complete(records, cut)
    ensures |LogFile(records[..i])| <= cut
    ensures RecordsFrom(LogFile(records)[..cut], |LogFile(records[..i])|) == (records[i..Complete(records, cut)], 0)
    decreases |records| - i
  {
    hide LogFile, Complete, Fragments, LogicalAt, RecordsFrom;
    var whole, n, p := LogFile(records), Complete(records, cut), |LogFile(records[..i])|;
    LogFilePrefix(records[..n], i);
    assert records[..n][..i] == records[..i];
    RecordsFromStep(whole[..cut], p);
    if i < |records| {
      RecordAt(records, i);
      FragmentsRead(whole, p, records[i], true, [], cut);
      if i < n {
        ReadFromRecord(records, cut, i + 1);
        assert records[i..n] == [records[i]] + records[i + 1..n];
      } else {
        assert records[i..n] == [];
      }
    } else {
      assert records[..i] == records;
      AtEnd(whole[..cut], p);
    }
  }

  lemma RecordsFromStep(file: Slice, p: nat)
    requires p <= |file|
    ensures var r := LogicalAt(file, p, false, []);
            RecordsFrom(file, p)
              == if r.record.None? then ([], r.reports)
                 else ([r.record.value] + RecordsFrom(file, r.next).0, r.reports + RecordsFrom(file, r.next).1)
  {
    hide LogicalAt;
  }

  lemma AtEnd(file: Slice, p: nat)
    requires p == |file|
    ensures LogicalAt(file, p, false, []) == Logical(None, p, 0)
  {
    TornFrame(file, p, 0);
    hide PhysicalAt;
  }

  /**
   Cutting a log anywhere loses exactly the records whose end is cut off: reading what is left yields
   the others, in order, and reports no corruption.
   */
  lemma CrashPrefix(records: seq<Slice>, cut: nat)
    requires cut <= |LogFile(records)|
    ensures RecordsFrom(LogFile(records)[..cut], 0) == (records[..Complete(records, cut)], 0)
  {
    ReadFromRecord(records, cut, 0);
    assert records[..0] == [];
    assert records[0..Complete(records, cut)] == records[..Complete(records, cut)];
  }

  lemma AllComplete(records: seq<Slice>)
    ensures Complete(records, |LogFile(records)|) == |records|
  {
  }

  /** An uncut log is read back completely. */
  lemma LogRoundTrip(records: seq<Slice>)
    ensures RecordsFrom(LogFile(records), 0) == (records, 0)
  {
    var n := |LogFile(records)|;
    CrashPrefix(records, n);
    assert LogFile(records)[..n] == LogFile(records);
    assert records[..|records|] == records;
    AllComplete(records);
  }
}
