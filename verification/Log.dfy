/** The record log: records cut into fragments inside 32 KiB blocks, and reading them back
    (db/log_format.h, db/log_writer.cc, db/log_reader.cc). */
module Log {
  import opened History
  import opened Coding

  const BLOCK_SIZE := 32768
  const HEADER_SIZE := 7

  const ZERO_TYPE := 0
  const FULL_TYPE := 1
  const FIRST_TYPE := 2
  const MIDDLE_TYPE := 3
  const LAST_TYPE := 4

  /** What the reader returns at the end of the file and for a bad record. A record on disk with one of
      these types is taken for the same. */
  const EOF_TYPE := 5
  const BAD_RECORD_TYPE := 6

  /** The checksum of a string of bytes. Nothing below depends on which function it is. */
  type Crc = Bytes -> bv32

  // ---------- writing ----------

  function FragmentType(begin: bool, end: bool): Byte {
    if begin && end then FULL_TYPE else if begin then FIRST_TYPE else if end then LAST_TYPE else MIDDLE_TYPE
  }

  function PhysicalRecord(crc: Crc, t: Byte, payload: Bytes): (r: Bytes)
    requires |payload| <= BLOCK_SIZE - HEADER_SIZE
    ensures |r| == HEADER_SIZE + |payload|
  {
    StoredCrc(crc([t] + payload)) + [|payload| % 256, |payload| / 256, t] + payload
  }

  function Zeros(n: nat): (r: Bytes)
    ensures |r| == n
  {
    seq(n, _ => 0)
  }

  /** How much of the record fits in the block. */
  function FragmentLength(offset: nat, left: nat): (n: nat)
    requires offset + HEADER_SIZE <= BLOCK_SIZE
    ensures n <= left && offset + HEADER_SIZE + n <= BLOCK_SIZE
  {
    if left < BLOCK_SIZE - offset - HEADER_SIZE then left else BLOCK_SIZE - offset - HEADER_SIZE
  }

  /** The bytes a record takes up, from an offset in a block on. */
  function Fragments(crc: Crc, offset: nat, data: Bytes, begin: bool): Bytes
    requires offset <= BLOCK_SIZE
    decreases |data|, if offset + HEADER_SIZE > BLOCK_SIZE then 1 else if offset + HEADER_SIZE == BLOCK_SIZE then 2 else 0
  {
    if offset + HEADER_SIZE > BLOCK_SIZE then
      Zeros(BLOCK_SIZE - offset) + Fragments(crc, 0, data, begin)
    else
      var n := FragmentLength(offset, |data|);
      var record := PhysicalRecord(crc, FragmentType(begin, n == |data|), data[..n]);
      if n == |data| then record else record + Fragments(crc, offset + HEADER_SIZE + n, data[n..], false)
  }

  /** The file after some records have been written to it. */
  function FileOf(crc: Crc, records: seq<Bytes>): Bytes {
    if records == [] then []
    else
      var before := FileOf(crc, records[..|records| - 1]);
      before + Fragments(crc, |before| % BLOCK_SIZE, records[|records| - 1], true)
  }

  class Writer {
    const crc: Crc
    var dest: Bytes
    var blockOffset: nat

    /** At the end of a block the offset may be the block size rather than 0. */
    ghost predicate Valid()
      reads this
    {
      blockOffset <= BLOCK_SIZE && blockOffset % BLOCK_SIZE == |dest| % BLOCK_SIZE
    }

    constructor (crc: Crc, dest: Bytes)
      ensures Valid() && this.dest == dest && this.crc == crc
    {
      this.crc, this.dest, blockOffset := crc, dest, |dest| % BLOCK_SIZE;
    }

    method EmitPhysicalRecord(t: Byte, payload: Bytes)
      requires Valid() && blockOffset + HEADER_SIZE + |payload| <= BLOCK_SIZE
      modifies this
      ensures Valid() && dest == old(dest) + PhysicalRecord(crc, t, payload)
      ensures blockOffset == old(blockOffset) + HEADER_SIZE + |payload|
    {
      dest := dest + PhysicalRecord(crc, t, payload);
      ModSum(old(blockOffset), |old(dest)|, HEADER_SIZE + |payload|);
      blockOffset := blockOffset + HEADER_SIZE + |payload|;
    }

    /** A writer that has just been opened on the file would write the same bytes. */
    method AddRecord(slice: Bytes)
      requires Valid()
      modifies this
      ensures Valid() && dest == old(dest) + Fragments(crc, |old(dest)| % BLOCK_SIZE, slice, true)
    {
      hide Fragments, PhysicalRecord, Zeros;
      var data := slice;
      var begin := true;
      BlockEnd(crc, blockOffset, slice, true);
      while true
        invariant Valid()
        invariant dest + Fragments(crc, blockOffset, data, begin) == old(dest) + Fragments(crc, |old(dest)| % BLOCK_SIZE, slice, true)
        decreases |data|, BLOCK_SIZE - blockOffset
      {
        ghost var before, offset := dest, blockOffset;
        SwitchBlock();
        var n := FragmentLength(blockOffset, |data|);
        var end := |data| == n;
        NextFragment(crc, before, offset, data, begin);
        EmitPhysicalRecord(FragmentType(begin, end), data[..n]);
        data := data[n..];
        begin := false;
        if end {
          break;
        }
      }
    }

    /** Fills a trailer too short for a header. */
    method SwitchBlock()
      requires Valid()
      modifies this
      ensures Valid() && blockOffset + HEADER_SIZE <= BLOCK_SIZE
      ensures dest == old(dest) + Zeros(Trailer(old(blockOffset))) && blockOffset == AfterTrailer(old(blockOffset))
    {
      var leftover := BLOCK_SIZE - blockOffset;
      if leftover < HEADER_SIZE {
        if leftover > 0 {
          dest := dest + Zeros(leftover);
        }
        assert old(dest) + Zeros(0) == old(dest);
        ModSum(old(blockOffset), |old(dest)|, leftover);
        blockOffset := 0;
      } else {
        assert old(dest) + Zeros(0) == old(dest);
      }
    }
  }

  function Trailer(offset: nat): nat
    requires offset <= BLOCK_SIZE
  {
    if offset + HEADER_SIZE > BLOCK_SIZE then BLOCK_SIZE - offset else 0
  }

  function AfterTrailer(offset: nat): (r: nat)
    requires offset <= BLOCK_SIZE
    ensures r + HEADER_SIZE <= BLOCK_SIZE
  {
    if offset + HEADER_SIZE > BLOCK_SIZE then 0 else offset
  }

  /** The trailer, one fragment, and what follows it. */
  lemma NextFragment(crc: Crc, before: Bytes, offset: nat, data: Bytes, begin: bool)
    requires offset <= BLOCK_SIZE
    ensures var o := AfterTrailer(offset);
            var n := FragmentLength(o, |data|);
            before + Fragments(crc, offset, data, begin) ==
              before + Zeros(Trailer(offset)) + PhysicalRecord(crc, FragmentType(begin, n == |data|), data[..n])
              + if n == |data| then [] else Fragments(crc, o + HEADER_SIZE + n, data[n..], false)
  {
    hide Fragments, PhysicalRecord, Zeros;
    var o := AfterTrailer(offset);
    var n := FragmentLength(o, |data|);
    var record := PhysicalRecord(crc, FragmentType(begin, n == |data|), data[..n]);
    var rest := if n == |data| then [] else Fragments(crc, o + HEADER_SIZE + n, data[n..], false);
    SkipTrailer(crc, offset, data, begin);
    FirstFragment(crc, o, data, begin);
    assert before + (Zeros(Trailer(offset)) + (record + rest)) == before + Zeros(Trailer(offset)) + record + rest;
  }

  lemma SkipTrailer(crc: Crc, offset: nat, data: Bytes, begin: bool)
    requires offset <= BLOCK_SIZE
    ensures Fragments(crc, offset, data, begin) == Zeros(Trailer(offset)) + Fragments(crc, AfterTrailer(offset), data, begin)
  {
    assert Zeros(0) + Fragments(crc, offset, data, begin) == Fragments(crc, offset, data, begin);
  }

  lemma FirstFragment(crc: Crc, o: nat, data: Bytes, begin: bool)
    requires o + HEADER_SIZE <= BLOCK_SIZE
    ensures var n := FragmentLength(o, |data|);
            Fragments(crc, o, data, begin) == PhysicalRecord(crc, FragmentType(begin, n == |data|), data[..n])
              + if n == |data| then [] else Fragments(crc, o + HEADER_SIZE + n, data[n..], false)
  {
    var n := FragmentLength(o, |data|);
    var record := PhysicalRecord(crc, FragmentType(begin, n == |data|), data[..n]);
    assert record + [] == record;
  }

  /** A writer opened on what some records left carries on as if it had written them itself. */
  method AppendRecords(crc: Crc, dest: Bytes, records: seq<Bytes>, ghost written: seq<Bytes>) returns (file: Bytes)
    requires dest == FileOf(crc, written)
    ensures file == FileOf(crc, written + records)
  {
    hide Fragments;
    var w := new Writer(crc, dest);
    assert written + records[..0] == written;
    for i := 0 to |records|
      invariant w.Valid() && fresh(w) && w.crc == crc && w.dest == FileOf(crc, written + records[..i])
    {
      w.AddRecord(records[i]);
      var next := written + records[..i + 1];
      assert next[..|next| - 1] == written + records[..i] && next[|next| - 1] == records[i];
    }
    assert records[..|records|] == records;
    file := w.dest;
  }

  lemma ModSum(a: nat, b: nat, n: nat)
    requires a % BLOCK_SIZE == b % BLOCK_SIZE
    ensures (a + n) % BLOCK_SIZE == (b + n) % BLOCK_SIZE
  {
    var q, r := a / BLOCK_SIZE, b / BLOCK_SIZE;
    assert a + n == (b + n) + BLOCK_SIZE * (q - r);
    ModShift(b + n, q - r);
  }

  lemma ModShift(b: nat, q: int)
    requires b + BLOCK_SIZE * q >= 0
    ensures (b + BLOCK_SIZE * q) % BLOCK_SIZE == b % BLOCK_SIZE
  {
  }

  lemma BlockEnd(crc: Crc, offset: nat, data: Bytes, begin: bool)
    requires offset <= BLOCK_SIZE
    ensures Fragments(crc, offset % BLOCK_SIZE, data, begin) == Fragments(crc, offset, data, begin)
  {
    hide Fragments;
    if offset == BLOCK_SIZE {
      SkipTrailer(crc, offset, data, begin);
      assert Zeros(0) + Fragments(crc, 0, data, begin) == Fragments(crc, 0, data, begin);
    }
  }

  // ---------- reading ----------

  datatype Corruption = Corruption(bytes: nat, reason: string)
  datatype Physical = Fragment(kind: Byte, payload: Bytes) | Eof | BadRecord(report: Option<Corruption>)

  /** Where the block that holds a position ends. */
  function EndOfBlock(pos: nat): (e: nat)
    ensures pos < e <= pos + BLOCK_SIZE && e % BLOCK_SIZE == 0
  {
    (pos / BLOCK_SIZE + 1) * BLOCK_SIZE
  }

  /** What a header says, given the bytes from it to the end of the buffer. */
  function ParsePhysical(crc: Crc, buffer: Bytes, atEof: bool): Physical
    requires |buffer| >= HEADER_SIZE
  {
    var length := (buffer[4] as int) + (buffer[5] as int) * 256;
    var kind := buffer[6];
    if HEADER_SIZE + length > |buffer| then
      if atEof then Eof else BadRecord(Some(Corruption(|buffer|, "bad record length")))
    else if kind == ZERO_TYPE && length == 0 then BadRecord(None)
    else if crc(buffer[6..HEADER_SIZE + length]) != LoadedCrc(buffer) then
      BadRecord(Some(Corruption(|buffer|, "checksum mismatch")))
    else Fragment(kind, buffer[HEADER_SIZE..HEADER_SIZE + length])
  }

  /** The next physical record from a position on, and the position after it. Whatever is wrong with
      a record, the rest of its block is given up. */
  function NextPhysical(crc: Crc, file: Bytes, pos: nat): (r: (Physical, nat))
    requires pos <= |file|
    ensures pos <= r.1 <= |file| && (!r.0.Eof? ==> pos < r.1)
    decreases |file| - pos
  {
    var end := if EndOfBlock(pos) <= |file| then EndOfBlock(pos) else |file|;
    if end - pos < HEADER_SIZE then
      if EndOfBlock(pos) <= |file| then NextPhysical(crc, file, end) else (Eof, |file|)
    else
      var p := ParsePhysical(crc, file[pos..end], end < EndOfBlock(pos));
      (p, if p.Fragment? then pos + HEADER_SIZE + |p.payload| else end)
  }

  /** The buffer is the unread part of what was read last: of a whole block, or of the short rest of
      the file. */
  ghost predicate Buffered(file: Bytes, filePos: nat, buffer: Bytes, eof: bool) {
    && |buffer| <= filePos <= |file| && buffer == file[filePos - |buffer|..filePos]
    && if eof then filePos == |file| && filePos < EndOfBlock(filePos - |buffer|)
       else filePos % BLOCK_SIZE == 0 && (buffer != [] ==> filePos == EndOfBlock(filePos - |buffer|))
  }

  lemma BufferIsInside(file: Bytes, filePos: nat, buffer: Bytes, eof: bool)
    requires Buffered(file, filePos, buffer, eof)
    ensures |buffer| <= filePos <= |file| && (eof ==> filePos == |file|)
  {
  }

  lemma SkipShortBuffer(crc: Crc, file: Bytes, filePos: nat, buffer: Bytes)
    requires Buffered(file, filePos, buffer, false) && |buffer| < HEADER_SIZE
    ensures NextPhysical(crc, file, filePos - |buffer|) == NextPhysical(crc, file, filePos)
  {
  }

  lemma ShortBufferAtEnd(crc: Crc, file: Bytes, filePos: nat, buffer: Bytes)
    requires Buffered(file, filePos, buffer, true) && |buffer| < HEADER_SIZE
    ensures NextPhysical(crc, file, filePos - |buffer|) == (Eof, |file|)
  {
  }

  lemma ParseBuffer(crc: Crc, file: Bytes, filePos: nat, buffer: Bytes, eof: bool)
    requires Buffered(file, filePos, buffer, eof) && |buffer| >= HEADER_SIZE
    ensures var p := ParsePhysical(crc, buffer, eof);
            && (p.Fragment? ==> HEADER_SIZE + |p.payload| <= |buffer|)
            && NextPhysical(crc, file, filePos - |buffer|) ==
                 (p, filePos - if p.Fragment? then |buffer| - HEADER_SIZE - |p.payload| else 0)
  {
    hide ParsePhysical;
    PayloadInBuffer(crc, buffer, eof);
  }

  lemma PayloadInBuffer(crc: Crc, buffer: Bytes, eof: bool)
    requires |buffer| >= HEADER_SIZE
    ensures var p := ParsePhysical(crc, buffer, eof); p.Fragment? ==> HEADER_SIZE + |p.payload| <= |buffer|
  {
  }

  lemma SameBlock(pos: nat, later: nat)
    requires pos <= later < EndOfBlock(pos)
    ensures EndOfBlock(later) == EndOfBlock(pos)
  {
    var q := pos / BLOCK_SIZE;
    assert later - q * BLOCK_SIZE < BLOCK_SIZE;
    Quotient(later, q);
  }

  lemma Quotient(n: nat, q: nat)
    requires 0 <= n - q * BLOCK_SIZE < BLOCK_SIZE
    ensures n / BLOCK_SIZE == q && n % BLOCK_SIZE == n - q * BLOCK_SIZE
  {
  }

  lemma BufferShrinks(file: Bytes, filePos: nat, buffer: Bytes, eof: bool, n: nat)
    requires Buffered(file, filePos, buffer, eof) && n <= |buffer|
    ensures Buffered(file, filePos, buffer[n..], eof)
  {
    if n < |buffer| {
      SameBlock(filePos - |buffer|, filePos - |buffer| + n);
    }
  }

  class Reader {
    const crc: Crc
    const file: Bytes
    var filePos: nat
    var buffer: Bytes
    var eof: bool
    var reports: seq<Corruption>

    ghost predicate Valid()
      reads this
    {
      Buffered(file, filePos, buffer, eof)
    }

    /** The position of the next byte to parse. */
    ghost function Pos(): nat
      requires Valid()
      reads this
    {
      filePos - |buffer|
    }

    constructor (crc: Crc, file: Bytes)
      ensures Valid() && Pos() == 0 && this.file == file && this.crc == crc && reports == []
    {
      this.crc, this.file := crc, file;
      filePos, buffer, eof, reports := 0, [], false, [];
    }

    /** `file_->Read(kBlockSize, ...)`. */
    method Fill()
      requires Valid() && !eof
      modifies this`filePos, this`buffer, this`eof
      ensures Valid() && Pos() == old(filePos)
      ensures filePos > old(filePos) || eof
    {
      var n := if |file| - filePos < BLOCK_SIZE then |file| - filePos else BLOCK_SIZE;
      buffer := file[filePos..filePos + n];
      filePos := filePos + n;
      eof := n < BLOCK_SIZE;
    }

    /** The next physical record, together with the report of what was wrong with it. */
    method ReadPhysicalRecord() returns (r: Physical)
      requires Valid()
      modifies this`filePos, this`buffer, this`eof
      ensures Valid() && (r, Pos()) == NextPhysical(crc, file, old(Pos()))
    {
      hide Buffered, NextPhysical, ParsePhysical, EndOfBlock;
      BufferIsInside(file, filePos, buffer, eof);
      ghost var start := Pos();
      while |buffer| < HEADER_SIZE
        invariant Valid() && Pos() <= |file| && NextPhysical(crc, file, Pos()) == NextPhysical(crc, file, start)
        decreases |file| - filePos, !eof
      {
        BufferIsInside(file, filePos, buffer, eof);
        if !eof {
          // the last read was a full one, so this is a trailer to skip
          SkipShortBuffer(crc, file, filePos, buffer);
          Fill();
        } else {
          ShortBufferAtEnd(crc, file, filePos, buffer);
          BufferShrinks(file, filePos, buffer, eof, |buffer|);
          buffer := [];
          return Eof;
        }
      }
      BufferIsInside(file, filePos, buffer, eof);
      r := ParsePhysical(crc, buffer, eof);
      ParseBuffer(crc, file, filePos, buffer, eof);
      var used := if r.Fragment? then HEADER_SIZE + |r.payload| else |buffer|;
      BufferShrinks(file, filePos, buffer, eof, used);
      buffer := buffer[used..];
    }

    /** `ReadRecord`: puts the fragments of the next record together. */
    method ReadRecord() returns (record: Option<Bytes>)
      requires Valid()
      modifies this
      ensures Valid()
      ensures (record, Pos(), reports) == Prepend(old(reports), NextRecord(crc, file, old(Pos()), false, []))
    {
      BufferIsInside(file, filePos, buffer, eof);
      hide Buffered, NextPhysical, Assemble;
      var scratch: Bytes := [];
      var inFragmentedRecord := false;
      ghost var start, before := Pos(), reports;
      while true
        invariant Valid() && Pos() <= |file|
        invariant Prepend(reports, NextRecord(crc, file, Pos(), inFragmentedRecord, scratch)) ==
                  Prepend(before, NextRecord(crc, file, start, false, []))
        decreases |file| - Pos()
      {
        AssembleNext(crc, file, Pos(), inFragmentedRecord, scratch, reports);
        var p := ReadPhysicalRecord();
        var a := Assemble(p, inFragmentedRecord, scratch);
        reports := reports + a.reports;
        if a.Done? {
          return a.record;
        }
        inFragmentedRecord, scratch := a.fragmented, a.scratch;
      }
      assert false;
    }
  }

  // ---------- logical records ----------

  datatype Assembly =
    | Done(record: Option<Bytes>, reports: seq<Corruption>)
    | More(fragmented: bool, scratch: Bytes, reports: seq<Corruption>)

  /** What a physical record does to the record being put together. */
  function Assemble(p: Physical, fragmented: bool, scratch: Bytes): Assembly {
    match p
    case Eof => Done(None, [])
    case BadRecord(report) =>
      More(false, if fragmented then [] else scratch,
           (if report.Some? then [report.value] else []) +
           (if fragmented then [Corruption(|scratch|, "error in middle of record")] else []))
    case Fragment(kind, fragment) =>
      if kind == FULL_TYPE then
        Done(Some(fragment), if fragmented && scratch != [] then [Corruption(|scratch|, "partial record without end(1)")] else [])
      else if kind == FIRST_TYPE then
        More(true, fragment, if fragmented && scratch != [] then [Corruption(|scratch|, "partial record without end(2)")] else [])
      else if kind == MIDDLE_TYPE && !fragmented then
        More(false, scratch, [Corruption(|fragment|, "missing start of fragmented record(1)")])
      else if kind == MIDDLE_TYPE then
        More(true, scratch + fragment, [])
      else if kind == LAST_TYPE && !fragmented then
        More(false, scratch, [Corruption(|fragment|, "missing start of fragmented record(2)")])
      else if kind == LAST_TYPE then
        Done(Some(scratch + fragment), [])
      else if kind == EOF_TYPE then
        Done(None, [])
      else if kind == BAD_RECORD_TYPE then
        More(false, if fragmented then [] else scratch, if fragmented then [Corruption(|scratch|, "error in middle of record")] else [])
      else
        More(false, [], [Corruption(|fragment| + if fragmented then |scratch| else 0, "unknown record type")])
  }

  type Reading = (Option<Bytes>, nat, seq<Corruption>)

  function Prepend(reports: seq<Corruption>, r: Reading): Reading {
    (r.0, r.1, reports + r.2)
  }

  /** The next record from a position on, given the scratch of a record already begun; the position
      after it, and the corruption met on the way. */
  function NextRecord(crc: Crc, file: Bytes, pos: nat, fragmented: bool, scratch: Bytes): (r: Reading)
    requires pos <= |file|
    ensures pos <= r.1 <= |file|
    ensures r.0.Some? ==> pos < r.1
    decreases |file| - pos
  {
    var (p, next) := NextPhysical(crc, file, pos);
    match Assemble(p, fragmented, scratch)
    case Done(record, reports) => (record, next, reports)
    case More(f, s, reports) => Prepend(reports, NextRecord(crc, file, next, f, s))
  }

  lemma AssembleNext(crc: Crc, file: Bytes, pos: nat, fragmented: bool, scratch: Bytes, reports: seq<Corruption>)
    requires pos <= |file|
    ensures var (p, next) := NextPhysical(crc, file, pos);
            && pos <= next <= |file|
            && match Assemble(p, fragmented, scratch)
               case Done(record, said) =>
                 Prepend(reports, NextRecord(crc, file, pos, fragmented, scratch)) == (record, next, reports + said)
               case More(f, s, said) =>
                 && pos < next
                 && Prepend(reports, NextRecord(crc, file, pos, fragmented, scratch)) == Prepend(reports + said, NextRecord(crc, file, next, f, s))
  {
    hide NextPhysical;
    var (p, next) := NextPhysical(crc, file, pos);
    if Assemble(p, fragmented, scratch).More? {
      var a := Assemble(p, fragmented, scratch);
      var rest := NextRecord(crc, file, next, a.fragmented, a.scratch);
      assert reports + (a.reports + rest.2) == reports + a.reports + rest.2;
    }
  }

  /** Reading until there are no more records. */
  function ReadAll(crc: Crc, file: Bytes, pos: nat): (seq<Bytes>, seq<Corruption>)
    requires pos <= |file|
    decreases |file| - pos
  {
    var (record, next, reports) := NextRecord(crc, file, pos, false, []);
    if record.None? then ([], reports)
    else
      var rest := ReadAll(crc, file, next);
      ([record.value] + rest.0, reports + rest.1)
  }

  // ---------- a file that was cut off ----------

  lemma HeaderOf(crc: Crc, t: Byte, payload: Bytes, tail: Bytes)
    requires |payload| <= BLOCK_SIZE - HEADER_SIZE
    ensures var b := PhysicalRecord(crc, t, payload) + tail;
            && (b[4] as int) + (b[5] as int) * 256 == |payload| && b[6] == t
            && LoadedCrc(b) == crc([t] + payload)
            && b[6..HEADER_SIZE + |payload|] == [t] + payload
            && b[HEADER_SIZE..HEADER_SIZE + |payload|] == payload
  {
    hide StoredCrc, LoadedCrc;
    var stored := StoredCrc(crc([t] + payload));
    var rest := [|payload| % 256, |payload| / 256, t] + payload + tail;
    var b := PhysicalRecord(crc, t, payload) + tail;
    assert b == stored + rest;
    CrcRoundTrip(crc([t] + payload), rest);
  }

  /** A whole physical record parses back. */
  lemma ParseWritten(crc: Crc, t: Byte, payload: Bytes, tail: Bytes, atEof: bool)
    requires |payload| <= BLOCK_SIZE - HEADER_SIZE && t != ZERO_TYPE
    ensures ParsePhysical(crc, PhysicalRecord(crc, t, payload) + tail, atEof) == Fragment(t, payload)
  {
    hide PhysicalRecord, LoadedCrc;
    HeaderOf(crc, t, payload, tail);
  }

  /** One that was cut off inside its payload is taken for the end of the file. */
  lemma ParseCutOff(crc: Crc, t: Byte, payload: Bytes, n: nat)
    requires |payload| <= BLOCK_SIZE - HEADER_SIZE && HEADER_SIZE <= n < HEADER_SIZE + |payload|
    ensures ParsePhysical(crc, PhysicalRecord(crc, t, payload)[..n], true) == Eof
  {
    HeaderOf(crc, t, payload, []);
    var r := PhysicalRecord(crc, t, payload);
    assert r + [] == r && r[..n][4] == r[4] && r[..n][5] == r[5];
  }

  /** The position is inside a block, and `length` bytes from it on are in the same block. */
  ghost predicate FitsInBlock(pos: nat, length: nat) {
    pos % BLOCK_SIZE + length <= BLOCK_SIZE
  }

  lemma EndOfBlockIs(pos: nat)
    ensures EndOfBlock(pos) == pos + BLOCK_SIZE - pos % BLOCK_SIZE
  {
    assert pos == pos / BLOCK_SIZE * BLOCK_SIZE + pos % BLOCK_SIZE;
  }

  lemma ReadWritten(crc: Crc, whole: Bytes, n: nat, p: nat, t: Byte, payload: Bytes)
    requires |payload| <= BLOCK_SIZE - HEADER_SIZE && t != ZERO_TYPE
    requires FitsInBlock(p, HEADER_SIZE + |payload|) && p <= n <= |whole|
    requires p + HEADER_SIZE + |payload| <= |whole| && whole[p..p + HEADER_SIZE + |payload|] == PhysicalRecord(crc, t, payload)
    ensures NextPhysical(crc, whole[..n], p) == if p + HEADER_SIZE + |payload| <= n then (Fragment(t, payload), p + HEADER_SIZE + |payload|) else (Eof, n)
  {
    hide ParsePhysical, PhysicalRecord, EndOfBlock;
    EndOfBlockIs(p);
    var file, length := whole[..n], HEADER_SIZE + |payload|;
    var end := if EndOfBlock(p) <= n then EndOfBlock(p) else n;
    if p + length <= n {
      assert file[p..end] == PhysicalRecord(crc, t, payload) + whole[p + length..end];
      ParseWritten(crc, t, payload, whole[p + length..end], end < EndOfBlock(p));
    } else if HEADER_SIZE <= end - p {
      assert file[p..end] == PhysicalRecord(crc, t, payload)[..end - p];
      ParseCutOff(crc, t, payload, end - p);
    }
  }

  /** A trailer is skipped, unless the file ends in it. */
  lemma ReadTrailer(crc: Crc, file: Bytes, p: nat)
    requires p <= |file| && !FitsInBlock(p, HEADER_SIZE)
    ensures if EndOfBlock(p) <= |file| then NextPhysical(crc, file, p) == NextPhysical(crc, file, EndOfBlock(p))
            else NextPhysical(crc, file, p) == (Eof, |file|)
  {
    EndOfBlockIs(p);
  }

  lemma TrailerInRecord(crc: Crc, file: Bytes, p: nat, fragmented: bool, scratch: Bytes)
    requires p <= |file| && !FitsInBlock(p, HEADER_SIZE)
    ensures if EndOfBlock(p) <= |file| then NextRecord(crc, file, p, fragmented, scratch) == NextRecord(crc, file, EndOfBlock(p), fragmented, scratch)
            else NextRecord(crc, file, p, fragmented, scratch) == (None, |file|, [])
  {
    hide NextPhysical;
    ReadTrailer(crc, file, p);
  }

  /** What reading a record must give, if it has `length` more bytes. */
  function ReadsAs(n: nat, p: nat, length: nat, record: Bytes): Reading {
    if p + length <= n then (Some(record), p + length, []) else (None, n, [])
  }

  ghost predicate WrittenAt(crc: Crc, whole: Bytes, p: nat, data: Bytes, begin: bool) {
    var all := Fragments(crc, p % BLOCK_SIZE, data, begin);
    p + |all| <= |whole| && whole[p..p + |all|] == all
  }

  function Rounds(offset: nat): nat {
    if offset + HEADER_SIZE > BLOCK_SIZE then 1 else if offset + HEADER_SIZE == BLOCK_SIZE then 2 else 0
  }

  /** Reading the fragments of one record, wherever the file was cut off. */
  lemma {:induction false} ReadFragments(crc: Crc, whole: Bytes, n: nat, p: nat, data: Bytes, begin: bool, scratch: Bytes)
    requires p <= n <= |whole| && (begin ==> scratch == []) && WrittenAt(crc, whole, p, data, begin)
    ensures NextRecord(crc, whole[..n], p, !begin, scratch) ==
              ReadsAs(n, p, |Fragments(crc, p % BLOCK_SIZE, data, begin)|, scratch + data)
    decreases |data|, Rounds(p % BLOCK_SIZE), 1
  {
    if p % BLOCK_SIZE + HEADER_SIZE > BLOCK_SIZE {
      ReadPastTrailer(crc, whole, n, p, data, begin, scratch);
    } else {
      ReadPastFragment(crc, whole, n, p, data, begin, scratch);
    }
  }

  lemma {:induction false} ReadPastTrailer(crc: Crc, whole: Bytes, n: nat, p: nat, data: Bytes, begin: bool, scratch: Bytes)
    requires p <= n <= |whole| && (begin ==> scratch == []) && WrittenAt(crc, whole, p, data, begin)
    requires p % BLOCK_SIZE + HEADER_SIZE > BLOCK_SIZE
    ensures NextRecord(crc, whole[..n], p, !begin, scratch) ==
              ReadsAs(n, p, |Fragments(crc, p % BLOCK_SIZE, data, begin)|, scratch + data)
    decreases |data|, Rounds(p % BLOCK_SIZE), 0
  {
    hide NextRecord, Fragments, EndOfBlock;
    EndOfBlockIs(p);
    var q := EndOfBlock(p);
    SkipTrailer(crc, p % BLOCK_SIZE, data, begin);
    TrailerInRecord(crc, whole[..n], p, !begin, scratch);
    RestOf(whole, p, Fragments(crc, p % BLOCK_SIZE, data, begin), Zeros(q - p), Fragments(crc, 0, data, begin));
    if q <= n {
      ReadFragments(crc, whole, n, q, data, begin, scratch);
    }
  }

  lemma {:induction false} ReadPastFragment(crc: Crc, whole: Bytes, n: nat, p: nat, data: Bytes, begin: bool, scratch: Bytes)
    requires p <= n <= |whole| && (begin ==> scratch == []) && WrittenAt(crc, whole, p, data, begin)
    requires FitsInBlock(p, HEADER_SIZE)
    ensures NextRecord(crc, whole[..n], p, !begin, scratch) ==
              ReadsAs(n, p, |Fragments(crc, p % BLOCK_SIZE, data, begin)|, scratch + data)
    decreases |data|, Rounds(p % BLOCK_SIZE), 0
  {
    hide NextRecord, PhysicalRecord, Fragments, WrittenAt;
    var k := FragmentLength(p % BLOCK_SIZE, |data|);
    ReadOneFragment(crc, whole, n, p, data, begin, scratch);
    NextStart(crc, whole, p, k, data, begin);
    if k < |data| && p + HEADER_SIZE + k <= n {
      ReadFragments(crc, whole, n, p + HEADER_SIZE + k, data[k..], false, scratch + data[..k]);
      assert scratch + data[..k] + data[k..] == scratch + data;
    }
  }

  /** Where the fragment after one that does not end its record starts. */
  lemma NextStart(crc: Crc, whole: Bytes, p: nat, k: nat, data: Bytes, begin: bool)
    requires FitsInBlock(p, HEADER_SIZE) && k == FragmentLength(p % BLOCK_SIZE, |data|) && WrittenAt(crc, whole, p, data, begin)
    ensures var length := |Fragments(crc, p % BLOCK_SIZE, data, begin)|;
            var q := p + HEADER_SIZE + k;
            if k == |data| then length == HEADER_SIZE + k
            else
              && q % BLOCK_SIZE == 0
              && length == HEADER_SIZE + k + |Fragments(crc, q % BLOCK_SIZE, data[k..], false)|
              && WrittenAt(crc, whole, q, data[k..], false)
  {
    hide Fragments, PhysicalRecord;
    FirstFragment(crc, p % BLOCK_SIZE, data, begin);
    if k < |data| {
      var q := p + HEADER_SIZE + k;
      ModSum(p % BLOCK_SIZE, p, HEADER_SIZE + k);
      BlockEnd(crc, p % BLOCK_SIZE + HEADER_SIZE + k, data[k..], false);
      RestOf(whole, p, Fragments(crc, p % BLOCK_SIZE, data, begin), PhysicalRecord(crc, FragmentType(begin, false), data[..k]),
             Fragments(crc, q % BLOCK_SIZE, data[k..], false));
    }
  }

  lemma RestOf(whole: Bytes, p: nat, all: Bytes, first: Bytes, rest: Bytes)
    requires p + |all| <= |whole| && whole[p..p + |all|] == all && all == first + rest
    ensures var q := p + |first|; q + |rest| == p + |all| && whole[q..q + |rest|] == rest
  {
    assert all[|first|..] == rest;
    assert whole[p + |first|..p + |all|] == whole[p..p + |all|][|first|..];
  }

  lemma FirstOf(whole: Bytes, p: nat, all: Bytes, first: Bytes)
    requires p + |all| <= |whole| && whole[p..p + |all|] == all && first <= all
    ensures p + |first| <= |whole| && whole[p..p + |first|] == first
  {
    assert whole[p..p + |first|] == whole[p..p + |all|][..|first|];
  }

  lemma ReadOneFragment(crc: Crc, whole: Bytes, n: nat, p: nat, data: Bytes, begin: bool, scratch: Bytes)
    requires p <= n <= |whole| && (begin ==> scratch == []) && FitsInBlock(p, HEADER_SIZE) && WrittenAt(crc, whole, p, data, begin)
    ensures var k := FragmentLength(p % BLOCK_SIZE, |data|);
            var q := p + HEADER_SIZE + k;
            if q > n then NextRecord(crc, whole[..n], p, !begin, scratch) == (None, n, [])
            else if k == |data| then NextRecord(crc, whole[..n], p, !begin, scratch) == (Some(scratch + data), q, [])
            else NextRecord(crc, whole[..n], p, !begin, scratch) == NextRecord(crc, whole[..n], q, true, scratch + data[..k])
  {
    hide PhysicalRecord, NextPhysical, Fragments;
    var k := FragmentLength(p % BLOCK_SIZE, |data|);
    var t := FragmentType(begin, k == |data|);
    var record := PhysicalRecord(crc, t, data[..k]);
    FirstFragment(crc, p % BLOCK_SIZE, data, begin);
    var all := Fragments(crc, p % BLOCK_SIZE, data, begin);
    FirstOf(whole, p, all, record);
    ReadWritten(crc, whole, n, p, t, data[..k]);
    assert data[..|data|] == data && (scratch == [] ==> scratch + data[..k] == data[..k]);
    forall r: Reading
      ensures Prepend([], r) == r
    {
      assert [] + r.2 == r.2;
    }
  }

  /** How many records end within the first `n` bytes. */
  function Complete(crc: Crc, records: seq<Bytes>, n: nat): (k: nat)
    ensures k <= |records|
  {
    if records == [] || |FileOf(crc, records)| <= n then |records| else Complete(crc, records[..|records| - 1], n)
  }

  lemma OneRecordTakesSpace(crc: Crc, record: Bytes)
    ensures |FileOf(crc, [record])| > 0
  {
    hide Fragments;
    assert FileOf(crc, []) == [] && [record][..0] == [];
    FirstFragment(crc, 0, record, true);
  }

  lemma {:induction false} FilePrefix(crc: Crc, records: seq<Bytes>, k: nat)
    requires k <= |records|
    ensures |FileOf(crc, records[..k])| <= |FileOf(crc, records)|
    ensures FileOf(crc, records)[..|FileOf(crc, records[..k])|] == FileOf(crc, records[..k])
    decreases |records|
  {
    if k < |records| {
      var init := records[..|records| - 1];
      FilePrefix(crc, init, k);
      assert init[..k] == records[..k];
      assert FileOf(crc, records)[..|FileOf(crc, init)|] == FileOf(crc, init);
    } else {
      assert records[..k] == records;
    }
  }

  lemma {:induction false} CompleteIs(crc: Crc, records: seq<Bytes>, n: nat, k: nat)
    requires k <= |records|
    ensures k <= Complete(crc, records, n) <==> |FileOf(crc, records[..k])| <= n
    decreases |records|
  {
    if records == [] || |FileOf(crc, records)| <= n {
      FilePrefix(crc, records, k);
    } else {
      if k < |records| {
        CompleteIs(crc, records[..|records| - 1], n, k);
        assert records[..|records| - 1][..k] == records[..k];
      } else {
        CompleteIs(crc, records[..|records| - 1], n, 0);
        assert records[..k] == records;
      }
    }
  }

  /** From the end of record `k` on. */
  lemma {:induction false} ReadFrom(crc: Crc, records: seq<Bytes>, n: nat, k: nat)
    requires k <= |records| && |FileOf(crc, records[..k])| <= n <= |FileOf(crc, records)|
    ensures k <= Complete(crc, records, n)
    ensures ReadAll(crc, FileOf(crc, records)[..n], |FileOf(crc, records[..k])|) == (records[k..Complete(crc, records, n)], [])
    decreases |records| - k
  {
    hide NextRecord, Fragments, Complete;
    var whole := FileOf(crc, records);
    var p := |FileOf(crc, records[..k])|;
    CompleteIs(crc, records, n, k);
    if k == |records| {
      assert records[..k] == records;
      AtEnd(crc, whole);
      assert whole[..n] == whole && p == |whole|;
      assert records[k..Complete(crc, records, n)] == [];
    } else {
      CompleteIs(crc, records, n, k + 1);
      RecordAt(crc, records, k);
      ReadFragments(crc, whole, n, p, records[k], true, []);
      if k + 1 <= Complete(crc, records, n) {
        ReadFrom(crc, records, n, k + 1);
        assert [] + records[k] == records[k];
        ReadAllStep(crc, whole[..n], p, records[k], |FileOf(crc, records[..k + 1])|);
        assert [records[k]] + records[k + 1..Complete(crc, records, n)] == records[k..Complete(crc, records, n)];
      } else {
        assert records[k..Complete(crc, records, n)] == [];
      }
    }
  }

  lemma ReadAllStep(crc: Crc, file: Bytes, pos: nat, record: Bytes, next: nat)
    requires pos <= |file| && NextRecord(crc, file, pos, false, []) == (Some(record), next, [])
    ensures next <= |file| && ReadAll(crc, file, pos) == ([record] + ReadAll(crc, file, next).0, ReadAll(crc, file, next).1)
  {
    hide NextRecord;
    var _ := NextRecord(crc, file, pos, false, []);
    assert [] + ReadAll(crc, file, next).1 == ReadAll(crc, file, next).1;
  }

  lemma RecordAt(crc: Crc, records: seq<Bytes>, k: nat)
    requires k < |records|
    ensures var p := |FileOf(crc, records[..k])|;
            var f := Fragments(crc, p % BLOCK_SIZE, records[k], true);
            && |FileOf(crc, records[..k + 1])| == p + |f| <= |FileOf(crc, records)|
            && FileOf(crc, records)[p..p + |f|] == f
  {
    hide Fragments;
    var before := FileOf(crc, records[..k]);
    var after := FileOf(crc, records[..k + 1]);
    assert records[..k + 1][..k] == records[..k];
    FilePrefix(crc, records, k + 1);
    assert FileOf(crc, records)[|before|..|after|] == FileOf(crc, records)[..|after|][|before|..];
  }

  lemma AtEnd(crc: Crc, file: Bytes)
    ensures NextRecord(crc, file, |file|, false, []) == (None, |file|, [])
  {
  }

  /** Whatever is left of a log after a crash - any prefix of its bytes - reads as the records that
      were written completely, and nothing is reported as corrupt. */
  lemma ReadTruncated(crc: Crc, records: seq<Bytes>, n: nat)
    requires n <= |FileOf(crc, records)|
    ensures ReadAll(crc, FileOf(crc, records)[..n], 0) == (records[..Complete(crc, records, n)], [])
  {
    assert records[..0] == [];
    ReadFrom(crc, records, n, 0);
  }

  /** And a complete log reads as all its records. */
  lemma ReadWhole(crc: Crc, records: seq<Bytes>)
    ensures ReadAll(crc, FileOf(crc, records), 0) == (records, [])
  {
    var file := FileOf(crc, records);
    ReadTruncated(crc, records, |file|);
    assert file[..|file|] == file && records[..|records|] == records;
  }
}
