/** Write batches as they are logged and replayed (db/write_batch.cc): a header with a sequence number
    and a count, then the updates. */
module WriteBatch {
  import opened History
  import opened Coding
  import opened Slices

  const HEADER := 12
  const MAX_COUNT: nat := 0x7FFF_FFFF

  datatype Record = Put(key: Bytes, value: Bytes) | Delete(key: Bytes)

  const TYPE_DELETION := 0
  const TYPE_VALUE := 1

  predicate RecordOk(r: Record) {
    |r.key| < TWO32 && (r.Put? ==> |r.value| < TWO32)
  }

  function RecordBytes(r: Record): (b: Bytes)
    ensures |b| > 0
  {
    match r
    case Put(key, value) => [TYPE_VALUE] + (LengthPrefixed(key) + LengthPrefixed(value))
    case Delete(key) => [TYPE_DELETION] + LengthPrefixed(key)
  }

  function RecordsBytes(rs: seq<Record>): Bytes {
    if rs == [] then [] else RecordBytes(rs[0]) + RecordsBytes(rs[1..])
  }

  function Header(sequence: nat, count: nat): (b: Bytes)
    requires sequence < TWO64 && count < TWO32
    ensures |b| == HEADER
  {
    EncodeFixed64(sequence) + EncodeFixed32(count)
  }

  /** The bytes of a batch. */
  function BatchBytes(sequence: nat, rs: seq<Record>): Bytes
    requires sequence < TWO64 && |rs| <= MAX_COUNT
  {
    Header(sequence, |rs|) + RecordsBytes(rs)
  }

  // ---------- reading a batch ----------

  /** One update; there is none when the bytes are malformed. */
  function RecordAt(s: Bytes, p: nat): (r: Option<(Record, nat)>)
    requires p < |s|
    ensures r.Some? ==> p < r.value.1 <= |s|
  {
    if s[p] != TYPE_VALUE && s[p] != TYPE_DELETION then None
    else
      match GetSlice(s, p + 1)
      case None => None
      case Some((key, q)) =>
        if s[p] == TYPE_DELETION then Some((Delete(key), q))
        else
          match GetSlice(s, q)
          case None => None
          case Some((value, r)) => Some((Put(key, value), r))
  }

  /** What the handler is given from position `p` on, and whether all of it was well formed. */
  function RecordsAt(s: Bytes, p: nat): (seq<Record>, bool)
    requires p <= |s|
    decreases |s| - p
  {
    if p == |s| then ([], true)
    else
      match RecordAt(s, p)
      case None => ([], false)
      case Some((r, q)) => var (rest, ok) := RecordsAt(s, q); ([r] + rest, ok)
  }

  function CountOf(s: Bytes): nat
    requires |s| >= HEADER
  {
    DecodeFixed32(s[8..])
  }

  function SequenceOf(s: Bytes): nat
    requires |s| >= HEADER
  {
    DecodeFixed64(s)
  }

  /** `Iterate`. */
  function Iterated(s: Bytes): (seq<Record>, bool) {
    if |s| < HEADER then ([], false)
    else var (rs, ok) := RecordsAt(s, HEADER); (rs, ok && |rs| == CountOf(s))
  }

  /** An entry as the memtable gets it. */
  datatype Added = Added(sequence: nat, kind: Kind, key: Bytes, value: Bytes)

  function AddedAs(sequence: nat, r: Record): Added {
    match r
    case Put(key, value) => Added(sequence, Value, key, value)
    case Delete(key) => Added(sequence, Deletion, key, [])
  }

  /** The updates take consecutive sequence numbers. */
  function NumberedFrom(sequence: nat, rs: seq<Record>): seq<Added> {
    seq(|rs|, i requires 0 <= i < |rs| => AddedAs(sequence + i, rs[i]))
  }

  // ---------- round trip ----------

  lemma WrittenRecord(s: Bytes, p: nat, r: Record)
    requires RecordOk(r) && StandsAt(s, p, RecordBytes(r))
    ensures p < |s| && RecordAt(s, p) == Some((r, p + |RecordBytes(r)|))
  {
    hide Varint, LengthPrefixed, GetSlice, StandsAt;
    match r
    case Put(key, value) =>
      FirstByte(s, p, TYPE_VALUE, LengthPrefixed(key) + LengthPrefixed(value));
      StandsPart(s, p + 1, LengthPrefixed(key), LengthPrefixed(value));
      WrittenSlice(s, p + 1, key);
      WrittenSlice(s, p + 1 + |LengthPrefixed(key)|, value);
    case Delete(key) =>
      FirstByte(s, p, TYPE_DELETION, LengthPrefixed(key));
      WrittenSlice(s, p + 1, key);
  }

  lemma FirstByte(s: Bytes, p: nat, b: Byte, rest: Bytes)
    requires StandsAt(s, p, [b] + rest)
    ensures p < |s| && s[p] == b && StandsAt(s, p + 1, rest)
  {
    StandsPart(s, p, [b], rest);
    assert s[p] == s[p..p + 1][0];
  }

  lemma {:induction false} WrittenRecords(s: Bytes, p: nat, rs: seq<Record>)
    requires forall i :: 0 <= i < |rs| ==> RecordOk(rs[i])
    requires StandsAt(s, p, RecordsBytes(rs)) && p + |RecordsBytes(rs)| == |s|
    ensures RecordsAt(s, p) == (rs, true)
    decreases |rs|
  {
    hide RecordBytes, RecordAt, RecordOk, StandsAt;
    if rs != [] {
      StandsPart(s, p, RecordBytes(rs[0]), RecordsBytes(rs[1..]));
      WrittenRecord(s, p, rs[0]);
      WrittenRecords(s, p + |RecordBytes(rs[0])|, rs[1..]);
      assert [rs[0]] + rs[1..] == rs;
    }
  }

  lemma HeaderReadsBack(sequence: nat, count: nat, rest: Bytes)
    requires sequence < TWO64 && count < TWO32
    ensures var s := Header(sequence, count) + rest; SequenceOf(s) == sequence && CountOf(s) == count
  {
    hide EncodeFixed64, DecodeFixed64, EncodeFixed32, DecodeFixed32;
    var s := Header(sequence, count) + rest;
    assert s == EncodeFixed64(sequence) + (EncodeFixed32(count) + rest) && s[8..] == EncodeFixed32(count) + rest;
    Fixed64RoundTrip(sequence, EncodeFixed32(count) + rest);
    Fixed32RoundTrip(count, rest);
  }

  /** A batch that was logged replays as the updates that were put into it, with the same numbers. */
  lemma RoundTrip(sequence: nat, rs: seq<Record>)
    requires sequence < TWO64 && |rs| <= MAX_COUNT && forall i :: 0 <= i < |rs| ==> RecordOk(rs[i])
    ensures Iterated(BatchBytes(sequence, rs)) == (rs, true)
    ensures |BatchBytes(sequence, rs)| >= HEADER && SequenceOf(BatchBytes(sequence, rs)) == sequence
  {
    hide RecordOk, RecordsBytes, RecordsAt, CountOf, SequenceOf, Header;
    var s := BatchBytes(sequence, rs);
    HeaderReadsBack(sequence, |rs|, RecordsBytes(rs));
    assert s[HEADER..HEADER + |RecordsBytes(rs)|] == RecordsBytes(rs);
    WrittenRecords(s, HEADER, rs);
  }

  lemma {:induction false} BytesAppend(a: seq<Record>, b: seq<Record>)
    ensures RecordsBytes(a + b) == RecordsBytes(a) + RecordsBytes(b)
    decreases |a|
  {
    hide RecordBytes;
    if a == [] {
      assert a + b == b;
    } else {
      assert (a + b)[1..] == a[1..] + b;
      BytesAppend(a[1..], b);
    }
  }

  /** Replaying a group of batches as one numbers each batch where the one before it ends. */
  lemma NumbersGoOn(sequence: nat, a: seq<Record>, b: seq<Record>)
    ensures NumberedFrom(sequence, a + b) == NumberedFrom(sequence, a) + NumberedFrom(sequence + |a|, b)
  {
    forall i | 0 <= i < |a + b|
      ensures NumberedFrom(sequence, a + b)[i] == (NumberedFrom(sequence, a) + NumberedFrom(sequence + |a|, b))[i]
    {
    }
  }

  // ---------- the batch ----------

  class WriteBatch {
    var rep: Bytes
    ghost var sequence: nat
    ghost var records: seq<Record>

    ghost predicate Valid()
      reads this
    {
      && sequence < TWO64 && |records| <= MAX_COUNT
      && (forall i :: 0 <= i < |records| ==> RecordOk(records[i]))
      && rep == BatchBytes(sequence, records)
    }

    constructor ()
      ensures Valid() && records == [] && sequence == 0
    {
      rep := seq(HEADER, _ => 0);
      sequence, records := 0, [];
      new;
      assert EncodeFixed64(0) == [0, 0, 0, 0, 0, 0, 0, 0];
      assert rep == BatchBytes(0, []);
    }

    method Clear()
      modifies this
      ensures Valid() && records == [] && sequence == 0
    {
      rep := seq(HEADER, _ => 0);
      sequence, records := 0, [];
      assert EncodeFixed64(0) == [0, 0, 0, 0, 0, 0, 0, 0];
      assert rep == BatchBytes(0, []);
    }

    method Count() returns (n: nat)
      requires Valid()
      ensures n == |records|
    {
      hide Header, RecordsBytes, CountOf;
      HeaderReadsBack(sequence, |records|, RecordsBytes(records));
      CountIs(rep);
      n := DecodeFixed32(rep[8..]);
    }

    /** `SetSequence`. */
    method SetSequence(n: nat)
      requires Valid() && n < TWO64
      modifies this
      ensures Valid() && sequence == n && records == old(records)
    {
      hide EncodeFixed64, EncodeFixed32;
      rep := EncodeFixed64(n) + rep[8..];
      assert rep == BatchBytes(n, records);
      sequence := n;
    }

    /** `SetCount` and the bytes added after it. */
    method Extend(count: nat, bytes: Bytes, ghost more: seq<Record>)
      requires Valid() && count == |records| + |more| <= MAX_COUNT && bytes == RecordsBytes(more)
      requires forall i :: 0 <= i < |more| ==> RecordOk(more[i])
      modifies this
      ensures Valid() && records == old(records) + more && sequence == old(sequence)
    {
      hide EncodeFixed64, EncodeFixed32, RecordsBytes;
      rep := rep[..8] + EncodeFixed32(count) + rep[HEADER..] + bytes;
      BytesAppend(records, more);
      assert rep == BatchBytes(sequence, records + more);
      records := records + more;
    }

    method Put(key: Bytes, value: Bytes)
      requires Valid() && |records| < MAX_COUNT && |key| < TWO32 && |value| < TWO32
      modifies this
      ensures Valid() && records == old(records) + [Record.Put(key, value)] && sequence == old(sequence)
    {
      hide Valid;
      var n := Count();
      var bytes: Bytes := [TYPE_VALUE];
      bytes := PutSlice(bytes, key);
      bytes := PutSlice(bytes, value);
      OneRecord(Record.Put(key, value));
      assert bytes == RecordBytes(Record.Put(key, value));
      Extend(n + 1, bytes, [Record.Put(key, value)]);
    }

    method Delete(key: Bytes)
      requires Valid() && |records| < MAX_COUNT && |key| < TWO32
      modifies this
      ensures Valid() && records == old(records) + [Record.Delete(key)] && sequence == old(sequence)
    {
      hide Valid;
      var n := Count();
      var bytes: Bytes := [TYPE_DELETION];
      bytes := PutSlice(bytes, key);
      OneRecord(Record.Delete(key));
      Extend(n + 1, bytes, [Record.Delete(key)]);
    }

    /** The updates of another batch go at the end. */
    method Append(source: WriteBatch)
      requires Valid() && source.Valid() && |records| + |source.records| <= MAX_COUNT
      modifies this
      ensures Valid() && records == old(records) + old(source.records) && sequence == old(sequence)
    {
      hide Header, RecordsBytes;
      var n := Count();
      var m := source.Count();
      assert source.rep[HEADER..] == RecordsBytes(source.records);
      Extend(n + m, source.rep[HEADER..], source.records);
    }
  }

  lemma CountIs(s: Bytes)
    requires |s| >= HEADER
    ensures CountOf(s) == DecodeFixed32(s[8..])
  {
  }

  lemma OneRecord(r: Record)
    ensures RecordsBytes([r]) == RecordBytes(r)
  {
    assert RecordsBytes([r]) == RecordBytes(r) + RecordsBytes([]);
  }

  // ---------- replaying ----------

  function Onto(a: seq<Record>, b: (seq<Record>, bool)): (seq<Record>, bool) {
    (a + b.0, b.1)
  }

  lemma OntoStep(a: seq<Record>, s: Bytes, p: nat)
    requires p <= |s|
    ensures p == |s| ==> Onto(a, RecordsAt(s, p)) == (a, true)
    ensures p < |s| && RecordAt(s, p).None? ==> Onto(a, RecordsAt(s, p)) == (a, false)
    ensures p < |s| && RecordAt(s, p).Some? ==>
              Onto(a, RecordsAt(s, p)) == Onto(a + [RecordAt(s, p).value.0], RecordsAt(s, RecordAt(s, p).value.1))
  {
    hide RecordAt;
    assert a + [] == a;
    if p < |s| && RecordAt(s, p).Some? {
      var (r, q) := RecordAt(s, p).value;
      var rest := RecordsAt(s, q).0;
      assert a + ([r] + rest) == a + [r] + rest;
    }
  }

  method ReadRecord(s: Bytes, p: nat) returns (r: Option<(Record, nat)>)
    requires p < |s|
    ensures r == RecordAt(s, p)
  {
    hide GetSlice;
    if s[p] != TYPE_VALUE && s[p] != TYPE_DELETION {
      return None;
    }
    var key := ReadSlice(s, p + 1);
    if key.None? {
      return None;
    }
    if s[p] == TYPE_DELETION {
      return Some((Record.Delete(key.value.0), key.value.1));
    }
    var value := ReadSlice(s, key.value.1);
    r := if value.None? then None else Some((Record.Put(key.value.0, value.value.0), value.value.1));
  }

  /** `InsertInto`: the memtable gets every update up to the first malformed one. */
  method InsertInto(s: Bytes) returns (added: seq<Added>, ok: bool)
    ensures ok == Iterated(s).1
    ensures added == if |s| < HEADER then [] else NumberedFrom(SequenceOf(s), Iterated(s).0)
  {
    hide RecordsAt, RecordAt, SequenceOf, CountOf;
    if |s| < HEADER {
      return [], false;
    }
    var first := SequenceOf(s);
    var sequence := first;
    added := [];
    var p: nat, found: nat := HEADER, 0;
    ghost var handled: seq<Record> := [];
    ghost var whole := RecordsAt(s, HEADER);
    assert [] + whole.0 == whole.0;
    while p < |s|
      invariant p <= |s| && found == |handled| && sequence == first + found
      invariant added == NumberedFrom(first, handled)
      invariant whole == Onto(handled, RecordsAt(s, p))
    {
      OntoStep(handled, s, p);
      var r := ReadRecord(s, p);
      if r.None? {
        return added, false;
      }
      NumbersGoOn(first, handled, [r.value.0]);
      added := added + [AddedAs(sequence, r.value.0)];
      handled, p, found, sequence := handled + [r.value.0], r.value.1, found + 1, sequence + 1;
    }
    OntoStep(handled, s, p);
    ok := found == CountOf(s);
  }
}
