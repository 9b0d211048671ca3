/** The disk as bytes, and what a crash in the middle of writing them leaves (db/db_impl.cc,
    db/version_set.cc, db/dbformat.cc). */
module DiskBytes {
  import opened History
  import opened Coding
  import opened Version
  import opened CompactionSafety
  import opened Layers
  import opened Manifest
  import opened Recovery
  import opened Store
  import opened TableFiles
  import Bytewise
  import EditCoding
  import Log
  import Table
  import WriteBatch

  // ---------- internal keys ----------

  /** `AppendInternalKey`: the user key, then sequence number and type in eight bytes. */
  function InternalKey(k: Table.TableKey): Bytes
    requires k.sequence <= MAX_SEQUENCE
  {
    k.user + EncodeFixed64(Table.PackedTag(k))
  }

  /** The key that some bytes stand for; too short a string stands for none. */
  ghost function KeyOf(b: Bytes): Option<IKey> {
    if |b| < 8 then None
    else
      var tag := DecodeFixed64(b[|b| - 8..]);
      Some(IKey(Bytewise.Rank(b[..|b| - 8]), tag / 256, if tag % 256 == 1 then Value else Deletion))
  }

  lemma TagParts(k: Table.TableKey)
    requires k.sequence <= MAX_SEQUENCE
    ensures Table.PackedTag(k) < 0x1_0000_0000_0000_0000
    ensures Table.PackedTag(k) / 256 == k.sequence && (Table.PackedTag(k) % 256 == 1 <==> k.kind.Value?)
  {
  }

  lemma InternalKeyRoundTrip(k: Table.TableKey)
    requires k.sequence <= MAX_SEQUENCE
    ensures KeyOf(InternalKey(k)) == Some(Table.Ranked(k))
  {
    hide EncodeFixed64, DecodeFixed64;
    TagParts(k);
    var tag := EncodeFixed64(Table.PackedTag(k));
    assert InternalKey(k)[|k.user|..] == tag + [];
    assert InternalKey(k)[..|k.user|] == k.user;
    Fixed64RoundTrip(Table.PackedTag(k), []);
  }

  // ---------- logs ----------

  /** A write group as it is logged. */
  datatype Batch = Batch(sequence: nat, records: seq<WriteBatch.Record>)

  predicate BatchOk(b: Batch) {
    && b.sequence < 0x1_0000_0000_0000_0000 && |b.records| <= WriteBatch.MAX_COUNT
    && forall i :: 0 <= i < |b.records| ==> WriteBatch.RecordOk(b.records[i])
  }

  predicate AllOk(batches: seq<Batch>) {
    forall i :: 0 <= i < |batches| ==> BatchOk(batches[i])
  }

  function EntryOf(a: WriteBatch.Added): Entry {
    Entry(IKey(Bytewise.Rank(a.key), a.sequence, a.kind), Text(a.value))
  }

  function EntriesOf(added: seq<WriteBatch.Added>): (r: seq<Entry>)
    ensures |r| == |added|
  {
    seq(|added|, i requires 0 <= i < |added| => EntryOf(added[i]))
  }

  /** What the batch puts into the memtable. */
  function BatchEntries(b: Batch): seq<Entry> {
    EntriesOf(WriteBatch.NumberedFrom(b.sequence, b.records))
  }

  /** The update of the store that a record of a batch is. */
  function UpdateOf(r: WriteBatch.Record): Update {
    match r
    case Put(key, value) => Update(Bytewise.Rank(key), Value, Text(value))
    case Delete(key) => Update(Bytewise.Rank(key), Deletion, Text([]))
  }

  function UpdatesOf(rs: seq<WriteBatch.Record>): (r: seq<Update>)
    ensures |r| == |rs|
  {
    seq(|rs|, i requires 0 <= i < |rs| => UpdateOf(rs[i]))
  }

  /** The batch numbered by the store is the batch that is logged. */
  lemma BatchIsNumbered(b: Batch)
    ensures BatchEntries(b) == Numbered(UpdatesOf(b.records), b.sequence)
  {
  }

  /** The records of a log that holds the batches. */
  function LogRecords(batches: seq<Batch>): (r: seq<Bytes>)
    requires AllOk(batches)
    ensures |r| == |batches|
  {
    seq(|batches|, i requires 0 <= i < |batches| => WriteBatch.BatchBytes(batches[i].sequence, batches[i].records))
  }

  function LogBytes(crc: Log.Crc, batches: seq<Batch>): Bytes
    requires AllOk(batches)
  {
    Log.FileOf(crc, LogRecords(batches))
  }

  function LogOf(batches: seq<Batch>): (r: LogFile)
    ensures |r| == |batches|
  {
    seq(|batches|, i requires 0 <= i < |batches| => BatchEntries(batches[i]))
  }

  /** What `RecoverLogFile` makes of the records it reads: too short a record is left out, and of a
      malformed one the updates before the fault are taken. */
  function ReplayRecords(records: seq<Bytes>): LogFile
    decreases |records|
  {
    if records == [] then []
    else if |records[0]| < WriteBatch.HEADER then ReplayRecords(records[1..])
    else
      [BatchEntries(Batch(WriteBatch.SequenceOf(records[0]), WriteBatch.Iterated(records[0]).0))] + ReplayRecords(records[1..])
  }

  function ReadLog(crc: Log.Crc, file: Bytes): LogFile {
    ReplayRecords(Log.ReadAll(crc, file, 0).0)
  }

  lemma {:induction false} ReplayedBatches(batches: seq<Batch>)
    requires AllOk(batches)
    ensures ReplayRecords(LogRecords(batches)) == LogOf(batches)
    decreases |batches|
  {
    hide BatchEntries, WriteBatch.BatchBytes, WriteBatch.Iterated, WriteBatch.SequenceOf, WriteBatch.RecordOk;
    if batches != [] {
      var b := batches[0];
      WriteBatch.RoundTrip(b.sequence, b.records);
      assert Batch(b.sequence, b.records) == b;
      assert LogRecords(batches)[1..] == LogRecords(batches[1..]);
      ReplayedBatches(batches[1..]);
    }
  }

  /** How many batches of a log cut after `n` bytes are complete. */
  function Surviving(crc: Log.Crc, batches: seq<Batch>, n: nat): (k: nat)
    requires AllOk(batches)
    ensures k <= |batches|
  {
    Log.Complete(crc, LogRecords(batches), n)
  }

  /** A log cut off anywhere replays as its complete batches: none in part, and none skipped. */
  lemma CutLogReadsBack(crc: Log.Crc, batches: seq<Batch>, n: nat)
    requires AllOk(batches) && n <= |LogBytes(crc, batches)|
    ensures ReadLog(crc, LogBytes(crc, batches)[..n]) == LogOf(batches)[..Surviving(crc, batches, n)]
  {
    hide BatchOk, BatchEntries, Log.FileOf, Log.Complete, Log.ReadAll, WriteBatch.BatchBytes;
    var k := Surviving(crc, batches, n);
    Log.ReadTruncated(crc, LogRecords(batches), n);
    assert LogRecords(batches)[..k] == LogRecords(batches[..k]);
    ReplayedBatches(batches[..k]);
    assert LogOf(batches[..k]) == LogOf(batches)[..k];
  }

  /** What a crash that leaves `n` bytes of a log keeps of it, and what it loses. */
  ghost function KeptOf(crc: Log.Crc, batches: seq<Batch>, n: nat): set<Entry>
    requires AllOk(batches)
  {
    LogEntries(LogOf(batches)[..Surviving(crc, batches, n)])
  }

  ghost function LostOf(crc: Log.Crc, batches: seq<Batch>, n: nat): set<Entry>
    requires AllOk(batches)
  {
    LogEntries(LogOf(batches)[Surviving(crc, batches, n)..])
  }

  /** The more bytes are left, the more is kept. */
  lemma KeepsMore(crc: Log.Crc, batches: seq<Batch>, a: nat, b: nat)
    requires AllOk(batches) && a <= b
    ensures KeptOf(crc, batches, a) <= KeptOf(crc, batches, b)
  {
    hide Log.FileOf, Log.Complete, BatchOk, BatchEntries;
    var k := Surviving(crc, batches, a);
    Log.CompleteIs(crc, LogRecords(batches), a, k);
    Log.CompleteIs(crc, LogRecords(batches), b, k);
    var m := Surviving(crc, batches, b);
    assert LogOf(batches)[..m][..k] == LogOf(batches)[..k];
  }

  // ---------- a log that has lost its end ----------

  ghost function CutDisk(disk: Disk, n: nat, k: nat): Disk
    requires n in disk.logs && k <= |disk.logs[n]|
  {
    disk.(logs := disk.logs[n := disk.logs[n][..k]])
  }

  lemma CutLogEntries(log: LogFile, k: nat)
    requires OrderedLog(log) && k <= |log|
    ensures OrderedLog(log[..k]) && LogEntries(log) == LogEntries(log[..k]) + LogEntries(log[k..])
    ensures Older(LogEntries(log[..k]), LogEntries(log[k..]))
  {
    assert log == log[..k] + log[k..];
    forall x, y | x in LogEntries(log[..k]) && y in LogEntries(log[k..])
      ensures x.key.sequence < y.key.sequence
    {
      var i :| 0 <= i < k && x in log[..k][i];
      var j :| 0 <= j < |log| - k && y in log[k..][j];
      assert Older(SeqSet(log[i]), SeqSet(log[k + j]));
    }
  }

  /** Without the end of its last log the disk is still good for recovery. */
  lemma CutIsRecoverable(disk: Disk, v: Version, c: Counters, bound: nat, n: nat, k: nat)
    requires Recoverable(disk, v, c, bound) && n in disk.logs && c.logNumber <= n && k <= |disk.logs[n]|
    ensures Recoverable(CutDisk(disk, n, k), v, c, bound)
  {
    hide Valid, Describes, LastRecorded, NumbersBelow, UpTo, Above, Increasing, LogEntries, Older, Unflushed, OrderedLog;
    var logs, cut := disk.logs, CutDisk(disk, n, k).logs;
    CutLogEntries(logs[n], k);
    CutUnflushed(logs, c.logNumber, n, k);
    SubsetBounds(Unflushed(cut, c.logNumber), Unflushed(logs, c.logNumber), bound, MAX_SEQUENCE);
    forall i, j | i in cut && j in cut && c.logNumber <= i < j
      ensures Older(LogEntries(cut[i]), LogEntries(cut[j]))
    {
      assert Older(LogEntries(logs[i]), LogEntries(logs[j]));
      assert LogEntries(cut[n]) <= LogEntries(logs[n]);
      OlderParts(LogEntries(logs[i]), LogEntries(logs[j]), LogEntries(cut[i]), LogEntries(cut[j]));
    }
  }

  lemma OlderParts(S: set<Entry>, T: set<Entry>, s: set<Entry>, t: set<Entry>)
    requires Older(S, T) && s <= S && t <= T
    ensures Older(s, t)
  {
  }

  lemma SubsetBounds(S: set<Entry>, T: set<Entry>, low: nat, high: nat)
    requires S <= T && Above(T, low) && UpTo(T, high)
    ensures Above(S, low) && UpTo(S, high)
  {
  }

  lemma CutUnflushed(logs: map<nat, LogFile>, min: nat, n: nat, k: nat)
    requires n in logs && min <= n && k <= |logs[n]|
    ensures Unflushed(logs, min) == Unflushed(logs[n := logs[n][..k]], min) + LogEntries(logs[n][k..])
  {
    var cut := logs[n := logs[n][..k]];
    assert forall r :: r in logs[n] <==> r in logs[n][..k] || r in logs[n][k..] by {
      assert logs[n] == logs[n][..k] + logs[n][k..];
    }
    forall e | e in Unflushed(logs, min)
      ensures e in Unflushed(cut, min) + LogEntries(logs[n][k..])
    {
      var m, r :| m in logs && min <= m && r in logs[m] && e in r;
      if m == n && r !in logs[n][..k] {
        assert r in logs[n][k..];
      } else {
        assert r in cut[m];
      }
    }
    forall e | e in Unflushed(cut, min) + LogEntries(logs[n][k..])
      ensures e in Unflushed(logs, min)
    {
      if e in Unflushed(cut, min) {
        var m, r :| m in cut && min <= m && r in cut[m] && e in r;
        assert r in logs[m];
      } else {
        var r :| r in logs[n][k..] && e in r;
        assert r in logs[n];
      }
    }
  }

  /** What is lost with the end of the current log is the newest of what was written. */
  lemma LostIsNewest(disk: Disk, v: Version, c: Counters, bound: nat, n: nat, k: nat)
    requires Recoverable(disk, v, c, bound) && n in disk.logs && c.logNumber <= n && k <= |disk.logs[n]|
    requires forall m :: m in disk.logs ==> m <= n
    ensures Survives(disk, v, c) == Survives(CutDisk(disk, n, k), v, c) + LogEntries(disk.logs[n][k..])
    ensures Older(Survives(CutDisk(disk, n, k), v, c), LogEntries(disk.logs[n][k..]))
  {
    hide Valid, Describes, LastRecorded, NumbersBelow, Increasing;
    var logs, cut, lost := disk.logs, CutDisk(disk, n, k).logs, LogEntries(disk.logs[n][k..]);
    CutLogEntries(logs[n], k);
    CutUnflushed(logs, c.logNumber, n, k);
    forall x, y | x in Survives(CutDisk(disk, n, k), v, c) && y in lost
      ensures x.key.sequence < y.key.sequence
    {
      assert y in Unflushed(logs, c.logNumber);
      if x !in Contents(v) {
        var m, r :| m in logs && c.logNumber <= m && r in cut[m] && x in r;
        if m != n {
          assert Older(LogEntries(logs[m]), LogEntries(logs[n]));
          assert x in LogEntries(logs[m]);
        } else {
          assert x in LogEntries(logs[n][..k]);
        }
      }
    }
  }

  // ---------- the store as of an earlier write ----------

  /** Nothing up to `p` is lost, and nothing is known to be kept beyond it. */
  ghost predicate IsLastKept(lost: set<Entry>, m: nat, p: nat) {
    Above(lost, p) && forall low: nat :: low <= m && Above(lost, low) ==> low <= p
  }

  /** A sequence number up to which everything is kept and after which everything is lost. */
  lemma {:induction false} LastKept(S: set<Entry>, lost: set<Entry>, m: nat) returns (p: nat)
    requires UpTo(S, m) && Older(S, lost) && Above(lost, 0)
    ensures UpTo(S, p) && IsLastKept(lost, m, p)
    decreases m
  {
    if Above(lost, m) {
      p := m;
    } else {
      var y :| y in lost && y.key.sequence <= m;
      p := LastKept(S, lost, m - 1);
    }
  }

  lemma ReadsAsOf(S: set<Entry>, lost: set<Entry>, p: nat, u: UserKey, s: nat)
    requires Distinct(S + lost) && UpTo(S, p) && Above(lost, p)
    ensures Read(S, u, s) == Read(S + lost, u, if s <= p then s else p)
  {
    var q := if s <= p then s else p;
    DistinctSubset(S, S + lost);
    if NoneVisible(S, u, s) {
      assert NoneVisible(S + lost, u, q);
    } else {
      NewestExists(S, u, s);
      var e :| Newest(e, S, u, s);
      ReadOfNewest(S, u, s, e);
      assert Newest(e, S + lost, u, q);
      ReadOfNewest(S + lost, u, q, e);
    }
  }

  /** `left` is `all` as it was at sequence number `p`, and reads so. */
  ghost predicate IsAsOf(left: set<Entry>, all: set<Entry>, p: nat) {
    && left == (set e | e in all && e.key.sequence <= p)
    && forall u: UserKey, s: nat :: Read(left, u, s) == Read(all, u, if s <= p then s else p)
  }

  /** The log files read as the logs of the disk. */
  ghost predicate ReadAs(crc: Log.Crc, files: map<nat, Bytes>, logs: map<nat, LogFile>) {
    files.Keys == logs.Keys && forall n :: n in files ==> ReadLog(crc, files[n]) == logs[n]
  }

  /** The current log, of which `n` bytes are left, holds the batches; the others are whole. */
  ghost predicate CutAt(crc: Log.Crc, files: map<nat, Bytes>, logs: map<nat, LogFile>, current: nat, batches: seq<Batch>, n: nat) {
    && files.Keys == logs.Keys && current in logs
    && (forall m :: m in files && m != current ==> ReadLog(crc, files[m]) == logs[m])
    && AllOk(batches) && LogOf(batches) == logs[current]
    && n <= |LogBytes(crc, batches)| && files[current] == LogBytes(crc, batches)[..n]
  }

  lemma CutFilesRead(crc: Log.Crc, files: map<nat, Bytes>, disk: Disk, current: nat, batches: seq<Batch>, n: nat)
    requires CutAt(crc, files, disk.logs, current, batches, n)
    ensures AllOk(batches) && current in disk.logs && Surviving(crc, batches, n) <= |disk.logs[current]|
    ensures ReadAs(crc, files, CutDisk(disk, current, Surviving(crc, batches, n)).logs)
  {
    hide LogOf, LogBytes, ReadLog, Surviving, AllOk, BatchOk;
    CutLogReadsBack(crc, batches, n);
    assert |LogOf(batches)| == |batches|;
  }

  /** Of a recoverable disk whose current log has lost its last bytes, everything comes back up to
      some write `p`, and every reader finds what it found before that was written over. */
  lemma CrashAtAnyByte(crc: Log.Crc, files: map<nat, Bytes>, disk: Disk, v: Version, c: Counters, bound: nat,
                       current: nat, batches: seq<Batch>, n: nat) returns (p: nat)
    requires Recoverable(disk, v, c, bound) && Distinct(Survives(disk, v, c))
    requires CutAt(crc, files, disk.logs, current, batches, n)
    requires c.logNumber <= current && forall m :: m in disk.logs ==> m <= current
    ensures AllOk(batches) && current in disk.logs && Surviving(crc, batches, n) <= |disk.logs[current]|
    ensures var left := CutDisk(disk, current, Surviving(crc, batches, n));
            && ReadAs(crc, files, left.logs) && left.manifest == disk.manifest && Recoverable(left, v, c, bound)
            && IsAsOf(Survives(left, v, c), Survives(disk, v, c), p)
    ensures bound <= p && IsLastKept(LogEntries(disk.logs[current][Surviving(crc, batches, n)..]), MAX_SEQUENCE, p)
  {
    hide LogOf, LogBytes, ReadLog, AllOk, BatchOk, CutAt, ReadAs, Survives, Recoverable, Surviving, IsAsOf;
    CutFilesRead(crc, files, disk, current, batches, n);
    var k := Surviving(crc, batches, n);
    var left, lost := CutDisk(disk, current, k), LogEntries(disk.logs[current][k..]);
    CutIsRecoverable(disk, v, c, bound, current, k);
    LostIsNewest(disk, v, c, bound, current, k);
    SurvivalBounds(disk, v, c, bound, current, k);
    p := LastKept(Survives(left, v, c), lost, MAX_SEQUENCE);
    KeptIsAsOf(Survives(left, v, c), lost, p);
  }

  lemma KeptIsAsOf(S: set<Entry>, lost: set<Entry>, p: nat)
    requires Distinct(S + lost) && UpTo(S, p) && Above(lost, p)
    ensures IsAsOf(S, S + lost, p)
  {
    forall u: UserKey, s: nat
      ensures Read(S, u, s) == Read(S + lost, u, if s <= p then s else p)
    {
      ReadsAsOf(S, lost, p, u, s);
    }
  }

  lemma SurvivalBounds(disk: Disk, v: Version, c: Counters, bound: nat, n: nat, k: nat)
    requires Recoverable(disk, v, c, bound) && n in disk.logs && c.logNumber <= n && k <= |disk.logs[n]|
    ensures UpTo(Survives(CutDisk(disk, n, k), v, c), MAX_SEQUENCE) && Above(LogEntries(disk.logs[n][k..]), 0)
    ensures bound <= MAX_SEQUENCE && Above(LogEntries(disk.logs[n][k..]), bound)
  {
    hide Valid, Describes, LastRecorded, NumbersBelow, Increasing, OrderedLogs;
    CutUnflushed(disk.logs, c.logNumber, n, k);
  }

  // ---------- losing the end of the older log as well ----------

  /** The older log is closed without a sync at the switch of memtables, so that a crash may leave
      less of it than of the current one: `k1` and `k2` records. */
  ghost function CutBoth(disk: Disk, older: nat, k1: nat, current: nat, k2: nat): Disk
    requires older in disk.logs && current in disk.logs && older != current && k1 <= |disk.logs[older]| && k2 <= |disk.logs[current]|
  {
    CutDisk(CutDisk(disk, older, k1), current, k2)
  }

  /** The parts of two logs in use, in the order in which they were written. */
  ghost predicate TwoLogs(disk: Disk, c: Counters, older: nat, current: nat) {
    && older in disk.logs && current in disk.logs && c.logNumber <= older < current
    && forall m :: m in disk.logs && c.logNumber <= m ==> m == older || m == current
  }

  lemma TwoLogsHold(logs: map<nat, LogFile>, min: nat, older: nat, current: nat)
    requires older in logs && current in logs && min <= older < current
    requires forall m :: m in logs && min <= m ==> m == older || m == current
    ensures Unflushed(logs, min) == LogEntries(logs[older]) + LogEntries(logs[current])
  {
    forall e | e in LogEntries(logs[older]) + LogEntries(logs[current])
      ensures e in Unflushed(logs, min)
    {
      var n := if e in LogEntries(logs[older]) then older else current;
      var r :| r in logs[n] && e in r;
    }
    forall e | e in Unflushed(logs, min)
      ensures e in LogEntries(logs[older]) + LogEntries(logs[current])
    {
      var n, r :| n in logs && min <= n && r in logs[n] && e in r;
    }
  }

  /** Data in the order in which they were written: tables, then the older log, then the current one,
      each log in what is left of it and what is lost. */
  ghost predicate InWriteOrder(v: set<Entry>, o1: set<Entry>, o2: set<Entry>, c1: set<Entry>, c2: set<Entry>) {
    && Older(v, o1 + o2) && Older(v, c1 + c2) && Older(o1, o2) && Older(o1 + o2, c1 + c2) && Older(c1, c2)
  }

  lemma PartsInOrder(disk: Disk, v: Version, c: Counters, bound: nat, older: nat, k1: nat, current: nat, k2: nat)
    requires Recoverable(disk, v, c, bound) && TwoLogs(disk, c, older, current)
    requires k1 <= |disk.logs[older]| && k2 <= |disk.logs[current]|
    ensures var o, n := disk.logs[older], disk.logs[current];
            && InWriteOrder(Contents(v), LogEntries(o[..k1]), LogEntries(o[k1..]), LogEntries(n[..k2]), LogEntries(n[k2..]))
            && Survives(disk, v, c) == Contents(v) + (LogEntries(o[..k1]) + LogEntries(o[k1..])) + (LogEntries(n[..k2]) + LogEntries(n[k2..]))
            && Survives(CutBoth(disk, older, k1, current, k2), v, c) == Contents(v) + LogEntries(o[..k1]) + LogEntries(n[..k2])
            && UpTo(Survives(disk, v, c), MAX_SEQUENCE) && Above(LogEntries(o[k1..]) + LogEntries(n[k2..]), 0)
  {
    hide Valid, Describes, LastRecorded, NumbersBelow, Increasing, LogEntries, Unflushed;
    var o, n := disk.logs[older], disk.logs[current];
    CutLogEntries(o, k1);
    CutLogEntries(n, k2);
    TwoLogsHold(disk.logs, c.logNumber, older, current);
    TwoLogsHold(CutBoth(disk, older, k1, current, k2).logs, c.logNumber, older, current);
    assert Older(LogEntries(o), LogEntries(n));
  }

  /** What is left is the store as of some write exactly if no older part is lost before a newer
      part that is left. */
  lemma PastIffNoGap(v: set<Entry>, o1: set<Entry>, o2: set<Entry>, c1: set<Entry>, c2: set<Entry>)
    requires InWriteOrder(v, o1, o2, c1, c2) && Distinct(v + (o1 + o2) + (c1 + c2))
    requires UpTo(v + (o1 + o2) + (c1 + c2), MAX_SEQUENCE) && Above(o2 + c2, 0)
    ensures (exists p :: IsAsOf(v + o1 + c1, v + (o1 + o2) + (c1 + c2), p)) <==> o2 == {} || c1 == {}
  {
    var left, lost := v + o1 + c1, o2 + c2;
    if o2 == {} || c1 == {} {
      var p := LastKept(left, lost, MAX_SEQUENCE);
      assert left + lost == v + (o1 + o2) + (c1 + c2);
      KeptIsAsOf(left, lost, p);
    } else {
      var y :| y in o2;
      var x :| x in c1;
      assert y !in left && x in left && y.key.sequence < x.key.sequence;
      forall p
        ensures !IsAsOf(left, v + (o1 + o2) + (c1 + c2), p)
      {
        if IsAsOf(left, v + (o1 + o2) + (c1 + c2), p) {
          KeptUpTo(left, v + (o1 + o2) + (c1 + c2), p, x, y);
        }
      }
    }
  }

  lemma KeptUpTo(left: set<Entry>, all: set<Entry>, p: nat, x: Entry, y: Entry)
    requires IsAsOf(left, all, p) && x in left && y in all && y.key.sequence <= x.key.sequence
    ensures y in left
  {
  }

  /** After losing the end of both logs the store can be recovered; and it is as it was at some write
      if and only if nothing is lost of the older log or nothing is left of the current one. */
  lemma BothLogsCut(disk: Disk, v: Version, c: Counters, bound: nat, older: nat, k1: nat, current: nat, k2: nat)
    requires Recoverable(disk, v, c, bound) && Distinct(Survives(disk, v, c)) && TwoLogs(disk, c, older, current)
    requires k1 <= |disk.logs[older]| && k2 <= |disk.logs[current]|
    ensures Recoverable(CutBoth(disk, older, k1, current, k2), v, c, bound)
    ensures (exists p :: IsAsOf(Survives(CutBoth(disk, older, k1, current, k2), v, c), Survives(disk, v, c), p)) <==>
              LogEntries(disk.logs[older][k1..]) == {} || LogEntries(disk.logs[current][..k2]) == {}
  {
    hide Recoverable, Survives, LogEntries, IsAsOf, InWriteOrder;
    CutIsRecoverable(disk, v, c, bound, older, k1);
    CutIsRecoverable(CutDisk(disk, older, k1), v, c, bound, current, k2);
    PartsInOrder(disk, v, c, bound, older, k1, current, k2);
    var o, n := disk.logs[older], disk.logs[current];
    PastIffNoGap(Contents(v), LogEntries(o[..k1]), LogEntries(o[k1..]), LogEntries(n[..k2]), LogEntries(n[k2..]));
  }

  // ---------- the running store ----------

  /** The log that is being written is the last one. */
  lemma CurrentLogIsLast(db: DB)
    requires db.Valid()
    ensures db.logFileNumber in db.logs && db.saved.logNumber <= db.logFileNumber
    ensures forall m :: m in db.logs ==> m <= db.logFileNumber
    ensures Distinct(db.All())
  {
    LayeredDistinct(db.mem, db.imm, db.versions.current, db.flushed, db.switched, db.versions.counters.lastSequence);
  }

  /** `CrashLosesNothing`, over bytes: whatever number of bytes the crash has left of the current log,
      the disk is recoverable, to the store as it was at some write; and to the store itself if all
      bytes are there. */
  lemma CrashLosesOnlyTheEnd(db: DB, crc: Log.Crc, files: map<nat, Bytes>, batches: seq<Batch>, n: nat) returns (p: nat, left: Disk)
    requires db.Valid() && CutAt(crc, files, db.logs, db.logFileNumber, batches, n)
    ensures AllOk(batches) && db.logFileNumber in db.logs && Surviving(crc, batches, n) <= |db.logs[db.logFileNumber]|
    ensures left == CutDisk(db.OnDisk(), db.logFileNumber, Surviving(crc, batches, n)) && ReadAs(crc, files, left.logs)
    ensures Recoverable(left, db.versions.current, db.saved, db.flushed)
    ensures IsAsOf(Survives(left, db.versions.current, db.saved), db.All(), p)
    ensures db.flushed <= p && IsLastKept(LogEntries(db.logs[db.logFileNumber][Surviving(crc, batches, n)..]), MAX_SEQUENCE, p)
    ensures n == |LogBytes(crc, batches)| ==> left == db.OnDisk()
  {
    hide DB.Valid, ReadAs, Recoverable, IsAsOf, IsLastKept, Survives, LogOf, ReadLog, LogBytes, BatchOk, Surviving, CutAt;
    CurrentLogIsLast(db);
    db.CrashLosesNothing();
    var disk := db.OnDisk();
    p := CrashAtAnyByte(crc, files, disk, db.versions.current, db.saved, db.flushed, db.logFileNumber, batches, n);
    left := CutDisk(disk, db.logFileNumber, Surviving(crc, batches, n));
    if n == |LogBytes(crc, batches)| {
      WholeLogSurvives(crc, files, db.logs, db.logFileNumber, batches, n);
    }
  }

  lemma WholeLogSurvives(crc: Log.Crc, files: map<nat, Bytes>, logs: map<nat, LogFile>, current: nat, batches: seq<Batch>, n: nat)
    requires CutAt(crc, files, logs, current, batches, n) && n == |LogBytes(crc, batches)|
    ensures Surviving(crc, batches, n) == |logs[current]|
    ensures logs[current := logs[current][..|logs[current]|]] == logs
  {
    hide Log.FileOf, ReadLog, BatchOk;
    assert |LogOf(batches)| == |batches|;
    assert logs[current][..|logs[current]|] == logs[current];
  }

  /** Both logs have lost their ends: `n1` bytes are left of the older one and `n` of the current one. */
  ghost predicate BothCutAt(crc: Log.Crc, files: map<nat, Bytes>, logs: map<nat, LogFile>, older: nat, before: seq<Batch>, n1: nat,
                            current: nat, batches: seq<Batch>, n: nat) {
    && files.Keys == logs.Keys && older in logs && current in logs && older != current
    && (forall m :: m in files && m != current && m != older ==> ReadLog(crc, files[m]) == logs[m])
    && AllOk(before) && LogOf(before) == logs[older] && n1 <= |LogBytes(crc, before)| && files[older] == LogBytes(crc, before)[..n1]
    && AllOk(batches) && LogOf(batches) == logs[current] && n <= |LogBytes(crc, batches)| && files[current] == LogBytes(crc, batches)[..n]
  }

  lemma BothFilesRead(crc: Log.Crc, files: map<nat, Bytes>, disk: Disk, older: nat, before: seq<Batch>, n1: nat, current: nat,
          batches: seq<Batch>, n: nat)
    requires BothCutAt(crc, files, disk.logs, older, before, n1, current, batches, n)
    ensures AllOk(before) && Surviving(crc, before, n1) <= |disk.logs[older]|
    ensures AllOk(batches) && Surviving(crc, batches, n) <= |disk.logs[current]|
    ensures ReadAs(crc, files, CutBoth(disk, older, Surviving(crc, before, n1), current, Surviving(crc, batches, n)).logs)
  {
    hide LogOf, LogBytes, ReadLog, Surviving, AllOk, BatchOk;
    CutLogReadsBack(crc, before, n1);
    CutLogReadsBack(crc, batches, n);
    assert |LogOf(before)| == |before| && |LogOf(batches)| == |batches|;
  }

  /** While there is an immutable memtable, a crash may take the ends of two logs. The disk stays
      recoverable, and the store comes back as it was at some write if and only if nothing is lost of
      the older log or nothing is left of the current one. */
  lemma CrashLosesBothEnds(db: DB, crc: Log.Crc, files: map<nat, Bytes>, before: seq<Batch>, n1: nat, batches: seq<Batch>,
          n: nat) returns (left: Disk)
    requires db.Valid() && db.imm.Some? && BothCutAt(crc, files, db.logs, db.immLog, before, n1, db.logFileNumber, batches, n)
    ensures AllOk(before) && AllOk(batches) && ReadAs(crc, files, left.logs) && left.manifest == db.versions.manifest
    ensures Recoverable(left, db.versions.current, db.saved, db.flushed)
    ensures (exists p :: IsAsOf(Survives(left, db.versions.current, db.saved), db.All(), p)) <==>
              LostOf(crc, before, n1) == {} || KeptOf(crc, batches, n) == {}
    ensures Survives(left, db.versions.current, db.saved) == Contents(db.versions.current) + KeptOf(crc, before, n1) + KeptOf(crc, batches, n)
    ensures db.All() == Contents(db.versions.current) + (KeptOf(crc, before, n1) + LostOf(crc, before, n1)) + (KeptOf(crc, batches, n) + LostOf(crc, batches, n))
  {
    hide DB.Valid, DB.All, ReadAs, Recoverable, IsAsOf, Survives, ReadLog, LogBytes, BatchOk, Surviving, LogEntries, Contents, InWriteOrder, LogOf;
    CurrentLogIsLast(db);
    TwoLogsInUse(db);
    db.CrashLosesNothing();
    var disk := db.OnDisk();
    BothFilesRead(crc, files, disk, db.immLog, before, n1, db.logFileNumber, batches, n);
    var k1, k2 := Surviving(crc, before, n1), Surviving(crc, batches, n);
    left := CutBoth(disk, db.immLog, k1, db.logFileNumber, k2);
    BothLogsCut(disk, db.versions.current, db.saved, db.flushed, db.immLog, k1, db.logFileNumber, k2);
    PartsInOrder(disk, db.versions.current, db.saved, db.flushed, db.immLog, k1, db.logFileNumber, k2);
  }

  /** With an immutable memtable the logs in use are its log and the current one. */
  lemma TwoLogsInUse(db: DB)
    requires db.Valid() && db.imm.Some?
    ensures TwoLogs(db.OnDisk(), db.saved, db.immLog, db.logFileNumber)
  {
  }

  /** The same without an immutable memtable. */
  lemma CrashLosesOneEnd(db: DB, crc: Log.Crc, files: map<nat, Bytes>, batches: seq<Batch>, n: nat) returns (p: nat, left: Disk)
    requires db.Valid() && db.imm.None? && CutAt(crc, files, db.logs, db.logFileNumber, batches, n)
    ensures AllOk(batches) && ReadAs(crc, files, left.logs) && left.manifest == db.versions.manifest
    ensures Recoverable(left, db.versions.current, db.saved, db.flushed)
    ensures IsAsOf(Survives(left, db.versions.current, db.saved), db.All(), p) && IsLastKept(LostOf(crc, batches, n), MAX_SEQUENCE, p)
    ensures Survives(left, db.versions.current, db.saved) == Contents(db.versions.current) + KeptOf(crc, batches, n)
    ensures db.All() == Contents(db.versions.current) + (KeptOf(crc, batches, n) + LostOf(crc, batches, n))
  {
    hide DB.Valid, DB.All, ReadAs, Recoverable, IsAsOf, IsLastKept, ReadLog, LogBytes, BatchOk, Surviving, LogEntries, Contents, LogOf, Unflushed;
    p, left := CrashLosesOnlyTheEnd(db, crc, files, batches, n);
    var k, log := Surviving(crc, batches, n), db.logs[db.logFileNumber];
    OneLogInUse(db);
    db.CrashLosesNothing();
    OneLogHolds(db.logs, db.saved.logNumber, db.logFileNumber);
    OneLogHolds(left.logs, db.saved.logNumber, db.logFileNumber);
    CutLogEntries(log, k);
  }

  lemma OneLogInUse(db: DB)
    requires db.Valid() && db.imm.None?
    ensures db.logFileNumber in db.logs && db.saved.logNumber <= db.logFileNumber && OrderedLog(db.logs[db.logFileNumber])
    ensures forall m :: m in db.logs && db.saved.logNumber <= m ==> m == db.logFileNumber
  {
  }

  lemma OneLogHolds(logs: map<nat, LogFile>, min: nat, current: nat)
    requires current in logs && min <= current && forall m :: m in logs && min <= m ==> m == current
    ensures Unflushed(logs, min) == LogEntries(logs[current])
  {
    forall e | e in LogEntries(logs[current])
      ensures e in Unflushed(logs, min)
    {
      var r :| r in logs[current] && e in r;
    }
    forall e | e in Unflushed(logs, min)
      ensures e in LogEntries(logs[current])
    {
      var n, r :| n in logs && min <= n && r in logs[n] && e in r;
    }
  }

  /** The logs once the batch is there, or as they were. */
  ghost function LogsWith(logs: map<nat, LogFile>, current: nat, record: seq<Entry>, whole: bool): map<nat, LogFile>
    requires current in logs
  {
    if whole then logs[current := logs[current] + [record]] else logs
  }

  /** Part of a batch has been appended to the current log. */
  ghost predicate Appending(crc: Log.Crc, files: map<nat, Bytes>, logs: map<nat, LogFile>, current: nat, batches: seq<Batch>, b: Batch, n: nat) {
    && current in logs && AllOk(batches) && BatchOk(b) && LogOf(batches) == logs[current]
    && AllOk(batches + [b]) && |LogBytes(crc, batches)| <= n
    && CutAt(crc, files, logs[current := LogOf(batches + [b])], current, batches + [b], n)
  }

  lemma AppendingReads(crc: Log.Crc, files: map<nat, Bytes>, logs: map<nat, LogFile>, current: nat, batches: seq<Batch>, b: Batch, n: nat)
    requires Appending(crc, files, logs, current, batches, b, n)
    ensures ReadAs(crc, files, LogsWith(logs, current, BatchEntries(b), n == |LogBytes(crc, batches + [b])|))
  {
    hide ReadLog, BatchOk, Surviving, BatchEntries, LogBytes, LogOf, AllOk;
    var longer := logs[current := LogOf(batches + [b])];
    CutFilesRead(crc, files, Disk([], longer), current, batches + [b], n);
    LastBatch(crc, batches, b, n);
    var k := Surviving(crc, batches + [b], n);
    assert longer[current := longer[current][..k]] == LogsWith(logs, current, BatchEntries(b), n == |LogBytes(crc, batches + [b])|);
  }

  /** A crash while a batch is being logged: whatever part of its bytes is there, the batch comes back
      whole or not at all. */
  lemma WriteIsAtomic(db: DB, crc: Log.Crc, files: map<nat, Bytes>, batches: seq<Batch>, b: Batch, n: nat) returns (left: Disk)
    requires db.Valid() && b.sequence == db.versions.counters.lastSequence + 1
    requires db.versions.counters.lastSequence + |b.records| <= MAX_SEQUENCE
    requires Appending(crc, files, db.logs, db.logFileNumber, batches, b, n)
    ensures ReadAs(crc, files, left.logs) && left.manifest == db.versions.manifest
    ensures Recoverable(left, db.versions.current, db.saved, db.flushed)
    ensures Survives(left, db.versions.current, db.saved) == db.All() + if IsWhole(crc, batches, b, n) then SeqSet(BatchEntries(b)) else {}
  {
    hide DB.Valid, ReadAs, Recoverable, Survives, BatchEntries, Numbered, SeqSet, CutAt, LogBytes, AllOk, LogOf, BatchOk;
    AppendingReads(crc, files, db.logs, db.logFileNumber, batches, b, n);
    left := Disk(db.versions.manifest, LogsWith(db.logs, db.logFileNumber, BatchEntries(b), IsWhole(crc, batches, b, n)));
    if IsWhole(crc, batches, b, n) {
      BatchIsNumbered(b);
      db.CrashAfterLogging(UpdatesOf(b.records));
    } else {
      db.CrashLosesNothing();
    }
  }

  /** Every byte of the log is there, with the batch at its end. */
  ghost predicate IsWhole(crc: Log.Crc, batches: seq<Batch>, b: Batch, n: nat) {
    AllOk(batches + [b]) && n == |LogBytes(crc, batches + [b])|
  }

  lemma LastBatch(crc: Log.Crc, batches: seq<Batch>, b: Batch, n: nat)
    requires AllOk(batches + [b]) && |LogBytes(crc, batches + [b])| >= n && AllOk(batches) && |LogBytes(crc, batches)| <= n
    ensures var k := Surviving(crc, batches + [b], n);
            LogOf(batches + [b])[..k] == if n == |LogBytes(crc, batches + [b])| then LogOf(batches) + [BatchEntries(b)] else LogOf(batches)
  {
    hide BatchOk, BatchEntries, Log.FileOf, Log.Complete, WriteBatch.BatchBytes;
    var all, records := batches + [b], LogRecords(batches + [b]);
    assert records[..|batches|] == LogRecords(batches) && records[..|records|] == records;
    Log.CompleteIs(crc, records, n, |batches|);
    Log.CompleteIs(crc, records, n, |all|);
    assert LogOf(all) == LogOf(batches) + [BatchEntries(b)];
  }

  // ---------- the manifest ----------

  ghost predicate DescribesFile(m: EditCoding.FileMetaData, f: File) {
    m.number == f.number && m.fileSize == f.size && KeyOf(m.smallest) == Some(f.smallest) && KeyOf(m.largest) == Some(f.largest)
  }

  /** The edit in a manifest record is the edit of the version set, tables aside. */
  ghost predicate Encodes(e: EditCoding.VersionEdit, d: Edit) {
    && e.logNumber == d.logNumber && e.prevLogNumber == d.prevLogNumber
    && e.nextFileNumber == d.nextFile && e.lastSequence == d.lastSequence
    && e.deletedFiles == d.deleted && |e.newFiles| == |d.added|
    && forall i :: 0 <= i < |e.newFiles| ==> e.newFiles[i].0 == d.added[i].0 && DescribesFile(e.newFiles[i].1, d.added[i].1)
  }

  ghost predicate EncodesAll(edits: seq<EditCoding.VersionEdit>, manifest: seq<Edit>) {
    |edits| == |manifest| && forall i :: 0 <= i < |edits| ==> Encodes(edits[i], manifest[i])
  }

  /** Every record of a manifest has to be an edit. */
  function ParsedAll(records: seq<Bytes>): Option<seq<EditCoding.VersionEdit>>
    decreases |records|
  {
    if records == [] then Some([])
    else
      match EditCoding.Parsed(records[0], 0, EditCoding.EMPTY)
      case None => None
      case Some(e) =>
        match ParsedAll(records[1..])
        case None => None
        case Some(rest) => Some([e] + rest)
  }

  function ReadManifest(crc: Log.Crc, file: Bytes): Option<seq<EditCoding.VersionEdit>> {
    ParsedAll(Log.ReadAll(crc, file, 0).0)
  }

  ghost predicate ManifestReads(crc: Log.Crc, file: Bytes, manifest: seq<Edit>) {
    ReadManifest(crc, file).Some? && EncodesAll(ReadManifest(crc, file).value, manifest)
  }

  lemma {:induction false} ParsedEdits(records: seq<Bytes>, edits: seq<EditCoding.VersionEdit>)
    requires |records| == |edits|
    requires forall i :: 0 <= i < |records| ==> EditCoding.Parsed(records[i], 0, EditCoding.EMPTY) == Some(edits[i])
    ensures ParsedAll(records) == Some(edits)
    decreases |records|
  {
    hide EditCoding.Parsed;
    if records != [] {
      ParsedEdits(records[1..], edits[1..]);
      assert [edits[0]] + edits[1..] == edits;
    }
  }

  /** The edits can be written, with the deleted files of each in some order. */
  ghost predicate Writable(edits: seq<EditCoding.VersionEdit>, lists: seq<seq<(nat, nat)>>) {
    |edits| == |lists|
    && forall i :: 0 <= i < |edits| ==> EditCoding.EditOk(edits[i]) && EditCoding.Lists(lists[i], edits[i].deletedFiles)
  }

  ghost function ManifestBytes(crc: Log.Crc, edits: seq<EditCoding.VersionEdit>, lists: seq<seq<(nat, nat)>>): Bytes
    requires |edits| == |lists|
  {
    Log.FileOf(crc, EditCoding.Records(edits, lists))
  }

  lemma CutManifestReadsBack(crc: Log.Crc, edits: seq<EditCoding.VersionEdit>, lists: seq<seq<(nat, nat)>>, n: nat)
    requires Writable(edits, lists) && n <= |ManifestBytes(crc, edits, lists)|
    ensures ReadManifest(crc, ManifestBytes(crc, edits, lists)[..n])
            == Some(edits[..Log.Complete(crc, EditCoding.Records(edits, lists), n)])
  {
    hide EditCoding.EditOk, EditCoding.Lists, EditCoding.Parsed, EditCoding.Records, Log.ReadAll, Log.FileOf, Log.Complete;
    EditCoding.ManifestReadsBack(crc, edits, lists, n);
    var records := Log.ReadAll(crc, ManifestBytes(crc, edits, lists)[..n], 0).0;
    ParsedEdits(records, edits[..|records|]);
  }

  /** A crash while `LogAndApply` is writing its edit: until all of it is there the manifest reads as
      before, and the store that was there before comes back. */
  lemma CrashInLogAndApply(db: DB, crc: Log.Crc, edits: seq<EditCoding.VersionEdit>, lists: seq<seq<(nat, nat)>>,
                           e: EditCoding.VersionEdit, list: seq<(nat, nat)>, n: nat)
    requires db.Valid() && Writable(edits + [e], lists + [list]) && EncodesAll(edits, db.versions.manifest)
    requires |edits| == |lists| && |ManifestBytes(crc, edits, lists)| <= n < |ManifestBytes(crc, edits + [e], lists + [list])|
    ensures ManifestReads(crc, ManifestBytes(crc, edits + [e], lists + [list])[..n], db.versions.manifest)
    ensures Recoverable(db.OnDisk(), db.versions.current, db.saved, db.flushed)
    ensures Survives(db.OnDisk(), db.versions.current, db.saved) == db.All()
  {
    hide DB.Valid, Recoverable, Survives, ReadManifest, Log.FileOf, Log.Complete, EditCoding.EditOk, EditCoding.Lists, Encodes,
         EditCoding.ItemsBytes, EditCoding.ItemsOf;
    db.CrashLosesNothing();
    CutManifestReadsBack(crc, edits + [e], lists + [list], n);
    var records := EditCoding.Records(edits + [e], lists + [list]);
    assert records[..|edits|] == EditCoding.Records(edits, lists) && records[..|records|] == records;
    Log.CompleteIs(crc, records, n, |edits|);
    Log.CompleteIs(crc, records, n, |edits| + 1);
    assert (edits + [e])[..|edits|] == edits;
  }
}
