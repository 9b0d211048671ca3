/** The store with its log on bytes: a write batch is numbered, logged, and then applied as it would
    be replayed (db/db_impl.cc). */
module LoggedStore {
  import opened History
  import opened Coding
  import opened CompactionSafety
  import opened Layers
  import opened Recovery
  import opened Store
  import opened DiskBytes
  import opened Picking
  import opened TableFiles
  import opened Version
  import Bytewise
  import Log
  import WriteBatch

  /** The log files hold the logs, the current one in the given batches. */
  ghost predicate HoldsLogs(crc: Log.Crc, files: map<nat, Bytes>, logs: map<nat, LogFile>, current: nat, batches: seq<Batch>) {
    AllOk(batches) && CutAt(crc, files, logs, current, batches, |LogBytes(crc, batches)|)
  }

  /** The first `count` batches were on disk when the log was last synced, with everything written
      before; the others are later. */
  ghost predicate SyncedUpTo(crc: Log.Crc, batches: seq<Batch>, synced: nat, count: nat, sequence: nat) {
    && AllOk(batches) && count <= |batches| && |LogBytes(crc, batches[..count])| <= synced <= |LogBytes(crc, batches)|
    && forall j :: count <= j < |batches| ==> batches[j].sequence > sequence
  }

  ghost predicate HoldsOlder(crc: Log.Crc, files: map<nat, Bytes>, logs: map<nat, LogFile>, older: Older, current: nat, held: Held) {
    && older.log in files && older.log in logs && older.log != current && SyncedUpTo(crc, held.batches, older.synced, held.count, held.sequence)
    && LogOf(held.batches) == logs[older.log] && files[older.log] == LogBytes(crc, held.batches)
  }

  /** What the memtable is given of a replayed update. */
  function UpdateFrom(a: WriteBatch.Added): Update {
    Update(Bytewise.Rank(a.key), a.kind, Text(a.value))
  }

  /** A log that is not written any more, how many of its bytes were synced, and what it holds. */
  datatype Older = Older(log: nat, synced: nat)
  datatype Held = Held(batches: seq<Batch>, count: nat, sequence: nat)

  class LoggedStore {
    const db: DB
    const crc: Log.Crc
    var log: Log.Writer
    var files: map<nat, Bytes>
    var synced: nat              // bytes of the current log that were synced
    ghost var batches: seq<Batch>
    ghost var syncedCount: nat
    ghost var syncedSequence: nat
    var older: Older             // the log of the immutable memtable, if there is one
    ghost var olderHeld: Held

    ghost predicate Valid()
      reads this, db, db.versions, log
    {
      && db.Valid() && log.Valid() && log.crc == crc
      && HoldsLogs(crc, files, db.logs, db.logFileNumber, batches)
      && db.logFileNumber in files && files[db.logFileNumber] == log.dest
      && SyncedUpTo(crc, batches, synced, syncedCount, syncedSequence) && syncedSequence <= db.versions.counters.lastSequence
      && (db.imm.Some? ==>
            older.log == db.immLog && HoldsOlder(crc, files, db.logs, older, db.logFileNumber, olderHeld))
    }

    /** Over a store that has just been opened, under a new log. */
    constructor (db: DB, crc: Log.Crc, oldFiles: map<nat, Bytes>)
      requires db.Valid() && db.logFileNumber in db.logs && db.logs[db.logFileNumber] == []
      requires ReadAs(crc, oldFiles[db.logFileNumber := []], db.logs) && db.imm.None?
      ensures Valid() && this.db == db && this.crc == crc && fresh(log) && syncedSequence == 0 && batches == [] && synced == 0
    {
      this.db, this.crc := db, crc;
      log := new Log.Writer(crc, []);
      files := oldFiles[db.logFileNumber := []];
      synced, batches, syncedCount, syncedSequence := 0, [], 0, 0;
      older, olderHeld := Older(0, 0), Held([], 0, 0);
      new;
      EmptyLog(crc, files, db.logs, db.logFileNumber, syncedSequence);
    }

    /** `Write` for one group: numbered, logged, synced if asked to, and applied. */
    method Write(batch: WriteBatch.WriteBatch, sync: bool)
      requires Valid() && batch.Valid() && db.versions.counters.lastSequence + |batch.records| <= MAX_SEQUENCE
      modifies this, db, db.versions, log, batch
      ensures Valid() && batch.Valid() && batch.records == old(batch.records) && batch.sequence == old(db.versions.counters.lastSequence) + 1
      ensures batches == old(batches) + [Batch(batch.sequence, batch.records)] && db.logFileNumber == old(db.logFileNumber)
      ensures db.versions.counters.lastSequence == old(db.versions.counters.lastSequence) + |batch.records|
      ensures db.history == old(db.history) + SeqSet(BatchEntries(Batch(batch.sequence, batch.records)))
      ensures db.All() == old(db.All()) + SeqSet(BatchEntries(Batch(batch.sequence, batch.records)))
      ensures log == old(log) && (sync ==> syncedSequence == db.versions.counters.lastSequence)
      ensures !sync ==> syncedSequence == old(syncedSequence) && synced == old(synced)
      ensures sync ==> synced == |log.dest|
      ensures older == old(older) && olderHeld == old(olderHeld) && db.imm == old(db.imm)
      ensures db.intact == old(db.intact)
    {
      hide DB.Valid, DB.All, HoldsLogs, SyncedUpTo, LogBytes, BatchEntries, SeqSet, Numbered, UpdatesOf, AllOk, BatchOk, LogOf,
           Log.Writer.Valid, Log.Fragments, WriteBatch.BatchBytes, WriteBatch.WriteBatch.Valid;
      batch.SetSequence(db.versions.counters.lastSequence + 1);
      LogBatch(batch, sync);
      var updates := Applied(batch);
      db.Write(updates);
    }

    /** `AddRecord`, and `Sync` if asked for. */
    method LogBatch(batch: WriteBatch.WriteBatch, sync: bool)
      requires Valid() && batch.Valid() && batch.sequence == db.versions.counters.lastSequence + 1
      modifies this`files, this`synced, this`batches, this`syncedCount, this`syncedSequence, log
      ensures log.Valid() && db.logFileNumber in db.logs && files == old(files)[db.logFileNumber := log.dest]
      ensures batches == old(batches) + [Batch(batch.sequence, batch.records)]
      ensures HoldsLogs(crc, files, db.logs[db.logFileNumber := db.logs[db.logFileNumber] + [BatchEntries(Batch(batch.sequence, batch.records))]],
                        db.logFileNumber, batches)
      ensures SyncedUpTo(crc, batches, synced, syncedCount, syncedSequence)
      ensures syncedSequence == if sync then db.versions.counters.lastSequence + |batch.records| else old(syncedSequence)
      ensures synced == if sync then |log.dest| else old(synced)
    {
      hide DB.Valid, DB.All, HoldsLogs, SyncedUpTo, LogBytes, BatchEntries, SeqSet, Numbered, UpdatesOf, AllOk, BatchOk,
           Log.Writer.Valid, Log.Fragments, WriteBatch.BatchBytes, WriteBatch.WriteBatch.Valid;
      ghost var b, last := Batch(batch.sequence, batch.records), db.versions.counters.lastSequence;
      BatchIsOk(batch);
      log.AddRecord(batch.rep);
      BatchIsLogged(crc, files, db.logs, db.logFileNumber, batches, b, log.dest);
      files := files[db.logFileNumber := log.dest];
      if sync {
        synced := |log.dest|;
      }
      BatchesSynced(crc, batches, b, synced, old(synced), syncedCount, syncedSequence, last, sync);
      if sync {
        syncedCount, syncedSequence := |batches| + 1, last + |batch.records|;
      }
      batches := batches + [b];
    }

    lemma Parts()
      requires Valid()
      ensures db.Valid() && log.Valid() && log.crc == crc && HoldsLogs(crc, files, db.logs, db.logFileNumber, batches)
      ensures db.logFileNumber in db.logs && SyncedUpTo(crc, batches, synced, syncedCount, syncedSequence)
               && syncedSequence <= db.versions.counters.lastSequence
    {
    }

    lemma Switched()
      requires db.Valid() && log.Valid() && log.crc == crc && log.dest == [] && syncedSequence <= db.versions.counters.lastSequence
      requires batches == [] && synced == 0 && syncedCount == 0 && db.logFileNumber in files && files[db.logFileNumber] == []
      requires db.logFileNumber in db.logs && db.logs[db.logFileNumber] == [] && ReadAs(crc, files, db.logs)
      requires older.log == db.immLog && HoldsOlder(crc, files, db.logs, older, db.logFileNumber, olderHeld)
      ensures Valid()
    {
      hide DB.Valid, HoldsLogs, HoldsOlder, ReadAs, SyncedUpTo, Log.Writer.Valid;
      EmptyLog(crc, files, db.logs, db.logFileNumber, syncedSequence);
    }

    /** The switch to a new memtable: a new log file, and the old one stays as it is. */
    method SwitchMemtable()
      requires Valid() && db.imm.None?
      modifies this, db, db.versions
      ensures Valid() && fresh(log) && batches == [] && db.history == old(db.history) && db.All() == old(db.All())
      ensures db.imm.Some? && older == Older(old(db.logFileNumber), old(synced)) && olderHeld == Held(old(batches), old(syncedCount), syncedSequence)
      ensures syncedSequence == old(syncedSequence)
      ensures db.versions.counters.lastSequence == old(db.versions.counters.lastSequence)
      ensures db.intact == old(db.intact)
    {
      hide *;
      Parts();
      OldLogIsWhole(crc, files, db.logs, db.logFileNumber, batches);
      older, olderHeld := Older(db.logFileNumber, synced), Held(batches, syncedCount, syncedSequence);
      ghost var logs := db.logs;
      db.SwitchMemtable();
      NewLogReads(crc, files, logs, db.logFileNumber);
      OldLogIsHeld(crc, files, logs, older, db.logFileNumber, olderHeld);
      files := files[db.logFileNumber := []];
      log := new Log.Writer(crc, []);
      synced, batches, syncedCount := 0, [], 0;
      Switched();
    }

    /** `DeleteObsoleteFiles`, for the log files. */
    method DeleteObsoleteLogs()
      requires Valid()
      modifies this`files, db`logs
      ensures Valid() && files.Keys <= old(files.Keys)
    {
      hide DB.Valid, LogBytes, ReadLog, LogOf, SyncedUpTo;
      CurrentLogIsLast(db);
      CurrentLogIsKept(db);
      if db.imm.Some? { OlderLogIsKept(db); }
      db.DeleteObsoleteLogs();
      files := map n | n in files && n in db.logs :: files[n];
    }

    // ---------- what does not touch the log ----------

    method CompactMemTable(maxGrandParentOverlap: nat, tableSize: seq<Entry> -> nat, writable: bool)
      requires Valid() && db.imm.Some?
      modifies db, db.versions
      ensures Valid() && db.history == old(db.history)
      ensures db.versions.counters.lastSequence == old(db.versions.counters.lastSequence)
      ensures db.intact == old(db.intact)
    {
      hide DB.Valid, DB.All, HoldsLogs, HoldsOlder, SyncedUpTo, Log.Writer.Valid;
      var ok := db.CompactMemTable(maxGrandParentOverlap, tableSize, writable);
    }

    method BackgroundCompaction(level: nat, picked: nat, maxFileSize: nat, maxGrandParentOverlap: nat,
                                tableSize: seq<Entry> -> nat, maxOutputFileSize: nat, writable: bool)
      returns (ghost lost: Option<Loss>)
      requires Valid() && db.Oldest() < MAX_SEQUENCE
      requires |db.versions.current.levels| == NUM_LEVELS && level + 1 < NUM_LEVELS && picked < |db.versions.current.levels[level]|
      modifies db, db.versions
      ensures Valid() && db.history == old(db.history)
      ensures db.versions.counters.lastSequence == old(db.versions.counters.lastSequence)
      ensures db.intact == (old(db.intact) && lost.None?) && (lost.Some? ==> IsLoss(lost.value) && Contents(lost.value.v) <= db.history)
    {
      hide DB.Valid, DB.All, IsLoss, Contents, HoldsLogs, HoldsOlder, SyncedUpTo, Log.Writer.Valid;
      db.OnlyWritten();
      var ok;
      ok, lost := db.BackgroundCompaction(level, picked, maxFileSize, maxGrandParentOverlap, tableSize, maxOutputFileSize, writable);
    }

    method ManualCompaction(level: nat, begin: Bound, end: Bound, maxFileSize: nat, maxGrandParentOverlap: nat,
                            tableSize: seq<Entry> -> nat, maxOutputFileSize: nat, writable: bool)
      returns (ghost lost: Option<Loss>)
      requires Valid() && db.Oldest() < MAX_SEQUENCE && level + 1 < NUM_LEVELS
      modifies db, db.versions
      ensures Valid() && db.history == old(db.history)
      ensures db.versions.counters.lastSequence == old(db.versions.counters.lastSequence)
      ensures db.intact == (old(db.intact) && lost.None?) && (lost.Some? ==> IsLoss(lost.value) && Contents(lost.value.v) <= db.history)
    {
      hide DB.Valid, DB.All, IsLoss, Contents, HoldsLogs, HoldsOlder, SyncedUpTo, Log.Writer.Valid;
      db.OnlyWritten();
      var ok;
      ok, lost := db.ManualCompaction(level, begin, end, maxFileSize, maxGrandParentOverlap, tableSize, maxOutputFileSize, writable);
    }

    method GetSnapshot()
      requires Valid()
      modifies db`snapshots
      ensures Valid()
    {
      hide DB.Valid, DB.All, HoldsLogs, HoldsOlder, SyncedUpTo, Log.Writer.Valid;
      var s := db.GetSnapshot();
    }

    method ReleaseSnapshot(i: nat)
      requires Valid() && i < |db.snapshots|
      modifies db`snapshots
      ensures Valid()
    {
      hide DB.Valid, DB.All, HoldsLogs, HoldsOlder, SyncedUpTo, Log.Writer.Valid;
      db.ReleaseSnapshot(i);
    }

    // ---------- after a crash ----------

    /** A crash leaves of every log in use at least the bytes that were synced: `n1` bytes of the log of
        the immutable memtable, if there is one, and `n` bytes of the current log. */
    predicate MayLeave(n1: nat, n: nat)
      reads this, db, log
    {
      && synced <= n <= |log.dest|
      && (db.imm.Some? ==> older.log in files && older.synced <= n1 <= |files[older.log]|)
    }

    function CutFiles(n1: nat, n: nat): map<nat, Bytes>
      requires MayLeave(n1, n)
      reads this, db, log
    {
      var cut := files[db.logFileNumber := log.dest[..n]];
      if db.imm.Some? then cut[older.log := files[older.log][..n1]] else cut
    }

    /** What the crash keeps and loses of the older log, and what it keeps of the current one. */
    ghost function OlderKept(n1: nat): set<Entry>
      reads this, db
    {
      if db.imm.Some? && AllOk(olderHeld.batches) then KeptOf(crc, olderHeld.batches, n1) else {}
    }

    ghost function OlderLost(n1: nat): set<Entry>
      reads this, db
    {
      if db.imm.Some? && AllOk(olderHeld.batches) then LostOf(crc, olderHeld.batches, n1) else {}
    }

    ghost function CurrentKept(n: nat): set<Entry>
      reads this
    {
      if AllOk(batches) then KeptOf(crc, batches, n) else {}
    }

    /** On disk for sure: in a table, or in what was synced of a log. */
    ghost function Safe(): set<Entry>
      reads this, db, db.versions
    {
      Contents(db.versions.current) + OlderKept(older.synced) + CurrentKept(synced)
    }

    lemma LogsOnDisk(n1: nat, n: nat)
      requires Valid() && MayLeave(n1, n)
      ensures AllOk(batches) && SyncedUpTo(crc, batches, synced, syncedCount, syncedSequence)
      ensures if db.imm.Some? then AllOk(olderHeld.batches) && BothCutAt(crc, CutFiles(n1, n), db.logs, db.immLog, olderHeld.batches, n1, db.logFileNumber, batches, n)
              else CutAt(crc, CutFiles(n1, n), db.logs, db.logFileNumber, batches, n)
    {
      hide DB.Valid, LogBytes, ReadLog, LogOf, BatchOk, Log.Writer.Valid;
      var bytes := LogBytes(crc, batches);
      assert bytes[..|bytes|] == bytes;
    }

    /** After a crash the store can be recovered, with everything that was safe. It comes back as it was
        at some write if and only if nothing is lost of the older log or nothing is kept of the current
        one; and no later write than the last one synced is missing if nothing is lost of the older log. */
    lemma SyncedWritesSurvive(n1: nat, n: nat) returns (p: nat, left: Disk)
      requires Valid() && MayLeave(n1, n)
      ensures ReadAs(crc, CutFiles(n1, n), left.logs) && left.manifest == db.versions.manifest
      ensures Recoverable(left, db.versions.current, db.saved, db.flushed)
      ensures Survives(left, db.versions.current, db.saved) == Contents(db.versions.current) + OlderKept(n1) + CurrentKept(n)
      ensures Safe() <= Survives(left, db.versions.current, db.saved) <= db.All()
      ensures (exists q :: IsAsOf(Survives(left, db.versions.current, db.saved), db.All(), q)) <==> OlderLost(n1) == {} || CurrentKept(n) == {}
      ensures OlderLost(n1) == {} || CurrentKept(n) == {} ==> IsAsOf(Survives(left, db.versions.current, db.saved), db.All(), p) && db.flushed <= p
      ensures OlderLost(n1) == {} ==> syncedSequence <= p
    {
      hide DB.Valid, DB.All, LogBytes, ReadLog, LogOf, Recoverable, IsAsOf, Survives, Contents, KeptOf, LostOf, BothCutAt, CutAt,
           SyncedUpTo, BatchOk, ReadAs;
      LogsOnDisk(n1, n);
      SequenceIsBounded(db);
      CurrentLogIsLast(db);
      LostIsUnsynced(crc, batches, synced, syncedCount, syncedSequence, n);
      KeepsMore(crc, batches, synced, n);
      var q := 0;
      if db.imm.None? {
        q, left := CrashLosesOneEnd(db, crc, CutFiles(n1, n), batches, n);
      } else {
        left := CrashLosesBothEnds(db, crc, CutFiles(n1, n), olderHeld.batches, n1, batches, n);
        KeepsMore(crc, olderHeld.batches, older.synced, n1);
        if OlderLost(n1) == {} || CurrentKept(n) == {} {
          q :| IsAsOf(Survives(left, db.versions.current, db.saved), db.All(), q);
        }
      }
      p := q;
      if OlderLost(n1) == {} || CurrentKept(n) == {} {
        LoggedIsUnflushed(db);
        var S := Survives(left, db.versions.current, db.saved);
        p := AtLeast(S, db.All() - S, db.All(), q, if OlderLost(n1) == {} then Later(db.flushed, syncedSequence) else db.flushed);
      }
    }

    /** `InsertInto`: the updates are read back from the bytes of the batch. */
    method Applied(batch: WriteBatch.WriteBatch) returns (updates: seq<Update>)
      requires batch.Valid()
      ensures updates == UpdatesOf(batch.records)
      ensures Numbered(updates, batch.sequence) == BatchEntries(Batch(batch.sequence, batch.records))
    {
      hide WriteBatch.BatchBytes, WriteBatch.Iterated, WriteBatch.SequenceOf, WriteBatch.RecordOk;
      WriteBatch.RoundTrip(batch.sequence, batch.records);
      var added, ok := WriteBatch.InsertInto(batch.rep);
      updates := seq(|added|, i requires 0 <= i < |added| => UpdateFrom(added[i]));
      BatchIsNumbered(Batch(batch.sequence, batch.records));
    }
  }

  lemma BatchIsOk(batch: WriteBatch.WriteBatch)
    requires batch.Valid()
    ensures BatchOk(Batch(batch.sequence, batch.records))
    ensures batch.rep == WriteBatch.BatchBytes(batch.sequence, batch.records)
  {
  }

  /** The store as of some write is also the store as of a later sequence number before which nothing is lost. */
  lemma AtLeast(S: set<Entry>, lost: set<Entry>, all: set<Entry>, q: nat, m: nat) returns (p: nat)
    requires IsAsOf(S, all, q) && all == S + lost && Above(lost, m) && Distinct(all)
    ensures IsAsOf(S, all, p) && m <= p
  {
    p := q;
    if q < m {
      p := m;
      assert forall e :: e in S ==> e.key.sequence <= q;
      KeptIsAsOf(S, lost, m);
    }
  }

  lemma EmptyLog(crc: Log.Crc, files: map<nat, Bytes>, logs: map<nat, LogFile>, current: nat, sequence: nat)
    requires ReadAs(crc, files, logs) && current in logs && files[current] == [] && logs[current] == []
    ensures HoldsLogs(crc, files, logs, current, []) && SyncedUpTo(crc, [], 0, 0, sequence)
  {
  }

  /** A log that is not written any more reads as what it holds. */
  lemma OldLogIsWhole(crc: Log.Crc, files: map<nat, Bytes>, logs: map<nat, LogFile>, current: nat, batches: seq<Batch>)
    requires HoldsLogs(crc, files, logs, current, batches)
    ensures ReadAs(crc, files, logs)
  {
    hide LogBytes, ReadLog, BatchOk;
    var n := |LogBytes(crc, batches)|;
    CutFilesRead(crc, files, Disk([], logs), current, batches, n);
    WholeLogSurvives(crc, files, logs, current, batches, n);
  }

  lemma OldLogIsHeld(crc: Log.Crc, files: map<nat, Bytes>, logs: map<nat, LogFile>, older: Older, n: nat, held: Held)
    requires HoldsLogs(crc, files, logs, older.log, held.batches)
             && SyncedUpTo(crc, held.batches, older.synced, held.count, held.sequence) && n !in logs
    ensures HoldsOlder(crc, files[n := []], logs[n := []], older, n, held)
  {
    hide LogBytes, LogOf, ReadLog, BatchOk, SyncedUpTo;
    var bytes := LogBytes(crc, held.batches);
    assert bytes[..|bytes|] == bytes;
  }

  lemma NewLogReads(crc: Log.Crc, files: map<nat, Bytes>, logs: map<nat, LogFile>, n: nat)
    requires ReadAs(crc, files, logs) && n !in logs
    ensures ReadAs(crc, files[n := []], logs[n := []])
  {
    hide ReadLog;
    CutLogReadsBack(crc, [], 0);
    assert LogBytes(crc, [])[..0] == [];
  }

  /** What is not in the tables was written after what is. */
  lemma LoggedIsUnflushed(db: DB)
    requires db.Valid()
    ensures Above(db.All() - Contents(db.versions.current), db.flushed)
  {
  }

  lemma SequenceIsBounded(db: DB)
    requires db.Valid()
    ensures db.versions.counters.lastSequence <= MAX_SEQUENCE
  {
  }

  lemma CurrentLogIsKept(db: DB)
    requires db.Valid()
    ensures db.logFileNumber in db.logs && db.versions.counters.logNumber <= db.logFileNumber
  {
  }

  lemma OlderLogIsKept(db: DB)
    requires db.Valid() && db.imm.Some?
    ensures db.immLog in db.logs && db.versions.counters.logNumber <= db.immLog
  {
  }

  /** What is lost was written after the last sync. */
  lemma LostIsUnsynced(crc: Log.Crc, batches: seq<Batch>, synced: nat, count: nat, sequence: nat, n: nat)
    requires SyncedUpTo(crc, batches, synced, count, sequence) && synced <= n
    ensures Above(LostOf(crc, batches, n), sequence)
  {
    hide BatchOk, Log.FileOf, Log.Complete;
    var k := Surviving(crc, batches, n);
    assert LogRecords(batches)[..count] == LogRecords(batches[..count]);
    Log.CompleteIs(crc, LogRecords(batches), n, count);
    forall e | e in LogEntries(LogOf(batches)[k..])
      ensures e.key.sequence > sequence
    {
      var i :| 0 <= i < |batches| - k && e in LogOf(batches)[k..][i];
      assert LogOf(batches)[k..][i] == BatchEntries(batches[k + i]);
    }
  }

  /** The record goes to the end of the current log, in the file as in the store. */
  lemma BatchIsLogged(crc: Log.Crc, files: map<nat, Bytes>, logs: map<nat, LogFile>, current: nat, batches: seq<Batch>, b: Batch, dest: Bytes)
    requires HoldsLogs(crc, files, logs, current, batches) && BatchOk(b) && current in files
    requires dest == files[current] + Log.Fragments(crc, |files[current]| % Log.BLOCK_SIZE, WriteBatch.BatchBytes(b.sequence, b.records), true)
    ensures current in logs && AllOk(batches + [b]) && dest == LogBytes(crc, batches + [b])
    ensures HoldsLogs(crc, files[current := dest], logs[current := logs[current] + [BatchEntries(b)]], current, batches + [b])
  {
    hide BatchOk, BatchEntries, Log.Fragments, WriteBatch.BatchBytes, ReadLog;
    var records := LogRecords(batches + [b]);
    assert records[..|records| - 1] == LogRecords(batches);
    assert LogOf(batches + [b]) == LogOf(batches) + [BatchEntries(b)];
    assert dest[..|dest|] == dest;
  }

  lemma LogIsLonger(crc: Log.Crc, batches: seq<Batch>, b: Batch)
    requires AllOk(batches) && AllOk(batches + [b])
    ensures |LogBytes(crc, batches)| <= |LogBytes(crc, batches + [b])|
  {
    hide BatchOk, Log.FileOf, WriteBatch.BatchBytes;
    assert LogRecords(batches + [b])[..|batches|] == LogRecords(batches);
    Log.FilePrefix(crc, LogRecords(batches + [b]), |batches|);
  }

  lemma BatchesSynced(crc: Log.Crc, batches: seq<Batch>, b: Batch, synced: nat, before: nat, count: nat, sequence: nat, last: nat, sync: bool)
    requires SyncedUpTo(crc, batches, before, count, sequence) && AllOk(batches + [b]) && b.sequence == last + 1 && sequence <= last
    requires synced == if sync then |LogBytes(crc, batches + [b])| else before
    ensures if sync then SyncedUpTo(crc, batches + [b], synced, |batches| + 1, last + |b.records|)
            else SyncedUpTo(crc, batches + [b], synced, count, sequence)
  {
    hide BatchOk, LogBytes;
    var all := batches + [b];
    LogIsLonger(crc, batches, b);
    assert all[..|all|] == all && all[..count] == batches[..count];
  }

  // ---------- crashing and opening again ----------

  /** `DB::Open` on what a crash has left. Everything that was safe is there. If nothing is lost of the
      older log, or nothing is kept of the current one, every reader finds what the history says up to
      some write; otherwise the store is as it never was. */
  method CutAndReopen(store: LoggedStore, n1: nat, n: nat, full: seq<Entry> -> bool, tableSize: seq<Entry> -> nat)
    returns (again: DB, ghost p: nat)
    requires store.Valid() && store.MayLeave(n1, n)
    ensures again.Valid() && fresh(again) && fresh(again.versions) && store.Safe() <= again.All() <= store.db.All()
    ensures again.All() == Contents(store.db.versions.current) + store.OlderKept(n1) + store.CurrentKept(n)
    ensures (exists q :: IsAsOf(again.All(), store.db.All(), q)) <==> store.OlderLost(n1) == {} || store.CurrentKept(n) == {}
    ensures store.OlderLost(n1) == {} || store.CurrentKept(n) == {} ==> IsAsOf(again.All(), store.db.All(), p)
    ensures store.OlderLost(n1) == {} ==> store.syncedSequence <= p
    ensures store.db.intact && (store.OlderLost(n1) == {} || store.CurrentKept(n) == {}) ==>
              forall u: UserKey :: Read(again.All(), u, again.versions.counters.lastSequence) == Read(store.db.history, u, p)
  {
    hide LoggedStore.Valid, DB.Valid, Recoverable, IsAsOf, Survives, DB.All, Log.Writer.Valid, Read, ReadLog, LoggedStore.OlderLost,
         LoggedStore.CurrentKept, LoggedStore.Safe, LoggedStore.CutFiles;
    ghost var disk;
    p, disk := store.SyncedWritesSurvive(n1, n);
    StoreIsValid(store);
    var db := store.db;
    var files := store.CutFiles(n1, n);
    var left := Disk(db.versions.manifest, map m | m in files :: ReadLog(store.crc, files[m]));
    SameLogs(store.crc, files, left.logs, disk.logs);
    again := new DB.Open(left, full, tableSize, db.versions.current, db.saved, db.flushed);
    if db.intact && (store.OlderLost(n1) == {} || store.CurrentKept(n) == {}) {
      ReadsAfterCrash(again, db, p);
    }
  }

  lemma ReadsAfterCrash(again: DB, db: DB, p: nat)
    requires again.Valid() && db.Valid() && db.intact && IsAsOf(again.All(), db.All(), p) && db.flushed <= p
    ensures forall u: UserKey :: Read(again.All(), u, again.versions.counters.lastSequence) == Read(db.history, u, p)
  {
    hide DB.Valid, IsAsOf, DB.All, Read;
    forall u: UserKey
      ensures Read(again.All(), u, again.versions.counters.lastSequence) == Read(db.history, u, p)
    {
      LatestReads(again, u, Later(p, again.versions.counters.lastSequence));
      AsOfReads(again.All(), db.All(), p, u, Later(p, again.versions.counters.lastSequence));
      db.ReadsAreHistory(u, p);
    }
  }

  function Later(a: nat, b: nat): nat {
    if a < b then b else a
  }

  /** Nothing is newer than the last sequence number. */
  lemma LatestReads(db: DB, u: UserKey, s: nat)
    requires db.Valid() && db.versions.counters.lastSequence <= s
    ensures Read(db.All(), u, db.versions.counters.lastSequence) == Read(db.All(), u, s)
  {
    hide Read;
    var last := db.versions.counters.lastSequence;
    LayeredDistinct(db.mem, db.imm, db.versions.current, db.flushed, db.switched, last);
    ReadsSettle(db.All(), last, u, last, s);
  }

  lemma AsOfReads(left: set<Entry>, all: set<Entry>, p: nat, u: UserKey, s: nat)
    requires IsAsOf(left, all, p)
    ensures Read(left, u, s) == Read(all, u, Lesser(s, p))
  {
  }

  lemma SameLogs(crc: Log.Crc, files: map<nat, Bytes>, a: map<nat, LogFile>, b: map<nat, LogFile>)
    requires ReadAs(crc, files, a) && ReadAs(crc, files, b)
    ensures a == b
  {
    hide ReadLog;
    assert a.Keys == b.Keys;
  }

  lemma SyncedIsWritten(store: LoggedStore)
    requires store.Valid()
    ensures store.synced <= |store.log.dest|
    ensures store.db.imm.Some? ==> store.older.log in store.files && store.older.synced <= |store.files[store.older.log]|
  {
    hide DB.Valid;
  }

  lemma LogIsWhole(store: LoggedStore)
    requires store.Valid()
    ensures AllOk(store.batches) && store.log.dest == LogBytes(store.crc, store.batches)
  {
    hide DB.Valid, LogBytes, ReadLog, BatchOk;
    var bytes := LogBytes(store.crc, store.batches);
    assert bytes[..|bytes|] == bytes;
  }

  lemma StoreIsValid(store: LoggedStore)
    requires store.Valid()
    ensures store.db.Valid() && store.db.logFileNumber in store.files
  {
  }
}
