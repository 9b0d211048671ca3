/** The store as a whole: writes, memtable switch, flush, compaction, snapshots, log deletion, crash
    and recovery (db/db_impl.cc). */
module Store {
  import opened History
  import opened Version
  import V = Version
  import opened Picking
  import opened Compaction
  import opened CompactionSafety
  import opened Layers
  import opened Manifest
  import opened Recovery
  import opened InternalIterators
  import opened LostTombstones
  import DBIter

  ghost function ImmSet(imm: Option<seq<Entry>>): set<Entry> {
    if imm.Some? then SeqSet(imm.value) else {}
  }

  ghost function AllEntries(mem: seq<Entry>, imm: Option<seq<Entry>>, v: Version): set<Entry> {
    SeqSet(mem) + (ImmSet(imm) + Contents(v))
  }

  /** Memtable above immutable memtable above version, in sequence numbers. */
  ghost predicate Layered(mem: seq<Entry>, imm: Option<seq<Entry>>, v: Version, flushed: nat, switched: nat, last: nat) {
    && V.Valid(v)
    && Sorted(mem) && Distinct(SeqSet(mem))
    && (imm.Some? ==> Sorted(imm.value)) && Distinct(ImmSet(imm))
    && flushed <= switched <= last <= MAX_SEQUENCE
    && UpTo(Contents(v), flushed)
    && Above(ImmSet(imm), flushed) && UpTo(ImmSet(imm), switched)
    && Above(SeqSet(mem), switched) && UpTo(SeqSet(mem), last)
  }

  lemma LayeredDistinct(mem: seq<Entry>, imm: Option<seq<Entry>>, v: Version, flushed: nat, switched: nat, last: nat)
    requires Layered(mem, imm, v, flushed, switched, last)
    ensures Distinct(ImmSet(imm) + Contents(v)) && UpTo(ImmSet(imm) + Contents(v), switched)
    ensures Distinct(AllEntries(mem, imm, v)) && UpTo(AllEntries(mem, imm, v), last)
  {
    LayersAreDistinct(ImmSet(imm), Contents(v), flushed);
    LayersAreDistinct(SeqSet(mem), ImmSet(imm) + Contents(v), switched);
  }

  /** The live logs hold exactly the two memtables. */
  ghost predicate Logged(logs: map<nat, LogFile>, min: nat, logFile: nat, immLog: nat, mem: seq<Entry>, imm: Option<seq<Entry>>) {
    && min <= logFile && logFile in logs && LogEntries(logs[logFile]) == SeqSet(mem)
    && (imm.Some? ==> min <= immLog < logFile && immLog in logs && LogEntries(logs[immLog]) == SeqSet(imm.value))
    && (forall n :: n in logs && min <= n ==> n == logFile || (imm.Some? && n == immLog))
    && (forall n :: n in logs && min <= n ==> OrderedLog(logs[n]))
    && 0 !in logs
  }

  lemma LoggedEntries(logs: map<nat, LogFile>, min: nat, logFile: nat, immLog: nat, mem: seq<Entry>, imm: Option<seq<Entry>>)
    requires Logged(logs, min, logFile, immLog, mem, imm)
    ensures Unflushed(logs, min) == SeqSet(mem) + ImmSet(imm)
  {
    forall e | e in Unflushed(logs, min)
      ensures e in SeqSet(mem) + ImmSet(imm)
    {
      var n, r :| n in logs && min <= n && r in logs[n] && e in r;
      assert e in LogEntries(logs[n]);
    }
    forall e | e in SeqSet(mem) + ImmSet(imm)
      ensures e in Unflushed(logs, min)
    {
      var n := if e in SeqSet(mem) then logFile else immLog;
      assert e in LogEntries(logs[n]);
      var r :| r in logs[n] && e in r;
    }
  }

  function Lesser(a: nat, b: nat): nat {
    if a < b then a else b
  }

  /** Equivalence of two stores for every reader at or after `oldest`. */
  ghost predicate SameReads(a: set<Entry>, b: set<Entry>, oldest: nat) {
    forall u, s :: oldest <= s ==> Read(a, u, s) == Read(b, u, s)
  }

  lemma SameReadsExtend(newer: set<Entry>, a: set<Entry>, b: set<Entry>, bound: nat, oldest: nat)
    requires Distinct(newer) && Distinct(a) && Distinct(b)
    requires Above(newer, bound) && UpTo(a, bound) && UpTo(b, bound)
    requires SameReads(a, b, oldest)
    ensures SameReads(newer + a, newer + b, oldest)
    ensures Distinct(newer + a) && Distinct(newer + b)
  {
    LayersAreDistinct(newer, a, bound);
    LayersAreDistinct(newer, b, bound);
    forall u, s | oldest <= s
      ensures Read(newer + a, u, s) == Read(newer + b, u, s)
    {
      ReadExtends(newer, a, b, bound, u, s);
    }
  }

  /** Two stores whose data end at `bound` read alike from there on if they ever do. */
  lemma SameReadsEarlier(a: set<Entry>, b: set<Entry>, bound: nat, oldest: nat)
    requires Distinct(a) && Distinct(b) && UpTo(a, bound) && UpTo(b, bound) && SameReads(a, b, oldest)
    ensures SameReads(a, b, Lesser(bound, oldest))
  {
    forall u, s: nat | Lesser(bound, oldest) <= s < oldest
      ensures Read(a, u, s) == Read(b, u, s)
    {
      ReadsSettle(a, bound, u, s, oldest);
      ReadsSettle(b, bound, u, s, oldest);
    }
  }

  lemma ReadsSettle(S: set<Entry>, bound: nat, u: UserKey, s: nat, t: nat)
    requires Distinct(S) && UpTo(S, bound) && bound <= s && bound <= t
    ensures Read(S, u, s) == Read(S, u, t)
  {
    if !NoneVisible(S, u, s) {
      NewestExists(S, u, s);
      var e :| Newest(e, S, u, s);
      ReadOfNewest(S, u, s, e);
      ReadOfNewest(S, u, t, e);
    }
  }

  // ---------- batches ----------

  lemma NumberedIsFresh(batch: seq<Update>, last: nat)
    ensures Increasing(Numbered(batch, last + 1))
    ensures Above(SeqSet(Numbered(batch, last + 1)), last) && UpTo(SeqSet(Numbered(batch, last + 1)), last + |batch|)
    ensures Distinct(SeqSet(Numbered(batch, last + 1)))
  {
  }

  // ---------- opening ----------

  lemma NumbersOfValid(v: Version)
    requires V.Valid(v)
    ensures |v.levels| == NUM_LEVELS && NumbersIdentify(FilesOfVersion(v))
  {
    forall f, g | f in FilesOfVersion(v) && g in FilesOfVersion(v) && f.number == g.number
      ensures f == g
    {
      var i :| 0 <= i < NUM_LEVELS && f in v.levels[i];
      var j :| 0 <= j < NUM_LEVELS && g in v.levels[j];
      if i != j || f != g {
        NumberFoundOnce(v, i, f, j, g);
      }
    }
  }

  /** The last sequence number is the one recorded, or that of an entry. */
  ghost predicate EndsAt(S: set<Entry>, recorded: nat, last: nat) {
    last == recorded || exists e :: e in S && e.key.sequence == last
  }

  /** Recovers version and logs, and makes the result current under a new log. */
  method OpenVersions(disk: Disk, full: seq<Entry> -> bool, tableSize: seq<Entry> -> nat,
                      ghost v: Version, ghost c: Counters, ghost bound: nat)
    returns (vs: VersionSet, newLog: nat)
    requires Recoverable(disk, v, c, bound)
    ensures fresh(vs) && vs.Valid() && vs.hasDescriptor && V.Valid(vs.current)
    ensures Contents(vs.current) == Survives(disk, v, c)
    ensures UpTo(Contents(vs.current), vs.counters.lastSequence) && vs.counters.lastSequence <= MAX_SEQUENCE
    ensures NumbersBelow(vs.current, vs.counters.nextFile)
    ensures Records(vs.manifest, vs.current, vs.counters) && vs.counters.prevLogNumber == 0
    ensures LastRecorded(vs.manifest, NextFile) == Some(vs.counters.nextFile)
    ensures LastRecorded(vs.manifest, LastSequence) == Some(vs.counters.lastSequence)
    ensures newLog == vs.counters.logNumber && 0 < newLog < vs.counters.nextFile
    ensures forall n :: n in disk.logs ==> n < newLog
    ensures EndsAt(Survives(disk, v, c), c.lastSequence, vs.counters.lastSequence)
  {
    var r := Recover(disk.manifest);
    RecoveredVersion(disk.manifest, v, r.version);
    var tables, next, last := RecoverLogs(disk.logs, r.counters.logNumber, r.counters.nextFile, r.counters.lastSequence, full, tableSize);
    UnflushedIsDistinct(disk.logs, c.logNumber);
    vs, newLog := InstallTables(r.version, Counters(r.counters.logNumber, 0, next, last), tables, r.counters.nextFile, bound);
  }

  /** The new log is created, and one edit installs the replayed tables and the log number. */
  method InstallTables(v: Version, c: Counters, tables: seq<File>, ghost first: nat, ghost bound: nat)
    returns (vs: VersionSet, newLog: nat)
    requires V.Valid(v) && NumbersBelow(v, first) && Batches(tables, first) && first <= c.nextFile && c.logNumber < first
    requires forall f :: f in tables ==> f.number < c.nextFile
    requires UpTo(Contents(v), bound) && Above(LevelEntries(tables), bound) && Distinct(LevelEntries(tables))
    requires c.prevLogNumber == 0
    ensures fresh(vs) && vs.Valid() && vs.hasDescriptor && V.Valid(vs.current)
    ensures Contents(vs.current) == Contents(v) + LevelEntries(tables)
    ensures NumbersBelow(vs.current, vs.counters.nextFile)
    ensures Records(vs.manifest, vs.current, vs.counters)
    ensures LastRecorded(vs.manifest, NextFile) == Some(vs.counters.nextFile)
    ensures LastRecorded(vs.manifest, LastSequence) == Some(vs.counters.lastSequence)
    ensures newLog == c.nextFile && vs.counters == Counters(newLog, 0, newLog + 1, c.lastSequence)
  {
    NumbersOfValid(v);
    vs := new VersionSet(v, c);
    newLog := vs.NewFileNumber();
    var edit := Edit({}, seq(|tables|, i requires 0 <= i < |tables| => (0, tables[i])), Some(newLog), Some(0), None, None);
    ReplayEdit(edit, tables);
    TablesAreNew(v, tables, first);
    var ok := vs.LogAndApply(edit, true);
    ReplayInstalled(v, edit, tables, vs.current);
    ReplayKeepsInvariants(v, tables, vs.current, first, bound);
    FilesHaveNumbers(vs.current, vs.files, vs.counters.nextFile);
  }

  lemma TablesAreNew(v: Version, tables: seq<File>, first: nat)
    requires V.Valid(v) && NumbersBelow(v, first) && Batches(tables, first)
    ensures FilesOf(tables) !! FilesOf(v.levels[0])
    ensures NumbersIdentify(FilesOfVersion(v) + FilesOf(tables))
  {
    hide V.Valid;
    NumbersOfValid(v);
    forall f | f in FilesOfVersion(v)
      ensures f.number < first
    {
      NumberInVersion(v, first, f);
    }
    LaterTablesIdentify(FilesOfVersion(v), tables, first);
    assert FilesOf(v.levels[0]) <= FilesOfVersion(v);
  }

  /** Tables numbered after all earlier files have numbers of their own. */
  lemma LaterTablesIdentify(files: set<File>, tables: seq<File>, first: nat)
    requires NumbersIdentify(files) && Batches(tables, first) && forall f :: f in files ==> f.number < first
    ensures FilesOf(tables) !! files
    ensures NumbersIdentify(files + FilesOf(tables))
  {
    hide ValidFile, Older;
    forall f | f in FilesOf(tables)
      ensures first <= f.number && f !in files
    {
      var i :| 0 <= i < |tables| && tables[i] == f;
    }
    forall f, g | f in FilesOf(tables) && g in FilesOf(tables) && f.number == g.number
      ensures f == g
    {
      var i :| 0 <= i < |tables| && tables[i] == f;
      var j :| 0 <= j < |tables| && tables[j] == g;
    }
  }

  lemma NumberInVersion(v: Version, first: nat, f: File)
    requires NumbersBelow(v, first) && f in FilesOfVersion(v)
    ensures f.number < first
  {
    var lvl :| 0 <= lvl < |v.levels| && f in v.levels[lvl];
  }

  lemma FilesHaveNumbers(v: Version, files: set<File>, next: nat)
    requires |v.levels| == NUM_LEVELS && forall lvl :: 0 <= lvl < NUM_LEVELS ==> FilesOf(v.levels[lvl]) <= files
    requires forall f :: f in files ==> f.number < next
    ensures NumbersBelow(v, next)
  {
    forall lvl, f | 0 <= lvl < NUM_LEVELS && f in v.levels[lvl]
      ensures f.number < next
    {
      assert f in FilesOf(v.levels[lvl]);
    }
  }

  lemma RecoveredVersion(manifest: seq<Edit>, v: Version, w: Version)
    requires Describes(manifest, v) && |w.levels| == NUM_LEVELS && V.Valid(v)
    requires forall lvl :: 0 <= lvl < NUM_LEVELS ==> SortedBySmallest(w.levels[lvl]) && FilesOf(w.levels[lvl]) == Replayed(manifest, lvl)
    ensures v == w
  {
    forall lvl | 0 <= lvl < NUM_LEVELS
      ensures v.levels[lvl] == w.levels[lvl]
    {
      SameFilesSameListing(v.levels[lvl], w.levels[lvl]);
    }
    assert v.levels == w.levels;
  }

  lemma ReplayEdit(e: Edit, tables: seq<File>)
    requires e.deleted == {} && |e.added| == |tables| && forall i :: 0 <= i < |tables| ==> e.added[i] == (0, tables[i])
    ensures ValidEdit(e)
    ensures AddedAt(e, 0) == FilesOf(tables) && AllAdded(e) == FilesOf(tables)
    ensures forall lvl :: 1 <= lvl < NUM_LEVELS ==> AddedAt(e, lvl) == {}
  {
    forall f | f in FilesOf(tables)
      ensures f in AddedAt(e, 0) && f in AllAdded(e)
    {
      var i :| 0 <= i < |tables| && tables[i] == f;
      assert e.added[i] in e.added;
    }
  }

  /** The files of each level after an installed edit. */
  lemma InstalledFiles(v: Version, e: Edit, w: Version, lvl: nat, f: File)
    requires |v.levels| == NUM_LEVELS && |w.levels| == NUM_LEVELS && lvl < NUM_LEVELS
    requires FilesOf(w.levels[lvl]) == EditedFiles(FilesOf(v.levels[lvl]), e, lvl)
    ensures f in w.levels[lvl] <==> (f in v.levels[lvl] || f in AddedAt(e, lvl)) && !DeletedAt(e, lvl, f)
  {
    assert f in w.levels[lvl] <==> f in FilesOf(w.levels[lvl]);
    assert f in v.levels[lvl] <==> f in FilesOf(v.levels[lvl]);
  }

  ghost predicate Installed(v: Version, e: Edit, w: Version) {
    && |v.levels| == NUM_LEVELS && |w.levels| == NUM_LEVELS
    && (forall lvl :: 0 <= lvl < NUM_LEVELS ==> SortedBySmallest(w.levels[lvl]))
    && (forall lvl :: 0 <= lvl < NUM_LEVELS ==> FilesOf(w.levels[lvl]) == EditedFiles(FilesOf(v.levels[lvl]), e, lvl))
  }

  lemma ReplayInstalled(v: Version, e: Edit, tables: seq<File>, w: Version)
    requires Installed(v, e, w) && e.deleted == {}
    requires AddedAt(e, 0) == FilesOf(tables) && forall lvl :: 1 <= lvl < NUM_LEVELS ==> AddedAt(e, lvl) == {}
    ensures IsReplayedOnto(v, tables, w)
  {
    forall lvl, f | 0 <= lvl < NUM_LEVELS
      ensures f in w.levels[lvl] <==> BelongsAfterReplay(v, tables, lvl, f)
    {
      InstalledFiles(v, e, w, lvl, f);
      assert f in tables <==> f in FilesOf(tables);
    }
  }

  lemma EmptyMemtables(v: Version, last: nat, logs: map<nat, LogFile>, newLog: nat)
    requires V.Valid(v) && UpTo(Contents(v), last) && last <= MAX_SEQUENCE
    requires 0 < newLog && 0 !in logs && forall n :: n in logs ==> n < newLog
    ensures Layered([], None, v, last, last, last) && AllEntries([], None, v) == Contents(v)
    ensures Logged(logs[newLog := []], newLog, newLog, 0, [], None)
  {
  }

  lemma NoLogZero(disk: Disk, v: Version, c: Counters, bound: nat)
    requires Recoverable(disk, v, c, bound)
    ensures 0 !in disk.logs
  {
  }

  lemma NothingWrittenYet(v: Version, last: nat)
    requires V.Valid(v) && UpTo(Contents(v), last)
    ensures FaithfulTo(Contents(v), Contents(v), true, last, last)
  {
  }

  /** A compaction that brought deleted data back: it split the versions of a key. */
  datatype Loss = Loss(v: Version, c: Inputs, oldest: nat)

  ghost predicate IsLoss(l: Loss) {
    && |l.v.levels| == NUM_LEVELS && V.Valid(l.v) && Selected(l.v, l.c)
    && SplitsSomeKey(l.v, l.c, l.oldest)
  }

  class DB {
    const versions: VersionSet
    var mem: seq<Entry>
    var imm: Option<seq<Entry>>
    var logs: map<nat, LogFile>
    var logFileNumber: nat
    var snapshots: seq<nat>
    ghost var immLog: nat      // the log of the immutable memtable
    ghost var flushed: nat     // the version holds data up to this sequence number
    ghost var switched: nat    // the immutable memtable, up to this one
    ghost var saved: Counters  // what the manifest last recorded
    ghost var history: set<Entry>
    ghost var intact: bool     // no compaction has lost a tombstone

    /** `smallest_snapshot`: the oldest live snapshot, or the last sequence number. */
    function Oldest(): nat
      reads this, versions
    {
      if snapshots == [] then versions.counters.lastSequence else snapshots[0]
    }

    /** Readers from here on find what the history says: every live snapshot, and the store as of any
        write that is still in the logs. */
    ghost function Floor(): nat
      reads this, versions
    {
      Lesser(flushed, Oldest())
    }

    ghost function All(): set<Entry>
      reads this, versions
    {
      AllEntries(mem, imm, versions.current)
    }

    ghost function OnDisk(): Disk
      reads this, versions
    {
      Disk(versions.manifest, logs)
    }

    /** Memory and disk agree: a crash now would lose nothing. */
    ghost predicate Durable()
      reads this, versions
    {
      && Logged(logs, saved.logNumber, logFileNumber, immLog, mem, imm)
      && Records(versions.manifest, versions.current, saved)
      && LastRecorded(versions.manifest, NextFile) == Some(saved.nextFile)
      && LastRecorded(versions.manifest, LastSequence) == Some(saved.lastSequence)
      && saved.prevLogNumber == 0 && saved.logNumber < saved.nextFile
      && NumbersBelow(versions.current, saved.nextFile) && flushed <= saved.lastSequence <= MAX_SEQUENCE
      && saved.logNumber == versions.counters.logNumber && versions.counters.prevLogNumber == 0
    }

    ghost predicate SnapshotsOk()
      reads this, versions
    {
      && (forall i :: 0 <= i < |snapshots| ==> snapshots[i] <= versions.counters.lastSequence)
      && (forall i, j :: 0 <= i < j < |snapshots| ==> snapshots[i] <= snapshots[j])
    }

    /** While intact, the store reads like the history of all writes. */
    ghost predicate Faithful()
      reads this, versions
    {
      FaithfulTo(All(), history, intact, Floor(), versions.counters.lastSequence)
    }

    ghost predicate Valid()
      reads this, versions
    {
      && versions.Valid() && versions.hasDescriptor
      && Layered(mem, imm, versions.current, flushed, switched, versions.counters.lastSequence)
      && Durable()
      && logFileNumber < versions.counters.nextFile
      && SnapshotsOk()
      && Faithful()
    }

    lemma CurrentIsValid()
      requires Valid()
      ensures V.Valid(versions.current) && |versions.current.levels| == NUM_LEVELS
    {
    }

    // ---------- opening ----------

    /** `DB::Open` on what a crash left behind. Nothing that was on disk is lost. */
    constructor Open(disk: Disk, full: seq<Entry> -> bool, tableSize: seq<Entry> -> nat,
                     ghost v: Version, ghost c: Counters, ghost bound: nat)
      requires Recoverable(disk, v, c, bound)
      ensures Valid() && fresh(versions)
      ensures All() == Survives(disk, v, c) && history == All() && intact && snapshots == [] && imm.None?
      ensures logFileNumber !in disk.logs && logs == disk.logs[logFileNumber := []]
      ensures EndsAt(Survives(disk, v, c), c.lastSequence, versions.counters.lastSequence)
    {
      hide V.Valid, VersionSet.Valid, Recoverable, Survives, EndsAt, Layered, Logged, FaithfulTo, Records, LastRecorded, NumbersBelow,
           AllEntries, Contents, SameReads;
      NoLogZero(disk, v, c, bound);
      var vs, newLog := OpenVersions(disk, full, tableSize, v, c, bound);
      versions := vs;
      mem, imm, snapshots := [], None, [];
      logs := disk.logs[newLog := []];
      logFileNumber := newLog;
      immLog, flushed, switched := 0, vs.counters.lastSequence, vs.counters.lastSequence;
      saved := vs.counters;
      history, intact := Contents(vs.current), true;
      EmptyMemtables(vs.current, vs.counters.lastSequence, disk.logs, newLog);
      NothingWrittenYet(vs.current, vs.counters.lastSequence);
    }

    /** A crash now would leave a disk from which everything comes back. */
    lemma CrashLosesNothing()
      requires Valid()
      ensures Recoverable(OnDisk(), versions.current, saved, flushed)
      ensures Survives(OnDisk(), versions.current, saved) == All()
    {
      var last := versions.counters.lastSequence;
      LoggedEntries(logs, saved.logNumber, logFileNumber, immLog, mem, imm);
      LogsAreOrdered(logs, saved.logNumber, logFileNumber, immLog, mem, imm, versions.current, flushed, switched, last);
    }

    /** A crash in the middle of a write, after its record has reached the log, brings back the whole
        batch as well. */
    lemma CrashAfterLogging(batch: seq<Update>)
      requires Valid() && versions.counters.lastSequence + |batch| <= MAX_SEQUENCE
      ensures logFileNumber in logs
      ensures var record := Numbered(batch, versions.counters.lastSequence + 1);
              var disk := Disk(versions.manifest, logs[logFileNumber := logs[logFileNumber] + [record]]);
              && Recoverable(disk, versions.current, saved, flushed)
              && Survives(disk, versions.current, saved) == All() + SeqSet(record)
    {
      hide V.Valid, VersionSet.Valid, Layered, FaithfulTo, SeqSet, AllEntries, Numbered, Increasing, Older,
           NumbersBelow, Sorted, UpTo, Above, Distinct, LogEntries, Unflushed, Describes;
      var last := versions.counters.lastSequence;
      var record := Numbered(batch, last + 1);
      NumberedIsFresh(batch, last);
      MemoryFacts(mem, imm, versions.current, flushed, switched, last, logs, saved.logNumber, logFileNumber, immLog);
      var grown := mem + record;
      GrownSet(mem, record);
      LogGrows(logs, saved.logNumber, logFileNumber, immLog, mem, imm, record, last, grown);
      LoggedRecord(mem, imm, versions.current, flushed, switched, last, record, last + |batch|,
                   logs[logFileNumber := logs[logFileNumber] + [record]], saved.logNumber, logFileNumber, immLog);
    }

    /** There is nothing in the store that was not written. */
    lemma OnlyWritten()
      requires Valid()
      ensures Contents(versions.current) <= All() <= history
    {
    }

    /** What `Faithful` promises a reader. */
    lemma ReadsAreHistory(u: UserKey, s: nat)
      requires Valid() && intact && Floor() <= s
      ensures Read(All(), u, s) == Read(history, u, s)
    {
    }

    // ---------- reading ----------

    /** `DBImpl::Get`: memtable, then immutable memtable, then version. */
    method Get(u: UserKey, snapshot: Option<nat>) returns (r: Lookup)
      requires Valid() && (snapshot.Some? ==> snapshot.value in snapshots)
      ensures r == Read(All(), u, if snapshot.Some? then snapshot.value else versions.counters.lastSequence)
      ensures intact ==> r == Read(history, u, if snapshot.Some? then snapshot.value else versions.counters.lastSequence)
    {
      var s := if snapshot.Some? then snapshot.value else versions.counters.lastSequence;
      LayeredDistinct(mem, imm, versions.current, flushed, switched, versions.counters.lastSequence);
      ReadLayered(SeqSet(mem), ImmSet(imm) + Contents(versions.current), switched, u, s);
      ReadLayered(ImmSet(imm), Contents(versions.current), flushed, u, s);
      assert Floor() <= s;
      var m := MemGet(mem, u, s);
      if m.Some? {
        return m.value;
      }
      if imm.Some? {
        m := MemGet(imm.value, u, s);
        if m.Some? {
          return m.value;
        }
      }
      r := V.Get(versions.current, u, s);
    }

    /** `NewIterator`: a cursor over the keys that a reader at the snapshot finds. */
    method NewIterator(snapshot: Option<nat>) returns (it: DBIter.DBIter)
      requires Valid() && (snapshot.Some? ==> snapshot.value in snapshots)
      ensures fresh(it) && it.Ok() && !it.valid
      ensures it.sequence == if snapshot.Some? then snapshot.value else versions.counters.lastSequence
      ensures forall u, s :: DBIter.View(it.list, s, u) == Read(All(), u, s)
    {
      hide V.Valid, VersionSet.Valid, Logged, FaithfulTo, Records, SameReads, NumbersBelow, Contents;
      LayeredDistinct(mem, imm, versions.current, flushed, switched, versions.counters.lastSequence);
      var inner := NewInternalIterator(mem, imm, versions.current, flushed, switched);
      assert DBIter.Listed(inner.list) == SeqSet(inner.list) == All();
      it := new DBIter.DBIter(inner, if snapshot.Some? then snapshot.value else versions.counters.lastSequence);
    }

    method GetSnapshot() returns (s: nat)
      requires Valid()
      modifies this`snapshots
      ensures Valid() && s == versions.counters.lastSequence && snapshots == old(snapshots) + [s]
    {
      s := versions.counters.lastSequence;
      snapshots := snapshots + [s];
    }

    method ReleaseSnapshot(i: nat)
      requires Valid() && i < |snapshots|
      modifies this`snapshots
      ensures Valid() && snapshots == old(snapshots[..i] + snapshots[i + 1..])
    {
      snapshots := snapshots[..i] + snapshots[i + 1..];
    }

    // ---------- writing ----------

    /** One write group: a log record, then the memtable, then the new last sequence number. */
    method Write(batch: seq<Update>)
      requires Valid() && versions.counters.lastSequence + |batch| <= MAX_SEQUENCE
      modifies this, versions
      ensures Valid() && intact == old(intact) && snapshots == old(snapshots)
      ensures versions.counters.lastSequence == old(versions.counters.lastSequence) + |batch|
      ensures history == old(history) + SeqSet(Numbered(batch, old(versions.counters.lastSequence) + 1))
      ensures All() == old(All()) + SeqSet(Numbered(batch, old(versions.counters.lastSequence) + 1))
      ensures imm == old(imm) && immLog == old(immLog) && logFileNumber == old(logFileNumber) && logFileNumber in old(logs)
      ensures logs == old(logs)[logFileNumber := old(logs)[logFileNumber] + [Numbered(batch, old(versions.counters.lastSequence) + 1)]]
    {
      hide V.Valid, VersionSet.Valid, Layered, Logged, FaithfulTo, Records, SeqSet, AllEntries, Numbered, Increasing, Older,
           NumbersBelow, Sorted, UpTo, Above, Distinct;
      var last := versions.counters.lastSequence;
      var record := Numbered(batch, last + 1);
      NumberedIsFresh(batch, last);
      MemoryFacts(mem, imm, versions.current, flushed, switched, last, logs, saved.logNumber, logFileNumber, immLog);
      MemIsOlder(mem, record, last);
      var grown := InsertRecord(mem, record);
      LogGrows(logs, saved.logNumber, logFileNumber, immLog, mem, imm, record, last, grown);
      LayersGrow(mem, imm, versions.current, flushed, switched, last, record, last + |batch|, grown);
      ReadsGrow(mem, imm, versions.current, flushed, switched, last, history, record, intact, Floor(), grown, last + |batch|,
                Lesser(flushed, if snapshots == [] then last + |batch| else Oldest()));
      logs := logs[logFileNumber := logs[logFileNumber] + [record]];
      mem := grown;
      versions.SetLastSequence(last + |batch|);
      history := history + SeqSet(record);
    }

    /** `MakeRoomForWrite`, the switch: the full memtable becomes immutable, under a new log. */
    method SwitchMemtable()
      requires Valid() && imm.None?
      modifies this, versions
      ensures Valid() && intact == old(intact) && snapshots == old(snapshots) && history == old(history)
      ensures All() == old(All()) && mem == [] && imm == Some(old(mem))
      ensures versions.counters.lastSequence == old(versions.counters.lastSequence)
      ensures logFileNumber !in old(logs) && logs == old(logs)[logFileNumber := []]
      ensures immLog == old(logFileNumber)
    {
      hide V.Valid, VersionSet.Valid, Layered, Logged, FaithfulTo, Records, SeqSet, AllEntries, NumbersBelow, SameReads;
      var newLogNumber := versions.NewFileNumber();
      LayersSwitch(mem, versions.current, flushed, switched, versions.counters.lastSequence);
      LogsSwitch(logs, saved.logNumber, logFileNumber, immLog, mem, newLogNumber);
      immLog := logFileNumber;
      logs := logs[newLogNumber := []];
      logFileNumber := newLogNumber;
      imm := Some(mem);
      mem := [];
      switched := versions.counters.lastSequence;
    }

    /** `DeleteObsoleteFiles`, for the logs. */
    method DeleteObsoleteLogs()
      requires Valid()
      modifies this`logs
      ensures Valid()
      ensures logs == map n | n in old(logs) && (n >= versions.counters.logNumber || n == versions.counters.prevLogNumber) :: old(logs)[n]
    {
      hide V.Valid, VersionSet.Valid, Layered, Logged, FaithfulTo, Records, SeqSet, AllEntries, NumbersBelow, SameReads;
      LogsCollected(logs, saved.logNumber, logFileNumber, immLog, mem, imm);
      logs := map n | n in logs && (n >= versions.counters.logNumber || n == versions.counters.prevLogNumber) :: logs[n];
    }

    /** `CompactMemTable`: the immutable memtable becomes a table, at the deepest level where nothing
        overlaps it, and the manifest stops needing its log. When the manifest cannot be written,
        nothing changes. */
    method CompactMemTable(maxGrandParentOverlap: nat, tableSize: seq<Entry> -> nat, writable: bool) returns (ok: bool)
      requires Valid() && imm.Some?
      modifies this, versions
      ensures Valid() && intact == old(intact) && snapshots == old(snapshots) && history == old(history)
      ensures All() == old(All()) && ok == writable && mem == old(mem) && logs == old(logs)
               && logFileNumber == old(logFileNumber) && immLog == old(immLog)
      ensures ok ==> imm.None? && versions.counters.logNumber == logFileNumber
      ensures !ok ==> imm == old(imm) && versions.current == old(versions.current)
      ensures versions.counters.lastSequence == old(versions.counters.lastSequence)
    {
      hide V.Valid, VersionSet.Valid, Layered, Logged, FaithfulTo, Records, SeqSet, AllEntries, NumbersBelow, SameReads,
           VersionSet.Fits, Contents, FitsAt, Installed, IsFlushEdit;
      ghost var before := versions.current;
      var edit := Edit({}, [], Some(logFileNumber), Some(0), None, None);
      LogFileIsLater(logs, saved.logNumber, logFileNumber, immLog, mem, imm);
      LayeredVersion(mem, imm, versions.current, flushed, switched, versions.counters.lastSequence);
      edit := WriteMemTable(versions, imm.value, edit, maxGrandParentOverlap, tableSize);
      ok := versions.LogAndApply(edit, writable);
      if ok {
        IsInstalled(before, edit, versions.current, versions);
        LayersFlush(mem, imm.value, before, flushed, switched, versions.counters.lastSequence, edit, versions.current);
        LogsFlush(logs, saved.logNumber, logFileNumber, immLog, mem, imm);
        FaithfulLater(AllEntries(mem, None, versions.current), history, intact, Floor(), Lesser(switched, Oldest()), versions.counters.lastSequence);
        imm := None;
        flushed := switched;
        saved := versions.counters;
      }
    }

    /** `BackgroundCompaction` and `InstallCompactionResults`, for chosen inputs. While it runs nothing
        else changes the version. */
    method Compact(c: Inputs, isManual: bool, maxGrandParentOverlap: nat, tableSize: seq<Entry> -> nat, maxOutputFileSize: nat, writable: bool)
      returns (ok: bool, ghost moved: bool, ghost outputs: seq<File>)
      requires Valid() && Selected(versions.current, c) && Oldest() < MAX_SEQUENCE
      modifies this`saved, this`intact, versions
      ensures Valid() && ok == writable && history == old(history)
      ensures !ok ==> versions.current == old(versions.current) && intact == old(intact)
      ensures |old(versions.current).levels| == NUM_LEVELS
      ensures ok ==> Produced(old(versions.current), c, old(Oldest()), outputs, moved)
      ensures ok ==> IsCompacted(old(versions.current), c, outputs, versions.current)
      ensures ok ==> intact == (old(intact) && (moved || !SplitsSomeKey(old(versions.current), c, old(Oldest()))))
      ensures LowerClosed(old(versions.current), c) ==> intact == old(intact)
      ensures versions.counters.lastSequence == old(versions.counters.lastSequence)
    {
      hide V.Valid, VersionSet.Valid, Layered, Logged, FaithfulTo, Records, SeqSet, AllEntries, NumbersBelow, SameReads,
           VersionSet.Fits, Contents, Installed, Selected, Produced, LosesSome, LowerClosed, IsCompacted, CompactionEdit,
           LastRecorded, EditedFiles, FilesOf, AllAdded, AddedAt, DeletedAt, SplitsSomeKey;
      ghost var before, snapshot := versions.current, Oldest();
      LayeredVersion(mem, imm, before, flushed, switched, versions.counters.lastSequence);
      LogFileIsLater(logs, saved.logNumber, logFileNumber, immLog, mem, imm);
      SelectedLevels(before, c);
      LosesSomeIffSplit(before, c, snapshot);
      var tables: seq<File>;
      tables, moved := CompactionOutputs(versions, c, isManual, Oldest(), maxGrandParentOverlap, tableSize, maxOutputFileSize);
      outputs := tables;
      var edit := CompactionEdit(c, tables);
      NoCounters(c, tables);
      ok := versions.LogAndApply(edit, writable);
      LowerClosedLosesNone(before, c, snapshot);
      if ok {
        IsInstalled(before, edit, versions.current, versions);
        CompactionStep(mem, imm, before, flushed, switched, versions.counters.lastSequence, c, outputs, moved, versions.current,
                       history, intact, snapshot);
        intact := intact && (moved || !LosesSome(before, c, snapshot));
        saved := versions.counters;
      }
    }

    /** `BackgroundCompaction` at the level and file that need it most. */
    method BackgroundCompaction(level: nat, picked: nat, maxFileSize: nat, maxGrandParentOverlap: nat,
                                tableSize: seq<Entry> -> nat, maxOutputFileSize: nat, writable: bool)
      returns (ok: bool, ghost lost: Option<Loss>)
      requires Valid() && Oldest() < MAX_SEQUENCE
      requires |versions.current.levels| == NUM_LEVELS && level + 1 < NUM_LEVELS && picked < |versions.current.levels[level]|
      modifies this, versions
      ensures Valid() && ok == writable && history == old(history) && snapshots == old(snapshots) && mem == old(mem) && imm == old(imm)
      ensures logs == old(logs) && logFileNumber == old(logFileNumber) && immLog == old(immLog)
      ensures intact == (old(intact) && lost.None?)
      ensures lost.Some? ==> IsLoss(lost.value) && lost.value.v == old(versions.current) && lost.value.oldest == old(Oldest())
      ensures versions.counters.lastSequence == old(versions.counters.lastSequence)
    {
      hide V.Valid, DB.Valid, Selected, LosesSome, LowerClosed, SplitsSomeKey;
      CurrentIsValid();
      ghost var before, snapshot := versions.current, Oldest();
      var c := PickCompaction(versions.current, level, picked, maxFileSize);
      ghost var moved, outputs;
      ok, moved, outputs := Compact(c, false, maxGrandParentOverlap, tableSize, maxOutputFileSize, writable);
      lost := if ok && !moved && SplitsSomeKey(before, c, snapshot) then Some(Loss(before, c, snapshot)) else None;
    }

    /** A manual compaction of a range. */
    method ManualCompaction(level: nat, begin: Bound, end: Bound, maxFileSize: nat, maxGrandParentOverlap: nat,
                            tableSize: seq<Entry> -> nat, maxOutputFileSize: nat, writable: bool)
      returns (ok: bool, ghost lost: Option<Loss>)
      requires Valid() && Oldest() < MAX_SEQUENCE && level + 1 < NUM_LEVELS
      modifies this, versions
      ensures Valid() && history == old(history) && snapshots == old(snapshots) && mem == old(mem) && imm == old(imm)
      ensures logs == old(logs) && logFileNumber == old(logFileNumber) && immLog == old(immLog)
      ensures intact == (old(intact) && lost.None?)
      ensures lost.Some? ==> IsLoss(lost.value) && lost.value.v == old(versions.current) && lost.value.oldest == old(Oldest())
      ensures versions.counters.lastSequence == old(versions.counters.lastSequence)
    {
      hide V.Valid, DB.Valid, Selected, LosesSome, LowerClosed, SplitsSomeKey;
      CurrentIsValid();
      ghost var before, snapshot := versions.current, Oldest();
      var c := CompactRange(versions.current, level, begin, end, maxFileSize);
      ok, lost := true, None;
      if c.Some? {
        ghost var moved, outputs;
        ok, moved, outputs := Compact(c.value, true, maxGrandParentOverlap, tableSize, maxOutputFileSize, writable);
        lost := if ok && !moved && SplitsSomeKey(before, c.value, snapshot) then Some(Loss(before, c.value, snapshot)) else None;
      }
    }
  }

  // ---------- flushing ----------

  /** `WriteLevel0Table`: the edit gets the table of the memtable, unless that is empty. */
  method WriteMemTable(versions: VersionSet, imm: seq<Entry>, base: Edit, maxGrandParentOverlap: nat,
          tableSize: seq<Entry> -> nat) returns (edit: Edit)
    requires versions.Valid() && V.Valid(versions.current) && base.deleted == {} && base.added == []
    modifies versions`counters
    ensures versions.Valid() && |versions.current.levels| == NUM_LEVELS && edit.(added := []) == base
    ensures versions.Fits(edit)
    ensures if imm == [] then edit.added == [] else IsFlushEdit(versions.current, imm, edit)
    ensures versions.counters == old(versions.counters).(nextFile := versions.counters.nextFile)
    ensures old(versions.counters.nextFile) <= versions.counters.nextFile
  {
    CurrentLevels(versions);
    hide V.Valid, VersionSet.Valid, VersionSet.Fits, FitsAt, IsFlushEdit;
    edit := base;
    NoFilesFit(versions, edit);
    if imm != [] {
      var number := versions.NewFileNumber();
      var f := MemFile(imm, number, tableSize(imm));
      var level := PickLevelForMemTableOutput(versions.current, f.smallest.user, f.largest.user, maxGrandParentOverlap);
      PickedLevelFits(versions.current, level, f);
      edit := edit.(added := [(level, f)]);
      OneFileFits(versions, edit, level, f);
      NumberIsNew(versions, imm, edit, level, number, tableSize(imm));
    }
  }

  lemma CurrentLevels(vs: VersionSet)
    requires vs.Valid()
    ensures |vs.current.levels| == NUM_LEVELS
  {
  }

  // ---------- compacting ----------

  /** A compaction under which some reader at or after `oldest` would lose a deletion. */
  ghost predicate LosesSome(v: Version, c: Inputs, oldest: nat)
    requires |v.levels| == NUM_LEVELS
  {
    exists u, s, e :: oldest <= s && LosesTombstone(v, c, oldest, e, u, s)
  }

  /** What is lost shows in the files: a user key split at the end of the lower inputs. */
  lemma LosesSomeIffSplit(v: Version, c: Inputs, oldest: nat)
    requires V.Valid(v) && Selected(v, c)
    ensures |v.levels| == NUM_LEVELS && c.level + 1 < NUM_LEVELS
    ensures LosesSome(v, c, oldest) <==> SplitsSomeKey(v, c, oldest)
  {
    hide V.Valid, Selected, LosesTombstone, Split;
    SelectedLevels(v, c);
    if LosesSome(v, c, oldest) {
      var u, s, e :| oldest <= s && LosesTombstone(v, c, oldest, e, u, s);
      LossIffSplit(v, c, oldest, e, u, s);
      SplitForOldest(v, c, oldest, e, u, s);
    }
    if SplitsSomeKey(v, c, oldest) {
      var e, u :| Split(v, c, oldest, e, u, oldest);
      LossIffSplit(v, c, oldest, e, u, oldest);
    }
  }

  /** `AddInputDeletions` and the additions of `InstallCompactionResults`. */
  function CompactionEdit(c: Inputs, outputs: seq<File>): Edit {
    Edit((set f | f in c.in0 :: (c.level, f.number)) + (set f | f in c.in1 :: (c.level + 1, f.number)),
         seq(|outputs|, i requires 0 <= i < |outputs| => (c.level + 1, outputs[i])), None, None, None, None)
  }

  lemma CompactionEditAdds(c: Inputs, outputs: seq<File>)
    requires c.level + 1 < NUM_LEVELS
    ensures ValidEdit(CompactionEdit(c, outputs)) && AllAdded(CompactionEdit(c, outputs)) == FilesOf(outputs)
    ensures forall lvl: nat :: AddedAt(CompactionEdit(c, outputs), lvl) == if lvl == c.level + 1 then FilesOf(outputs) else {}
  {
    var e := CompactionEdit(c, outputs);
    forall f | f in outputs
      ensures f in AllAdded(e) && f in AddedAt(e, c.level + 1)
    {
      var i :| 0 <= i < |outputs| && outputs[i] == f;
      assert e.added[i] in e.added;
    }
  }

  /** Which files the edit deletes. */
  lemma CompactionEditDeletes(v: Version, c: Inputs, outputs: seq<File>, lvl: nat, f: File)
    requires V.Valid(v) && Selected(v, c) && |v.levels| == NUM_LEVELS && lvl < NUM_LEVELS && f in v.levels[lvl]
    ensures (lvl, f.number) in CompactionEdit(c, outputs).deleted <==> IsInput(c, lvl, f)
  {
    hide V.Valid, Selected, CompactionEdit;
    InputsAreFiles(v, c);
    DeletedNumber(c, outputs, lvl, f.number);
    if (lvl, f.number) in CompactionEdit(c, outputs).deleted {
      var g :| IsInput(c, lvl, g) && g.number == f.number;
      SelectedLevels(v, c);
      InputIsFile(v, c, lvl, g);
      if g != f { NumberFoundOnce(v, lvl, f, lvl, g); }
    }
  }

  lemma DeletedNumber(c: Inputs, outputs: seq<File>, lvl: nat, number: nat)
    ensures (lvl, number) in CompactionEdit(c, outputs).deleted <==> exists g :: IsInput(c, lvl, g) && g.number == number
  {
  }

  lemma InputIsFile(v: Version, c: Inputs, lvl: nat, f: File)
    requires V.Valid(v) && Selected(v, c) && |v.levels| == NUM_LEVELS && lvl < NUM_LEVELS && IsInput(c, lvl, f)
    ensures f in v.levels[lvl]
  {
    hide V.Valid, Selected;
    InputsAreFiles(v, c);
  }

  /** The installed edit is the compaction. */
  lemma CompactionInstalled(v: Version, c: Inputs, outputs: seq<File>, w: Version)
    requires V.Valid(v) && Selected(v, c) && |v.levels| == NUM_LEVELS && c.level + 1 < NUM_LEVELS
    requires Installed(v, CompactionEdit(c, outputs), w)
    requires forall f :: f in outputs ==> !IsInput(c, c.level + 1, f)
    ensures IsCompacted(v, c, outputs, w)
  {
    hide V.Valid, Selected, CompactionEdit, IsInput;
    var e := CompactionEdit(c, outputs);
    CompactionEditAdds(c, outputs);
    forall lvl, f | 0 <= lvl < NUM_LEVELS
      ensures f in w.levels[lvl] <==> BelongsAfter(v, c, outputs, lvl, f)
    {
      InstalledFiles(v, e, w, lvl, f);
      assert f in outputs <==> f in FilesOf(outputs);
      if f in v.levels[lvl] {
        CompactionEditDeletes(v, c, outputs, lvl, f);
      }
    }
  }

  /** `Compaction::IsTrivialMove`. */
  function IsTrivialMove(c: Inputs, maxGrandParentOverlap: nat): bool {
    |c.in0| == 1 && c.in1 == [] && TotalFileSize(c.grandparents) <= maxGrandParentOverlap
  }

  /** What the outputs of a compaction hold: all of the inputs, or what the merge loop kept of them. */
  ghost predicate Produced(v: Version, c: Inputs, snapshot: nat, outputs: seq<File>, moved: bool)
    requires |v.levels| == NUM_LEVELS
  {
    && GoodOutputs(v, c, outputs) && (forall f :: f in outputs ==> !IsInput(c, c.level + 1, f))
    && if moved then LevelEntries(outputs) == InputEntries(c)
       else exists input :: IsMergedInput(c, input) && LevelEntries(outputs) == SeqSet(Kept(v, c.level, input, |input|, snapshot))
  }

  method AllocateNumbers(versions: VersionSet, n: nat)
    requires versions.Valid()
    modifies versions`counters
    ensures versions.Valid()
    ensures versions.counters == old(versions.counters).(nextFile := old(versions.counters.nextFile) + n)
  {
    for i := 0 to n
      invariant versions.Valid()
      invariant versions.counters == old(versions.counters).(nextFile := old(versions.counters.nextFile) + i)
    {
      var _ := versions.NewFileNumber();
    }
  }

  /** `DoCompactionWork` up to the installation of its results. */
  method MergeTables(versions: VersionSet, c: Inputs, snapshot: nat, maxGrandParentOverlap: nat, tableSize: seq<Entry> -> nat, maxOutputFileSize: nat)
    returns (outputs: seq<File>)
    requires versions.Valid() && V.Valid(versions.current) && Selected(versions.current, c) && snapshot < MAX_SEQUENCE
    modifies versions`counters
    ensures versions.Valid() && |versions.current.levels| == NUM_LEVELS
    ensures Produced(versions.current, c, snapshot, outputs, false)
    ensures versions.Fits(CompactionEdit(c, outputs))
    ensures versions.counters == old(versions.counters).(nextFile := versions.counters.nextFile)
    ensures old(versions.counters.nextFile) <= versions.counters.nextFile
  {
    hide V.Valid, VersionSet.Valid, VersionSet.Fits, Selected, CompactionEdit;
    var v := versions.current;
    SelectedLevels(v, c);
    var input := MergeInputs(v, c);
    BelowIsSorted(v);
    var compaction := new Compaction(v, c, maxGrandParentOverlap);
    var first := versions.counters.nextFile;
    outputs := DoCompactionWork(compaction, input, snapshot, tableSize, maxOutputFileSize, first);
    VersionFilesHaveNumbers(versions);
    MergeOutputsAreGood(v, c, input, snapshot, outputs, first);
    OutputsAreNotInputs(v, c, outputs, first);
    AllocateNumbers(versions, |outputs|);
    OutputsFit(versions, c, outputs, first);
  }

  /** The tables to install one level down: the only input file itself, or what the merge wrote. */
  method CompactionOutputs(versions: VersionSet, c: Inputs, isManual: bool, snapshot: nat, maxGrandParentOverlap: nat,
                           tableSize: seq<Entry> -> nat, maxOutputFileSize: nat)
    returns (outputs: seq<File>, ghost moved: bool)
    requires versions.Valid() && V.Valid(versions.current) && Selected(versions.current, c) && snapshot < MAX_SEQUENCE
    modifies versions`counters
    ensures versions.Valid() && |versions.current.levels| == NUM_LEVELS
    ensures Produced(versions.current, c, snapshot, outputs, moved) && versions.Fits(CompactionEdit(c, outputs))
    ensures moved <==> !isManual && IsTrivialMove(c, maxGrandParentOverlap)
    ensures versions.counters == old(versions.counters).(nextFile := versions.counters.nextFile)
    ensures old(versions.counters.nextFile) <= versions.counters.nextFile
  {
    CurrentLevels(versions);
    hide V.Valid, VersionSet.Valid, VersionSet.Fits, Selected, CompactionEdit, Produced;
    moved := !isManual && IsTrivialMove(c, maxGrandParentOverlap);
    if !isManual && IsTrivialMove(c, maxGrandParentOverlap) {
      outputs := c.in0;
      MoveFits(versions, c);
      MoveProduces(versions.current, c, snapshot);
    } else {
      outputs := MergeTables(versions, c, snapshot, maxGrandParentOverlap, tableSize, maxOutputFileSize);
    }
  }

  lemma BelowIsSorted(v: Version)
    requires V.Valid(v)
    ensures SortedBelow(v)
  {
    forall lvl, f | 0 <= lvl < NUM_LEVELS && f in v.levels[lvl]
      ensures f.smallest.user <= f.largest.user
    {
      RangeOrdered(f);
    }
  }

  lemma VersionFilesHaveNumbers(vs: VersionSet)
    requires vs.Valid()
    ensures NumbersBelow(vs.current, vs.counters.nextFile)
    ensures forall f :: f in vs.files ==> f.number < vs.counters.nextFile
  {
    FilesHaveNumbers(vs.current, vs.files, vs.counters.nextFile);
  }

  lemma OutputsAreNotInputs(v: Version, c: Inputs, outputs: seq<File>, first: nat)
    requires V.Valid(v) && Selected(v, c) && NumbersBelow(v, first) && WellDescribed(outputs, first)
    ensures forall f :: f in outputs ==> !IsInput(c, c.level + 1, f)
  {
    InputsAreFiles(v, c);
  }

  lemma OutputsFit(vs: VersionSet, c: Inputs, outputs: seq<File>, first: nat)
    requires vs.Valid() && c.level + 1 < NUM_LEVELS && WellDescribed(outputs, first)
    requires forall f :: f in vs.files ==> f.number < first
    requires first + |outputs| <= vs.counters.nextFile
    ensures vs.Fits(CompactionEdit(c, outputs))
  {
    CompactionEditAdds(c, outputs);
    FreshFilesFit(vs, CompactionEdit(c, outputs));
  }

  /** A moved table fits one level down. */
  lemma MoveFits(vs: VersionSet, c: Inputs)
    requires vs.Valid() && V.Valid(vs.current) && Selected(vs.current, c) && |c.in0| == 1
    ensures vs.Fits(CompactionEdit(c, c.in0))
    ensures forall f :: f in c.in0 ==> f !in vs.current.levels[c.level + 1]
  {
    CompactionEditAdds(c, c.in0);
    InputsAreFiles(vs.current, c);
    var f := c.in0[0];
    assert f in c.in0 && f in FilesOf(vs.current.levels[c.level]);
    assert DisjointNumbers(vs.current.levels[c.level], vs.current.levels[c.level + 1]);
    assert vs.files + FilesOf(c.in0) == vs.files;
  }

  /** After a compaction readers at or after the oldest snapshot find what they found before, unless
      it loses a deletion. */
  lemma CompactedReads(v: Version, c: Inputs, oldest: nat, outputs: seq<File>, moved: bool, w: Version)
    requires V.Valid(v) && Selected(v, c) && |v.levels| == NUM_LEVELS && IsCompacted(v, c, outputs, w)
    requires Produced(v, c, oldest, outputs, moved)
    ensures V.Valid(w) && Contents(w) <= Contents(v)
    ensures SameReads(Contents(w), Contents(v), oldest) <==> moved || !LosesSome(v, c, oldest)
  {
    hide V.Valid, Selected, IsCompacted, GoodOutputs, LosesSome, SameReads, Contents, IsInput, InputEntries, RestEntries, IsMergedInput;
    OutputsShrink(c, outputs, v);
    CompactionKeepsInvariants(v, c, outputs, w);
    ContentsShrink(v, c, outputs, w);
    InputsAreFiles(v, c);
    if moved {
      SameStoreSameReads(Contents(v), oldest);
    } else {
      var input :| IsMergedInput(c, input) && LevelEntries(outputs) == SeqSet(Kept(v, c.level, input, |input|, oldest));
      MergedReads(v, c, oldest, input, Contents(w));
    }
  }

  lemma SameStoreSameReads(S: set<Entry>, oldest: nat)
    ensures SameReads(S, S, oldest)
  {
  }

  lemma MergedReads(v: Version, c: Inputs, oldest: nat, input: seq<Entry>, after: set<Entry>)
    requires V.Valid(v) && Selected(v, c) && |v.levels| == NUM_LEVELS && IsMergedInput(c, input)
    requires after == EntriesAfter(v, c, input, oldest)
    ensures SameReads(after, Contents(v), oldest) <==> !LosesSome(v, c, oldest)
  {
    hide V.Valid, Selected, LosesTombstone, Contents, Read, IsMergedInput, EntriesAfter;
    forall u, s | oldest <= s
      ensures (exists e :: LosesTombstone(v, c, oldest, e, u, s)) <==> Read(after, u, s) != Read(Contents(v), u, s)
    {
      ReadChangesIffTombstoneLost(v, c, input, oldest, u, s);
    }
    if !SameReads(after, Contents(v), oldest) {
      var u, s: nat :| oldest <= s && Read(after, u, s) != Read(Contents(v), u, s);
      var e :| LosesTombstone(v, c, oldest, e, u, s);
    }
    if LosesSome(v, c, oldest) {
      var u, s: nat, e :| oldest <= s && LosesTombstone(v, c, oldest, e, u, s);
      assert Read(after, u, s) != Read(Contents(v), u, s);
    }
  }

  lemma MoveProduces(v: Version, c: Inputs, snapshot: nat)
    requires V.Valid(v) && Selected(v, c) && |v.levels| == NUM_LEVELS && |c.in0| == 1 && c.in1 == []
    ensures Produced(v, c, snapshot, c.in0, true)
  {
    TrivialMoveIsGood(v, c);
  }

  lemma ProducedElsewhere(v: Version, c: Inputs, snapshot: nat, outputs: seq<File>, moved: bool)
    requires |v.levels| == NUM_LEVELS && Produced(v, c, snapshot, outputs, moved)
    ensures forall f :: f in outputs ==> !IsInput(c, c.level + 1, f)
  {
  }

  lemma NoCounters(c: Inputs, outputs: seq<File>)
    ensures CompactionEdit(c, outputs).logNumber.None? && CompactionEdit(c, outputs).prevLogNumber.None?
  {
  }

  lemma LowerClosedLosesNone(v: Version, c: Inputs, oldest: nat)
    requires V.Valid(v) && Selected(v, c) && |v.levels| == NUM_LEVELS
    ensures c.level + 1 < NUM_LEVELS
    ensures LowerClosed(v, c) ==> !LosesSome(v, c, oldest)
  {
    if LowerClosed(v, c) {
      forall u, s, e
        ensures !LosesTombstone(v, c, oldest, e, u, s)
      {
        NoTombstoneLost(v, c, oldest, u, s, e);
      }
    }
  }

  lemma OutputsShrink(c: Inputs, outputs: seq<File>, v: Version)
    requires GoodOutputs(v, c, outputs)
    ensures forall f :: f in outputs ==> FileEntries(f) <= InputEntries(c)
  {
  }

  /** The newer layers do not see the difference. */
  lemma LayersCompact(mem: seq<Entry>, imm: Option<seq<Entry>>, v: Version, flushed: nat, switched: nat, last: nat, w: Version, oldest: nat)
    requires Layered(mem, imm, v, flushed, switched, last) && V.Valid(w) && Contents(w) <= Contents(v)
    ensures Layered(mem, imm, w, flushed, switched, last)
    ensures AllEntries(mem, imm, w) <= AllEntries(mem, imm, v)
    ensures SameReads(Contents(w), Contents(v), oldest) ==> SameReads(AllEntries(mem, imm, w), AllEntries(mem, imm, v), Lesser(flushed, oldest))
  {
    LayeredDistinct(mem, imm, v, flushed, switched, last);
    DistinctSubset(Contents(w), Contents(v));
    if SameReads(Contents(w), Contents(v), oldest) {
      SameReadsEarlier(Contents(w), Contents(v), flushed, oldest);
      SameReadsExtend(ImmSet(imm), Contents(w), Contents(v), flushed, Lesser(flushed, oldest));
      SameReadsExtend(SeqSet(mem), ImmSet(imm) + Contents(w), ImmSet(imm) + Contents(v), switched, Lesser(flushed, oldest));
    }
  }

  /** A compaction keeps the layers, and the reads unless it loses a deletion. */
  lemma CompactionStep(mem: seq<Entry>, imm: Option<seq<Entry>>, v: Version, flushed: nat, switched: nat, last: nat,
                       c: Inputs, outputs: seq<File>, moved: bool, w: Version, history: set<Entry>, intact: bool, oldest: nat)
    requires Layered(mem, imm, v, flushed, switched, last) && FaithfulTo(AllEntries(mem, imm, v), history, intact, Lesser(flushed, oldest), last)
    requires |v.levels| == NUM_LEVELS && V.Valid(v) && Selected(v, c) && Produced(v, c, oldest, outputs, moved)
    requires Installed(v, CompactionEdit(c, outputs), w)
    ensures Layered(mem, imm, w, flushed, switched, last)
    ensures FaithfulTo(AllEntries(mem, imm, w), history, intact && (moved || !LosesSome(v, c, oldest)), Lesser(flushed, oldest), last)
    ensures IsCompacted(v, c, outputs, w)
  {
    hide V.Valid, Layered, FaithfulTo, SeqSet, AllEntries, SameReads, Contents, Installed, Selected, Produced, LosesSome, IsCompacted, CompactionEdit;
    SelectedLevels(v, c);
    ProducedElsewhere(v, c, oldest, outputs, moved);
    CompactionInstalled(v, c, outputs, w);
    CompactedReads(v, c, oldest, outputs, moved, w);
    LayersCompact(mem, imm, v, flushed, switched, last, w, oldest);
    FaithfulStays(AllEntries(mem, imm, v), AllEntries(mem, imm, w), history, intact, Lesser(flushed, oldest), last, moved || !LosesSome(v, c, oldest));
  }

  lemma FaithfulLater(all: set<Entry>, history: set<Entry>, intact: bool, oldest: nat, later: nat, last: nat)
    requires FaithfulTo(all, history, intact, oldest, last) && oldest <= later
    ensures FaithfulTo(all, history, intact, later, last)
  {
  }

  lemma FaithfulStays(before: set<Entry>, after: set<Entry>, history: set<Entry>, intact: bool, oldest: nat, last: nat, stays: bool)
    requires FaithfulTo(before, history, intact, oldest, last)
    requires after <= before && (stays ==> SameReads(after, before, oldest))
    ensures FaithfulTo(after, history, intact && stays, oldest, last)
  {
  }

  /** The table `BuildTable` makes of a non-empty memtable. */
  function MemFile(mem: seq<Entry>, number: nat, size: nat): File
    requires mem != []
  {
    File(number, size, mem[0].key, mem[|mem| - 1].key, mem)
  }

  lemma LogFileIsLater(logs: map<nat, LogFile>, min: nat, logFile: nat, immLog: nat, mem: seq<Entry>, imm: Option<seq<Entry>>)
    requires Logged(logs, min, logFile, immLog, mem, imm)
    ensures min <= logFile
  {
  }

  lemma LayeredVersion(mem: seq<Entry>, imm: Option<seq<Entry>>, v: Version, flushed: nat, switched: nat, last: nat)
    requires Layered(mem, imm, v, flushed, switched, last)
    ensures V.Valid(v) && |v.levels| == NUM_LEVELS && flushed <= switched <= last <= MAX_SEQUENCE
  {
  }

  lemma PickedLevelFits(v: Version, level: nat, f: File)
    requires |v.levels| == NUM_LEVELS && level <= MAX_MEM_COMPACT_LEVEL
    requires forall i, g :: 0 < level && 0 <= i <= level && g in v.levels[i] ==> !Overlaps(g, Some(f.smallest.user), Some(f.largest.user))
    ensures FitsAt(v, level, f)
  {
  }

  lemma NoFilesFit(vs: VersionSet, e: Edit)
    requires vs.Valid() && e.added == [] && e.deleted == {}
    ensures vs.Fits(e)
  {
    FreshFilesFit(vs, e);
  }

  lemma OneFileFits(vs: VersionSet, e: Edit, level: nat, f: File)
    requires vs.Valid() && e.added == [(level, f)] && e.deleted == {} && level < NUM_LEVELS
    requires f.number < vs.counters.nextFile && forall g :: g in vs.files ==> g.number < f.number
    ensures vs.Fits(e)
  {
    assert forall g :: g in AllAdded(e) ==> g == f;
    FreshFilesFit(vs, e);
  }

  lemma IsInstalled(v: Version, e: Edit, w: Version, vs: VersionSet)
    requires vs.Valid() && vs.current == w && |v.levels| == NUM_LEVELS
    requires forall lvl :: 0 <= lvl < NUM_LEVELS ==> FilesOf(w.levels[lvl]) == EditedFiles(FilesOf(v.levels[lvl]), e, lvl)
    ensures Installed(v, e, w)
    ensures NumbersBelow(w, vs.counters.nextFile)
  {
    FilesHaveNumbers(w, vs.files, vs.counters.nextFile);
  }

  lemma FlushInstalled(v: Version, e: Edit, level: nat, f: File, w: Version)
    requires Installed(v, e, w) && e.deleted == {} && e.added == [(level, f)] && level < NUM_LEVELS
    ensures IsFlushed(v, level, f, w)
  {
    assert e.added[0] in e.added;
    forall lvl, g | 0 <= lvl < NUM_LEVELS
      ensures g in w.levels[lvl] <==> g in v.levels[lvl] || (lvl == level && g == f)
    {
      InstalledFiles(v, e, w, lvl, g);
      assert g in AddedAt(e, lvl) <==> lvl == level && g == f;
    }
  }

  lemma NothingInstalled(v: Version, e: Edit, w: Version)
    requires Installed(v, e, w) && e.deleted == {} && e.added == [] && V.Valid(v)
    ensures v == w
  {
    forall lvl | 0 <= lvl < NUM_LEVELS
      ensures v.levels[lvl] == w.levels[lvl]
    {
      assert EditedFiles(FilesOf(v.levels[lvl]), e, lvl) == FilesOf(v.levels[lvl]);
      SameFilesSameListing(v.levels[lvl], w.levels[lvl]);
    }
    assert v.levels == w.levels;
  }

  lemma MemFileIsValid(imm: seq<Entry>, number: nat, size: nat)
    requires Sorted(imm) && imm != [] && UpTo(SeqSet(imm), MAX_SEQUENCE)
    ensures ValidFile(MemFile(imm, number, size)) && FileEntries(MemFile(imm, number, size)) == SeqSet(imm)
  {
    assert forall e :: e in imm ==> e in SeqSet(imm);
  }

  lemma LayersFlush(mem: seq<Entry>, imm: seq<Entry>, v: Version, flushed: nat, switched: nat, last: nat, e: Edit, w: Version)
    requires Layered(mem, Some(imm), v, flushed, switched, last) && Installed(v, e, w) && e.deleted == {}
    requires if imm == [] then e.added == []
              else IsFlushEdit(v, imm, e)
    ensures Layered(mem, None, w, switched, switched, last)
    ensures AllEntries(mem, None, w) == AllEntries(mem, Some(imm), v)
  {
    if imm == [] {
      NothingInstalled(v, e, w);
    } else {
      var level, number, size :| FlushEdit(v, imm, e, level, number, size);
      var f := MemFile(imm, number, size);
      MemFileIsValid(imm, number, size);
      FlushInstalled(v, e, level, f, w);
      FlushKeepsInvariants(v, level, f, w, flushed);
      FlushedContents(v, level, f, w);
    }
  }

  ghost predicate FlushEdit(v: Version, imm: seq<Entry>, e: Edit, level: nat, number: nat, size: nat) {
    && imm != [] && |v.levels| == NUM_LEVELS
    && e.added == [(level, MemFile(imm, number, size))]
    && FitsAt(v, level, MemFile(imm, number, size)) && NumbersBelow(v, number)
  }

  ghost predicate IsFlushEdit(v: Version, imm: seq<Entry>, e: Edit) {
    exists level, number, size :: FlushEdit(v, imm, e, level, number, size)
  }

  lemma NumberIsNew(vs: VersionSet, imm: seq<Entry>, e: Edit, level: nat, number: nat, size: nat)
    requires vs.Valid() && (forall g :: g in vs.files ==> g.number < number) && imm != []
    requires e.added == [(level, MemFile(imm, number, size))] && FitsAt(vs.current, level, MemFile(imm, number, size))
    ensures IsFlushEdit(vs.current, imm, e)
  {
    FilesHaveNumbers(vs.current, vs.files, number);
    assert FlushEdit(vs.current, imm, e, level, number, size);
  }

  lemma LogsFlush(logs: map<nat, LogFile>, min: nat, logFile: nat, immLog: nat, mem: seq<Entry>, imm: Option<seq<Entry>>)
    requires Logged(logs, min, logFile, immLog, mem, imm)
    ensures Logged(logs, logFile, logFile, immLog, mem, None)
  {
  }

  lemma LayersSwitch(mem: seq<Entry>, v: Version, flushed: nat, switched: nat, last: nat)
    requires Layered(mem, None, v, flushed, switched, last)
    ensures Layered([], Some(mem), v, flushed, last, last)
    ensures AllEntries([], Some(mem), v) == AllEntries(mem, None, v)
  {
  }

  lemma LogsSwitch(logs: map<nat, LogFile>, min: nat, logFile: nat, immLog: nat, mem: seq<Entry>, newLog: nat)
    requires Logged(logs, min, logFile, immLog, mem, None) && logFile < newLog
    ensures newLog !in logs && Logged(logs[newLog := []], min, newLog, logFile, [], Some(mem))
  {
    assert newLog !in logs;
  }

  lemma LogsCollected(logs: map<nat, LogFile>, min: nat, logFile: nat, immLog: nat, mem: seq<Entry>, imm: Option<seq<Entry>>)
    requires Logged(logs, min, logFile, immLog, mem, imm)
    ensures Logged(map n | n in logs && (n >= min || n == 0) :: logs[n], min, logFile, immLog, mem, imm)
  {
  }

  lemma MemoryFacts(mem: seq<Entry>, imm: Option<seq<Entry>>, v: Version, flushed: nat, switched: nat, last: nat,
                    logs: map<nat, LogFile>, min: nat, logFile: nat, immLog: nat)
    requires Layered(mem, imm, v, flushed, switched, last) && Logged(logs, min, logFile, immLog, mem, imm)
    ensures Sorted(mem) && UpTo(SeqSet(mem), last) && logFile in logs
  {
  }

  ghost predicate FaithfulTo(all: set<Entry>, history: set<Entry>, intact: bool, oldest: nat, last: nat) {
    && Distinct(history) && UpTo(history, last) && all <= history
    && (intact ==> SameReads(all, history, oldest))
  }

  lemma GrownSet(mem: seq<Entry>, record: seq<Entry>)
    ensures SeqSet(mem + record) == SeqSet(mem) + SeqSet(record)
  {
  }

  /** The logs in use hold the writes in sequence order. */
  lemma LogsAreOrdered(logs: map<nat, LogFile>, min: nat, logFile: nat, immLog: nat, mem: seq<Entry>, imm: Option<seq<Entry>>,
                       v: Version, flushed: nat, switched: nat, last: nat)
    requires Layered(mem, imm, v, flushed, switched, last) && Logged(logs, min, logFile, immLog, mem, imm)
    ensures OrderedLogs(logs, min)
    ensures Above(SeqSet(mem) + ImmSet(imm), flushed) && UpTo(SeqSet(mem) + ImmSet(imm), MAX_SEQUENCE)
  {
  }

  lemma LoggedRecord(mem: seq<Entry>, imm: Option<seq<Entry>>, v: Version, flushed: nat, switched: nat, last: nat,
                     record: seq<Entry>, newLast: nat, logs: map<nat, LogFile>, min: nat, logFile: nat, immLog: nat)
    requires Layered(mem, imm, v, flushed, switched, last) && last <= newLast <= MAX_SEQUENCE
    requires Above(SeqSet(record), last) && UpTo(SeqSet(record), newLast) && Distinct(SeqSet(record))
    requires Logged(logs, min, logFile, immLog, mem + record, imm)
    ensures V.Valid(v) && UpTo(Contents(v), flushed)
    ensures OrderedLogs(logs, min) && Above(Unflushed(logs, min), flushed) && UpTo(Unflushed(logs, min), MAX_SEQUENCE)
    ensures Contents(v) + Unflushed(logs, min) == AllEntries(mem, imm, v) + SeqSet(record)
  {
    LoggedEntries(logs, min, logFile, immLog, mem + record, imm);
    GrownSet(mem, record);
  }

  lemma LayersGrow(mem: seq<Entry>, imm: Option<seq<Entry>>, v: Version, flushed: nat, switched: nat, last: nat,
                   record: seq<Entry>, newLast: nat, grown: seq<Entry>)
    requires Layered(mem, imm, v, flushed, switched, last) && last <= newLast <= MAX_SEQUENCE
    requires Above(SeqSet(record), last) && UpTo(SeqSet(record), newLast) && Distinct(SeqSet(record))
    requires Sorted(grown) && SeqSet(grown) == SeqSet(mem) + SeqSet(record)
    ensures Layered(grown, imm, v, flushed, switched, newLast)
    ensures AllEntries(grown, imm, v) == AllEntries(mem, imm, v) + SeqSet(record)
  {
    LayersAreDistinct(SeqSet(record), SeqSet(mem), last);
  }

  lemma ReadsGrow(mem: seq<Entry>, imm: Option<seq<Entry>>, v: Version, flushed: nat, switched: nat, last: nat,
                  history: set<Entry>, record: seq<Entry>, intact: bool, oldest: nat, grown: seq<Entry>, newLast: nat, newOldest: nat)
    requires Layered(mem, imm, v, flushed, switched, last) && SeqSet(grown) == SeqSet(mem) + SeqSet(record)
    requires Above(SeqSet(record), last) && UpTo(SeqSet(record), newLast) && Distinct(SeqSet(record)) && last <= newLast
    requires FaithfulTo(AllEntries(mem, imm, v), history, intact, oldest, last) && oldest <= newOldest
    ensures FaithfulTo(AllEntries(grown, imm, v), history + SeqSet(record), intact, newOldest, newLast)
  {
    LayeredDistinct(mem, imm, v, flushed, switched, last);
    LayersAreDistinct(SeqSet(record), history, last);
    if intact {
      SameReadsExtend(SeqSet(record), AllEntries(mem, imm, v), history, last, oldest);
      assert SeqSet(record) + AllEntries(mem, imm, v) == AllEntries(grown, imm, v);
      assert SeqSet(record) + history == history + SeqSet(record);
    }
  }

  lemma MemIsOlder(mem: seq<Entry>, record: seq<Entry>, last: nat)
    requires UpTo(SeqSet(mem), last) && Above(SeqSet(record), last)
    ensures Older(SeqSet(mem), SeqSet(record))
  {
  }

  lemma LogGrows(logs: map<nat, LogFile>, min: nat, logFile: nat, immLog: nat, mem: seq<Entry>, imm: Option<seq<Entry>>,
                 record: seq<Entry>, last: nat, grown: seq<Entry>)
    requires Logged(logs, min, logFile, immLog, mem, imm) && UpTo(SeqSet(mem), last)
    requires Increasing(record) && Above(SeqSet(record), last)
    requires SeqSet(grown) == SeqSet(mem) + SeqSet(record)
    ensures Logged(logs[logFile := logs[logFile] + [record]], min, logFile, immLog, grown, imm)
  {
    var log := logs[logFile];
    var longer := log + [record];
    assert LogEntries(longer) == LogEntries(log) + SeqSet(record) by {
      assert forall r :: r in longer <==> r in log || r == record;
    }
    forall i | 0 <= i < |log|
      ensures Older(SeqSet(log[i]), SeqSet(record))
    {
      assert log[i] in log;
      assert SeqSet(log[i]) <= LogEntries(log);
    }
    assert OrderedLog(longer);
  }

  // ---------- crashing, and starting from nothing ----------

  /** A crash at any moment between operations, and opening the store again: every write is there,
      and every read gives what it gave before. */
  method CrashAndReopen(db: DB, full: seq<Entry> -> bool, tableSize: seq<Entry> -> nat) returns (again: DB)
    requires db.Valid()
    ensures again.Valid() && fresh(again) && again.All() == db.All()
  {
    db.CrashLosesNothing();
    again := new DB.Open(Disk(db.versions.manifest, db.logs), full, tableSize, db.versions.current, db.saved, db.flushed);
  }

  /** `NewDB`: the manifest of an empty store. */
  function NewManifest(): seq<Edit> {
    [Edit({}, [], Some(0), None, Some(2), Some(0))]
  }

  lemma EmptyVersionIsValid()
    ensures V.Valid(EmptyVersion()) && Contents(EmptyVersion()) == {}
  {
    assert forall lvl :: 0 <= lvl < NUM_LEVELS ==> EmptyVersion().levels[lvl] == [];
  }

  lemma NewManifestDescribes()
    ensures Describes(NewManifest(), EmptyVersion())
  {
    var m := NewManifest();
    assert m[..0] == [];
    forall lvl | 0 <= lvl < NUM_LEVELS
      ensures Replayed(m, lvl) == {} == FilesOf(EmptyVersion().levels[lvl])
    {
      assert EmptyVersion().levels[lvl] == [];
    }
  }

  lemma NewStoreIsRecoverable()
    ensures Recoverable(Disk(NewManifest(), map[]), EmptyVersion(), Counters(0, 0, 2, 0), 0)
    ensures Survives(Disk(NewManifest(), map[]), EmptyVersion(), Counters(0, 0, 2, 0)) == {}
  {
    hide V.Valid, Describes;
    NewManifestDescribes();
    EmptyVersionIsValid();
    assert NewManifest()[..0] == [];
    assert Unflushed(map[], 0) == {};
  }
}
