/** What a crash leaves on disk, and recovering from it (db/db_impl.cc). */
module Recovery {
  import opened History
  import opened Version
  import opened CompactionSafety
  import opened Layers
  import opened Manifest

  /** A log file is a list of records, each the entries of one write group. */
  type LogFile = seq<seq<Entry>>

  datatype Disk = Disk(manifest: seq<Edit>, logs: map<nat, LogFile>)

  ghost function LogEntries(log: LogFile): set<Entry> {
    set r, e | r in log && e in r :: e
  }

  /** What the logs from number `min` on hold. */
  ghost function Unflushed(logs: map<nat, LogFile>, min: nat): set<Entry> {
    set n, r, e | n in logs && min <= n && r in logs[n] && e in r :: e
  }

  // ---------- writes reach the logs in sequence order ----------

  ghost predicate Older(a: set<Entry>, b: set<Entry>) {
    forall x, y :: x in a && y in b ==> x.key.sequence < y.key.sequence
  }

  ghost predicate Increasing(record: seq<Entry>) {
    forall i, j :: 0 <= i < j < |record| ==> record[i].key.sequence < record[j].key.sequence
  }

  ghost predicate OrderedLog(log: LogFile) {
    && (forall i :: 0 <= i < |log| ==> Increasing(log[i]))
    && (forall i, j :: 0 <= i < j < |log| ==> Older(SeqSet(log[i]), SeqSet(log[j])))
  }

  ghost predicate OrderedLogs(logs: map<nat, LogFile>, min: nat) {
    && (forall n :: n in logs && min <= n ==> OrderedLog(logs[n]))
    && (forall n, m :: n in logs && m in logs && min <= n < m ==> Older(LogEntries(logs[n]), LogEntries(logs[m])))
  }

  /** The disk holds the version `v`, whose data go up to sequence number `bound`, and above that
      whatever the logs from the recorded log number on hold. */
  ghost predicate Recoverable(disk: Disk, v: Version, c: Counters, bound: nat) {
    && Describes(disk.manifest, v) && Valid(v)
    && LastRecorded(disk.manifest, LogNumber) == Some(c.logNumber)
    && (LastRecorded(disk.manifest, PrevLogNumber).Some? ==> LastRecorded(disk.manifest, PrevLogNumber).value == 0)
    && LastRecorded(disk.manifest, NextFile) == Some(c.nextFile)
    && LastRecorded(disk.manifest, LastSequence) == Some(c.lastSequence)
    && c.prevLogNumber == 0 && 0 !in disk.logs && c.logNumber < c.nextFile
    && NumbersBelow(v, c.nextFile)
    && bound <= c.lastSequence <= MAX_SEQUENCE
    && UpTo(Contents(v), bound) && Above(Unflushed(disk.logs, c.logNumber), bound)
    && OrderedLogs(disk.logs, c.logNumber)
    && UpTo(Unflushed(disk.logs, c.logNumber), MAX_SEQUENCE)
  }

  /** Everything that must survive a crash. */
  ghost function Survives(disk: Disk, v: Version, c: Counters): set<Entry> {
    Contents(v) + Unflushed(disk.logs, c.logNumber)
  }

  // ---------- replaying one log ----------

  /** Tables written one after another from entries in sequence order. */
  ghost predicate Batches(tables: seq<File>, firstNumber: nat) {
    && (forall i :: 0 <= i < |tables| ==> ValidFile(tables[i]) && tables[i].number >= firstNumber)
    && (forall i, j :: 0 <= i < j < |tables| ==>
          tables[i].number < tables[j].number && Older(FileEntries(tables[i]), FileEntries(tables[j])))
  }

  ghost function UpToRecord(log: LogFile, n: nat): set<Entry>
    requires n <= |log|
  {
    LogEntries(log[..n])
  }

  lemma RecordStep(log: LogFile, n: nat)
    requires n < |log|
    ensures UpToRecord(log, n + 1) == UpToRecord(log, n) + SeqSet(log[n])
  {
    assert forall r :: r in log[..n + 1] <==> r in log[..n] || r == log[n];
  }

  lemma EarlierRecordsAreOlder(log: LogFile, n: nat)
    requires OrderedLog(log) && n < |log|
    ensures Older(UpToRecord(log, n), SeqSet(log[n]))
  {
    forall x | x in UpToRecord(log, n)
      ensures forall y :: y in SeqSet(log[n]) ==> x.key.sequence < y.key.sequence
    {
      var i :| 0 <= i < n && x in log[..n][i];
      assert Older(SeqSet(log[i]), SeqSet(log[n])) && x in SeqSet(log[i]);
    }
  }

  /** `InsertInto`: one record goes into the memtable, entry by entry. */
  method InsertRecord(mem: seq<Entry>, record: seq<Entry>) returns (r: seq<Entry>)
    requires Sorted(mem) && Increasing(record) && Older(SeqSet(mem), SeqSet(record))
    ensures Sorted(r) && SeqSet(r) == SeqSet(mem) + SeqSet(record)
  {
    r := mem;
    for j := 0 to |record|
      invariant Sorted(r) && SeqSet(r) == SeqSet(mem) + SeqSet(record[..j])
    {
      assert record[..j + 1] == record[..j] + [record[j]];
      forall x | x in r
        ensures x.key.sequence < record[j].key.sequence
      {
        assert x in SeqSet(r) && record[j] in SeqSet(record);
        if x in SeqSet(record[..j]) {
          var i :| 0 <= i < j && record[..j][i] == x;
          assert record[i] == x;
        }
      }
      r := InsertSorted(r, record[j]);
    }
    assert record[..|record|] == record;
  }

  /** Tables, memtable and next file number while logs are replayed: together they hold `done`. */
  ghost predicate Replaying(tables: seq<File>, mem: seq<Entry>, next: nat, done: set<Entry>, first: nat) {
    && Sorted(mem)
    && Batches(tables, first) && first <= next && (forall f :: f in tables ==> f.number < next)
    && LevelEntries(tables) + SeqSet(mem) == done
    && Older(LevelEntries(tables), SeqSet(mem))
  }

  lemma AppendTable(tables: seq<File>, f: File, first: nat)
    requires Batches(tables, first) && ValidFile(f) && first <= f.number && forall g :: g in tables ==> g.number < f.number
    requires Older(LevelEntries(tables), FileEntries(f))
    ensures Batches(tables + [f], first)
    ensures LevelEntries(tables + [f]) == LevelEntries(tables) + FileEntries(f)
  {
    AppendedEntries(tables, f);
    hide ValidFile, Older, LevelEntries, FileEntries;
    forall i | 0 <= i < |tables|
      ensures Older(FileEntries(tables[i]), FileEntries(f)) && tables[i].number < f.number
    {
      assert tables[i] in tables;
      OlderSubset(tables, i, FileEntries(f));
    }
  }

  lemma AppendedEntries(tables: seq<File>, f: File)
    ensures LevelEntries(tables + [f]) == LevelEntries(tables) + FileEntries(f)
  {
    assert forall g :: g in tables + [f] <==> g in tables || g == f;
  }

  lemma OlderSubset(tables: seq<File>, i: nat, newer: set<Entry>)
    requires i < |tables| && Older(LevelEntries(tables), newer)
    ensures Older(FileEntries(tables[i]), newer)
  {
    assert FileEntries(tables[i]) <= LevelEntries(tables);
  }

  /** `WriteLevel0Table` without a base version: nothing for an empty memtable, else a level-0 table. */
  method WriteLevel0Table(mem: seq<Entry>, next: nat, tableSize: seq<Entry> -> nat, tables: seq<File>,
                          ghost done: set<Entry>, ghost first: nat)
    returns (r: seq<File>)
    requires Replaying(tables, mem, next, done, first) && UpTo(done, MAX_SEQUENCE)
    ensures Replaying(r, [], next + 1, done, first)
  {
    if mem == [] {
      return tables;
    }
    var f := File(next, tableSize(mem), mem[0].key, mem[|mem| - 1].key, mem);
    assert ValidFile(f) by {
      assert forall e :: e in mem ==> e in SeqSet(mem) && e in done;
    }
    assert FileEntries(f) == SeqSet(mem);
    AppendTable(tables, f, first);
    r := tables + [f];
  }

  /** One record goes into the memtable, which becomes a table once it is full. */
  method ReplayRecord(record: seq<Entry>, tables: seq<File>, mem: seq<Entry>, next: nat,
                      full: seq<Entry> -> bool, tableSize: seq<Entry> -> nat, ghost done: set<Entry>, ghost first: nat)
    returns (r: seq<File>, memOut: seq<Entry>, nextOut: nat)
    requires Replaying(tables, mem, next, done, first)
    requires Increasing(record) && Older(done, SeqSet(record))
    requires UpTo(done + SeqSet(record), MAX_SEQUENCE)
    ensures Replaying(r, memOut, nextOut, done + SeqSet(record), first) && next <= nextOut
  {
    assert SeqSet(mem) <= done && LevelEntries(tables) <= done;
    r, nextOut := tables, next;
    memOut := InsertRecord(mem, record);
    assert Older(LevelEntries(tables), SeqSet(memOut));
    if full(memOut) {
      r := WriteLevel0Table(memOut, next, tableSize, tables, done + SeqSet(record), first);
      nextOut := next + 1;
      memOut := [];
    }
  }

  /** Replays one log into memtables, writing a table whenever one is full and at the end. */
  method RecoverLogFile(log: LogFile, tables: seq<File>, next: nat, full: seq<Entry> -> bool, tableSize: seq<Entry> -> nat,
                        ghost first: nat)
    returns (r: seq<File>, nextOut: nat, maxSequence: nat)
    requires Replaying(tables, [], next, LevelEntries(tables), first)
    requires OrderedLog(log) && UpTo(LevelEntries(tables) + LogEntries(log), MAX_SEQUENCE)
    requires Older(LevelEntries(tables), LogEntries(log))
    ensures Replaying(r, [], nextOut, LevelEntries(tables) + LogEntries(log), first) && next <= nextOut
    ensures Highest(LogEntries(log), maxSequence)
  {
    hide Highest, OrderedLog, Increasing, Older, Replaying, UpToRecord, LogEntries, LevelEntries, UpTo;
    var mem: seq<Entry> := [];
    r, nextOut, maxSequence := tables, next, 0;
    ghost var done := LevelEntries(tables);
    NoRecords(log, done);
    for i := 0 to |log|
      invariant Replaying(r, mem, nextOut, done, first) && next <= nextOut
      invariant done == LevelEntries(tables) + UpToRecord(log, i)
      invariant Highest(UpToRecord(log, i), maxSequence) && (i == 0 ==> mem == [])
    {
      NextRecord(log, i, LevelEntries(tables));
      MaxStep(log, i, maxSequence);
      r, mem, nextOut := ReplayRecord(log[i], r, mem, nextOut, full, tableSize, done, first);
      done := done + SeqSet(log[i]);
      maxSequence := MaxSequence(maxSequence, log[i]);
    }
    AllRecords(log);
    ReplayedBound(done, LevelEntries(tables) + LogEntries(log));
    if |log| > 0 {
      r := WriteLevel0Table(mem, nextOut, tableSize, r, done, first);
      nextOut := nextOut + 1;
    }
  }

  lemma NoRecords(log: LogFile, earlier: set<Entry>)
    ensures Highest(UpToRecord(log, 0), 0) && earlier == earlier + UpToRecord(log, 0)
  {
  }

  lemma AllRecords(log: LogFile)
    ensures UpToRecord(log, |log|) == LogEntries(log)
  {
    assert log[..|log|] == log;
  }

  lemma ReplayedBound(done: set<Entry>, all: set<Entry>)
    requires done == all && UpTo(all, MAX_SEQUENCE)
    ensures UpTo(done, MAX_SEQUENCE)
  {
  }

  lemma NextRecord(log: LogFile, n: nat, earlier: set<Entry>)
    requires OrderedLog(log) && n < |log| && Older(earlier, LogEntries(log)) && UpTo(earlier + LogEntries(log), MAX_SEQUENCE)
    ensures Increasing(log[n]) && Older(earlier + UpToRecord(log, n), SeqSet(log[n]))
    ensures UpTo(earlier + UpToRecord(log, n) + SeqSet(log[n]), MAX_SEQUENCE)
    ensures UpToRecord(log, n + 1) == UpToRecord(log, n) + SeqSet(log[n])
  {
    RecordStep(log, n);
    EarlierRecordsAreOlder(log, n);
    assert log[n] in log && SeqSet(log[n]) <= LogEntries(log);
    assert UpToRecord(log, n) <= LogEntries(log);
  }

  /** `m` is the highest sequence number of `S`, 0 if there is none. */
  ghost predicate Highest(S: set<Entry>, m: nat) {
    UpTo(S, m) && (m > 0 ==> exists e :: e in S && e.key.sequence == m)
  }

  lemma HighestOfUnion(S: set<Entry>, T: set<Entry>, a: nat, b: nat)
    requires Highest(S, a) && Highest(T, b)
    ensures Highest(S + T, if b > a then b else a)
  {
    if b > a {
      var e :| e in T && e.key.sequence == b;
      assert e in S + T;
    } else if a > 0 {
      var e :| e in S && e.key.sequence == a;
      assert e in S + T;
    }
  }

  lemma MaxStep(log: LogFile, n: nat, m: nat)
    requires n < |log| && Increasing(log[n]) && Highest(UpToRecord(log, n), m)
    ensures Highest(UpToRecord(log, n + 1), MaxSequence(m, log[n]))
  {
    RecordStep(log, n);
    LastIsHighest(log[n]);
    if log[n] != [] {
      HighestOfUnion(UpToRecord(log, n), SeqSet(log[n]), m, log[n][|log[n]| - 1].key.sequence);
    } else {
      assert UpToRecord(log, n) + SeqSet(log[n]) == UpToRecord(log, n);
    }
  }

  lemma LastIsHighest(record: seq<Entry>)
    requires Increasing(record)
    ensures record != [] ==> Highest(SeqSet(record), record[|record| - 1].key.sequence)
  {
  }

  /** The last sequence number of a record, if that is larger. */
  function MaxSequence(m: nat, record: seq<Entry>): nat {
    if record == [] then m
    else
      var last := record[|record| - 1].key.sequence;
      if last > m then last else m
  }

  // ---------- replaying all logs ----------

  ghost predicate Ascending(ns: seq<nat>) {
    forall i, j :: 0 <= i < j < |ns| ==> ns[i] < ns[j]
  }

  /** The numbers of the logs to replay, `std::sort`ed. `prevLog` is only set by older versions. */
  method LogsToReplay(logs: map<nat, LogFile>, min: nat, prevLog: nat) returns (ns: seq<nat>)
    ensures Ascending(ns)
    ensures forall n :: n in ns <==> n in logs && (n >= min || n == prevLog)
  {
    ns := [];
    var todo := logs.Keys;
    while todo != {}
      invariant Ascending(ns) && todo <= logs.Keys
      invariant forall n :: n in ns <==> n in logs.Keys - todo && (n >= min || n == prevLog)
    {
      var n :| n in todo;
      todo := todo - {n};
      if n >= min || n == prevLog {
        ns := InsertNumber(ns, n);
      }
    }
  }

  method InsertNumber(ns: seq<nat>, n: nat) returns (r: seq<nat>)
    requires Ascending(ns) && n !in ns
    ensures Ascending(r)
    ensures forall x :: x in r <==> x in ns || x == n
  {
    var k := 0;
    while k < |ns| && ns[k] < n
      invariant k <= |ns| && forall i :: 0 <= i < k ==> ns[i] < n
    {
      k := k + 1;
    }
    assert k < |ns| ==> ns[k] in ns;
    r := Spliced(ns, k, n);
  }

  function Spliced(ns: seq<nat>, k: nat, n: nat): (r: seq<nat>)
    requires k <= |ns|
    ensures forall x :: x in r <==> x in ns || x == n
    ensures |r| == |ns| + 1 && r[k] == n
    ensures forall i :: 0 <= i < k ==> r[i] == ns[i]
    ensures forall i :: k < i < |r| ==> r[i] == ns[i - 1]
  {
    assert ns == ns[..k] + ns[k..];
    ns[..k] + [n] + ns[k..]
  }

  ghost function EntriesOfLogs(logs: map<nat, LogFile>, ns: seq<nat>): set<Entry>
    requires forall n :: n in ns ==> n in logs
  {
    set n, e | n in ns && e in LogEntries(logs[n]) :: e
  }

  lemma LogStep(logs: map<nat, LogFile>, ns: seq<nat>, k: nat, min: nat, bound: nat)
    requires Ascending(ns) && k < |ns| && (forall n :: n in ns ==> n in logs && n >= min)
    requires OrderedLogs(logs, min) && UpTo(Unflushed(logs, min), bound)
    ensures forall n :: n in ns[..k] ==> n in logs
    ensures forall n :: n in ns[..k + 1] ==> n in logs
    ensures OrderedLog(logs[ns[k]]) && Older(EntriesOfLogs(logs, ns[..k]), LogEntries(logs[ns[k]]))
    ensures UpTo(EntriesOfLogs(logs, ns[..k]) + LogEntries(logs[ns[k]]), bound)
    ensures EntriesOfLogs(logs, ns[..k + 1]) == EntriesOfLogs(logs, ns[..k]) + LogEntries(logs[ns[k]])
  {
    assert forall n :: n in ns[..k + 1] <==> n in ns[..k] || n == ns[k];
    assert ns[k] in ns && forall n :: n in ns[..k] ==> n in ns && n < ns[k];
    forall n, e | n in ns && e in LogEntries(logs[n])
      ensures e in Unflushed(logs, min)
    {
      var r :| r in logs[n] && e in r;
    }
  }

  /** After the first `k` logs: what the tables hold, and how far the two counters have come. */
  ghost predicate Progress(logs: map<nat, LogFile>, ns: seq<nat>, k: nat, tables: seq<File>, next: nat, max: nat, first: nat) {
    && k <= |ns| && (forall n :: n in ns[..k] ==> n in logs && n < next)
    && Replaying(tables, [], next, EntriesOfLogs(logs, ns[..k]), first)
    && Highest(EntriesOfLogs(logs, ns[..k]), max)
  }

  /** One more log, and its number marked as used. */
  method ReplayNext(log: LogFile, number: nat, tables: seq<File>, next: nat, max: nat,
                    full: seq<Entry> -> bool, tableSize: seq<Entry> -> nat, ghost done: set<Entry>, ghost first: nat)
    returns (r: seq<File>, nextOut: nat, maxOut: nat)
    requires Replaying(tables, [], next, done, first) && Highest(done, max)
    requires OrderedLog(log) && Older(done, LogEntries(log)) && UpTo(done + LogEntries(log), MAX_SEQUENCE)
    ensures Replaying(r, [], nextOut, done + LogEntries(log), first) && Highest(done + LogEntries(log), maxOut)
    ensures next <= nextOut && number < nextOut
  {
    ReplayedSoFar(tables, next, done, first);
    hide Highest, Replaying, OrderedLog, Older, LogEntries;
    r, nextOut, maxOut := RecoverLogFile(log, tables, next, full, tableSize, first);
    HighestOfUnion(done, LogEntries(log), max, maxOut);
    if maxOut <= max {
      maxOut := max;
    }
    if nextOut <= number {
      ReplayingLater(r, nextOut, number + 1, done + LogEntries(log), first);
      nextOut := number + 1;
    }
  }

  method RecoverLogs(logs: map<nat, LogFile>, min: nat, next: nat, lastSequence: nat,
                     full: seq<Entry> -> bool, tableSize: seq<Entry> -> nat)
    returns (tables: seq<File>, nextOut: nat, lastOut: nat)
    requires 0 !in logs && OrderedLogs(logs, min) && UpTo(Unflushed(logs, min), MAX_SEQUENCE)
    ensures Batches(tables, next) && LevelEntries(tables) == Unflushed(logs, min)
    ensures next <= nextOut && (forall f :: f in tables ==> f.number < nextOut)
    ensures forall n :: n in logs && n >= min ==> n < nextOut
    ensures lastSequence <= lastOut && UpTo(Unflushed(logs, min), lastOut)
    ensures lastOut == lastSequence || exists e :: e in Unflushed(logs, min) && e.key.sequence == lastOut
  {
    hide Replaying, Highest, OrderedLogs, OrderedLog, Older, UpTo, LogEntries, Unflushed, EntriesOfLogs;
    var ns := LogsToReplay(logs, min, 0);
    tables, nextOut := [], next;
    var maxSequence: nat := 0;
    NothingReplayed(logs, ns, next);
    for k := 0 to |ns|
      invariant Progress(logs, ns, k, tables, nextOut, maxSequence, next) && next <= nextOut
    {
      LogStep(logs, ns, k, min, MAX_SEQUENCE);
      ghost var done := EntriesOfLogs(logs, ns[..k]);
      assert ns[..k + 1] == ns[..k] + [ns[k]];
      tables, nextOut, maxSequence := ReplayNext(logs[ns[k]], ns[k], tables, nextOut, maxSequence, full, tableSize, done, next);
    }
    assert ns[..|ns|] == ns;
    AllLogs(logs, ns, min);
    ReplayedSoFar(tables, nextOut, Unflushed(logs, min), next);
    RaisedToHighest(Unflushed(logs, min), maxSequence, lastSequence);
    lastOut := if lastSequence < maxSequence then maxSequence else lastSequence;
  }

  lemma NothingReplayed(logs: map<nat, LogFile>, ns: seq<nat>, next: nat)
    ensures Progress(logs, ns, 0, [], next, 0, next)
  {
    assert ns[..0] == [];
  }

  lemma ReplayedSoFar(tables: seq<File>, next: nat, done: set<Entry>, first: nat)
    requires Replaying(tables, [], next, done, first)
    ensures LevelEntries(tables) == done && Batches(tables, first) && forall f :: f in tables ==> f.number < next
  {
  }

  lemma ReplayingLater(tables: seq<File>, next: nat, later: nat, done: set<Entry>, first: nat)
    requires Replaying(tables, [], next, done, first) && next <= later
    ensures Replaying(tables, [], later, done, first)
  {
  }

  lemma RaisedToHighest(S: set<Entry>, m: nat, last: nat)
    requires Highest(S, m)
    ensures UpTo(S, if last < m then m else last)
    ensures last < m ==> exists e :: e in S && e.key.sequence == m
  {
  }

  lemma AllLogs(logs: map<nat, LogFile>, ns: seq<nat>, min: nat)
    requires forall n :: n in ns <==> n in logs && n >= min
    ensures EntriesOfLogs(logs, ns) == Unflushed(logs, min)
  {
    forall e | e in Unflushed(logs, min)
      ensures e in EntriesOfLogs(logs, ns)
    {
      var n, r :| n in logs && min <= n && r in logs[n] && e in r;
      assert e in LogEntries(logs[n]);
    }
  }

  // ---------- the recovered version ----------

  /** The replayed tables have been added at level 0. */
  ghost predicate IsReplayedOnto(v: Version, tables: seq<File>, w: Version) {
    && |v.levels| == NUM_LEVELS && |w.levels| == NUM_LEVELS
    && (forall lvl :: 0 <= lvl < NUM_LEVELS ==> SortedBySmallest(w.levels[lvl]))
    && (forall lvl, f :: 0 <= lvl < NUM_LEVELS ==> (f in w.levels[lvl] <==> BelongsAfterReplay(v, tables, lvl, f)))
  }

  ghost predicate BelongsAfterReplay(v: Version, tables: seq<File>, lvl: int, f: File)
    requires 0 <= lvl < |v.levels|
  {
    f in v.levels[lvl] || (lvl == 0 && f in tables)
  }

  lemma ReplayedContents(v: Version, tables: seq<File>, w: Version)
    requires IsReplayedOnto(v, tables, w)
    ensures Contents(w) == Contents(v) + LevelEntries(tables)
  {
    forall e | e in Contents(w)
      ensures e in Contents(v) + LevelEntries(tables)
    {
      var lvl, f :| 0 <= lvl < NUM_LEVELS && f in w.levels[lvl] && e in f.entries;
      if f in v.levels[lvl] { InContents(v, lvl, f, e); }
    }
    forall e | e in Contents(v) + LevelEntries(tables)
      ensures e in Contents(w)
    {
      if e in Contents(v) {
        var lvl, f :| 0 <= lvl < NUM_LEVELS && f in v.levels[lvl] && e in f.entries;
        InContents(w, lvl, f, e);
      } else {
        var f :| f in tables && e in f.entries;
        InContents(w, 0, f, e);
      }
    }
  }

  /** Of two level-0 files, the one with the larger number is newer. */
  lemma ReplayedPair(v: Version, tables: seq<File>, first: nat, bound: nat, f: File, g: File)
    requires Valid(v) && NumbersBelow(v, first) && Batches(tables, first)
    requires UpTo(Contents(v), bound) && Above(LevelEntries(tables), bound)
    requires f in v.levels[0] || f in tables
    requires g in v.levels[0] || g in tables
    ensures f != g ==> f.number != g.number
    ensures f.number > g.number ==> FileNewer(f, g)
  {
    if f in tables && g in tables {
      ReplayedTables(tables, first, f, g);
    } else if f in tables {
      ReplayedVersusOld(v, tables, first, bound, f, g);
    } else if g in tables {
      ReplayedVersusOld(v, tables, first, bound, g, f);
    } else if f != g {
      DifferentNumbers(v.levels[0], f, g);
    }
  }

  lemma ReplayedTables(tables: seq<File>, first: nat, f: File, g: File)
    requires Batches(tables, first) && f in tables && g in tables
    ensures f != g ==> f.number != g.number
    ensures f.number > g.number ==> FileNewer(f, g)
  {
    var i :| 0 <= i < |tables| && tables[i] == f;
    var j :| 0 <= j < |tables| && tables[j] == g;
    if j < i {
      OlderIsNewer(f, g);
    }
  }

  lemma ReplayedVersusOld(v: Version, tables: seq<File>, first: nat, bound: nat, f: File, g: File)
    requires |v.levels| == NUM_LEVELS && NumbersBelow(v, first) && Batches(tables, first)
    requires UpTo(Contents(v), bound) && Above(LevelEntries(tables), bound)
    requires f in tables && g in v.levels[0]
    ensures f.number > g.number && FileNewer(f, g)
  {
    var i :| 0 <= i < |tables| && tables[i] == f;
    assert FileEntries(f) <= LevelEntries(tables);
    FlushedIsNewer(v, f, bound, 0, g);
  }

  lemma OlderIsNewer(f: File, g: File)
    requires Older(FileEntries(g), FileEntries(f))
    ensures FileNewer(f, g)
  {
    forall a, b | a in f.entries && b in g.entries
      ensures a.key.sequence > b.key.sequence
    {
      assert a in FileEntries(f) && b in FileEntries(g);
    }
  }

  lemma ReplayedLevel0(v: Version, tables: seq<File>, w: Version, first: nat, bound: nat)
    requires Valid(v) && NumbersBelow(v, first) && Batches(tables, first) && IsReplayedOnto(v, tables, w)
    requires UpTo(Contents(v), bound) && Above(LevelEntries(tables), bound)
    ensures NumberedByAge(w.levels[0]) && DistinctNumbers(w.levels[0])
  {
    forall f, g | f in w.levels[0] && g in w.levels[0]
      ensures f != g ==> f.number != g.number
      ensures f.number > g.number ==> FileNewer(f, g)
    {
      ReplayedPair(v, tables, first, bound, f, g);
    }
    PairsAreDistinct(w.levels[0]);
  }

  lemma ReplayedOtherLevels(v: Version, tables: seq<File>, w: Version)
    requires Valid(v) && IsReplayedOnto(v, tables, w)
    ensures forall lvl :: 1 <= lvl < NUM_LEVELS ==> w.levels[lvl] == v.levels[lvl]
  {
    forall lvl | 1 <= lvl < NUM_LEVELS
      ensures w.levels[lvl] == v.levels[lvl]
    {
      SortedListingIsUnique(w.levels[lvl], v.levels[lvl]);
    }
  }

  lemma ReplayedOrder(v: Version, tables: seq<File>, w: Version, first: nat, bound: nat)
    requires Valid(v) && NumbersBelow(v, first) && Batches(tables, first) && IsReplayedOnto(v, tables, w)
    requires UpTo(Contents(v), bound) && Above(LevelEntries(tables), bound)
    ensures forall i, j :: 0 <= i < j < NUM_LEVELS ==> LevelNewer(w.levels[i], w.levels[j]) && DisjointNumbers(w.levels[i], w.levels[j])
  {
    forall i, j, f, g | 0 <= i < j < NUM_LEVELS && f in w.levels[i] && g in w.levels[j]
      ensures FileNewer(f, g) && f.number != g.number
    {
      if f in v.levels[i] {
        assert LevelNewer(v.levels[i], v.levels[j]) && DisjointNumbers(v.levels[i], v.levels[j]);
      } else {
        var k :| 0 <= k < |tables| && tables[k] == f;
        assert FileEntries(f) <= LevelEntries(tables);
        FlushedIsNewer(v, f, bound, j, g);
      }
    }
  }

  /** Replaying the logs onto the recovered version keeps its invariants and adds what the logs hold. */
  lemma ReplayKeepsInvariants(v: Version, tables: seq<File>, w: Version, first: nat, bound: nat)
    requires Valid(v) && NumbersBelow(v, first) && Batches(tables, first) && IsReplayedOnto(v, tables, w)
    requires UpTo(Contents(v), bound) && Above(LevelEntries(tables), bound) && Distinct(LevelEntries(tables))
    ensures Valid(w) && Contents(w) == Contents(v) + LevelEntries(tables)
  {
    ReplayedContents(v, tables, w);
    ReplayedLevel0(v, tables, w, first, bound);
    ReplayedOtherLevels(v, tables, w);
    ReplayedOrder(v, tables, w, first, bound);
    LayersAreDistinct(LevelEntries(tables), Contents(v), bound);
    ReplayedFilesValid(v, tables, w, first);
    IsValid(w);
  }

  lemma ReplayedFilesValid(v: Version, tables: seq<File>, w: Version, first: nat)
    requires Valid(v) && Batches(tables, first) && IsReplayedOnto(v, tables, w)
    ensures forall lvl, f :: 0 <= lvl < NUM_LEVELS && f in w.levels[lvl] ==> ValidFile(f)
    ensures forall lvl :: 1 <= lvl < NUM_LEVELS ==> DisjointSorted(w.levels[lvl]) && DistinctNumbers(w.levels[lvl])
  {
    ReplayedOtherLevels(v, tables, w);
  }

  // ---------- log entries are distinct ----------

  /** Every write has its own sequence number, so the logs hold no two entries alike. */
  lemma UnflushedIsDistinct(logs: map<nat, LogFile>, min: nat)
    requires OrderedLogs(logs, min)
    ensures Distinct(Unflushed(logs, min))
  {
    forall a, b | a in Unflushed(logs, min) && b in Unflushed(logs, min) && a.key.sequence == b.key.sequence
      ensures a == b
    {
      var n, r :| n in logs && min <= n && r in logs[n] && a in r;
      var m, q :| m in logs && min <= m && q in logs[m] && b in q;
      assert a in LogEntries(logs[n]) && b in LogEntries(logs[m]);
      assert n == m;
      SameLog(logs[n], r, q, a, b);
    }
  }

  lemma SameLog(log: LogFile, r: seq<Entry>, q: seq<Entry>, a: Entry, b: Entry)
    requires OrderedLog(log) && r in log && q in log && a in r && b in q && a.key.sequence == b.key.sequence
    ensures a == b
  {
    var i :| 0 <= i < |log| && log[i] == r;
    var j :| 0 <= j < |log| && log[j] == q;
    assert a in SeqSet(log[i]) && b in SeqSet(log[j]);
    assert i == j;
    var x :| 0 <= x < |r| && r[x] == a;
    var y :| 0 <= y < |r| && r[y] == b;
  }
}
