/** Whole runs of the store: any sequence of operations, a crash, and opening the store again. */
module StoreRuns {
  import opened History
  import opened Coding
  import opened CompactionSafety
  import opened DiskBytes
  import opened LoggedStore
  import opened Manifest
  import opened Picking
  import opened Recovery
  import opened Store
  import opened Version
  import Bytewise
  import Log
  import WriteBatch

  /** The numbers and the size function that a compaction works with. */
  datatype Limits = Limits(maxFileSize: nat, maxGrandParentOverlap: nat, maxOutputFileSize: nat, tableSize: seq<Entry> -> nat)

  /** What may happen to an open store. What the state does not allow has no effect. */
  datatype Action =
    | DoWrite(records: seq<WriteBatch.Record>, sync: bool)
    | DoSwitch
    | DoFlush(limits: Limits, writable: bool)
    | DoCompact(level: nat, picked: nat, limits: Limits, writable: bool)
    | DoCompactRange(level: nat, begin: Bound, end: Bound, limits: Limits, writable: bool)
    | DoCollect
    | DoSnapshot
    | DoRelease(i: nat)

  predicate ActionOk(a: Action) {
    a.DoWrite? ==> |a.records| <= WriteBatch.MAX_COUNT && forall i :: 0 <= i < |a.records| ==> WriteBatch.RecordOk(a.records[i])
  }

  function WritesOf(a: Action): seq<WriteBatch.Record> {
    if a.DoWrite? then a.records else []
  }

  /** Everything that a run writes, in order. */
  function Writes(actions: seq<Action>): seq<WriteBatch.Record>
    decreases |actions|
  {
    if actions == [] then [] else Writes(actions[..|actions| - 1]) + WritesOf(actions[|actions| - 1])
  }

  predicate IsCompaction(a: Action) {
    a.DoCompact? || a.DoCompactRange?
  }

  function Compactions(actions: seq<Action>): nat
    decreases |actions|
  {
    if actions == [] then 0 else Compactions(actions[..|actions| - 1]) + if IsCompaction(actions[|actions| - 1]) then 1 else 0
  }

  /** A loss in a version that holds nothing but what was written. */
  ghost predicate IsLossOf(l: Loss, written: set<Entry>) {
    IsLoss(l) && Contents(l.v) <= written
  }

  /** Without deletions nothing can be lost. */
  lemma LossHasDeletion(l: Loss, written: set<Entry>)
    requires IsLossOf(l, written)
    ensures exists e :: e in written && e.key.kind.Deletion?
  {
  }

  /** A run that cannot lose anything: it compacts nothing, or deletes nothing. */
  predicate IsSafe(actions: seq<Action>) {
    Compactions(actions) == 0 || forall w :: w in Writes(actions) ==> w.Put?
  }

  lemma SafeLosesNothing(actions: seq<Action>, losses: seq<Loss>)
    requires |losses| <= Compactions(actions) && IsSafe(actions)
    requires forall l :: l in losses ==> IsLossOf(l, SeqSet(Written(Writes(actions), 1)))
    ensures losses == []
  {
    hide IsLossOf;
    if losses != [] {
      LossHasDeletion(losses[0], SeqSet(Written(Writes(actions), 1)));
      var e :| e in Written(Writes(actions), 1) && e.key.kind.Deletion?;
      WrittenFrom(Writes(actions), 1, e);
    }
  }

  lemma WrittenFrom(rs: seq<WriteBatch.Record>, first: nat, e: Entry)
    requires e in Written(rs, first) && (forall w :: w in rs ==> w.Put?)
    ensures e.key.kind.Value?
  {
    var i :| 0 <= i < |rs| && Written(rs, first)[i] == e;
    assert rs[i] in rs;
  }

  /** How many of the writes come no later than the last one that was synced. */
  function SyncedWrites(actions: seq<Action>): nat
    decreases |actions|
  {
    if actions == [] then 0
    else
      var last := actions[|actions| - 1];
      if last.DoWrite? && last.sync then |Writes(actions)| else SyncedWrites(actions[..|actions| - 1])
  }

  /** The entries that the writes become, numbered from `first` on. */
  function Written(rs: seq<WriteBatch.Record>, first: nat): seq<Entry> {
    Numbered(UpdatesOf(rs), first)
  }

  lemma WrittenAppend(a: seq<WriteBatch.Record>, b: seq<WriteBatch.Record>, first: nat)
    ensures SeqSet(Written(a + b, first)) == SeqSet(Written(a, first)) + SeqSet(Written(b, first + |a|))
  {
    var all, one, two := Written(a + b, first), Written(a, first), Written(b, first + |a|);
    assert all == one + two;
  }

  // ---------- running ----------

  /** A batch made by its user, record by record. */
  method MakeBatch(rs: seq<WriteBatch.Record>) returns (batch: WriteBatch.WriteBatch)
    requires |rs| <= WriteBatch.MAX_COUNT && forall i :: 0 <= i < |rs| ==> WriteBatch.RecordOk(rs[i])
    ensures fresh(batch) && batch.Valid() && batch.records == rs
  {
    hide WriteBatch.WriteBatch.Valid;
    batch := new WriteBatch.WriteBatch();
    for i := 0 to |rs|
      invariant batch.Valid() && batch.records == rs[..i]
    {
      assert WriteBatch.RecordOk(rs[i]);
      match rs[i] {
        case Put(key, value) => batch.Put(key, value);
        case Delete(key) => batch.Delete(key);
      }
      assert rs[..i + 1] == rs[..i] + [rs[i]];
    }
    assert rs[..|rs|] == rs;
  }

  method DoCompaction(store: LoggedStore, a: Action) returns (ghost lost: Option<Loss>)
    requires store.Valid() && IsCompaction(a)
    modifies store.db, store.db.versions
    ensures store.Valid() && store.db.history == old(store.db.history)
    ensures store.db.versions.counters.lastSequence == old(store.db.versions.counters.lastSequence)
    ensures store.db.intact == (old(store.db.intact) && lost.None?) && (lost.Some? ==> IsLossOf(lost.value, store.db.history) && IsCompaction(a))
  {
    hide LoggedStore.Valid, IsLoss, Contents, DB.All, DB.Floor;
    lost := None;
    if store.db.Oldest() < MAX_SEQUENCE && a.level + 1 < NUM_LEVELS {
      match a {
        case DoCompact(level, picked, limits, writable) =>
          if |store.db.versions.current.levels| == NUM_LEVELS && picked < |store.db.versions.current.levels[level]| {
            lost := store.BackgroundCompaction(level, picked, limits.maxFileSize, limits.maxGrandParentOverlap, limits.tableSize,
                                               limits.maxOutputFileSize, writable);
          }
        case DoCompactRange(level, begin, end, limits, writable) =>
          lost := store.ManualCompaction(level, begin, end, limits.maxFileSize, limits.maxGrandParentOverlap, limits.tableSize,
                                         limits.maxOutputFileSize, writable);
      }
    }
  }

  /** One action. */
  method Do(store: LoggedStore, a: Action) returns (ghost lost: Option<Loss>)
    requires store.Valid() && ActionOk(a) && store.db.versions.counters.lastSequence + |WritesOf(a)| <= MAX_SEQUENCE
    modifies store, store.db, store.db.versions, store.log
    ensures store.Valid() && (store.log == old(store.log) || fresh(store.log))
    ensures store.db.versions.counters.lastSequence == old(store.db.versions.counters.lastSequence) + |WritesOf(a)|
    ensures store.db.history == old(store.db.history) + SeqSet(Written(WritesOf(a), old(store.db.versions.counters.lastSequence) + 1))
    ensures store.syncedSequence == if a.DoWrite? && a.sync then store.db.versions.counters.lastSequence else old(store.syncedSequence)
    ensures store.db.intact == (old(store.db.intact) && lost.None?) && (lost.Some? ==> IsLossOf(lost.value, store.db.history) && IsCompaction(a))
  {
    hide LoggedStore.Valid, SeqSet, Written, IsLossOf, DB.All, BatchEntries;
    lost := None;
    NothingWritten(store.db.versions.counters.lastSequence + 1);
    match a {
      case DoWrite(records, sync) =>
        var batch := MakeBatch(records);
        BatchIsWritten(records, store.db.versions.counters.lastSequence + 1);
        store.Write(batch, sync);
      case DoSwitch =>
        if store.db.imm.None? { store.SwitchMemtable(); }
      case DoFlush(limits, writable) =>
        if store.db.imm.Some? { store.CompactMemTable(limits.maxGrandParentOverlap, limits.tableSize, writable); }
      case DoCompact(_, _, _, _) => lost := DoCompaction(store, a);
      case DoCompactRange(_, _, _, _, _) => lost := DoCompaction(store, a);
      case DoCollect => store.DeleteObsoleteLogs();
      case DoSnapshot => store.GetSnapshot();
      case DoRelease(i) =>
        if i < |store.db.snapshots| { store.ReleaseSnapshot(i); }
    }
  }

  lemma BatchIsWritten(rs: seq<WriteBatch.Record>, first: nat)
    ensures BatchEntries(Batch(first, rs)) == Written(rs, first)
  {
    BatchIsNumbered(Batch(first, rs));
  }

  lemma NothingWritten(first: nat)
    ensures SeqSet(Written([], first)) == {}
  {
  }

  /** A run keeps the invariants, and its history is what was written, in order. Its losses are the
      compactions that split the versions of a key. */
  method Run(store: LoggedStore, actions: seq<Action>) returns (ghost losses: seq<Loss>)
    requires store.Valid() && forall i :: 0 <= i < |actions| ==> ActionOk(actions[i])
    requires store.db.versions.counters.lastSequence + |Writes(actions)| <= MAX_SEQUENCE
    modifies store, store.db, store.db.versions, store.log
    ensures store.Valid() && (store.log == old(store.log) || fresh(store.log))
    ensures store.db.versions.counters.lastSequence == old(store.db.versions.counters.lastSequence) + |Writes(actions)|
    ensures store.db.history == old(store.db.history) + SeqSet(Written(Writes(actions), old(store.db.versions.counters.lastSequence) + 1))
    ensures SyncedWrites(actions) > 0 ==> old(store.db.versions.counters.lastSequence) + SyncedWrites(actions) <= store.syncedSequence
    ensures store.db.intact == (old(store.db.intact) && losses == []) && forall l :: l in losses ==> IsLossOf(l, store.db.history)
    ensures |losses| <= Compactions(actions)
    decreases |actions|
  {
    hide LoggedStore.Valid, SeqSet, Written, ActionOk, IsLoss, Contents;
    losses := [];
    if actions == [] {
      NothingWritten(store.db.versions.counters.lastSequence + 1);
      return;
    }
    var n := |actions| - 1;
    ghost var first := store.db.versions.counters.lastSequence + 1;
    WrittenAppend(Writes(actions[..n]), WritesOf(actions[n]), first);
    losses := Run(store, actions[..n]);
    ghost var lost := Do(store, actions[n]);
    if lost.Some? {
      losses := losses + [lost.value];
    }
  }

  // ---------- from nothing to after a crash ----------

  lemma EmptyLogReads(crc: Log.Crc, n: nat)
    ensures var files: map<nat, Bytes> := map[]; ReadAs(crc, files[n := []], map[n := []])
  {
  }

  /** A new store, on an empty disk. */
  method NewStore(crc: Log.Crc, full: seq<Entry> -> bool, tableSize: seq<Entry> -> nat) returns (store: LoggedStore)
    ensures fresh(store) && fresh(store.db) && fresh(store.db.versions) && fresh(store.log) && store.Valid() && store.crc == crc
    ensures store.db.versions.counters.lastSequence == 0 && store.db.history == {} && store.db.intact && store.db.imm.None?
    ensures store.batches == [] && store.synced == 0
  {
    hide DB.Valid, Recoverable, Survives, LoggedStore.Valid, DB.All, ReadLog, EmptyVersion, NewManifest;
    NewStoreIsRecoverable();
    var db := new DB.Open(Disk(NewManifest(), map[]), full, tableSize, EmptyVersion(), Counters(0, 0, 2, 0), 0);
    EmptyLogReads(crc, db.logFileNumber);
    store := new LoggedStore(db, crc, map[]);
  }

  /** After any run, a lookup gives what the writes of the run say. */
  method RunAndGet(crc: Log.Crc, actions: seq<Action>, key: Bytes, full: seq<Entry> -> bool, tableSize: seq<Entry> -> nat)
    returns (r: Lookup, ghost losses: seq<Loss>)
    requires (forall i :: 0 <= i < |actions| ==> ActionOk(actions[i])) && |Writes(actions)| <= MAX_SEQUENCE
    ensures |losses| <= Compactions(actions) && forall l :: l in losses ==> IsLossOf(l, SeqSet(Written(Writes(actions), 1)))
    ensures IsSafe(actions) ==> losses == []
    ensures losses == [] ==> r == Read(SeqSet(Written(Writes(actions), 1)), Bytewise.Rank(key), |Writes(actions)|)
  {
    hide LoggedStore.Valid, DB.Valid, SeqSet, Written, ActionOk, IsLossOf, IsSafe, Read, DB.All;
    var store := NewStore(crc, full, tableSize);
    losses := Run(store, actions);
    assert store.db.history == SeqSet(Written(Writes(actions), 1));
    if IsSafe(actions) { SafeLosesNothing(actions, losses); }
    StoreIsValid(store);
    r := store.db.Get(Bytewise.Rank(key), None);
  }

  /** The end-to-end guarantee. A new store runs through any operations. Then it crashes, and of each log
      in use no less is left than what was synced of it. Opened again, it has everything that was safe.
      Unless something is lost of the older log while something is kept of the current one, it reads as
      if the run had written its first `p` updates and nothing more; and with all of the older log
      there, every synced update is among them. Only compactions that split the versions of a key stand
      in the way. */
  method RunAndCrash(crc: Log.Crc, actions: seq<Action>, cutOlder: (nat, nat) -> nat, cut: (nat, nat) -> nat,
                     full: seq<Entry> -> bool, tableSize: seq<Entry> -> nat)
    returns (store: LoggedStore, again: DB, n1: nat, n: nat, ghost p: nat, ghost losses: seq<Loss>)
    requires (forall i :: 0 <= i < |actions| ==> ActionOk(actions[i])) && |Writes(actions)| <= MAX_SEQUENCE
    requires forall synced: nat, size: nat :: synced <= size ==> synced <= cutOlder(synced, size) <= size
    requires forall synced: nat, size: nat :: synced <= size ==> synced <= cut(synced, size) <= size
    ensures store.Valid() && store.MayLeave(n1, n) && again.Valid() && store.Safe() <= again.All() <= store.db.All()
    ensures n == cut(store.synced, |store.log.dest|) && (store.db.imm.Some? ==> n1 == cutOlder(store.older.synced, |store.files[store.older.log]|))
    ensures (exists q :: IsAsOf(again.All(), store.db.All(), q)) <==> store.OlderLost(n1) == {} || store.CurrentKept(n) == {}
    ensures store.OlderLost(n1) == {} ==> SyncedWrites(actions) <= p
    ensures |losses| <= Compactions(actions) && forall l :: l in losses ==> IsLossOf(l, SeqSet(Written(Writes(actions), 1)))
    ensures IsSafe(actions) ==> losses == []
    ensures losses == [] && (store.OlderLost(n1) == {} || store.CurrentKept(n) == {}) ==>
              forall u: UserKey :: Read(again.All(), u, again.versions.counters.lastSequence)
                                   == Read(SeqSet(Written(Writes(actions), 1)), u, p)
  {
    hide LoggedStore.Valid, DB.Valid, SeqSet, Written, ActionOk, IsLossOf, IsSafe, Read, DB.All, IsAsOf, LoggedStore.OlderLost,
         LoggedStore.CurrentKept, LoggedStore.Safe;
    store := NewStore(crc, full, tableSize);
    losses := Run(store, actions);
    assert store.db.history == SeqSet(Written(Writes(actions), 1));
    if IsSafe(actions) { SafeLosesNothing(actions, losses); }
    SyncedIsWritten(store);
    n1, n := 0, cut(store.synced, |store.log.dest|);
    if store.db.imm.Some? {
      n1 := cutOlder(store.older.synced, |store.files[store.older.log]|);
    }
    again, p := CutAndReopen(store, n1, n, full, tableSize);
  }

  const FIRST: WriteBatch.Record := WriteBatch.Put([1], [1])
  const SECOND: WriteBatch.Record := WriteBatch.Put([2], [2])

  // ---------- a synced write without the one before it ----------

  lemma WholeBatch(crc: Log.Crc, b: Batch)
    requires BatchOk(b)
    ensures KeptOf(crc, [b], |LogBytes(crc, [b])|) == SeqSet(BatchEntries(b)) && LostOf(crc, [b], 0) == SeqSet(BatchEntries(b))
  {
    hide BatchOk, BatchEntries, WriteBatch.BatchBytes, Log.FileOf, Log.Complete;
    var records := LogRecords([b]);
    assert records[..1] == records == [records[0]];
    Log.CompleteIs(crc, records, |LogBytes(crc, [b])|, 1);
    Log.CompleteIs(crc, records, 0, 1);
    Log.OneRecordTakesSpace(crc, records[0]);
    var log := LogOf([b]);
    assert log == [BatchEntries(b)] && log[0..] == log && log[..1] == log;
    OneRecord(BatchEntries(b));
  }

  lemma OneRecord(record: seq<Entry>)
    ensures LogEntries([record]) == SeqSet(record)
  {
    assert record in [record];
  }

  lemma ExampleEntries()
    ensures BatchOk(Batch(1, [FIRST])) && BatchOk(Batch(2, [SECOND]))
    ensures SeqSet(Written([FIRST, SECOND], 1)) == SeqSet(Written([FIRST], 1)) + SeqSet(Written([SECOND], 2))
    ensures |Written([FIRST], 1)| == 1 && SeqSet(Written([FIRST], 1)) == {Written([FIRST], 1)[0]}
    ensures |Written([SECOND], 2)| == 1 && SeqSet(Written([SECOND], 2)) == {Written([SECOND], 2)[0]}
  {
    WrittenAppend([FIRST], [SECOND], 1);
    assert [FIRST] + [SECOND] == [FIRST, SECOND];
    OneEntry(Written([FIRST], 1));
    OneEntry(Written([SECOND], 2));
  }

  lemma OneEntry(es: seq<Entry>)
    requires |es| == 1
    ensures SeqSet(es) == {es[0]}
  {
    assert es == [es[0]];
  }

  lemma EverythingIsAsOf(db: DB)
    requires db.Valid()
    ensures IsAsOf(db.All(), db.All(), db.versions.counters.lastSequence)
  {
    LayeredDistinct(db.mem, db.imm, db.versions.current, db.flushed, db.switched, db.versions.counters.lastSequence);
    KeptIsAsOf(db.All(), {}, db.versions.counters.lastSequence);
    assert db.All() + {} == db.All();
  }

  /** If both entries came back, nothing would be lost. */
  lemma BothIsAll(db: DB, left: set<Entry>, a: Entry, b: Entry)
    requires db.Valid() && left <= db.All() <= {a, b} && b in left
    ensures a in left ==> exists p :: IsAsOf(left, db.All(), p)
  {
    hide DB.Valid, DB.All, IsAsOf;
    if a in left {
      assert left == db.All();
      EverythingIsAsOf(db);
    }
  }

  /** Two writes with a switch of memtables between them, the second one synced. */
  method WriteSwitchWrite(crc: Log.Crc, full: seq<Entry> -> bool, tableSize: seq<Entry> -> nat) returns (store: LoggedStore)
    ensures fresh(store) && store.Valid() && store.crc == crc && store.db.imm.Some? && store.syncedSequence == 2
    ensures store.db.history == SeqSet(BatchEntries(Batch(1, [FIRST]))) + SeqSet(BatchEntries(Batch(2, [SECOND])))
    ensures store.olderHeld.batches == [Batch(1, [FIRST])] && store.older.synced == 0
    ensures store.batches == [Batch(2, [SECOND])] && store.synced == |store.log.dest|
  {
    hide LoggedStore.Valid, DB.Valid, DB.All, SeqSet, BatchEntries, WriteBatch.WriteBatch.Valid;
    store := NewStore(crc, full, tableSize);
    var first := MakeBatch([FIRST]);
    store.Write(first, false);
    store.SwitchMemtable();
    var second := MakeBatch([SECOND]);
    store.Write(second, true);
  }

  /** After a crash that leaves nothing of the older log, the second write is there, as it was synced, and the
      first is not: the store was never like that. */
  method OlderLogCutExample(crc: Log.Crc, full: seq<Entry> -> bool, tableSize: seq<Entry> -> nat) returns (store: LoggedStore, again: DB)
    ensures store.Valid() && store.db.history == SeqSet(Written([FIRST, SECOND], 1)) && store.syncedSequence == 2
    ensures again.Valid() && again.All() == SeqSet(Written([SECOND], 2))
    ensures !exists p :: IsAsOf(again.All(), store.db.All(), p)
  {
    hide LoggedStore.Valid, DB.Valid, DB.All, SeqSet, Written, BatchEntries, IsAsOf, KeptOf, LostOf, LogBytes, Contents, BatchOk;
    store := WriteSwitchWrite(crc, full, tableSize);
    ExampleEntries();
    BatchIsWritten([FIRST], 1);
    BatchIsWritten([SECOND], 2);
    WholeBatch(crc, Batch(1, [FIRST]));
    WholeBatch(crc, Batch(2, [SECOND]));
    LogIsWhole(store);
    SyncedIsWritten(store);
    StoreIsValid(store);
    ghost var p;
    again, p := CutAndReopen(store, 0, |store.log.dest|, full, tableSize);
    store.db.OnlyWritten();
    BothIsAll(store.db, again.All(), Written([FIRST], 1)[0], Written([SECOND], 2)[0]);
  }
}
