/** What any run of clients sees of a cache shard (util/cache.cc). */
module CacheRuns {
  import opened History
  import opened Coding
  import opened HandleTable
  import opened LruCache

  datatype Op = DoInsert(e: Handle) | DoLookup(key: Bytes, hash: nat) | DoRelease(e: Handle)
              | DoErase(key: Bytes, hash: nat) | DoPrune

  ghost predicate Allowed(st: Shard, op: Op) {
    match op
    case DoInsert(e) => e !in st.held && e !in st.deleted
    case DoRelease(e) => e in st.held && st.held[e] > 0
    case _ => true
  }

  ghost function Step(st: Shard, op: Op): Shard
    requires Allowed(st, op)
  {
    match op
    case DoInsert(e) => Inserted(st, e)
    case DoLookup(key, hash) =>
      var h := Find(st, key, hash);
      if h != null && h in st.held then Taken(st, h) else st
    case DoRelease(e) => Released(st, e)
    case DoErase(key, hash) => ErasedKey(st, key, hash)
    case DoPrune => Pruned(st)
  }

  ghost function Empty(capacity: nat): Shard {
    Shard(capacity, [], [], 0, map[], [])
  }

  function Before(ops: seq<Op>): seq<Op>
    requires ops != []
  {
    ops[..|ops| - 1]
  }

  function Last(ops: seq<Op>): Op
    requires ops != []
  {
    ops[|ops| - 1]
  }

  /** The state after a run; there is none when a client releases what it does not hold. */
  ghost function Ran(capacity: nat, ops: seq<Op>): Option<Shard> {
    if ops == [] then Some(Empty(capacity))
    else
      match Ran(capacity, Before(ops))
      case None => None
      case Some(st) => if Allowed(st, Last(ops)) then Some(Step(st, Last(ops))) else None
  }

  ghost predicate IsRun(capacity: nat, ops: seq<Op>) {
    Ran(capacity, ops).Some?
  }

  ghost function After(capacity: nat, ops: seq<Op>): Shard
    requires IsRun(capacity, ops)
  {
    Ran(capacity, ops).value
  }

  lemma Unfold(capacity: nat, ops: seq<Op>)
    requires IsRun(capacity, ops) && ops != []
    ensures IsRun(capacity, Before(ops)) && Allowed(After(capacity, Before(ops)), Last(ops))
    ensures After(capacity, ops) == Step(After(capacity, Before(ops)), Last(ops))
  {
  }

  // ---------- the invariant ----------

  lemma StepKeeps(st: Shard, op: Op)
    requires Inv(st) && Allowed(st, op)
    ensures Inv(Step(st, op))
  {
    hide Listed, DistinctKeys, Entries, Taken, Released, ErasedKey, Pruned, Inserted, Find;
    match op
    case DoInsert(e) => InsertedKeeps(st, e);
    case DoLookup(key, hash) =>
      var h := Find(st, key, hash);
      if h != null && h in st.held {
        TakenListed(st, h);
      }
    case DoRelease(e) => ReleasedListed(st, e);
    case DoErase(key, hash) => ErasedKeyKeeps(st, key, hash);
    case DoPrune => PrunedKeeps(st);
  }

  /** In every state of every run each cached entry is on exactly one list, its references are what
      clients hold and one of the cache, the charges add up, and no deleter has run twice. */
  lemma {:induction false} RunKeeps(capacity: nat, ops: seq<Op>)
    requires IsRun(capacity, ops)
    ensures Inv(After(capacity, ops))
  {
    hide Inv, Step;
    if ops == [] {
      EmptyShard(capacity);
      EmptyOk(capacity);
    } else {
      Unfold(capacity, ops);
      RunKeeps(capacity, Before(ops));
      StepKeeps(After(capacity, Before(ops)), Last(ops));
    }
  }

  lemma EmptyOk(capacity: nat)
    ensures Inv(Empty(capacity))
  {
    EmptyShard(capacity);
  }

  // ---------- references and deleters ----------

  /** How many references to an entry clients have got and not given back. */
  ghost function Outstanding(capacity: nat, ops: seq<Op>, h: Handle): int
    requires IsRun(capacity, ops)
  {
    if ops == [] then 0
    else
      Unfold(capacity, ops);
      Outstanding(capacity, Before(ops), h) +
      match Last(ops)
      case DoInsert(e) => if e == h then 1 else 0
      case DoLookup(key, hash) => if Find(After(capacity, Before(ops)), key, hash) == h then 1 else 0
      case DoRelease(e) => if e == h then -1 else 0
      case _ => 0
  }

  ghost function HeldCount(st: Shard, h: Handle): int {
    if h in st.held then st.held[h] else 0
  }

  ghost function Known(st: Shard): set<Handle> {
    st.held.Keys + set h | h in st.deleted
  }

  ghost function Created(ops: seq<Op>): set<Handle> {
    set i: int | 0 <= i < |ops| && ops[i].DoInsert? :: ops[i].e
  }

  lemma ErasedHolds(st: Shard, e: Handle, h: Handle)
    requires Inv(st) && e in Entries(st)
    ensures e in st.held && HeldCount(Erased(st, e), h) == HeldCount(st, h) && Known(Erased(st, e)) == Known(st)
  {
    hide Charge, Dropped, DistinctKeys;
    assert Known(Erased(st, e)) == Known(st);
  }

  lemma {:induction false} EvictedHolds(st: Shard, h: Handle)
    requires Inv(st)
    ensures HeldCount(Evicted(st), h) == HeldCount(st, h) && Known(Evicted(st)) == Known(st)
    decreases |st.lru|
  {
    hide Inv, Erased, Charge, HeldCount, Known;
    if st.usage > st.capacity && st.lru != [] {
      OldestListed(st);
      OneEvicted(st);
      ErasedHolds(st, st.lru[0], h);
      EvictedHolds(Erased(st, st.lru[0]), h);
    }
  }

  lemma {:induction false} PrunedHolds(st: Shard, h: Handle)
    requires Inv(st)
    ensures HeldCount(Pruned(st), h) == HeldCount(st, h) && Known(Pruned(st)) == Known(st)
    decreases |st.lru|
  {
    hide Inv, Erased, Charge, HeldCount, Known;
    if st.lru != [] {
      OldestListed(st);
      OnePruned(st);
      ErasedHolds(st, st.lru[0], h);
      ErasedKeeps(st, st.lru[0]);
      PrunedHolds(Erased(st, st.lru[0]), h);
    }
  }

  lemma OldestListed(st: Shard)
    requires Inv(st) && st.lru != []
    ensures st.lru[0] in Entries(st)
  {
    OldestIsEntry(st);
  }

  lemma AddedHolds(st: Shard, e: Handle, h: Handle)
    requires Inv(st) && e !in st.held && e !in st.deleted
    ensures HeldCount(Put(st, e), h) == HeldCount(st, h) + if e == h then 1 else 0
    ensures Known(Put(st, e)) == Known(st) + {e}
  {
    hide Find, DistinctKeys, Charge, Dropped;
    FindGives(st, e.key, e.hash);
    assert Known(Put(st, e)) == Known(st) + {e};
  }

  lemma StepHolds(st: Shard, op: Op, h: Handle)
    requires Inv(st) && Allowed(st, op)
    ensures HeldCount(Step(st, op), h) == HeldCount(st, h) +
              match op
              case DoInsert(e) => if e == h then 1 else 0
              case DoLookup(key, hash) => if Find(st, key, hash) == h then 1 else 0
              case DoRelease(e) => if e == h then -1 else 0
              case _ => 0
    ensures Known(Step(st, op)) == if op.DoInsert? then Known(st) + {op.e} else Known(st)
  {
    hide Find, DistinctKeys, Charge, Dropped, Evicted, Pruned, Put, Erased, Listed, Entries;
    match op
    case DoInsert(e) =>
      AddedHolds(st, e, h);
      PutKeeps(st, e);
      EvictedHolds(Put(st, e), h);
    case DoLookup(key, hash) =>
      FindGives(st, key, hash);
      ListsHeld(st);
      assert Known(Step(st, op)) == Known(st);
    case DoRelease(e) =>
      assert Known(Step(st, op)) == Known(st);
    case DoErase(key, hash) =>
      FindGives(st, key, hash);
      ListsHeld(st);
      if Find(st, key, hash) != null {
        ErasedHolds(st, Find(st, key, hash), h);
      }
    case DoPrune => PrunedHolds(st, h);
  }

  /** A deleter has not run for any entry a client still holds; every entry that was ever inserted and
      is gone had its deleter run, and only once. */
  lemma {:induction false} DeletersRunOnce(capacity: nat, ops: seq<Op>, h: Handle)
    requires IsRun(capacity, ops)
    ensures var st := After(capacity, ops);
            && Outstanding(capacity, ops, h) == HeldCount(st, h) >= 0
            && (Outstanding(capacity, ops, h) > 0 ==> h !in st.deleted)
            && (h in Created(ops) <==> h in st.held || h in st.deleted)
            && (h in Created(ops) && Outstanding(capacity, ops, h) == 0 ==> h in st.deleted || h in Entries(st))
            && NoRepeats(st.deleted)
  {
    RunKeeps(capacity, ops);
    HoldsAfterRun(capacity, ops, h);
  }

  lemma {:induction false} HoldsAfterRun(capacity: nat, ops: seq<Op>, h: Handle)
    requires IsRun(capacity, ops)
    ensures Outstanding(capacity, ops, h) == HeldCount(After(capacity, ops), h)
    ensures Known(After(capacity, ops)) == Created(ops)
  {
    hide Inv, HeldCount, Known, Step, Find;
    if ops == [] {
      NothingHeld(capacity, h);
      assert Created(ops) == {};
    } else {
      Unfold(capacity, ops);
      RunKeeps(capacity, Before(ops));
      HoldsAfterRun(capacity, Before(ops), h);
      StepHolds(After(capacity, Before(ops)), Last(ops), h);
      OneMoreCreated(ops);
    }
  }

  lemma NothingHeld(capacity: nat, h: Handle)
    ensures HeldCount(Empty(capacity), h) == 0 && Known(Empty(capacity)) == {}
  {
  }

  lemma OneMoreCreated(ops: seq<Op>)
    requires ops != []
    ensures Created(ops) == if Last(ops).DoInsert? then Created(Before(ops)) + {Last(ops).e} else Created(Before(ops))
  {
    forall h | h in Created(Before(ops))
      ensures h in Created(ops)
    {
      var i :| 0 <= i < |Before(ops)| && Before(ops)[i].DoInsert? && Before(ops)[i].e == h;
      assert ops[i].DoInsert? && ops[i].e == h;
    }
    if Last(ops).DoInsert? {
      assert ops[|ops| - 1].e in Created(ops);
    }
    forall h | h in Created(ops) && !(Last(ops).DoInsert? && h == Last(ops).e)
      ensures h in Created(Before(ops))
    {
      var i :| 0 <= i < |ops| && ops[i].DoInsert? && ops[i].e == h;
      assert Before(ops)[i].DoInsert? && Before(ops)[i].e == h;
    }
  }

  // ---------- what lookups find ----------

  /** The entry inserted last for a key, unless the key was erased since. */
  ghost function Latest(ops: seq<Op>, key: Bytes, hash: nat): Handle? {
    if ops == [] then null
    else
      match Last(ops)
      case DoInsert(e) => if Matches(e, key, hash) then e else Latest(Before(ops), key, hash)
      case DoErase(k, n) => if k == key && n == hash then null else Latest(Before(ops), key, hash)
      case _ => Latest(Before(ops), key, hash)
  }

  lemma FindAmong(st: Shard, next: Shard, key: Bytes, hash: nat)
    requires Inv(st) && Entries(next) <= Entries(st)
    ensures Find(next, key, hash) == null || Find(next, key, hash) == Find(st, key, hash)
  {
    hide Inv, Find, Entries;
    FindGives(next, key, hash);
    if Find(next, key, hash) != null {
      FindFinds(st, key, hash, Find(next, key, hash));
    }
  }

  /** A cache without capacity has no entries. */
  ghost predicate Usable(st: Shard) {
    st.capacity == 0 ==> Entries(st) == {}
  }

  /** What a step leaves to be found. */
  lemma StepFinds(st: Shard, op: Op, key: Bytes, hash: nat)
    requires Inv(st) && Allowed(st, op) && Usable(st)
    ensures var h := Find(Step(st, op), key, hash);
            h != null ==>
              if op.DoInsert? && Matches(op.e, key, hash) then h == op.e
              else h == Find(st, key, hash) && !(op.DoErase? && op.key == key && op.hash == hash)
  {
    hide Inv, Find, Entries, Evicted, Pruned, Put, Taken, Released, Erased, Listed;
    var next := Step(st, op);
    FindGives(next, key, hash);
    match op
    case DoInsert(e) => InsertFinds(st, e, key, hash);
    case DoLookup(k, n) =>
      FindGives(st, k, n);
      InvParts(st);
      var h := Find(st, k, n);
      if h != null && h in st.held {
        TakenListed(st, h);
      }
      FindAmong(st, next, key, hash);
    case DoRelease(e) =>
      InvParts(st);
      ReleasedListed(st, e);
      FindAmong(st, next, key, hash);
    case DoErase(k, n) =>
      ErasedKeyKeeps(st, k, n);
      FindGives(st, k, n);
      InvParts(st);
      if Find(st, k, n) != null {
        ErasedListed(st, Find(st, k, n));
      }
      FindAmong(st, next, key, hash);
    case DoPrune =>
      PrunedEntries(st);
      FindAmong(st, next, key, hash);
  }

  lemma InvParts(st: Shard)
    requires Inv(st)
    ensures Listed(st) && DistinctKeys(Entries(st))
  {
  }

  lemma {:induction false} PrunedEntries(st: Shard)
    requires Inv(st)
    ensures Entries(Pruned(st)) <= Entries(st)
    decreases |st.lru|
  {
    hide Inv, Erased, Entries;
    if st.lru != [] {
      OldestListed(st);
      OnePruned(st);
      ErasedKeeps(st, st.lru[0]);
      PrunedEntries(Erased(st, st.lru[0]));
    }
  }

  lemma InsertFinds(st: Shard, e: Handle, key: Bytes, hash: nat)
    requires Inv(st) && e !in st.held && e !in st.deleted && Usable(st)
    ensures var h := Find(Inserted(st, e), key, hash);
            h != null ==> if Matches(e, key, hash) then h == e else h == Find(st, key, hash)
  {
    hide Inv, Find, Entries, Evicted, Put;
    var put, next := Put(st, e), Inserted(st, e);
    PutKeeps(st, e);
    EvictedKeeps(put);
    FindGives(next, key, hash);
    FindGives(st, e.key, e.hash);
    var h := Find(next, key, hash);
    if h != null && st.capacity > 0 {
      if Matches(e, key, hash) {
        InvParts(put);
        SameKey(Entries(put), h, e);
      } else {
        FindFinds(st, key, hash, h);
      }
    }
  }

  lemma StepEntries(st: Shard, op: Op)
    requires Inv(st) && Allowed(st, op)
    ensures Step(st, op).capacity == st.capacity
    ensures Entries(Step(st, op)) <= if op.DoInsert? && st.capacity > 0 then Entries(st) + {op.e} else Entries(st)
  {
    hide Inv, Find, Entries, Evicted, Pruned, Put, Erased, Listed;
    InvParts(st);
    match op
    case DoInsert(e) => PutKeeps(st, e); EvictedKeeps(Put(st, e)); EvictedCapacity(Put(st, e));
    case DoLookup(k, n) =>
      var h := Find(st, k, n);
      if h != null && h in st.held {
        TakenListed(st, h);
      }
    case DoRelease(e) => ReleasedListed(st, e);
    case DoErase(k, n) =>
      FindGives(st, k, n);
      if Find(st, k, n) != null {
        ErasedListed(st, Find(st, k, n));
      }
    case DoPrune => PrunedEntries(st); PrunedCapacity(st);
  }

  lemma {:induction false} EvictedCapacity(st: Shard)
    ensures Evicted(st).capacity == st.capacity
    decreases |st.lru|
  {
    if st.usage > st.capacity && st.lru != [] && st.lru[0] in st.held {
      EvictedCapacity(Erased(st, st.lru[0]));
    }
  }

  lemma {:induction false} PrunedCapacity(st: Shard)
    ensures Pruned(st).capacity == st.capacity
    decreases |st.lru|
  {
    if st.lru != [] && st.lru[0] in st.held {
      PrunedCapacity(Erased(st, st.lru[0]));
    }
  }

  lemma {:induction false} RunUsable(capacity: nat, ops: seq<Op>)
    requires IsRun(capacity, ops)
    ensures Usable(After(capacity, ops)) && After(capacity, ops).capacity == capacity
  {
    hide Inv, Step;
    if ops != [] {
      Unfold(capacity, ops);
      RunKeeps(capacity, Before(ops));
      RunUsable(capacity, Before(ops));
      StepEntries(After(capacity, Before(ops)), Last(ops));
    }
  }

  /** A lookup finds nothing, or the latest entry for its key. */
  lemma {:induction false} LookupFindsLatest(capacity: nat, ops: seq<Op>, key: Bytes, hash: nat)
    requires IsRun(capacity, ops)
    ensures var h := Find(After(capacity, ops), key, hash); h != null ==> h == Latest(ops, key, hash)
  {
    hide Inv, Step, Find;
    if ops == [] {
      EmptyShard(capacity);
      FindFails(After(capacity, ops), key, hash);
    } else {
      Unfold(capacity, ops);
      RunKeeps(capacity, Before(ops));
      RunUsable(capacity, Before(ops));
      StepFinds(After(capacity, Before(ops)), Last(ops), key, hash);
      LookupFindsLatest(capacity, Before(ops), key, hash);
    }
  }

  lemma {:induction false} LatestMatches(ops: seq<Op>, key: Bytes, hash: nat)
    ensures Latest(ops, key, hash) != null ==> Matches(Latest(ops, key, hash), key, hash)
  {
    if ops != [] {
      LatestMatches(Before(ops), key, hash);
    }
  }

  /** What a client holds stays cached, unless its key is erased or inserted again. */
  lemma StepKeepsHeld(st: Shard, op: Op, h: Handle)
    requires Inv(st) && Allowed(st, op) && h in Entries(st) && HeldCount(Step(st, op), h) > 0
    requires op.DoInsert? ==> !Matches(op.e, h.key, h.hash) && op.e != h
    requires op.DoErase? ==> !Matches(h, op.key, op.hash)
    ensures h in Entries(Step(st, op))
  {
    hide Inv, Find, Entries, Evicted, Pruned, Put, Erased, Listed, HeldCount;
    InvParts(st);
    StepHolds(st, op, h);
    match op
    case DoInsert(e) =>
      PutKeeps(st, e);
      FindGives(st, e.key, e.hash);
      AddedHolds(st, e, h);
      HeldIsInUse(Put(st, e), h);
      var n := EvictionIsMinimal(Put(st, e));
      InUseIsEntry(Evicted(Put(st, e)), h);
    case DoLookup(k, n) =>
      var g := Find(st, k, n);
      if g != null && g in st.held {
        TakenListed(st, g);
      }
    case DoRelease(e) => ReleasedListed(st, e);
    case DoErase(k, n) =>
      FindGives(st, k, n);
      if Find(st, k, n) != null {
        ErasedListed(st, Find(st, k, n));
      }
    case DoPrune =>
      PrunedKeeps(st);
      HeldIsInUse(st, h);
      InUseIsEntry(Pruned(st), h);
  }

  lemma HeldIsInUse(st: Shard, h: Handle)
    requires Inv(st) && h in Entries(st) && HeldCount(st, h) > 0
    ensures h in st.inUse
  {
  }

  lemma InUseIsEntry(st: Shard, h: Handle)
    requires h in st.inUse
    ensures h in Entries(st)
  {
  }

  /** Nothing a client holds is evicted: its key finds it until it is erased or inserted again. */
  lemma HeldIsFound(capacity: nat, ops: seq<Op>, key: Bytes, hash: nat, h: Handle)
    requires IsRun(capacity, ops) && capacity > 0
    requires Latest(ops, key, hash) == h && Outstanding(capacity, ops, h) > 0
    ensures Find(After(capacity, ops), key, hash) == h
  {
    hide Inv, Entries, Find;
    RunKeeps(capacity, ops);
    HeldStays(capacity, ops, key, hash, h);
    LatestMatches(ops, key, hash);
    FindFinds(After(capacity, ops), key, hash, h);
  }

  lemma {:induction false} HeldStays(capacity: nat, ops: seq<Op>, key: Bytes, hash: nat, h: Handle)
    requires IsRun(capacity, ops) && capacity > 0
    requires Latest(ops, key, hash) == h && Outstanding(capacity, ops, h) > 0
    ensures h in Entries(After(capacity, ops))
  {
    hide Inv, Entries, Find, Step, HeldCount, Known;
    Unfold(capacity, ops);
    var st, op := After(capacity, Before(ops)), Last(ops);
    RunKeeps(capacity, Before(ops));
    RunUsable(capacity, Before(ops));
    HoldsAfterRun(capacity, ops, h);
    HoldsAfterRun(capacity, Before(ops), h);
    LatestMatches(ops, key, hash);
    if op.DoInsert? && Matches(op.e, key, hash) {
      NewIsCached(st, op.e);
    } else {
      LatestIsKnown(Before(ops), key, hash);
      NotInsertedAgain(st, op, h);
      if Outstanding(capacity, Before(ops), h) > 0 {
        HeldStays(capacity, Before(ops), key, hash, h);
      } else {
        FindGives(st, op.key, op.hash);
      }
      StepKeepsHeld(st, op, h);
    }
  }

  lemma NewIsCached(st: Shard, e: Handle)
    requires Inv(st) && e !in st.held && e !in st.deleted && st.capacity > 0
    ensures e in Entries(Step(st, DoInsert(e)))
  {
    hide Inv, Entries, Find, Put, Evicted, HeldCount;
    PutKeeps(st, e);
    AddedHolds(st, e, e);
    NewCount(st, e);
    HeldIsInUse(Put(st, e), e);
    var n := EvictionIsMinimal(Put(st, e));
    InUseIsEntry(Evicted(Put(st, e)), e);
  }

  lemma NewCount(st: Shard, e: Handle)
    requires e !in st.held
    ensures HeldCount(st, e) == 0
  {
  }

  lemma {:induction false} LatestIsKnown(ops: seq<Op>, key: Bytes, hash: nat)
    ensures Latest(ops, key, hash) != null ==> Latest(ops, key, hash) in Created(ops)
  {
    if ops != [] {
      OneMoreCreated(ops);
      LatestIsKnown(Before(ops), key, hash);
    }
  }

  lemma NotInsertedAgain(st: Shard, op: Op, h: Handle)
    requires Allowed(st, op) && h in Known(st)
    ensures op.DoInsert? ==> op.e != h
  {
  }

  // ---------- the order of eviction ----------

  /** When an entry was last given back, counted in steps; zero if never. */
  ghost function LastRelease(ops: seq<Op>, h: Handle): nat {
    if ops == [] then 0
    else if Last(ops) == DoRelease(h) then |ops|
    else LastRelease(Before(ops), h)
  }

  ghost predicate OldestFirst(ops: seq<Op>, s: seq<Handle>) {
    forall i, j :: 0 <= i < j < |s| ==> LastRelease(ops, s[i]) < LastRelease(ops, s[j])
  }

  lemma {:induction false} ReleaseIsPast(ops: seq<Op>, h: Handle)
    ensures LastRelease(ops, h) <= |ops|
  {
    if ops != [] {
      ReleaseIsPast(Before(ops), h);
    }
  }

  lemma DroppedOrder(ops: seq<Op>, s: seq<Handle>, e: Handle)
    requires OldestFirst(ops, s) && NoRepeats(s)
    ensures OldestFirst(ops, Dropped(s, e))
  {
    hide LastRelease, Dropped;
    if e in s {
      var k: nat :| k < |s| && s[k] == e;
      DroppedAt(s, k);
    } else {
      DroppedFacts(s, e);
    }
  }

  lemma OrderStays(ops: seq<Op>, s: seq<Handle>)
    requires ops != [] && OldestFirst(Before(ops), s) && (Last(ops).DoRelease? ==> Last(ops).e !in s)
    ensures OldestFirst(ops, s)
  {
  }

  lemma SuffixOrder(ops: seq<Op>, s: seq<Handle>, n: nat)
    requires OldestFirst(ops, s) && n <= |s|
    ensures OldestFirst(ops, s[n..])
  {
    hide LastRelease;
  }

  lemma AppendOrder(ops: seq<Op>, s: seq<Handle>, e: Handle)
    requires ops != [] && OldestFirst(Before(ops), s) && Last(ops) == DoRelease(e) && e !in s
    ensures OldestFirst(ops, s + [e])
  {
    forall i | 0 <= i < |s|
      ensures LastRelease(ops, s[i]) < LastRelease(ops, e)
    {
      ReleaseIsPast(Before(ops), s[i]);
    }
  }

  /** The idle entries are in the order in which their last clients gave them back. So what is evicted,
      the front of the list, was given back before everything that stays. */
  lemma {:induction false} IdleInOrder(capacity: nat, ops: seq<Op>)
    requires IsRun(capacity, ops)
    ensures OldestFirst(ops, After(capacity, ops).lru)
  {
    hide Inv, Step, LastRelease, OldestFirst;
    if ops == [] {
      NothingIdle([]);
    } else {
      Unfold(capacity, ops);
      RunKeeps(capacity, Before(ops));
      IdleInOrder(capacity, Before(ops));
      StepOrder(After(capacity, Before(ops)), ops);
    }
  }

  lemma StepOrder(st: Shard, ops: seq<Op>)
    requires ops != [] && Inv(st) && Allowed(st, Last(ops)) && OldestFirst(Before(ops), st.lru)
    ensures OldestFirst(ops, Step(st, Last(ops)).lru)
  {
    hide Inv, LastRelease, OldestFirst, Evicted, Pruned, Put, Find, Dropped, Entries, Listed;
    InvParts(st);
    IdleFacts(st);
    if Last(ops).DoRelease? {
      ReleaseOrder(st, ops, Last(ops).e);
    } else {
      OrderStays(ops, st.lru);
      match Last(ops)
      case DoInsert(e) =>
        PutKeeps(st, e);
        PutIdle(st, ops, e);
        var n := EvictionIsMinimal(Put(st, e));
        SuffixOrder(ops, Put(st, e).lru, n);
      case DoLookup(key, hash) =>
        if Find(st, key, hash) != null {
          DroppedOrder(ops, st.lru, Find(st, key, hash));
        }
      case DoErase(key, hash) =>
        if Find(st, key, hash) != null {
          DroppedOrder(ops, st.lru, Find(st, key, hash));
        }
      case DoPrune =>
        PrunedKeeps(st);
        NothingIdle(ops);
      case _ =>
    }
  }

  lemma ReleaseOrder(st: Shard, ops: seq<Op>, e: Handle)
    requires ops != [] && Last(ops) == DoRelease(e) && e in st.held && st.held[e] > 0 && e !in st.lru && OldestFirst(Before(ops), st.lru)
    ensures OldestFirst(ops, Released(st, e).lru)
  {
    hide LastRelease, OldestFirst;
    AppendOrder(ops, st.lru, e);
    OrderStays(ops, st.lru);
  }

  lemma NothingIdle(ops: seq<Op>)
    ensures OldestFirst(ops, [])
  {
  }

  lemma IdleFacts(st: Shard)
    requires Listed(st)
    ensures NoRepeats(st.lru) && forall h :: h in st.held && st.held[h] > 0 ==> h !in st.lru
  {
  }

  lemma PutIdle(st: Shard, ops: seq<Op>, e: Handle)
    requires OldestFirst(ops, st.lru) && NoRepeats(st.lru)
    ensures OldestFirst(ops, Put(st, e).lru)
  {
    hide OldestFirst, Dropped;
    var replaced := Find(st, e.key, e.hash);
    if replaced != null {
      DroppedOrder(ops, st.lru, replaced);
    }
  }
}
