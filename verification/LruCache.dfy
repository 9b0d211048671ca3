/** A shard of the block cache (util/cache.cc): entries counted by reference, those no client holds in
    the order they were released, and the oldest of them given up for new ones. */
module LruCache {
  import opened Coding
  import opened HandleTable

  // ---------- the state of a shard ----------

  /** `lru` has the entries no client holds, the oldest first; `inUse` the others in the cache. `held`
      counts the clients' references to every entry that is still there, and `deleted` has the entries
      passed to their deleters. */
  datatype Shard = Shard(capacity: nat, lru: seq<Handle>, inUse: seq<Handle>, usage: nat,
                         held: map<Handle, nat>, deleted: seq<Handle>)

  ghost function Entries(st: Shard): set<Handle> {
    set h | h in st.lru + st.inUse
  }

  function Charge(s: seq<Handle>): nat {
    if s == [] then 0 else s[0].charge + Charge(s[1..])
  }

  /** An entry in the cache is on exactly one list, the first when no client holds it; an entry no
      longer held is there only for the cache; deleters run once, and only when nobody holds the entry. */
  ghost predicate Listed(st: Shard) {
    && NoRepeats(st.lru) && NoRepeats(st.inUse) && NoRepeats(st.deleted)
    && (forall h :: h in st.lru ==> h !in st.inUse && h in st.held && st.held[h] == 0)
    && (forall h :: h in st.inUse ==> h in st.held && st.held[h] > 0)
    && (forall h :: h in st.held && st.held[h] == 0 ==> h in st.lru)
    && (forall h :: h in st.deleted ==> h !in st.held)
    && st.usage == Charge(st.lru) + Charge(st.inUse)
  }

  ghost predicate Inv(st: Shard) {
    Listed(st) && DistinctKeys(Entries(st))
  }

  /** References, with the cache's own. */
  ghost function Refs(st: Shard, h: Handle): nat
    requires h in st.held
  {
    st.held[h] + if h in Entries(st) then 1 else 0
  }

  // ---------- what the operations do ----------

  function Dropped(s: seq<Handle>, e: Handle): seq<Handle> {
    if s == [] then [] else if s[0] == e then s[1..] else [s[0]] + Dropped(s[1..], e)
  }

  /** Another client holds an entry. */
  ghost function Taken(st: Shard, e: Handle): Shard
    requires e in st.held
  {
    var one := st.(held := st.held[e := st.held[e] + 1]);
    if e in st.lru then one.(lru := Dropped(st.lru, e), inUse := st.inUse + [e]) else one
  }

  /** A client gives an entry back. */
  ghost function Released(st: Shard, e: Handle): Shard
    requires e in st.held && st.held[e] > 0
  {
    if st.held[e] > 1 then st.(held := st.held[e := st.held[e] - 1])
    else if e in Entries(st) then st.(held := st.held[e := 0], lru := st.lru + [e], inUse := Dropped(st.inUse, e))
    else st.(held := st.held - {e}, deleted := st.deleted + [e])
  }

  /** An entry leaves the cache. */
  ghost function Erased(st: Shard, e: Handle): Shard
    requires e in st.held
  {
    var out := st.(lru := Dropped(st.lru, e), inUse := Dropped(st.inUse, e), usage := if e.charge <= st.usage then st.usage - e.charge else 0);
    if st.held[e] > 0 then out else out.(held := st.held - {e}, deleted := st.deleted + [e])
  }

  /** The entry for a key, or null. */
  ghost function Find(st: Shard, key: Bytes, hash: nat): Handle? {
    if h :| h in Entries(st) && Matches(h, key, hash) then h else null
  }

  /** While too much is charged, the oldest entry no client holds is given up. */
  ghost function Evicted(st: Shard): Shard
    decreases |st.lru|
  {
    if st.usage > st.capacity && st.lru != [] && st.lru[0] in st.held then Evicted(Erased(st, st.lru[0])) else st
  }

  ghost function Pruned(st: Shard): Shard
    decreases |st.lru|
  {
    if st.lru != [] && st.lru[0] in st.held then Pruned(Erased(st, st.lru[0])) else st
  }

  ghost function Added(st: Shard, e: Handle): Shard {
    st.(held := st.held[e := 1], inUse := st.inUse + [e], usage := st.usage + e.charge)
  }

  /** A new entry, held by its client, in the place of any other for its key. */
  ghost function Put(st: Shard, e: Handle): Shard {
    if st.capacity > 0 then
      var put := Added(st, e);
      var replaced := Find(st, e.key, e.hash);
      if replaced != null && replaced in put.held then Erased(put, replaced) else put
    else st.(held := st.held[e := 1])
  }

  ghost function Inserted(st: Shard, e: Handle): Shard {
    Evicted(Put(st, e))
  }

  ghost function ErasedKey(st: Shard, key: Bytes, hash: nat): Shard {
    var h := Find(st, key, hash);
    if h != null && h in st.held then Erased(st, h) else st
  }

  // ---------- lists ----------

  lemma {:induction false} DroppedFacts(s: seq<Handle>, e: Handle)
    requires NoRepeats(s)
    ensures NoRepeats(Dropped(s, e)) && forall h :: h in Dropped(s, e) <==> h in s && h != e
    ensures Charge(Dropped(s, e)) == if e in s then Charge(s) - e.charge else Charge(s)
    ensures e in s ==> Charge(s) >= e.charge
    ensures e !in s ==> Dropped(s, e) == s
  {
    if s != [] {
      DroppedFacts(s[1..], e);
      assert forall h :: h in s <==> h == s[0] || h in s[1..];
      if s[0] != e {
        assert s[0] !in s[1..];
      }
    }
  }

  lemma {:induction false} ChargeAppend(s: seq<Handle>, e: Handle)
    ensures Charge(s + [e]) == Charge(s) + e.charge
  {
    if s == [] {
      assert s + [e] == [e];
    } else {
      assert (s + [e])[1..] == s[1..] + [e];
      ChargeAppend(s[1..], e);
    }
  }

  // ---------- every operation keeps the invariant ----------

  lemma TakenListed(st: Shard, e: Handle)
    requires Listed(st) && e in st.held
    ensures Listed(Taken(st, e)) && Entries(Taken(st, e)) == Entries(st)
  {
    hide Charge, Dropped;
    DroppedFacts(st.lru, e);
    ChargeAppend(st.inUse, e);
    assert Entries(Taken(st, e)) == Entries(st);
  }

  lemma ReleasedListed(st: Shard, e: Handle)
    requires Listed(st) && e in st.held && st.held[e] > 0
    ensures Listed(Released(st, e)) && Entries(Released(st, e)) == Entries(st)
  {
    hide Charge, Dropped;
    DroppedFacts(st.inUse, e);
    ChargeAppend(st.lru, e);
    assert Entries(Released(st, e)) == Entries(st);
  }

  lemma ErasedListed(st: Shard, e: Handle)
    requires Listed(st) && e in Entries(st)
    ensures e in st.held && Listed(Erased(st, e)) && Entries(Erased(st, e)) == Entries(st) - {e}
    ensures Erased(st, e).capacity == st.capacity
    ensures e.charge <= st.usage
  {
    hide Charge, Dropped;
    DroppedFacts(st.lru, e);
    DroppedFacts(st.inUse, e);
    assert Entries(Erased(st, e)) == Entries(st) - {e};
  }

  lemma ErasedKeeps(st: Shard, e: Handle)
    requires Inv(st) && e in Entries(st)
    ensures e in st.held && Inv(Erased(st, e)) && Entries(Erased(st, e)) == Entries(st) - {e}
    ensures e.charge <= st.usage
  {
    hide DistinctKeys, Listed, Entries, Erased;
    ErasedListed(st, e);
    FewerKeys(Entries(st), e);
  }

  lemma FindFinds(st: Shard, key: Bytes, hash: nat, h: Handle)
    requires Inv(st) && h in Entries(st) && Matches(h, key, hash)
    ensures Find(st, key, hash) == h
  {
    var f := Find(st, key, hash);
    assert f != null && f in Entries(st) && Matches(f, h.key, h.hash);
  }

  lemma FindFails(st: Shard, key: Bytes, hash: nat)
    requires Absent(Entries(st), key, hash)
    ensures Find(st, key, hash) == null
  {
  }

  lemma FindGives(st: Shard, key: Bytes, hash: nat)
    ensures Find(st, key, hash) == null ==> Absent(Entries(st), key, hash)
    ensures Find(st, key, hash) != null ==> Find(st, key, hash) in Entries(st) && Matches(Find(st, key, hash), key, hash)
  {
  }

  lemma AddedListed(st: Shard, e: Handle)
    requires Listed(st) && e !in st.held && e !in st.deleted
    ensures Listed(Added(st, e)) && Entries(Added(st, e)) == Entries(st) + {e}
  {
    hide Charge;
    ChargeAppend(st.inUse, e);
    assert Entries(Added(st, e)) == Entries(st) + {e};
  }

  lemma PutKeeps(st: Shard, e: Handle)
    requires Inv(st) && e !in st.held && e !in st.deleted
    ensures Inv(Put(st, e)) && Put(st, e).capacity == st.capacity
    ensures Entries(Put(st, e)) == if st.capacity > 0 then Without(Entries(st), Find(st, e.key, e.hash)) + {e} else Entries(st)
  {
    hide DistinctKeys, Find, Erased;
    FindGives(st, e.key, e.hash);
    if st.capacity > 0 {
      AddedListed(st, e);
      var put := Added(st, e);
      var replaced := Find(st, e.key, e.hash);
      KeysWith(Entries(st), replaced, e);
      if replaced != null {
        ErasedListed(put, replaced);
        assert Entries(Put(st, e)) == Without(Entries(st), replaced) + {e};
      }
    } else {
      assert Entries(Put(st, e)) == Entries(st);
    }
  }

  lemma {:induction false} EvictedKeeps(st: Shard)
    requires Inv(st)
    ensures Inv(Evicted(st)) && Entries(Evicted(st)) <= Entries(st)
    ensures Evicted(st).usage <= st.capacity || Evicted(st).lru == []
    decreases |st.lru|
  {
    hide DistinctKeys, Erased, Charge;
    if st.usage > st.capacity && st.lru != [] {
      assert st.lru[0] in Entries(st);
      ErasedKeeps(st, st.lru[0]);
      OldestErased(st);
      EvictedKeeps(Erased(st, st.lru[0]));
    }
  }

  lemma OldestErased(st: Shard)
    requires st.lru != [] && st.lru[0] in st.held
    ensures Erased(st, st.lru[0]).lru == st.lru[1..] && Erased(st, st.lru[0]).capacity == st.capacity
  {
  }

  lemma {:induction false} PrunedKeeps(st: Shard)
    requires Inv(st)
    ensures Inv(Pruned(st)) && Pruned(st).lru == [] && Pruned(st).inUse == st.inUse
    decreases |st.lru|
  {
    hide DistinctKeys, Erased, Charge;
    if st.lru != [] {
      assert st.lru[0] in Entries(st);
      ErasedKeeps(st, st.lru[0]);
      OldestErased(st);
      InUseStays(st);
      PrunedKeeps(Erased(st, st.lru[0]));
    }
  }

  lemma InUseStays(st: Shard)
    requires Listed(st) && st.lru != []
    ensures Erased(st, st.lru[0]).inUse == st.inUse
  {
    DroppedFacts(st.inUse, st.lru[0]);
  }

  lemma InsertedKeeps(st: Shard, e: Handle)
    requires Inv(st) && e !in st.held && e !in st.deleted
    ensures Inv(Inserted(st, e))
    ensures Inserted(st, e).usage <= st.capacity || Inserted(st, e).lru == []
  {
    hide Inv, Put;
    PutKeeps(st, e);
    EvictedKeeps(Put(st, e));
  }

  lemma ErasedKeyKeeps(st: Shard, key: Bytes, hash: nat)
    requires Inv(st)
    ensures Inv(ErasedKey(st, key, hash)) && Absent(Entries(ErasedKey(st, key, hash)), key, hash)
  {
    hide Find, Erased;
    FindGives(st, key, hash);
    var h := Find(st, key, hash);
    if h != null {
      ErasedKeeps(st, h);
    }
  }

  /** Eviction takes the entries that were released longest ago, and no more than it has to. */
  lemma {:induction false} EvictionIsMinimal(st: Shard) returns (n: nat)
    requires Inv(st)
    ensures n <= |st.lru| && Evicted(st).lru == st.lru[n..] && Evicted(st).inUse == st.inUse
    ensures Evicted(st).deleted == st.deleted + st.lru[..n]
    ensures Evicted(st).usage == st.usage - Charge(st.lru[..n])
    ensures forall k :: 0 <= k < n ==> st.usage - Charge(st.lru[..k]) > st.capacity
    decreases |st.lru|
  {
    hide Inv, Charge, Erased, Evicted;
    if st.usage > st.capacity && st.lru != [] {
      OneEvicted(st);
      var next := Erased(st, st.lru[0]);
      var m := EvictionIsMinimal(next);
      n := m + 1;
      assert st.lru[..n] == [st.lru[0]] + next.lru[..m];
      forall k | 0 <= k < n
        ensures st.usage - Charge(st.lru[..k]) > st.capacity
      {
        if k == 0 {
          ChargeNothing();
        } else {
          assert st.lru[..k] == [st.lru[0]] + next.lru[..k - 1];
          ChargeFront(st.lru[0], next.lru[..k - 1]);
        }
      }
      ChargeFront(st.lru[0], next.lru[..m]);
    } else {
      n := 0;
      ChargeNothing();
      NoneEvicted(st);
      assert st.deleted + st.lru[..0] == st.deleted;
    }
  }

  lemma OneEvicted(st: Shard)
    requires Inv(st) && st.usage > st.capacity && st.lru != []
    ensures st.lru[0] in st.held && Inv(Erased(st, st.lru[0])) && Evicted(st) == Evicted(Erased(st, st.lru[0]))
    ensures var next := Erased(st, st.lru[0]);
            && next.lru == st.lru[1..] && next.inUse == st.inUse && next.capacity == st.capacity
            && next.deleted == st.deleted + [st.lru[0]] && next.usage == st.usage - st.lru[0].charge
  {
    hide DistinctKeys, Charge;
    assert st.lru[0] in Entries(st);
    ErasedKeeps(st, st.lru[0]);
    InUseStays(st);
  }

  lemma NoneEvicted(st: Shard)
    requires st.usage <= st.capacity || st.lru == []
    ensures Evicted(st) == st
  {
  }

  lemma ChargeNothing()
    ensures Charge([]) == 0
  {
  }

  lemma ChargeFront(e: Handle, s: seq<Handle>)
    ensures Charge([e] + s) == e.charge + Charge(s)
  {
  }

  // ---------- circular lists ----------

  function Around(head: Handle, s: seq<Handle>, i: nat): Handle {
    if 1 <= i <= |s| then s[i - 1] else head
  }

  ghost predicate Joined(head: Handle, s: seq<Handle>, i: nat)
    reads head, s
  {
    Around(head, s, i).next == Around(head, s, i + 1) && Around(head, s, i + 1).prev == Around(head, s, i)
  }

  /** The entries between a list head and itself. */
  ghost predicate Ring(head: Handle, s: seq<Handle>)
    reads head, s
  {
    && head !in s && NoRepeats(s)
    && forall i: nat :: i <= |s| ==> Joined(head, s, i)
  }

  datatype Circle = Circle(head: Handle, entries: seq<Handle>)

  twostate lemma RingStays(c: Circle)
    requires old(Ring(c.head, c.entries))
    requires forall h :: h == c.head || h in c.entries ==> h.next == old(h.next) && h.prev == old(h.prev)
    ensures Ring(c.head, c.entries)
  {
    forall i: nat | i <= |c.entries|
      ensures Joined(c.head, c.entries, i)
    {
      assert old(Joined(c.head, c.entries, i));
    }
  }

  lemma {:induction false} DroppedAt(s: seq<Handle>, k: nat)
    requires NoRepeats(s) && k < |s|
    ensures Dropped(s, s[k]) == s[..k] + s[k + 1..]
  {
    if k > 0 {
      DroppedAt(s[1..], k - 1);
    }
  }

  /** `LRU_Remove`. */
  method Unlink(e: Handle, ghost head: Handle, ghost s: seq<Handle>)
    requires Ring(head, s) && e in s
    modifies head`next, head`prev, s`next, s`prev
    ensures Ring(head, Dropped(s, e))
  {
    ghost var k: nat :| k < |s| && s[k] == e;
    assert Joined(head, s, k) && Joined(head, s, k + 1);
    e.next.prev := e.prev;
    e.prev.next := e.next;
    DroppedAt(s, k);
    RingWithout(Circle(head, s), k);
  }

  twostate lemma RingWithout(c: Circle, new k: nat)
    requires old(Ring(c.head, c.entries)) && k < |c.entries|
    requires var a, b := Around(c.head, c.entries, k), Around(c.head, c.entries, k + 2);
             && a.next == b && b.prev == a
             && (forall h :: (h == c.head || h in c.entries) && h != a ==> h.next == old(h.next))
             && (forall h :: (h == c.head || h in c.entries) && h != b ==> h.prev == old(h.prev))
    ensures Ring(c.head, c.entries[..k] + c.entries[k + 1..])
  {
    var head, s := c.head, c.entries;
    var r := s[..k] + s[k + 1..];
    forall i: nat | i <= |r|
      ensures Joined(head, r, i)
    {
      var o := if i <= k then i else i + 1;
      assert Around(head, r, i) == Around(head, s, o);
      assert Around(head, r, i + 1) == Around(head, s, if i < k then i + 1 else i + 2);
      assert old(Joined(head, s, o));
    }
  }

  /** `LRU_Append`. */
  method Append(list: Handle, e: Handle, ghost s: seq<Handle>)
    requires Ring(list, s) && e != list && e !in s
    modifies e`next, e`prev, list`prev, list`next, s`next
    ensures Ring(list, s + [e])
  {
    assert Joined(list, s, |s|);
    e.next := list;
    e.prev := list.prev;
    e.prev.next := e;
    e.next.prev := e;
    RingWith(Circle(list, s), e);
  }

  twostate lemma RingWith(c: Circle, new e: Handle)
    requires old(Ring(c.head, c.entries)) && e != c.head && e !in c.entries
    requires var a := Around(c.head, c.entries, |c.entries|);
             && a.next == e && e.prev == a && e.next == c.head && c.head.prev == e
             && (forall h :: (h == c.head || h in c.entries) && h != a ==> h.next == old(h.next))
             && (forall h :: h in c.entries ==> h.prev == old(h.prev))
    ensures Ring(c.head, c.entries + [e])
  {
    var head, s := c.head, c.entries;
    var r := s + [e];
    forall i: nat | i <= |r|
      ensures Joined(head, r, i)
    {
      if i < |s| {
        assert Around(head, r, i) == Around(head, s, i) && Around(head, r, i + 1) == Around(head, s, i + 1);
        assert old(Joined(head, s, i));
      }
    }
  }

  lemma EmptyRing(head: Handle)
    requires head.next == head && head.prev == head
    ensures Ring(head, [])
  {
  }

  // ---------- the shard ----------

  lemma EmptyShard(capacity: nat)
    ensures var st := Shard(capacity, [], [], 0, map[], []);
            Listed(st) && Entries(st) == {} && DistinctKeys(Entries(st))
  {
  }

  /** Every entry knows how many references it has, and whether it is in the cache. */
  ghost predicate Counted(st: Shard)
    reads st.held.Keys
  {
    forall h :: h in st.held ==> h.refs == Refs(st, h) && h.inCache == (h in Entries(st))
  }

  ghost predicate Rings(lru: Handle, lruList: seq<Handle>, inUse: Handle, inUseList: seq<Handle>)
    reads lru, inUse, lruList, inUseList
  {
    && Ring(lru, lruList) && Ring(inUse, inUseList)
    && lru != inUse && lru !in inUseList && inUse !in lruList
    && forall h :: h in lruList ==> h !in inUseList
  }

  class LruCache {
    const capacity: nat
    const lru: Handle
    const inUse: Handle
    const table: HandleTable
    var usage: nat
    ghost var lruList: seq<Handle>
    ghost var inUseList: seq<Handle>
    ghost var held: map<Handle, nat>
    ghost var deleted: seq<Handle>

    ghost function Now(): Shard
      reads this
    {
      Shard(capacity, lruList, inUseList, usage, held, deleted)
    }

    /** All but the table, which may be ahead by an entry. */
    ghost predicate Sound()
      reads this, lru, inUse, held.Keys, lruList, inUseList
    {
      && Listed(Now()) && Rings(lru, lruList, inUse, inUseList) && Counted(Now())
      && lru !in held && inUse !in held
    }

    ghost predicate Valid()
      reads this, lru, inUse, table, table.list, table.entries, held.Keys, lruList, inUseList
    {
      Sound() && DistinctKeys(Entries(Now())) && table.Valid() && table.entries == Entries(Now())
    }

    lemma Parts()
      requires Sound()
      ensures Listed(Now()) && Rings(lru, lruList, inUse, inUseList) && Counted(Now()) && lru !in held && inUse !in held
    {
    }

    lemma Whole()
      requires Listed(Now()) && Rings(lru, lruList, inUse, inUseList) && Counted(Now()) && lru !in held && inUse !in held
      ensures Sound()
    {
    }

    /** `LRUCache` and `SetCapacity`. */
    constructor (capacity: nat)
      ensures Valid() && Now() == Shard(capacity, [], [], 0, map[], []) && fresh(lru) && fresh(inUse) && fresh(table) && fresh(table.list)
    {
      hide Ring, Listed, DistinctKeys, Entries, HandleTable.Valid;
      this.capacity := capacity;
      lru := new Handle([], 0, 0, false, 0);
      inUse := new Handle([], 0, 0, false, 0);
      table := new HandleTable();
      usage, lruList, inUseList, held, deleted := 0, [], [], map[], [];
      new;
      label Made:
      lru.next, lru.prev := lru, lru;
      inUse.next, inUse.prev := inUse, inUse;
      EmptyRing(lru);
      EmptyRing(inUse);
      EmptyShard(capacity);
      table.Stays@Made();
    }

    method Ref(e: Handle)
      requires Rings(lru, lruList, inUse, inUseList) && (e.refs == 1 && e.inCache ==> e in lruList) && e != lru && e != inUse
      modifies this`lruList, this`inUseList, e`refs, lru`next, lru`prev, inUse`next, inUse`prev
      modifies lruList`next, lruList`prev, inUseList`next, inUseList`prev
      ensures Rings(lru, lruList, inUse, inUseList) && e.refs == old(e.refs) + 1
      ensures if old(e.refs) == 1 && e.inCache then lruList == Dropped(old(lruList), e) && inUseList == old(inUseList) + [e]
              else lruList == old(lruList) && inUseList == old(inUseList)
    {
      if e.refs == 1 && e.inCache {
        Unlink(e, lru, lruList);
        RingStays(Circle(inUse, inUseList));
        DroppedFacts(lruList, e);
        lruList := Dropped(lruList, e);
        label Unlinked:
        Append(inUse, e, inUseList);
        RingStays@Unlinked(Circle(lru, lruList));
        inUseList := inUseList + [e];
      }
      label Moved:
      e.refs := e.refs + 1;
      RingStays@Moved(Circle(lru, lruList));
      RingStays@Moved(Circle(inUse, inUseList));
    }

    method Unref(e: Handle)
      requires Rings(lru, lruList, inUse, inUseList) && e.refs > 0 && (e.refs == 1 ==> !e.inCache) && (e.refs == 2 && e.inCache ==> e in inUseList)
      requires e != lru && e != inUse
      modifies this`lruList, this`inUseList, this`deleted, e`refs, lru`next, lru`prev, inUse`next, inUse`prev
      modifies lruList`next, lruList`prev, inUseList`next, inUseList`prev
      ensures Rings(lru, lruList, inUse, inUseList) && e.refs == old(e.refs) - 1
      ensures deleted == if e.refs == 0 then old(deleted) + [e] else old(deleted)
      ensures if e.refs == 1 && e.inCache then inUseList == Dropped(old(inUseList), e) && lruList == old(lruList) + [e]
              else lruList == old(lruList) && inUseList == old(inUseList)
    {
      e.refs := e.refs - 1;
      RingStays(Circle(lru, lruList));
      RingStays(Circle(inUse, inUseList));
      label Counted:
      if e.refs == 0 {
        deleted := deleted + [e];
      } else if e.inCache && e.refs == 1 {
        Unlink(e, inUse, inUseList);
        RingStays@Counted(Circle(lru, lruList));
        DroppedFacts(inUseList, e);
        inUseList := Dropped(inUseList, e);
        label Unlinked:
        Append(lru, e, lruList);
        RingStays@Unlinked(Circle(inUse, inUseList));
        lruList := lruList + [e];
      }
    }
  
    method Hold(e: Handle)
      requires Rings(lru, lruList, inUse, inUseList) && (e.refs == 1 && e.inCache ==> e in lruList) && e != lru && e != inUse
      requires e in held && forall h :: h in lruList || h in inUseList ==> h in held
      modifies this`lruList, this`inUseList, this`held, held.Keys`refs, held.Keys`next, held.Keys`prev, lru`next, lru`prev, inUse`next, inUse`prev
      ensures Rings(lru, lruList, inUse, inUseList) && held == old(held)[e := old(held)[e] + 1]
      ensures forall h :: h in old(held) ==> h.refs == if h == e then old(h.refs) + 1 else old(h.refs)
      ensures if old(e.refs) == 1 && e.inCache then lruList == Dropped(old(lruList), e) && inUseList == old(inUseList) + [e]
              else lruList == old(lruList) && inUseList == old(inUseList)
    {
      hide Rings, Dropped;
      Ref(e);
      held := held[e := held[e] + 1];
    }

    /** A client's reference is gone, and with the last of all the entry. */
    method LoseClient(e: Handle)
      requires Rings(lru, lruList, inUse, inUseList) && e.refs > 0 && (e.refs == 1 ==> !e.inCache) && (e.refs == 2 && e.inCache ==> e in inUseList)
      requires e != lru && e != inUse && e in held && held[e] > 0 && forall h :: h in lruList || h in inUseList ==> h in held
      modifies this`lruList, this`inUseList, this`held, this`deleted, held.Keys`refs, held.Keys`next, held.Keys`prev, lru`next, lru`prev, inUse`next, inUse`prev
      ensures Rings(lru, lruList, inUse, inUseList)
      ensures forall h :: h in old(held) ==> h.refs == if h == e then old(h.refs) - 1 else old(h.refs)
      ensures held == if e.refs == 0 then old(held) - {e} else old(held)[e := old(held)[e] - 1]
      ensures deleted == if e.refs == 0 then old(deleted) + [e] else old(deleted)
      ensures if e.refs == 1 && e.inCache then inUseList == Dropped(old(inUseList), e) && lruList == old(lruList) + [e]
              else lruList == old(lruList) && inUseList == old(inUseList)
    {
      hide Rings, Dropped;
      Unref(e);
      held := if e.refs == 0 then held - {e} else held[e := held[e] - 1];
    }

    /** The client gets a reference of its own. */
    method Take(e: Handle)
      requires Sound() && e in held && table.Valid() && table.entries <= held.Keys
      modifies this`lruList, this`inUseList, this`held, held.Keys`refs, held.Keys`next, held.Keys`prev, lru, inUse
      ensures Sound() && table.Valid()
      ensures Now() == Taken(old(Now()), e)
    {
      hide Listed, Rings, Ring, HandleTable.Valid, Taken, Counted, Entries, Sound, Dropped;
      Parts();
      ghost var st := Now();
      ListsHeld(st);
      TakenIs(st, e);
      Hold(e);
      table.Stays();
      TakenListed(st, e);
      TakenCounted(st, e);
      assert Now() == Taken(st, e);
      Whole();
    }

    method Lookup(key: Bytes, hash: nat) returns (e: Handle?)
      requires Valid()
      modifies this`lruList, this`inUseList, this`held, held.Keys`refs, held.Keys`next, held.Keys`prev, lru, inUse
      ensures Valid()
      ensures e == Find(old(Now()), key, hash)
      ensures Now() == if e == null || e !in old(held) then old(Now()) else Taken(old(Now()), e)
    {
      hide Listed, Rings, Ring, HandleTable.Valid, Find, Taken, Counted, Entries;
      e := table.Lookup(key, hash);
      if e == null {
        FindFails(Now(), key, hash);
        return;
      }
      FindFinds(Now(), key, hash, e);
      ListsHeld(Now());
      TakenListed(Now(), e);
      Take(e);
    }

    method Release(e: Handle)
      requires Valid() && e in held && held[e] > 0
      modifies this`lruList, this`inUseList, this`held, this`deleted, held.Keys`refs, held.Keys`next, held.Keys`prev, lru, inUse
      ensures Valid()
      ensures Now() == Released(old(Now()), e)
    {
      hide Listed, Rings, Ring, HandleTable.Valid, Released, Counted, Entries, Sound, Dropped;
      Parts();
      ghost var st := Now();
      ListsHeld(st);
      ReleasedIs(st, e);
      LoseClient(e);
      table.Stays();
      ReleasedListed(st, e);
      ReleasedCounted(st, e);
      assert Now() == Released(st, e);
      Whole();
    }

    /** `FinishErase`, for an entry that is already out of the hash table. */
    method FinishErase(e: Handle?) returns (erased: bool)
      requires Sound() && table.Valid() && table.entries == Entries(Now()) - {e} && (e != null ==> e in Entries(Now()))
      modifies this, held.Keys`refs, held.Keys`next, held.Keys`prev, held.Keys`inCache, lru, inUse
      ensures erased == (e != null)
      ensures Sound() && table.Valid() && table.entries == Entries(Now())
      ensures Now() == if e != null && e in old(held) then Erased(old(Now()), e) else old(Now())
      ensures unchanged(table)
      ensures unchanged(table.list)
    {
      hide Listed, Ring, HandleTable.Valid, Erased, Counted, Entries, Sound, Dropped, Rings;
      erased := e != null;
      if !erased {
        assert Entries(Now()) - {e} == Entries(Now());
        return;
      }
      Parts();
      ghost var st := Now();
      ListsHeld(st);
      ErasedIs(st, e);
      LetGo(e);
      table.Stays();
      ErasedListed(st, e);
      ErasedCounted(st, e);
      assert Now() == Erased(st, e);
      Whole();
    }

    method LetGo(e: Handle)
      requires Rings(lru, lruList, inUse, inUseList) && (e in lruList || e in inUseList) && e != lru && e != inUse
      requires e.refs > 0 && e.charge <= usage && forall h :: h in lruList || h in inUseList ==> h in held
      modifies this, e`inCache, e`refs, held.Keys`next, held.Keys`prev, lru`next, lru`prev, inUse`next, inUse`prev
      ensures Rings(lru, lruList, inUse, inUseList) && !e.inCache && e.refs == old(e.refs) - 1
      ensures lruList == Dropped(old(lruList), e) && inUseList == Dropped(old(inUseList), e) && usage == old(usage) - e.charge
      ensures held == if e.refs == 0 then old(held) - {e} else old(held)
      ensures deleted == if e.refs == 0 then old(deleted) + [e] else old(deleted)
    {
      hide Ring;
      RingsAreRings();
      DroppedFacts(lruList, e);
      DroppedFacts(inUseList, e);
      Detach(e);
      usage := usage - e.charge;
      Unref(e);
      if e.refs == 0 {
        held := held - {e};
      }
    }

    /** The entry leaves its list and is no longer in the cache. */
    method Detach(e: Handle)
      requires Rings(lru, lruList, inUse, inUseList) && (e in lruList || e in inUseList)
      modifies this`lruList, this`inUseList, e`inCache, lru`next, lru`prev, inUse`next, inUse`prev
      modifies lruList`next, lruList`prev, inUseList`next, inUseList`prev
      ensures Rings(lru, lruList, inUse, inUseList) && !e.inCache
      ensures lruList == Dropped(old(lruList), e) && inUseList == Dropped(old(inUseList), e)
    {
      hide Ring, Dropped;
      RingsAreRings();
      DroppedFacts(lruList, e);
      DroppedFacts(inUseList, e);
      ghost var idle := e in lruList;
      Unlink(e, if idle then lru else inUse, if idle then lruList else inUseList);
      if idle {
        RingStays(Circle(inUse, inUseList));
      } else {
        RingStays(Circle(lru, lruList));
      }
      lruList, inUseList := Dropped(lruList, e), Dropped(inUseList, e);
      label Unlinked:
      e.inCache := false;
      RingStays@Unlinked(Circle(lru, lruList));
      RingStays@Unlinked(Circle(inUse, inUseList));
    }

    /** Nothing but a new entry changed. */
    twostate lemma StaysValid()
      requires old(Valid())
      requires unchanged(this, lru, inUse)
      requires unchanged(table)
      requires unchanged(table.list)
      requires forall h :: h in old(held) || h in old(lruList) || h in old(inUseList) || h in old(table.entries) ==> unchanged(h)
      ensures Valid()
    {
      hide Listed, Ring, HandleTable.Valid, DistinctKeys;
      RingStays(Circle(lru, lruList));
      RingStays(Circle(inUse, inUseList));
      table.Stays();
    }

    lemma NotEmpty()
      requires Valid()
      ensures Inv(Now()) && (lru.next == lru <==> lruList == [])
    {
      hide Listed, HandleTable.Valid, DistinctKeys, Counted;
      RingStarts(lru, lruList);
    }

    /** A new entry for the client alone. */
    method KeepOutside(ghost e: Handle)
      requires Valid() && e !in held && e !in deleted && e.refs == 1 && !e.inCache && e != lru && e != inUse && capacity == 0
      modifies this`held
      ensures Valid() && Now() == Put(old(Now()), e) && held.Keys == old(held.Keys) + {e}
    {
      hide Ring, HandleTable.Valid, DistinctKeys;
      ListsHeld(Now());
      ghost var st := Now();
      held := held[e := 1];
      PutKeeps(st, e);
    }

    lemma RingsAreRings()
      requires Rings(lru, lruList, inUse, inUseList)
      ensures NoRepeats(lruList) && NoRepeats(inUseList) && lru !in lruList && inUse !in inUseList
    {
    }

    method Erase(key: Bytes, hash: nat)
      requires Valid()
      modifies this, table, table.list, held.Keys, lru, inUse
      ensures Valid() && table.list == old(table.list) && held.Keys <= old(held.Keys)
      ensures Now() == ErasedKey(old(Now()), key, hash)
    {
      hide Listed, Rings, Ring, HandleTable.Valid, Erased, Counted, Entries, Sound, Find;
      Parts();
      ghost var st := Now();
      ListsHeld(st);
      var removed := RemoveKey(key, hash);
      if removed == null {
        FindFails(st, key, hash);
      } else {
        FindFinds(st, key, hash, removed);
        ErasedKeeps(st, removed);
      }
    }

    /** `FinishErase(table_.Remove(key, hash))`. */
    method RemoveKey(key: Bytes, hash: nat) returns (removed: Handle?)
      requires Valid()
      modifies this, table, table.list, held.Keys, lru, inUse
      ensures Valid() && table.list == old(table.list) && held.Keys <= old(held.Keys)
      ensures removed == null ==> Absent(Entries(old(Now())), key, hash) && Now() == old(Now())
      ensures removed != null ==> removed in Entries(old(Now())) && Matches(removed, key, hash)
      ensures removed != null ==> removed in old(held) && Now() == Erased(old(Now()), removed)
    {
      hide Listed, Ring, Rings, HandleTable.Valid, Erased, Entries, Counted, Sound, DistinctKeys;
      Parts();
      ghost var st := Now();
      ListsHeld(st);
      removed := table.Remove(key, hash);
      LinksStay();
      Whole();
      var erased := FinishErase(removed);
      if removed != null {
        ErasedKeeps(st, removed);
        ErasedHeld(st, removed);
      }
    }

    /** The lists and counts do not depend on the chains of the hash table. */
    twostate lemma LinksStay()
      requires old(Rings(lru, lruList, inUse, inUseList)) && old(Counted(Now()))
      requires unchanged(this, lru, inUse)
      requires forall h :: h in lruList || h in inUseList ==> h in held
      requires forall h :: h in held ==> h.next == old(h.next) && h.prev == old(h.prev) && h.refs == old(h.refs) && h.inCache == old(h.inCache)
      ensures Rings(lru, lruList, inUse, inUseList) && Counted(Now())
    {
      RingStays(Circle(lru, lruList));
      RingStays(Circle(inUse, inUseList));
    }

    method LinkNew(e: Handle)
      requires Rings(lru, lruList, inUse, inUseList) && e != lru && e != inUse && e !in lruList && e !in inUseList
      modifies this`inUseList, this`usage, this`held, e`next, e`prev, lru, inUse, inUseList`next
      ensures Rings(lru, lruList, inUse, inUseList)
      ensures inUseList == old(inUseList) + [e] && usage == old(usage) + e.charge && held == old(held)[e := 1]
    {
      hide Ring;
      Append(inUse, e, inUseList);
      RingStays(Circle(lru, lruList));
      inUseList, usage, held := inUseList + [e], usage + e.charge, held[e := 1];
    }

    /** The new entry is linked in, with one client and the cache holding it. */
    method Add(e: Handle)
      requires Sound() && table.Valid() && table.entries <= held.Keys
      requires e !in held && e !in deleted && e.refs == 2 && e.inCache && e != lru && e != inUse
      modifies this`inUseList, this`usage, this`held, e`next, e`prev, lru, inUse, inUseList`next
      ensures Sound() && table.Valid()
      ensures Now() == Added(old(Now()), e)
    {
      hide Listed, Ring, HandleTable.Valid, Counted, Entries, Sound;
      Parts();
      ghost var st := Now();
      ListsHeld(st);
      LinkNew(e);
      table.Stays();
      AddedListed(st, e);
      AddedCounted(st, e);
      Whole();
    }

    /** The cache's part of `Insert`. */
    method PutInto(e: Handle)
      requires Valid() && e !in held && e !in deleted && e.refs == 2 && e.inCache && e != lru && e != inUse && capacity > 0
      modifies this, table, table.list, held.Keys, e, lru, inUse
      ensures Valid() && (table.list == old(table.list) || fresh(table.list)) && held.Keys <= old(held.Keys) + {e}
      ensures Now() == Put(old(Now()), e)
    {
      hide Listed, Ring, Rings, HandleTable.Valid, Entries, Counted, Sound, DistinctKeys, Erased, Find;
      ghost var st := Now();
      Parts();
      ListsHeld(st);
      Add(e);
      AddedListed(st, e);
      Parts();
      ListsHeld(Now());
      label Linked:
      var replaced := table.Insert(e);
      LinksStay@Linked();
      Whole();
      PutIs(st, e, replaced);
      var erased := FinishErase(replaced);
      PutKeeps(st, e);
      assert Now() == Put(st, e);
    }

    /** The oldest entry no client holds is given up. */
    method EvictOldest()
      requires Valid() && lruList != []
      modifies this, table, table.list, held.Keys, lru, inUse
      ensures Valid() && table.list == old(table.list) && held.Keys <= old(held.Keys)
      ensures old(lruList)[0] in old(held) && Now() == Erased(old(Now()), old(lruList)[0])
    {
      hide Listed, Ring, HandleTable.Valid, Entries, Counted, DistinctKeys, Erased;
      ghost var st := Now();
      ListsHeld(st);
      RingStarts(lru, lruList);
      var oldest := lru.next;
      OldestIsEntry(st);
      var removed := RemoveKey(oldest.key, oldest.hash);
      if removed != null {
        SameKey(Entries(st), removed, oldest);
      }
    }

    /** An entry for a client, cached unless the capacity is zero. */
    method Insert(key: Bytes, hash: nat, charge: nat) returns (e: Handle)
      requires Valid()
      modifies this, table, table.list, held.Keys, lru, inUse
      ensures Valid() && (table.list == old(table.list) || fresh(table.list)) && held.Keys <= old(held.Keys) + {e}
      ensures fresh(e) && e.key == key && e.hash == hash && e.charge == charge
      ensures Now() == Inserted(old(Now()), e)
    {
      hide Valid, Evicted, Put, Inv;
      ghost var st := Now();
      e := new Handle(key, hash, charge, false, 1);
      if capacity > 0 {
        e.refs, e.inCache := 2, true;
        StaysValid();
        PutInto(e);
      } else {
        e.next := null;
        StaysValid();
        KeepOutside(e);
      }
      while usage > capacity && lru.next != lru
        invariant Valid() && (table.list == old(table.list) || fresh(table.list)) && held.Keys <= old(held.Keys) + {e}
        invariant Evicted(Now()) == Evicted(Put(st, e))
        decreases |lruList|
      {
        NotEmpty();
        OneEvicted(Now());
        EvictOldest();
      }
      NotEmpty();
      NoneEvicted(Now());
    }

    method Prune()
      requires Valid()
      modifies this, table, table.list, held.Keys, lru, inUse
      ensures Valid() && table.list == old(table.list) && held.Keys <= old(held.Keys)
      ensures Now() == Pruned(old(Now()))
    {
      hide Valid, Pruned, Inv, Erased;
      while lru.next != lru
        invariant Valid() && table.list == old(table.list) && held.Keys <= old(held.Keys)
        invariant Pruned(Now()) == Pruned(old(Now()))
        decreases |lruList|
      {
        NotEmpty();
        OnePruned(Now());
        EvictOldest();
      }
      NotEmpty();
      NonePruned(Now());
    }
  }

  lemma ListsHeld(st: Shard)
    requires Listed(st)
    ensures forall h :: h in st.lru || h in st.inUse ==> h in st.held
    ensures forall h :: h in Entries(st) ==> h in st.held
  {
  }

  lemma TakenIs(st: Shard, e: Handle)
    requires Listed(st) && e in st.held && Counted(st)
    ensures e.refs == 1 && e.inCache <==> e in st.lru
    ensures Taken(st, e) == st.(held := st.held[e := st.held[e] + 1],
                                lru := if e in st.lru then Dropped(st.lru, e) else st.lru,
                                inUse := if e in st.lru then st.inUse + [e] else st.inUse)
  {
  }

  twostate lemma TakenCounted(st: Shard, new e: Handle)
    requires Listed(st) && e in st.held && old(Counted(st))
    requires forall h :: h in st.held ==> h.inCache == old(h.inCache) && h.refs == if h == e then old(h.refs) + 1 else old(h.refs)
    ensures Counted(Taken(st, e))
  {
    TakenListed(st, e);
  }

  lemma ReleasedIs(st: Shard, e: Handle)
    requires Listed(st) && e in st.held && st.held[e] > 0 && Counted(st)
    ensures e.refs > 0 && (e.refs == 1 ==> !e.inCache && st.held[e] == 1) && (e.refs == 2 && e.inCache ==> e in st.inUse && st.held[e] == 1)
    ensures var moves := e.refs == 2 && e.inCache;
            Released(st, e) == st.(held := if e.refs == 1 then st.held - {e} else st.held[e := st.held[e] - 1],
                                   deleted := if e.refs == 1 then st.deleted + [e] else st.deleted,
                                   lru := if moves then st.lru + [e] else st.lru,
                                   inUse := if moves then Dropped(st.inUse, e) else st.inUse)
  {
  }

  twostate lemma ReleasedCounted(st: Shard, new e: Handle)
    requires Listed(st) && e in st.held && st.held[e] > 0 && old(Counted(st))
    requires forall h :: h in st.held ==> h.inCache == old(h.inCache) && h.refs == if h == e then old(h.refs) - 1 else old(h.refs)
    ensures Counted(Released(st, e))
  {
    ReleasedListed(st, e);
  }

  lemma ErasedIs(st: Shard, e: Handle)
    requires Listed(st) && e in Entries(st) && Counted(st)
    ensures e in st.held && e.refs > 0 && e.charge <= st.usage && (e in st.lru || e in st.inUse)
    ensures Erased(st, e) == st.(lru := Dropped(st.lru, e), inUse := Dropped(st.inUse, e), usage := st.usage - e.charge,
                                 held := if e.refs == 1 then st.held - {e} else st.held,
                                 deleted := if e.refs == 1 then st.deleted + [e] else st.deleted)
  {
    ErasedListed(st, e);
  }

  twostate lemma ErasedCounted(st: Shard, new e: Handle)
    requires Listed(st) && e in Entries(st) && e in st.held && old(Counted(st))
    requires forall h :: h in st.held ==> h.inCache == (old(h.inCache) && h != e) && h.refs == if h == e then old(h.refs) - 1 else old(h.refs)
    ensures Counted(Erased(st, e))
  {
    ErasedListed(st, e);
  }

  lemma ErasedHeld(st: Shard, e: Handle)
    requires e in st.held
    ensures Erased(st, e).held.Keys <= st.held.Keys
  {
  }

  twostate lemma AddedCounted(st: Shard, new e: Handle)
    requires Listed(st) && e !in st.held && e !in st.deleted && old(Counted(st)) && e.refs == 2 && e.inCache
    requires forall h :: h in st.held ==> h.inCache == old(h.inCache) && h.refs == old(h.refs)
    ensures Counted(Added(st, e))
  {
    AddedListed(st, e);
  }

  lemma RingStarts(head: Handle, s: seq<Handle>)
    requires Ring(head, s)
    ensures head.next == if s == [] then head else s[0]
    ensures s != [] ==> s[0] != head
  {
    assert Joined(head, s, 0);
  }

  lemma OldestIsEntry(st: Shard)
    requires Listed(st) && st.lru != []
    ensures st.lru[0] in Entries(st) && st.lru[0] in st.held
    ensures !Absent(Entries(st), st.lru[0].key, st.lru[0].hash)
  {
    assert st.lru[0] in Entries(st) && Matches(st.lru[0], st.lru[0].key, st.lru[0].hash);
  }

  lemma SameKey(entries: set<Handle>, a: Handle, b: Handle)
    requires DistinctKeys(entries) && a in entries && b in entries && Matches(a, b.key, b.hash)
    ensures a == b
  {
  }

  lemma PutIs(st: Shard, e: Handle, replaced: Handle?)
    requires Inv(st) && e !in st.held && e !in st.deleted && st.capacity > 0
    requires replaced == null ==> Absent(Entries(st), e.key, e.hash)
    requires replaced != null ==> replaced in Entries(st) && Matches(replaced, e.key, e.hash)
    ensures Put(st, e) == if replaced == null then Added(st, e) else if replaced in Added(st, e).held then Erased(Added(st, e), replaced) else Added(st, e)
    ensures Without(Entries(st), replaced) + {e} == Entries(Added(st, e)) - {replaced}
    ensures replaced != null ==> replaced in Entries(Added(st, e)) && replaced in Added(st, e).held
    ensures Put(st, e).held.Keys <= st.held.Keys + {e}
  {
    hide Find, Erased;
    if replaced == null {
      FindFails(st, e.key, e.hash);
    } else {
      if replaced in Added(st, e).held {
        ErasedHeld(Added(st, e), replaced);
      }
      FindFinds(st, e.key, e.hash, replaced);
    }
    ListsHeld(st);
    AddedListed(st, e);
  }

  lemma OnePruned(st: Shard)
    requires Inv(st) && st.lru != []
    ensures st.lru[0] in st.held && Pruned(st) == Pruned(Erased(st, st.lru[0])) && Erased(st, st.lru[0]).lru == st.lru[1..]
  {
    OldestIsEntry(st);
  }

  lemma NonePruned(st: Shard)
    requires st.lru == []
    ensures Pruned(st) == st
  {
  }
}
