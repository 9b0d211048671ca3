/** The memtable over its skip list (db/memtable.cc). Read entry by entry it is the sorted sequence
    that the store keeps, and `Get` gives what `Layers.MemGet` gives for that sequence. */
module MemTable {
  import opened History
  import opened CompactionSafety
  import L = SkipList
  import Layers

  /** No key of the list has the user key and the sequence number. */
  ghost predicate IsNewWrite(S: set<Entry>, u: UserKey, sequence: nat) {
    forall e :: e in S ==> e.key.user != u || e.key.sequence != sequence
  }

  class MemTable {
    const table: L.SkipList

    ghost predicate Valid()
      reads this, table
    {
      table.Ok() && Distinct(L.Contents(table.AsArena()))
    }

    ghost function Entries(): set<Entry>
      requires Valid()
      reads this, table
    {
      L.Contents(table.AsArena())
    }

    constructor ()
      ensures Valid() && Entries() == {} && fresh(table)
    {
      table := new L.SkipList();
    }

    /** `Add`, with the height of the new node as a parameter. */
    method Add(sequence: nat, kind: Kind, u: UserKey, val: string, height: nat)
      requires Valid() && 1 <= height <= L.MAX_HEIGHT && IsNewWrite(Entries(), u, sequence)
      modifies table
      ensures Valid() && Entries() == old(Entries()) + {Entry(IKey(u, sequence, kind), val)}
    {
      ghost var _ := table.Insert(Entry(IKey(u, sequence, kind), val), height);
    }

    method Get(u: UserKey, s: nat) returns (r: Option<Lookup>)
      requires Valid()
      ensures r.None? <==> NoneVisible(Entries(), u, s)
      ensures r.Some? ==> r.value == Read(Entries(), u, s)
    {
      var it := new L.Iterator(table);
      it.Seek(SeekKey(u, s));
      CeilingIsNewest(table.AsArena(), u, s, it.node);
      r := None;
      if it.node.Some? && it.Current().key.user == u {
        ReadOfNewest(Entries(), u, s, it.Current());
        r := Some(Verdict(it.Current()));
      }
    }

    /** Every entry in order: what the flush writes to the new table. */
    method List() returns (list: seq<Entry>)
      requires Valid()
      ensures Sorted(list) && SeqSet(list) == Entries()
    {
      hide L.Valid, L.IsNext, Before;
      var it := new L.Iterator(table);
      it.SeekToFirst();
      list := [];
      ghost var a := table.AsArena();
      NothingBeforeFirst(a, it.node);
      while it.node.Some?
        invariant it.Ok() && it.list == table && table.AsArena() == a && fresh(it)
        invariant it.node.Some? ==> it.node.value < |a.nodes|
        invariant Sorted(list) && SeqSet(list) == EntriesBefore(a, it.node)
        decreases it.node.Some?, if it.node.Some? then L.Ahead(a, 0, it.node.value) else {}
      {
        ghost var x := it.node.value;
        AllBefore(a, x, list);
        list := list + [it.Current()];
        it.Next();
        OneMoreBefore(a, x, it.node);
      }
    }
  }

  /** The entry at or after the seek key is the newest that the reader sees, if it has the user key. */
  lemma CeilingIsNewest(a: L.Arena, u: UserKey, s: nat, r: Option<nat>)
    requires L.Valid(a) && L.IsCeiling(a, SeekKey(u, s), r)
    ensures r.Some? && a.nodes[r.value].entry.key.user == u ==> Newest(a.nodes[r.value].entry, L.Contents(a), u, s)
    ensures r.None? || a.nodes[r.value].entry.key.user != u ==> NoneVisible(L.Contents(a), u, s)
  {
    forall e | e in L.Contents(a) && Visible(e, u, s)
      ensures r.Some? && a.nodes[r.value].entry.key.user == u && e.key.sequence <= a.nodes[r.value].entry.key.sequence
    {
      var n :| n in a.levels[0] && a.nodes[n].entry == e;
      assert !L.IsBefore(a.nodes, n, SeekKey(u, s));
    }
  }

  // ---------- walking the list ----------

  /** The entries of the nodes before a position; all of them at the end. */
  ghost function EntriesBefore(a: L.Arena, node: Option<nat>): set<Entry>
    requires L.Valid(a) && (node.Some? ==> node.value < |a.nodes|)
  {
    set n | n in a.levels[0] && (node.None? || L.Less(a.nodes, n, node.value)) :: a.nodes[n].entry
  }

  lemma NothingBeforeFirst(a: L.Arena, node: Option<nat>)
    requires L.Valid(a) && L.IsNext(a.nodes, a.levels[0], L.HEAD, node)
    ensures node.Some? ==> node.value < |a.nodes|
    ensures EntriesBefore(a, node) == {}
  {
  }

  lemma AllBefore(a: L.Arena, x: nat, list: seq<Entry>)
    requires L.Valid(a) && x in a.levels[0] && SeqSet(list) == EntriesBefore(a, Some(x))
    ensures forall i :: 0 <= i < |list| ==> Before(list[i].key, a.nodes[x].entry.key)
  {
    hide Before;
    forall i | 0 <= i < |list|
      ensures Before(list[i].key, a.nodes[x].entry.key)
    {
      assert list[i] in SeqSet(list);
      var n :| n in a.levels[0] && L.Less(a.nodes, n, x) && a.nodes[n].entry == list[i];
    }
  }

  lemma OneMoreBefore(a: L.Arena, x: nat, next: Option<nat>)
    requires L.Valid(a) && x in a.levels[0] && L.IsNext(a.nodes, a.levels[0], x, next)
    ensures next.Some? ==> next.value < |a.nodes|
    ensures EntriesBefore(a, next) == EntriesBefore(a, Some(x)) + {a.nodes[x].entry}
    ensures next.Some? ==> L.Ahead(a, 0, next.value) < L.Ahead(a, 0, x)
  {
    hide Before;
    forall n | n in a.levels[0]
      ensures (next.None? || L.Less(a.nodes, n, next.value)) <==> (n == x || L.Less(a.nodes, n, x))
    {
      if n != x { L.LessIsTotal(a.nodes, n, x); }
      if next.Some? { L.LessIsStrict(a.nodes, n, x, next.value); }
      L.LessIsStrict(a.nodes, n, x, n);
    }
    if next.Some? {
      L.NextIsUnique(a, 0, x, next);
      L.AheadShrinks(a, 0, x, next.value);
    }
  }

  // ---------- one listing ----------

  /** The sorted listing of a set is unique: the list walked above is the memtable of the store. */
  lemma {:induction false} ListingIsUnique(a: seq<Entry>, b: seq<Entry>)
    requires Sorted(a) && Sorted(b) && SeqSet(a) == SeqSet(b)
    ensures a == b
    decreases |a|
  {
    EmptyListing(a);
    EmptyListing(b);
    if a == [] {
    } else {
      FirstIsLeast(a, b);
      FirstIsLeast(b, a);
      RestOf(a);
      RestOf(b);
      ListingIsUnique(a[1..], b[1..]);
      assert a == [a[0]] + a[1..] && b == [b[0]] + b[1..];
    }
  }

  lemma EmptyListing(a: seq<Entry>)
    ensures a == [] <==> SeqSet(a) == {}
  {
    if a != [] {
      assert a[0] in SeqSet(a);
    }
  }

  lemma FirstOf(a: seq<Entry>, e: Entry)
    requires Sorted(a) && e in SeqSet(a)
    ensures a != [] && (e == a[0] || Before(a[0].key, e.key))
  {
    var i :| 0 <= i < |a| && a[i] == e;
  }

  lemma FirstIsLeast(a: seq<Entry>, b: seq<Entry>)
    requires Sorted(a) && Sorted(b) && SeqSet(a) == SeqSet(b) && a != [] && b != []
    ensures a[0] == b[0]
  {
    FirstOf(a, b[0]);
    FirstOf(b, a[0]);
  }

  lemma RestOf(a: seq<Entry>)
    requires Sorted(a) && a != []
    ensures Sorted(a[1..]) && SeqSet(a[1..]) == SeqSet(a) - {a[0]}
  {
    forall e | e in SeqSet(a) - {a[0]}
      ensures e in a[1..]
    {
      var i :| 0 <= i < |a| && a[i] == e;
      assert a[1..][i - 1] == e;
    }
    assert forall e :: e in a[1..] ==> Before(a[0].key, e.key);
  }

  /** A lookup in the skip list agrees with one in the store's sorted memtable, and the flush writes
      that memtable. */
  method AgreesWithStore(m: MemTable, mem: seq<Entry>, u: UserKey, s: nat) returns (inList: Option<Lookup>, inStore: Option<Lookup>, list: seq<Entry>)
    requires m.Valid() && Sorted(mem) && SeqSet(mem) == m.Entries()
    ensures inList == inStore && list == mem
  {
    inList := m.Get(u, s);
    inStore := Layers.MemGet(mem, u, s);
    list := m.List();
    ListingIsUnique(list, mem);
  }
}
