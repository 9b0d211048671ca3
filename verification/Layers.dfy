/** Facts about the layers of the store - memtable, immutable memtable, version - as values. */
module Layers {
  import opened History
  import opened Version
  import opened Picking
  import opened CompactionSafety
  import Manifest

  // ---------- layers by sequence number ----------

  /** All sequence numbers of `S` are at most, or above, a bound. */
  ghost predicate UpTo(S: set<Entry>, bound: nat) {
    forall e :: e in S ==> e.key.sequence <= bound
  }

  ghost predicate Above(S: set<Entry>, bound: nat) {
    forall e :: e in S ==> e.key.sequence > bound
  }

  /** Older data below `bound`, newer data above it: a reader needs the older only for lack of newer. */
  lemma ReadLayered(newer: set<Entry>, older: set<Entry>, bound: nat, u: UserKey, s: nat)
    requires Distinct(newer + older) && Above(newer, bound) && UpTo(older, bound)
    ensures Read(newer + older, u, s) == if NoneVisible(newer, u, s) then Read(older, u, s) else Read(newer, u, s)
  {
    DistinctSubset(newer, newer + older);
    DistinctSubset(older, newer + older);
    if NoneVisible(newer, u, s) {
      ReadDependsOnVisible(newer + older, older, u, s);
    } else {
      NewestExists(newer, u, s);
      var e :| Newest(e, newer, u, s);
      ReadOfNewest(newer, u, s, e);
      ReadOfNewest(newer + older, u, s, e);
    }
  }

  /** Putting the same newer data on top of two equivalent stores keeps them equivalent. */
  lemma ReadExtends(newer: set<Entry>, a: set<Entry>, b: set<Entry>, bound: nat, u: UserKey, s: nat)
    requires Distinct(newer + a) && Distinct(newer + b)
    requires Above(newer, bound) && UpTo(a, bound) && UpTo(b, bound)
    requires Read(a, u, s) == Read(b, u, s)
    ensures Read(newer + a, u, s) == Read(newer + b, u, s)
  {
    ReadLayered(newer, a, bound, u, s);
    ReadLayered(newer, b, bound, u, s);
  }

  // ---------- memtables ----------

  /** Adding an entry to the sorted memtable. */
  method InsertSorted(mem: seq<Entry>, e: Entry) returns (r: seq<Entry>)
    requires Sorted(mem) && forall x :: x in mem ==> x.key.user != e.key.user || x.key.sequence < e.key.sequence
    ensures Sorted(r) && SeqSet(r) == SeqSet(mem) + {e}
  {
    var k := 0;
    while k < |mem| && Before(mem[k].key, e.key)
      invariant k <= |mem|
      invariant forall i :: 0 <= i < k ==> Before(mem[i].key, e.key)
    {
      k := k + 1;
    }
    forall i | k <= i < |mem|
      ensures Before(e.key, mem[i].key)
    {
      assert mem[i] in mem && mem[k] in mem;
      if k < i { assert Before(mem[k].key, mem[i].key); }
    }
    r := mem[..k] + [e] + mem[k..];
    InsertedIsSorted(mem, k, e);
    InsertedMembers(mem, k, e);
  }

  lemma InsertedIsSorted(mem: seq<Entry>, k: nat, e: Entry)
    requires Sorted(mem) && k <= |mem|
    requires forall i :: 0 <= i < k ==> Before(mem[i].key, e.key)
    requires forall i :: k <= i < |mem| ==> Before(e.key, mem[i].key)
    ensures Sorted(mem[..k] + [e] + mem[k..])
  {
    hide Before;
    var r := mem[..k] + [e] + mem[k..];
    forall i, j | 0 <= i < j < |r|
      ensures Before(r[i].key, r[j].key)
    {
      assert r[i] == if i < k then mem[i] else if i == k then e else mem[i - 1];
      assert r[j] == if j < k then mem[j] else if j == k then e else mem[j - 1];
    }
  }

  lemma InsertedMembers(mem: seq<Entry>, k: nat, e: Entry)
    requires k <= |mem|
    ensures SeqSet(mem[..k] + [e] + mem[k..]) == SeqSet(mem) + {e}
  {
    assert mem == mem[..k] + mem[k..];
    forall x
      ensures x in mem[..k] + [e] + mem[k..] <==> x in mem || x == e
    {
    }
  }

  /** `MemTable::Get`: the first entry at or after the seek key, if it has the sought user key. */
  method MemGet(mem: seq<Entry>, u: UserKey, s: nat) returns (r: Option<Lookup>)
    requires Sorted(mem) && Distinct(SeqSet(mem))
    ensures r.None? <==> NoneVisible(SeqSet(mem), u, s)
    ensures r.Some? ==> r.value == Read(SeqSet(mem), u, s)
  {
    var i := 0;
    while i < |mem| && Before(mem[i].key, SeekKey(u, s))
      invariant i <= |mem|
      invariant forall k :: 0 <= k < i ==> Before(mem[k].key, SeekKey(u, s))
    {
      i := i + 1;
    }
    r := None;
    if i < |mem| && mem[i].key.user == u {
      assert Newest(mem[i], SeqSet(mem), u, s);
      ReadOfNewest(SeqSet(mem), u, s, mem[i]);
      r := Some(Verdict(mem[i]));
    }
  }

  // ---------- flushing a memtable ----------

  /** `f` has been added at `level`, and nothing else has changed. */
  ghost predicate IsFlushed(v: Version, level: nat, f: File, w: Version) {
    && |v.levels| == NUM_LEVELS && |w.levels| == NUM_LEVELS && level < NUM_LEVELS
    && (forall lvl :: 0 <= lvl < NUM_LEVELS ==> SortedBySmallest(w.levels[lvl]))
    && (forall lvl, g :: 0 <= lvl < NUM_LEVELS ==> (g in w.levels[lvl] <==> g in v.levels[lvl] || (lvl == level && g == f)))
  }

  /** The level promised by `PickLevelForMemTableOutput`. */
  ghost predicate FitsAt(v: Version, level: nat, f: File)
    requires |v.levels| == NUM_LEVELS
  {
    level < NUM_LEVELS &&
    forall i, g :: 0 < level && 0 <= i <= level && g in v.levels[i] ==> !Overlaps(g, Some(f.smallest.user), Some(f.largest.user))
  }

  lemma FlushedContents(v: Version, level: nat, f: File, w: Version)
    requires IsFlushed(v, level, f, w)
    ensures Contents(w) == Contents(v) + FileEntries(f)
  {
    forall e | e in Contents(w)
      ensures e in Contents(v) + FileEntries(f)
    {
      var lvl, g :| 0 <= lvl < NUM_LEVELS && g in w.levels[lvl] && e in g.entries;
      if g in v.levels[lvl] {
        InContents(v, lvl, g, e);
      }
    }
    forall e | e in Contents(v) + FileEntries(f)
      ensures e in Contents(w)
    {
      if e in Contents(v) {
        var lvl, g :| 0 <= lvl < NUM_LEVELS && g in v.levels[lvl] && e in g.entries;
        InContents(w, lvl, g, e);
      } else {
        InContents(w, level, f, e);
      }
    }
  }

  /** A file that holds only the newest data is newer than every file of the version. */
  lemma FlushedIsNewer(v: Version, f: File, bound: nat, lvl: nat, g: File)
    requires |v.levels| == NUM_LEVELS && UpTo(Contents(v), bound) && Above(FileEntries(f), bound)
    requires lvl < NUM_LEVELS && g in v.levels[lvl]
    ensures FileNewer(f, g)
  {
    forall a, b | a in f.entries && b in g.entries
      ensures a.key.sequence > b.key.sequence
    {
      assert a in FileEntries(f);
      InContents(v, lvl, g, b);
    }
  }

  /** Files with disjoint user-key ranges say nothing about each other's keys. */
  lemma DisjointIsNewer(f: File, g: File)
    requires ValidFile(f) && ValidFile(g) && !Overlaps(g, Some(f.smallest.user), Some(f.largest.user))
    ensures FileNewer(f, g) && FileNewer(g, f) && Apart(f, g)
  {
    forall a, b | a in f.entries && b in g.entries
      ensures a.key.user != b.key.user
    {
      FileRange(f, a);
      FileRange(g, b);
    }
    RangeOrdered(g);
    RangeOrdered(f);
  }

  lemma FlushKeepsLevels(v: Version, level: nat, f: File, w: Version, bound: nat)
    requires Valid(v) && ValidFile(f) && IsFlushed(v, level, f, w) && FitsAt(v, level, f)
    requires UpTo(Contents(v), bound) && Above(FileEntries(f), bound)
    requires NumbersBelow(v, f.number)
    ensures forall i, j :: 0 <= i < j < NUM_LEVELS ==> LevelNewer(w.levels[i], w.levels[j]) && DisjointNumbers(w.levels[i], w.levels[j])
  {
    forall i, j, g, h | 0 <= i < j < NUM_LEVELS && g in w.levels[i] && h in w.levels[j]
      ensures FileNewer(g, h) && g.number != h.number
    {
      if g in v.levels[i] && h in v.levels[j] {
        assert LevelNewer(v.levels[i], v.levels[j]) && DisjointNumbers(v.levels[i], v.levels[j]);
      } else if h in v.levels[j] {
        FlushedIsNewer(v, f, bound, j, h);
      } else {
        DisjointIsNewer(f, g);
      }
    }
  }

  lemma FlushKeepsEachLevel(v: Version, level: nat, f: File, w: Version, bound: nat)
    requires Valid(v) && ValidFile(f) && IsFlushed(v, level, f, w) && FitsAt(v, level, f)
    requires UpTo(Contents(v), bound) && Above(FileEntries(f), bound)
    requires NumbersBelow(v, f.number)
    ensures forall lvl, g :: 0 <= lvl < NUM_LEVELS && g in w.levels[lvl] ==> ValidFile(g)
    ensures forall lvl :: 0 <= lvl < NUM_LEVELS ==> DistinctNumbers(w.levels[lvl])
    ensures forall lvl :: 1 <= lvl < NUM_LEVELS ==> DisjointSorted(w.levels[lvl])
    ensures NumberedByAge(w.levels[0])
  {
    forall lvl | 0 <= lvl < NUM_LEVELS
      ensures DistinctNumbers(w.levels[lvl])
      ensures 1 <= lvl ==> DisjointSorted(w.levels[lvl])
    {
      forall g, h | g in w.levels[lvl] && h in w.levels[lvl] && g != h
        ensures g.number != h.number
        ensures 1 <= lvl ==> Apart(g, h)
      {
        FlushedPair(v, level, f, w, lvl, g, h);
      }
      PairsAreDistinct(w.levels[lvl]);
      if 1 <= lvl { Manifest.SortedDisjointFiles(w.levels[lvl]); }
    }
    forall g, h | g in w.levels[0] && h in w.levels[0] && g.number > h.number
      ensures FileNewer(g, h)
    {
      if g !in v.levels[0] {
        FlushedIsNewer(v, f, bound, 0, h);
      }
    }
  }

  lemma FlushedPair(v: Version, level: nat, f: File, w: Version, lvl: nat, g: File, h: File)
    requires Valid(v) && ValidFile(f) && IsFlushed(v, level, f, w) && FitsAt(v, level, f) && NumbersBelow(v, f.number)
    requires lvl < NUM_LEVELS && g in w.levels[lvl] && h in w.levels[lvl] && g != h
    ensures g.number != h.number
    ensures 1 <= lvl ==> Apart(g, h)
  {
    if g in v.levels[lvl] && h in v.levels[lvl] {
      DifferentNumbers(v.levels[lvl], g, h);
      if 1 <= lvl { TwoFilesApart(v.levels[lvl], g, h); }
    } else if 1 <= lvl {
      DisjointIsNewer(f, if g == f then h else g);
    }
  }

  lemma PairsAreDistinct(level: Level)
    requires SortedBySmallest(level)
    requires forall g, h :: g in level && h in level && g != h ==> g.number != h.number
    ensures DistinctNumbers(level)
  {
    forall i, j | 0 <= i < j < |level|
      ensures level[i].number != level[j].number
    {
      assert level[i] in level && level[j] in level && BySmallest(level[i], level[j]);
    }
  }

  /** Flushing keeps every invariant of the version. */
  lemma FlushKeepsInvariants(v: Version, level: nat, f: File, w: Version, bound: nat)
    requires Valid(v) && ValidFile(f) && IsFlushed(v, level, f, w) && FitsAt(v, level, f)
    requires UpTo(Contents(v), bound) && Above(FileEntries(f), bound) && Distinct(FileEntries(f))
    requires NumbersBelow(v, f.number)
    ensures Valid(w)
  {
    FlushKeepsLevels(v, level, f, w, bound);
    FlushKeepsEachLevel(v, level, f, w, bound);
    FlushedContents(v, level, f, w);
    LayersAreDistinct(FileEntries(f), Contents(v), bound);
    IsValid(w);
  }

  lemma LayersAreDistinct(newer: set<Entry>, older: set<Entry>, bound: nat)
    requires Distinct(newer) && Distinct(older) && Above(newer, bound) && UpTo(older, bound)
    ensures Distinct(newer + older) && Distinct(older + newer)
  {
  }
}
