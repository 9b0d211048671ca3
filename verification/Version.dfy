/** A version of the store: seven levels of sorted tables, and reading from it
    (db/version_set.cc, db/version_set.h). */
module Version {
  import opened History

  const NUM_LEVELS := 7

  /** A table file with its metadata. `entries` is what iterating the table yields. */
  datatype File = File(number: nat, size: nat, smallest: IKey, largest: IKey, entries: seq<Entry>)

  type Level = seq<File>
  datatype Version = Version(levels: seq<Level>)

  // ---------- contents ----------

  ghost function FileEntries(f: File): set<Entry> {
    set e | e in f.entries
  }

  ghost function FilesOf(level: Level): set<File> {
    set f | f in level
  }

  ghost function LevelEntries(level: Level): set<Entry> {
    set f, e | f in level && e in f.entries :: e
  }

  ghost function Contents(v: Version): set<Entry> {
    set level, f, e | level in v.levels && f in level && e in f.entries :: e
  }

  // ---------- invariants ----------

  /** The metadata describe the sorted, non-empty contents. */
  ghost predicate ValidFile(f: File) {
    && f.entries != []
    && Sorted(f.entries)
    && f.smallest == f.entries[0].key
    && f.largest == f.entries[|f.entries| - 1].key
    && (forall e :: e in f.entries ==> e.key.sequence <= MAX_SEQUENCE)
  }

  /** Levels above 0: increasing and non-overlapping in internal-key order. */
  ghost predicate DisjointSorted(level: Level) {
    forall i, j :: 0 <= i < j < |level| ==> Before(level[i].largest, level[j].smallest)
  }

  /** The key ranges of two files are disjoint. */
  ghost predicate Apart(f: File, g: File) {
    Before(f.largest, g.smallest) || Before(g.largest, f.smallest)
  }

  /** Every entry of `f` is newer than every entry of `g` for the same user key. */
  ghost predicate FileNewer(f: File, g: File) {
    forall a, b :: a in f.entries && b in g.entries && a.key.user == b.key.user ==> a.key.sequence > b.key.sequence
  }

  /** Level 0: a larger file number means newer data. */
  ghost predicate NumberedByAge(level: Level) {
    forall f, g :: f in level && g in level && f.number > g.number ==> FileNewer(f, g)
  }

  ghost predicate DistinctNumbers(level: Level) {
    forall i, j :: 0 <= i < j < |level| ==> level[i].number != level[j].number
  }

  ghost predicate DisjointNumbers(a: Level, b: Level) {
    forall f, g :: f in a && g in b ==> f.number != g.number
  }

  /** `BySmallestKey`: by smallest key, ties broken by file number. */
  predicate BySmallest(f: File, g: File) {
    Before(f.smallest, g.smallest) || (!Before(g.smallest, f.smallest) && f.number < g.number)
  }

  ghost predicate SortedBySmallest(level: Level) {
    forall i, j :: 0 <= i < j < |level| ==> BySmallest(level[i], level[j])
  }

  ghost predicate LevelNewer(shallow: Level, deep: Level) {
    forall f, g :: f in shallow && g in deep ==> FileNewer(f, g)
  }

  ghost predicate Valid(v: Version) {
    && |v.levels| == NUM_LEVELS
    && (forall lvl, f :: 0 <= lvl < NUM_LEVELS && f in v.levels[lvl] ==> ValidFile(f))
    && (forall lvl :: 1 <= lvl < NUM_LEVELS ==> DisjointSorted(v.levels[lvl]))
    && NumberedByAge(v.levels[0])
    && (forall lvl :: 0 <= lvl < NUM_LEVELS ==> DistinctNumbers(v.levels[lvl]) && SortedBySmallest(v.levels[lvl]))
    && (forall i, j :: 0 <= i < j < NUM_LEVELS ==> LevelNewer(v.levels[i], v.levels[j]) && DisjointNumbers(v.levels[i], v.levels[j]))
    && Distinct(Contents(v))
  }

  lemma FileRange(f: File, e: Entry)
    requires ValidFile(f) && e in f.entries
    ensures !Before(e.key, f.smallest) && !Before(f.largest, e.key)
    ensures f.smallest.user <= e.key.user <= f.largest.user
  {
    var i :| 0 <= i < |f.entries| && f.entries[i] == e;
    if 0 < i { assert Before(f.entries[0].key, e.key); }
    if i < |f.entries| - 1 { assert Before(e.key, f.entries[|f.entries| - 1].key); }
  }

  lemma RangeOrdered(f: File)
    requires ValidFile(f)
    ensures !Before(f.largest, f.smallest) && f.smallest.user <= f.largest.user
  {
    FileRange(f, f.entries[0]);
  }

  // ---------- FindFile ----------

  /** The first file whose largest key is at or after `key`. */
  method FindFile(files: Level, key: IKey) returns (index: nat)
    requires forall f :: f in files ==> ValidFile(f)
    requires DisjointSorted(files)
    ensures index <= |files|
    ensures forall i :: 0 <= i < index ==> Before(files[i].largest, key)
    ensures index < |files| ==> !Before(files[index].largest, key)
  {
    var left, right := 0, |files|;
    while left < right
      invariant 0 <= left <= right <= |files|
      invariant forall i :: 0 <= i < left ==> Before(files[i].largest, key)
      invariant right < |files| ==> !Before(files[right].largest, key)
    {
      var mid := (left + right) / 2;
      if Before(files[mid].largest, key) {
        forall i | 0 <= i < mid
          ensures Before(files[i].largest, key)
        {
          LargestIncreases(files, i, mid);
        }
        left := mid + 1;
      } else {
        right := mid;
      }
    }
    index := right;
  }

  lemma LargestIncreases(files: Level, i: nat, j: nat)
    requires forall f :: f in files ==> ValidFile(f)
    requires DisjointSorted(files) && i < j < |files|
    ensures Before(files[i].largest, files[j].largest)
  {
    assert ValidFile(files[j]);
    RangeOrdered(files[j]);
  }

  // ---------- reading one table ----------

  datatype SaverState = NotFound | FoundValue(val: string) | Deleted

  /** `TableCache::Get` with `SaveValue`: the first entry at or after the seek key, kept only
      when it has the sought user key. */
  method SearchTable(f: File, u: UserKey, s: nat) returns (state: SaverState)
    requires ValidFile(f)
    ensures state.NotFound? <==> NoneVisible(FileEntries(f), u, s)
    ensures !state.NotFound? ==> exists e :: Newest(e, FileEntries(f), u, s) && Verdict(e) == ToLookup(state)
  {
    var i := 0;
    while i < |f.entries| && Before(f.entries[i].key, SeekKey(u, s))
      invariant i <= |f.entries|
      invariant forall k :: 0 <= k < i ==> Before(f.entries[k].key, SeekKey(u, s))
    {
      i := i + 1;
    }
    state := NotFound;
    if i < |f.entries| {
      var e := f.entries[i];
      if e.key.user == u {
        state := if e.key.kind.Value? then FoundValue(e.val) else Deleted;
        assert Newest(e, FileEntries(f), u, s);
      }
    }
  }

  function ToLookup(state: SaverState): Lookup {
    if state.FoundValue? then Found(state.val) else Missing
  }

  // ---------- Version::Get ----------

  ghost predicate NewestFirst(files: seq<File>) {
    forall i, j :: 0 <= i < j < |files| ==> files[i].number > files[j].number
  }

  /** `std::sort` by descending file number, as an insertion sort. The numbers being distinct,
      the two postconditions make the result a permutation of the input. */
  method SortNewestFirst(files: seq<File>) returns (sorted: seq<File>)
    requires DistinctNumbers(files)
    ensures NewestFirst(sorted)
    ensures forall f :: f in sorted <==> f in files
  {
    sorted := [];
    for i := 0 to |files|
      invariant NewestFirst(sorted)
      invariant forall f :: f in sorted <==> f in files[..i]
    {
      var k := 0;
      while k < |sorted| && sorted[k].number > files[i].number
        invariant k <= |sorted|
        invariant forall m :: 0 <= m < k ==> sorted[m].number > files[i].number
      {
        k := k + 1;
      }
      if k < |sorted| {
        assert sorted[k] in files[..i];
      }
      sorted := InsertAt(sorted, k, files[i]);
    }
  }

  function InsertAt(files: seq<File>, k: nat, f: File): (r: seq<File>)
    requires k <= |files|
    ensures forall x :: x in r <==> x in files || x == f
    ensures |r| == |files| + 1 && r[k] == f
    ensures forall i :: 0 <= i < |files| ==> r[if i < k then i else i + 1] == files[i]
  {
    assert files == files[..k] + files[k..];
    files[..k] + [f] + files[k..]
  }

  /** The files of level 0 whose user-key range holds `u`, newest first. */
  method Level0Candidates(level: Level, u: UserKey) returns (tmp: seq<File>)
    requires DistinctNumbers(level)
    ensures NewestFirst(tmp)
    ensures forall f :: f in tmp <==> f in level && f.smallest.user <= u <= f.largest.user
  {
    tmp := [];
    for i := 0 to |level|
      invariant forall f :: f in tmp <==> f in level[..i] && f.smallest.user <= u <= f.largest.user
      invariant DistinctNumbers(tmp)
    {
      if level[i].smallest.user <= u <= level[i].largest.user {
        tmp := tmp + [level[i]];
      }
    }
    tmp := SortNewestFirst(tmp);
  }

  /** The one file of a sorted level that can hold the newest visible entry: the first whose
      largest key is at or after the seek key. */
  lemma OnlyFileOfLevel(level: Level, index: nat, u: UserKey, s: nat)
    requires forall f :: f in level ==> ValidFile(f)
    requires DisjointSorted(level) && index <= |level|
    requires forall i :: 0 <= i < index ==> Before(level[i].largest, SeekKey(u, s))
    requires index < |level| ==> !Before(level[index].largest, SeekKey(u, s))
    ensures index == |level| ==> NoneVisible(LevelEntries(level), u, s)
    ensures index < |level| && NoneVisible(FileEntries(level[index]), u, s) ==> NoneVisible(LevelEntries(level), u, s)
    ensures forall e :: index < |level| && Newest(e, FileEntries(level[index]), u, s) ==> Newest(e, LevelEntries(level), u, s)
  {
    forall x | x in LevelEntries(level) && Visible(x, u, s)
      ensures index < |level| && !NoneVisible(FileEntries(level[index]), u, s)
      ensures forall e :: Newest(e, FileEntries(level[index]), u, s) ==> x.key.sequence <= e.key.sequence
    {
      var j :| 0 <= j < |level| && x in level[j].entries;
      FileRange(level[j], x);
      assert index <= j;
      var f := level[index];
      assert f in level && ValidFile(f);
      var last := f.entries[|f.entries| - 1];
      if index < j {
        assert Before(f.largest, level[j].smallest);
        assert Visible(last, u, s) && last in FileEntries(f);
        forall e | Newest(e, FileEntries(f), u, s)
          ensures x.key.sequence <= e.key.sequence
        {
          FileRange(f, e);
        }
      } else {
        assert x in FileEntries(f);
      }
    }
  }

  /** Once the shallower levels hold nothing visible, the newest entry of a level is the newest of all. */
  lemma NewestOfLevelIsNewest(v: Version, lvl: nat, u: UserKey, s: nat, e: Entry)
    requires Valid(v) && lvl < NUM_LEVELS
    requires forall i :: 0 <= i < lvl ==> NoneVisible(LevelEntries(v.levels[i]), u, s)
    requires Newest(e, LevelEntries(v.levels[lvl]), u, s)
    ensures Newest(e, Contents(v), u, s)
  {
    forall x | x in Contents(v) && Visible(x, u, s)
      ensures x.key.sequence <= e.key.sequence
    {
      var i, f :| 0 <= i < NUM_LEVELS && f in v.levels[i] && x in f.entries;
      assert x in LevelEntries(v.levels[i]);
      if lvl < i {
        var g :| g in v.levels[lvl] && e in g.entries;
        assert LevelNewer(v.levels[lvl], v.levels[i]);
        assert FileNewer(g, f);
      }
    }
  }

  /** In level 0, an entry of the newest file that holds anything visible is the newest of the level. */
  lemma NewestOfLevel0(level: Level, tmp: seq<File>, i: nat, u: UserKey, s: nat, e: Entry)
    requires (forall f :: f in level ==> ValidFile(f)) && NumberedByAge(level)
    requires forall f :: f in tmp <==> f in level && f.smallest.user <= u <= f.largest.user
    requires NewestFirst(tmp) && i < |tmp|
    requires forall k :: 0 <= k < i ==> NoneVisible(FileEntries(tmp[k]), u, s)
    requires Newest(e, FileEntries(tmp[i]), u, s)
    ensures Newest(e, LevelEntries(level), u, s)
  {
    assert tmp[i] in level && e in tmp[i].entries;
    forall x | x in LevelEntries(level) && Visible(x, u, s)
      ensures x.key.sequence <= e.key.sequence
    {
      var g :| g in level && x in g.entries;
      FileRange(g, x);
      var j :| 0 <= j < |tmp| && tmp[j] == g;
      assert x in FileEntries(g);
      if i < j {
        assert FileNewer(tmp[i], g);
      }
    }
  }

  /** `Version::Get`: level by level, one binary-searched file per level above 0, stopping at the
      first table that holds anything visible. It returns what the flat history promises. */
  method Get(v: Version, u: UserKey, s: nat) returns (r: Lookup)
    requires Valid(v)
    ensures r == Read(Contents(v), u, s)
  {
    for lvl := 0 to NUM_LEVELS
      invariant forall i :: 0 <= i < lvl ==> NoneVisible(LevelEntries(v.levels[i]), u, s)
    {
      var level := v.levels[lvl];
      var files: seq<File> := [];
      if lvl == 0 {
        files := Level0Candidates(level, u);
      } else {
        var index := FindFile(level, SeekKey(u, s));
        OnlyFileOfLevel(level, index, u, s);
        if index < |level| && level[index].smallest.user <= u {
          files := [level[index]];
        } else if index < |level| {
          forall x | x in FileEntries(level[index])
            ensures !Visible(x, u, s)
          {
            FileRange(level[index], x);
          }
        }
      }
      for i := 0 to |files|
        invariant forall k :: 0 <= k < i ==> NoneVisible(FileEntries(files[k]), u, s)
      {
        assert files[i] in level;
        var state := SearchTable(files[i], u, s);
        if !state.NotFound? {
          ghost var e :| Newest(e, FileEntries(files[i]), u, s) && Verdict(e) == ToLookup(state);
          if lvl == 0 {
            NewestOfLevel0(level, files, i, u, s, e);
          }
          NewestOfLevelIsNewest(v, lvl, u, s, e);
          ReadOfNewest(Contents(v), u, s, e);
          return ToLookup(state);
        }
      }
      assert lvl > 0 && files != [] ==> NoneVisible(FileEntries(files[0]), u, s);
      forall x | lvl == 0 && x in LevelEntries(level)
        ensures !Visible(x, u, s)
      {
        var g :| g in level && x in g.entries;
        FileRange(g, x);
        if g in files {
          var k :| 0 <= k < |files| && files[k] == g;
          assert x in FileEntries(files[k]);
        }
      }
    }
    assert NoneVisible(Contents(v), u, s) by {
      forall x | x in Contents(v)
        ensures !Visible(x, u, s)
      {
        var i, f :| 0 <= i < NUM_LEVELS && f in v.levels[i] && x in f.entries;
        assert x in LevelEntries(v.levels[i]);
      }
    }
    r := Missing;
  }
}
