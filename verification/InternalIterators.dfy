/** The iterators over a whole version, over the inputs of a compaction, and over the store
    (db/version_set.cc, db/db_impl.cc). */
module InternalIterators {
  import opened History
  import opened Version
  import opened Picking
  import opened CompactionSafety
  import opened Iterators
  import opened TwoLevel

  // ---------- a level as one list ----------

  /** `LevelFileNumIterator`: the index entry of a file is its largest key. */
  function LevelIndex(files: seq<File>): seq<Block> {
    seq(|files|, i requires 0 <= i < |files| => Block(files[i].largest, files[i].entries))
  }

  function Concatenated(files: seq<File>): seq<Entry> {
    Flat(LevelIndex(files))
  }

  lemma LevelIsIndexed(files: seq<File>)
    requires (forall f :: f in files ==> ValidFile(f)) && DisjointSorted(files)
    ensures Indexed(LevelIndex(files)) && Sorted(Concatenated(files))
  {
    var index := LevelIndex(files);
    forall i | 0 <= i < |index|
      ensures Sorted(index[i].entries)
    {
      assert files[i] in files;
    }
    forall i, q | 0 <= i < |index| && 0 <= q < |index[i].entries|
      ensures !Before(index[i].key, index[i].entries[q].key)
      ensures !Before(index[i].entries[q].key, files[i].smallest)
    {
      FileRange(files[i], index[i].entries[q]);
    }
    forall i, j, q | 0 <= i < j < |index| && 0 <= q < |index[j].entries|
      ensures Before(index[i].key, index[j].entries[q].key)
    {
      assert !Before(index[j].entries[q].key, files[j].smallest);
    }
    forall i, j | 0 <= i < j < |index|
      ensures Before(index[i].key, index[j].key)
    {
      LargestIncreases(files, i, j);
    }
    FlatIsSorted(index);
  }

  lemma ConcatenatedMembers(files: seq<File>, e: Entry)
    ensures e in Concatenated(files) <==> e in LevelEntries(files)
  {
    var index := LevelIndex(files);
    if e in Concatenated(files) {
      var k: nat :| k < |Concatenated(files)| && Concatenated(files)[k] == e;
      var i, q := BlockAt(index, k);
      assert files[i] in files && LevelIndex(files)[i].entries == files[i].entries;
      assert e in files[i].entries;
    }
    if e in LevelEntries(files) {
      var f :| f in files && e in f.entries;
      var i: nat :| i < |files| && files[i] == f;
      FileInConcatenated(files, i, e);
    }
  }

  lemma FileInConcatenated(files: seq<File>, i: nat, e: Entry)
    requires i < |files| && e in files[i].entries
    ensures e in Concatenated(files)
  {
    var q: nat :| q < |files[i].entries| && files[i].entries[q] == e;
    assert LevelIndex(files)[i].entries == files[i].entries;
    EntryAt(LevelIndex(files), i, q);
  }

  // ---------- sorted unions ----------

  ghost predicate KeysApart(a: seq<Entry>, b: seq<Entry>) {
    forall x, y :: x in a && y in b ==> x.key != y.key
  }

  ghost predicate Mergeable(parts: seq<seq<Entry>>) {
    && (forall i :: 0 <= i < |parts| ==> Sorted(parts[i]))
    && (forall i, j :: 0 <= i < j < |parts| ==> KeysApart(parts[i], parts[j]))
  }

  lemma {:induction false} MergeTwo(a: seq<Entry>, b: seq<Entry>) returns (r: seq<Entry>)
    requires Sorted(a) && Sorted(b) && KeysApart(a, b)
    ensures Sorted(r) && forall e :: e in r <==> e in a || e in b
    decreases |a| + |b|
  {
    if a == [] {
      r := b;
    } else if b == [] {
      r := a;
    } else {
      var x, y := a[|a| - 1], b[|b| - 1];
      assert x in a && y in b;
      if Before(x.key, y.key) {
        var init := MergeTwo(a, b[..|b| - 1]);
        r := Extended(init, a, b);
      } else {
        var init := MergeTwo(a[..|a| - 1], b);
        r := Extended(init, b, a);
      }
    }
  }

  /** The last entry of `b` comes after everything else. */
  lemma Extended(init: seq<Entry>, a: seq<Entry>, b: seq<Entry>) returns (r: seq<Entry>)
    requires Sorted(a) && Sorted(b) && Sorted(init) && b != []
    requires a != [] && Before(a[|a| - 1].key, b[|b| - 1].key)
    requires forall e :: e in init <==> e in a || e in b[..|b| - 1]
    ensures Sorted(r) && forall e :: e in r <==> e in a || e in b
  {
    var y := b[|b| - 1];
    r := init + [y];
    assert b == b[..|b| - 1] + [y];
    forall i | 0 <= i < |init|
      ensures Before(init[i].key, y.key)
    {
      assert init[i] in init;
      if init[i] in a {
        var k :| 0 <= k < |a| && a[k] == init[i];
        assert k < |a| - 1 ==> Before(a[k].key, a[|a| - 1].key);
      } else {
        var k :| 0 <= k < |b| - 1 && b[k] == init[i];
      }
    }
  }

  /** Sorted lists without a key in common have a sorted union. */
  lemma {:induction false} UnionExists(parts: seq<seq<Entry>>) returns (list: seq<Entry>)
    requires Mergeable(parts)
    ensures IsUnion(list, parts)
    decreases |parts|
  {
    if parts == [] {
      list := [];
    } else {
      var n := |parts| - 1;
      var init := UnionExists(parts[..n]);
      forall x, y | x in init && y in parts[n]
        ensures x.key != y.key
      {
        var i :| 0 <= i < n && x in parts[..n][i];
        assert KeysApart(parts[i], parts[n]);
      }
      list := MergeTwo(init, parts[n]);
      UnionGrows(init, parts, list);
    }
  }

  lemma UnionGrows(init: seq<Entry>, parts: seq<seq<Entry>>, list: seq<Entry>)
    requires parts != [] && Mergeable(parts) && IsUnion(init, parts[..|parts| - 1]) && Sorted(list)
    requires forall e :: e in list <==> e in init || e in parts[|parts| - 1]
    ensures IsUnion(list, parts)
  {
    var n := |parts| - 1;
    forall i, q | 0 <= i < |parts| && 0 <= q < |parts[i]|
      ensures parts[i][q] in list
    {
      if i < n { assert parts[..n][i][q] in init; }
    }
    forall e | e in list
      ensures exists i :: 0 <= i < |parts| && e in parts[i]
    {
      if e in init {
        var i :| 0 <= i < n && e in parts[..n][i];
        assert e in parts[i];
      } else {
        assert e in parts[n];
      }
    }
    forall i, j, e | 0 <= i < |parts| && 0 <= j < |parts| && i != j && e in parts[i]
      ensures e !in parts[j]
    {
      assert KeysApart(parts[if i < j then i else j], parts[if i < j then j else i]);
    }
  }

  // ---------- building and draining a merging iterator ----------

  /** A merging iterator over the given lists. */
  method NewMergingIterator(parts: seq<seq<Entry>>) returns (it: MergingIterator)
    requires Mergeable(parts)
    ensures fresh(it) && fresh(it.children) && it.Ok() && !it.Valid()
    ensures IsUnion(it.list, parts)
  {
    var children: seq<SortedIterator> := [];
    for i := 0 to |parts|
      invariant |children| == i && fresh(children)
      invariant forall j :: 0 <= j < i ==> children[j].Ok() && children[j].list == parts[j]
      invariant forall j, k :: 0 <= j < k < i ==> children[j] != children[k]
    {
      var child := new SortedIterator(parts[i]);
      children := children + [child];
    }
    ghost var list := UnionExists(parts);
    assert seq(|children|, i requires 0 <= i < |children| => children[i].list) == parts;
    it := new MergingIterator(children, list);
  }

  /** Iterating from the first entry to the end lists the union. */
  method Drain(it: MergingIterator) returns (entries: seq<Entry>)
    requires it.Ok()
    modifies it, it.children
    ensures entries == it.list && it.Ok()
  {
    hide IsUnion, SplitAt, LastBefore, Sorted;
    it.SeekToFirst();
    entries := [];
    while it.Valid()
      invariant it.Ok() && it.pos <= |it.list| && entries == it.list[..it.pos]
      decreases |it.list| - it.pos
    {
      entries := entries + [it.Current()];
      it.Next();
    }
  }

  // ---------- the inputs of a compaction ----------

  /** Files one of which is newer than the other share no key. */
  lemma NewerIsApart(f: File, g: File)
    requires FileNewer(f, g)
    ensures KeysApart(f.entries, g.entries) && KeysApart(g.entries, f.entries)
  {
  }

  lemma FilesApart(v: Version, i: nat, f: File, j: nat, g: File)
    requires Valid(v) && i <= j < NUM_LEVELS && f in v.levels[i] && g in v.levels[j]
    requires i < j || (i == j == 0 && f != g)
    ensures KeysApart(f.entries, g.entries) && KeysApart(g.entries, f.entries)
  {
    if i < j {
      assert LevelNewer(v.levels[i], v.levels[j]);
      NewerIsApart(f, g);
    } else {
      DifferentNumbers(v.levels[0], f, g);
      if f.number > g.number { NewerIsApart(f, g); } else { NewerIsApart(g, f); }
    }
  }

  /** Level-0 files are merged one by one, the files of another level as one concatenation. */
  function PartsOfLevel(lvl: nat, files: seq<File>): seq<seq<Entry>> {
    if lvl == 0 then seq(|files|, i requires 0 <= i < |files| => files[i].entries)
    else if files == [] then []
    else [Concatenated(files)]
  }

  /** Together the lists hold `S`. */
  ghost predicate PartsHold(parts: seq<seq<Entry>>, S: set<Entry>) {
    && (forall i, e :: 0 <= i < |parts| && e in parts[i] ==> e in S)
    && (forall e :: e in S ==> InSome(parts, e))
  }

  ghost predicate InSome(parts: seq<seq<Entry>>, e: Entry) {
    exists i :: 0 <= i < |parts| && e in parts[i]
  }

  lemma UnionHolds(list: seq<Entry>, parts: seq<seq<Entry>>, S: set<Entry>)
    requires IsUnion(list, parts) && PartsHold(parts, S)
    ensures SeqSet(list) == S
  {
    forall e | e in S
      ensures e in list
    {
      assert InSome(parts, e);
      var i :| 0 <= i < |parts| && e in parts[i];
      var q :| 0 <= q < |parts[i]| && parts[i][q] == e;
    }
  }

  lemma OnePart(list: seq<Entry>)
    requires Sorted(list)
    ensures Mergeable([list]) && PartsHold([list], SeqSet(list))
  {
    assert [list][0] == list;
    assert forall e :: e in list ==> InSome([list], e);
  }

  lemma NoParts()
    ensures Mergeable([]) && PartsHold([], {})
  {
  }

  lemma UnionIsSorted(list: seq<Entry>, parts: seq<seq<Entry>>)
    requires IsUnion(list, parts)
    ensures Sorted(list)
  {
  }

  ghost predicate SetsApart(S: set<Entry>, T: set<Entry>) {
    forall x, y :: x in S && y in T ==> x.key != y.key
  }

  lemma JoinParts(a: seq<seq<Entry>>, S: set<Entry>, b: seq<seq<Entry>>, T: set<Entry>)
    requires Mergeable(a) && Mergeable(b) && PartsHold(a, S) && PartsHold(b, T) && SetsApart(S, T)
    ensures Mergeable(a + b) && PartsHold(a + b, S + T)
  {
    var c := a + b;
    forall i, j | 0 <= i < j < |c|
      ensures KeysApart(c[i], c[j])
    {
      if j < |a| {
        assert KeysApart(a[i], a[j]);
      } else if |a| <= i {
        assert KeysApart(b[i - |a|], b[j - |a|]);
      } else {
        assert c[i] == a[i] && c[j] == b[j - |a|];
      }
    }
    forall e | e in S + T
      ensures InSome(c, e)
    {
      if e in S {
        assert InSome(a, e);
        var i :| 0 <= i < |a| && e in a[i];
        assert e in c[i];
      } else {
        assert InSome(b, e);
        var i :| 0 <= i < |b| && e in b[i];
        assert e in c[|a| + i];
      }
    }
  }

  /** Some files of one level, as a compaction or the whole level picks them. */
  ghost predicate LevelFiles(v: Version, lvl: nat, files: seq<File>)
    requires lvl < |v.levels|
  {
    && (forall f :: f in files ==> f in v.levels[lvl] && ValidFile(f))
    && DistinctNumbers(files) && (1 <= lvl ==> DisjointSorted(files))
  }

  lemma PartsOfLevelAreMergeable(v: Version, lvl: nat, files: seq<File>)
    requires Valid(v) && lvl < NUM_LEVELS && LevelFiles(v, lvl, files)
    ensures Mergeable(PartsOfLevel(lvl, files)) && PartsHold(PartsOfLevel(lvl, files), LevelEntries(files))
  {
    if lvl == 0 {
      FilesOfLevel0(v, files);
    } else if files != [] {
      LevelIsIndexed(files);
      forall e
        ensures e in Concatenated(files) <==> e in LevelEntries(files)
      {
        ConcatenatedMembers(files, e);
      }
      assert PartsOfLevel(lvl, files)[0] == Concatenated(files);
    }
  }

  lemma FilesOfLevel0(v: Version, files: seq<File>)
    requires |v.levels| == NUM_LEVELS && Valid(v) && LevelFiles(v, 0, files)
    ensures Mergeable(PartsOfLevel(0, files)) && PartsHold(PartsOfLevel(0, files), LevelEntries(files))
  {
    hide Valid;
    var parts := PartsOfLevel(0, files);
    forall i, j | 0 <= i < j < |parts|
      ensures KeysApart(parts[i], parts[j])
    {
      assert files[i].number != files[j].number;
      FilesApart(v, 0, files[i], 0, files[j]);
    }
    forall i | 0 <= i < |parts|
      ensures Sorted(parts[i])
    {
      assert files[i] in files;
    }
    forall e | e in LevelEntries(files)
      ensures InSome(parts, e)
    {
      var f :| f in files && e in f.entries;
      var i :| 0 <= i < |files| && files[i] == f;
      assert e in parts[i];
    }
  }

  lemma LevelsApart(v: Version, i: nat, a: seq<File>, j: nat, b: seq<File>)
    requires Valid(v) && i < j < NUM_LEVELS && LevelFiles(v, i, a) && LevelFiles(v, j, b)
    ensures SetsApart(LevelEntries(a), LevelEntries(b))
  {
    forall x, y | x in LevelEntries(a) && y in LevelEntries(b)
      ensures x.key != y.key
    {
      var f :| f in a && x in f.entries;
      var g :| g in b && y in g.entries;
      FilesApart(v, i, f, j, g);
    }
  }

  lemma {:induction false} OverlappingIsDistinct(level: Level, lo: Bound, hi: Bound)
    requires DistinctNumbers(level)
    ensures DistinctNumbers(Overlapping(level, lo, hi))
  {
    if level != [] {
      var init := level[..|level| - 1];
      OverlappingIsDistinct(init, lo, hi);
      OverlappingMembers(init, lo, hi);
      forall i | 0 <= i < |Overlapping(init, lo, hi)|
        ensures Overlapping(init, lo, hi)[i].number != level[|level| - 1].number
      {
        assert Overlapping(init, lo, hi)[i] in Overlapping(init, lo, hi);
      }
    }
  }

  lemma OverlappingIsSorted(level: Level, lo: Bound, hi: Bound)
    requires (forall f :: f in level ==> ValidFile(f)) && DisjointSorted(level)
    ensures DisjointSorted(Overlapping(level, lo, hi))
  {
    if Overlapping(level, lo, hi) != [] {
      var a, b := OverlappingIsSlice(level, lo, hi);
    }
  }

  lemma UpperInputsAreLevelFiles(v: Version, c: Inputs)
    requires Valid(v) && Selected(v, c)
    ensures LevelFiles(v, c.level, c.in0)
  {
    hide Valid, Selected, DistinctNumbers, DisjointSorted, ValidFile;
    InputsAreFiles(v, c);
    SelectedLevels(v, c);
    FilesAreValid(v, c.level);
    UpperInputsInOrder(v.levels[c.level], c);
  }

  lemma SelectedLevels(v: Version, c: Inputs)
    requires Selected(v, c)
    ensures |v.levels| == NUM_LEVELS && c.level + 1 < NUM_LEVELS && IsUpperInput(v.levels[c.level], c)
    ensures IsLowerInput(v, c.level, c.in0, c.in1)
  {
    if c.level == 0 {
      var lo, hi :| ClosedUnder(v.levels[0], c.in0, lo, hi);
    } else {
      var a, b :| ClosedSlice(v.levels[c.level], c.in0, a, b);
      assert IsSlice(v.levels[c.level], c.in0, a, b);
    }
  }

  ghost predicate IsUpperInput(level: Level, c: Inputs) {
    if c.level == 0 then exists lo, hi :: c.in0 == Overlapping(level, lo, hi) else exists a, b :: IsSlice(level, c.in0, a, b)
  }

  lemma UpperInputsInOrder(level: Level, c: Inputs)
    requires IsUpperInput(level, c) && DistinctNumbers(level) && (1 <= c.level ==> DisjointSorted(level))
    ensures DistinctNumbers(c.in0) && (1 <= c.level ==> DisjointSorted(c.in0))
  {
    if c.level == 0 {
      var lo, hi :| c.in0 == Overlapping(level, lo, hi);
      OverlappingIsDistinct(level, lo, hi);
    } else {
      var a, b :| IsSlice(level, c.in0, a, b);
    }
  }

  lemma FilesAreValid(v: Version, lvl: nat)
    requires Valid(v) && lvl < NUM_LEVELS
    ensures |v.levels| == NUM_LEVELS && DistinctNumbers(v.levels[lvl]) && (1 <= lvl ==> DisjointSorted(v.levels[lvl]))
    ensures forall f :: f in v.levels[lvl] ==> ValidFile(f)
  {
  }

  lemma LowerInputsAreLevelFiles(v: Version, c: Inputs)
    requires Valid(v) && Selected(v, c)
    ensures LevelFiles(v, c.level + 1, c.in1)
  {
    hide Valid, Selected, DistinctNumbers, DisjointSorted, ValidFile;
    InputsAreFiles(v, c);
    SelectedLevels(v, c);
    FilesAreValid(v, c.level + 1);
    var lo, hi := Some(SmallestKey(c.in0).user), Some(LargestKey(c.in0).user);
    OverlappingIsDistinct(v.levels[c.level + 1], lo, hi);
    OverlappingIsSorted(v.levels[c.level + 1], lo, hi);
  }

  /** `MakeInputIterator`, read to its end: the sorted merge of the input files. */
  method MergeInputs(v: Version, c: Inputs) returns (input: seq<Entry>)
    requires Valid(v) && Selected(v, c)
    ensures IsMergedInput(c, input)
  {
    hide Valid, Selected, LevelFiles, Mergeable, PartsHold, SetsApart, LevelEntries, Sorted;
    SelectedLevels(v, c);
    var parts := PartsOfLevel(c.level, c.in0) + PartsOfLevel(c.level + 1, c.in1);
    UpperInputsAreLevelFiles(v, c);
    LowerInputsAreLevelFiles(v, c);
    PartsOfLevelAreMergeable(v, c.level, c.in0);
    PartsOfLevelAreMergeable(v, c.level + 1, c.in1);
    LevelsApart(v, c.level, c.in0, c.level + 1, c.in1);
    JoinParts(PartsOfLevel(c.level, c.in0), LevelEntries(c.in0), PartsOfLevel(c.level + 1, c.in1), LevelEntries(c.in1));
    var it := NewMergingIterator(parts);
    UnionHolds(it.list, parts, InputEntries(c));
    UnionIsSorted(it.list, parts);
    input := Drain(it);
  }

  // ---------- a whole version ----------

  /** `Version::AddIterators`, for the levels from `lvl` on. */
  function PartsFrom(v: Version, lvl: nat): seq<seq<Entry>>
    requires lvl <= |v.levels|
    decreases |v.levels| - lvl
  {
    if lvl == |v.levels| then [] else PartsOfLevel(lvl, v.levels[lvl]) + PartsFrom(v, lvl + 1)
  }

  ghost function ContentsFrom(v: Version, lvl: nat): set<Entry> {
    set i, f, e | lvl <= i < |v.levels| && f in v.levels[i] && e in f.entries :: e
  }

  lemma {:induction false} PartsFromAreMergeable(v: Version, lvl: nat)
    requires Valid(v) && lvl <= NUM_LEVELS
    ensures Mergeable(PartsFrom(v, lvl)) && PartsHold(PartsFrom(v, lvl), ContentsFrom(v, lvl))
    decreases NUM_LEVELS - lvl
  {
    hide Mergeable, SetsApart;
    assert lvl == NUM_LEVELS ==> Mergeable(PartsFrom(v, lvl)) by { NoParts(); }
    if lvl < NUM_LEVELS {
      PartsFromAreMergeable(v, lvl + 1);
      PartsOfLevelAreMergeable(v, lvl, v.levels[lvl]);
      LevelApartFromDeeper(v, lvl);
      JoinParts(PartsOfLevel(lvl, v.levels[lvl]), LevelEntries(v.levels[lvl]), PartsFrom(v, lvl + 1), ContentsFrom(v, lvl + 1));
      assert LevelEntries(v.levels[lvl]) + ContentsFrom(v, lvl + 1) == ContentsFrom(v, lvl);
    }
  }

  lemma LevelApartFromDeeper(v: Version, lvl: nat)
    requires Valid(v) && lvl < NUM_LEVELS
    ensures SetsApart(LevelEntries(v.levels[lvl]), ContentsFrom(v, lvl + 1))
  {
    forall x, y | x in LevelEntries(v.levels[lvl]) && y in ContentsFrom(v, lvl + 1)
      ensures x.key != y.key
    {
      var f :| f in v.levels[lvl] && x in f.entries;
      var j, g :| lvl + 1 <= j < NUM_LEVELS && g in v.levels[j] && y in g.entries;
      FilesApart(v, lvl, f, j, g);
    }
  }

  lemma AllContents(v: Version)
    requires |v.levels| == NUM_LEVELS
    ensures ContentsFrom(v, 0) == Contents(v)
  {
    forall e | e in ContentsFrom(v, 0)
      ensures e in Contents(v)
    {
      var i, f :| 0 <= i < NUM_LEVELS && f in v.levels[i] && e in f.entries;
      InContents(v, i, f, e);
    }
  }

  /** `NewInternalIterator`: the memtables and the version, merged. */
  method NewInternalIterator(mem: seq<Entry>, imm: Option<seq<Entry>>, v: Version, ghost older: nat, ghost newer: nat)
    returns (it: MergingIterator)
    requires Valid(v) && Sorted(mem) && (imm.Some? ==> Sorted(imm.value))
    requires forall e :: e in Contents(v) ==> e.key.sequence <= older
    requires forall e :: imm.Some? && e in imm.value ==> older < e.key.sequence <= newer
    requires forall e :: e in mem ==> newer < e.key.sequence
    requires older <= newer
    ensures fresh(it) && fresh(it.children) && it.Ok() && !it.Valid()
    ensures SeqSet(it.list) == SeqSet(mem) + ((if imm.Some? then SeqSet(imm.value) else {}) + Contents(v))
  {
    var below := PartsFrom(v, 0);
    PartsFromAreMergeable(v, 0);
    AllContents(v);
    ghost var S := Contents(v);
    if imm.Some? {
      OnePart(imm.value);
      JoinParts([imm.value], SeqSet(imm.value), below, S);
      below := [imm.value] + below;
      S := SeqSet(imm.value) + S;
    }
    OnePart(mem);
    JoinParts([mem], SeqSet(mem), below, S);
    var parts := [mem] + below;
    it := NewMergingIterator(parts);
    UnionHolds(it.list, parts, SeqSet(mem) + S);
    assert imm.None? ==> {} + Contents(v) == Contents(v);
  }
}
