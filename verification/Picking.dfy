/** Choosing the level of a flushed memtable and the inputs of a compaction (db/version_set.cc). */
module Picking {
  import opened History
  import opened Version

  /** A bound of a user-key range; `None` is the null pointer, an open end. */
  type Bound = Option<UserKey>

  predicate AfterFile(key: Bound, f: File) {
    key.Some? && key.value > f.largest.user
  }

  predicate BeforeFile(key: Bound, f: File) {
    key.Some? && key.value < f.smallest.user
  }

  predicate Overlaps(f: File, lo: Bound, hi: Bound) {
    !AfterFile(lo, f) && !BeforeFile(hi, f)
  }

  predicate Within(f: File, lo: Bound, hi: Bound) {
    (lo.Some? ==> lo.value <= f.smallest.user) && (hi.Some? ==> f.largest.user <= hi.value)
  }

  method SomeFileOverlapsRange(disjointSorted: bool, files: Level, lo: Bound, hi: Bound) returns (b: bool)
    requires forall f :: f in files ==> ValidFile(f)
    requires disjointSorted ==> DisjointSorted(files)
    ensures b <==> exists f :: f in files && Overlaps(f, lo, hi)
  {
    if !disjointSorted {
      for i := 0 to |files|
        invariant forall k :: 0 <= k < i ==> !Overlaps(files[k], lo, hi)
      {
        if !AfterFile(lo, files[i]) && !BeforeFile(hi, files[i]) {
          assert Overlaps(files[i], lo, hi);
          return true;
        }
      }
      return false;
    }
    var index := 0;
    if lo.Some? {
      index := FindFile(files, IKey(lo.value, MAX_SEQUENCE, Value));
    }
    forall k | 0 <= k < |files|
      ensures AfterFile(lo, files[k]) <==> k < index
    {
      assert ValidFile(files[k]);
      assert files[k].entries[|files[k].entries| - 1].key == files[k].largest;
      if index < k {
        LargestIncreases(files, index, k);
      }
    }
    if index >= |files| {
      return false;
    }
    forall k | index < k < |files| && BeforeFile(hi, files[index])
      ensures BeforeFile(hi, files[k])
    {
      assert ValidFile(files[index]);
      RangeOrdered(files[index]);
    }
    b := !BeforeFile(hi, files[index]);
    assert b ==> files[index] in files && Overlaps(files[index], lo, hi);
    assert !b ==> forall k :: 0 <= k < |files| ==> !Overlaps(files[k], lo, hi);
  }

  // ---------- GetOverlappingInputs ----------

  /** The files that overlap a user-key range, in level order. */
  function Overlapping(files: Level, lo: Bound, hi: Bound): seq<File> {
    if files == [] then []
    else
      var f := files[|files| - 1];
      Overlapping(files[..|files| - 1], lo, hi) + if Overlaps(f, lo, hi) then [f] else []
  }

  lemma {:induction false} OverlappingMembers(files: Level, lo: Bound, hi: Bound)
    ensures forall f :: f in Overlapping(files, lo, hi) <==> f in files && Overlaps(f, lo, hi)
  {
    if files != [] {
      OverlappingMembers(files[..|files| - 1], lo, hi);
    }
  }

  ghost predicate Closed(files: Level, lo: Bound, hi: Bound) {
    forall f :: f in files && Overlaps(f, lo, hi) ==> Within(f, lo, hi)
  }

  /** The range `inner` is part of the range `outer`. */
  ghost predicate SubRange(innerLo: Bound, innerHi: Bound, outerLo: Bound, outerHi: Bound) {
    && (outerLo.None? || (innerLo.Some? && outerLo.value <= innerLo.value))
    && (outerHi.None? || (innerHi.Some? && innerHi.value <= outerHi.value))
  }

  ghost function FilesBelow(files: Level, lo: Bound): set<File> {
    set f | f in files && lo.Some? && f.smallest.user < lo.value
  }

  ghost function FilesAbove(files: Level, hi: Bound): set<File> {
    set f | f in files && hi.Some? && f.largest.user > hi.value
  }

  /** Every closed range that contains the query contains this one. */
  ghost predicate Least(files: Level, begin: Bound, end: Bound, lo: Bound, hi: Bound) {
    forall x, y :: SubRange(begin, end, x, y) && Closed(files, x, y) ==> SubRange(lo, hi, x, y)
  }

  /** A file that straddles an end of the range has to lie inside every closed range around it. */
  lemma LeastGrows(files: Level, begin: Bound, end: Bound, lo: Bound, hi: Bound, f: File)
    requires Least(files, begin, end, lo, hi) && f in files && Overlaps(f, lo, hi)
    ensures lo.Some? ==> f.smallest.user < lo.value ==> Least(files, begin, end, Some(f.smallest.user), hi)
    ensures hi.Some? ==> f.largest.user > hi.value ==> Least(files, begin, end, lo, Some(f.largest.user))
  {
    forall x, y | SubRange(begin, end, x, y) && Closed(files, x, y)
      ensures SubRange(lo, hi, x, y) && Within(f, x, y)
    {
    }
  }

  /** At level 0 the range grows until no file straddles its ends; the result is the files of the
      least range that contains the query and is closed under overlap. */
  method GetOverlappingInputs(v: Version, level: nat, begin: Bound, end: Bound)
    returns (inputs: seq<File>, lo: Bound, hi: Bound)
    requires level < |v.levels|
    ensures inputs == Overlapping(v.levels[level], lo, hi)
    ensures level > 0 ==> lo == begin && hi == end
    ensures level == 0 ==> Closed(v.levels[level], lo, hi)
    ensures SubRange(begin, end, lo, hi)
    ensures Least(v.levels[level], begin, end, lo, hi)
  {
    var files := v.levels[level];
    var userBegin, userEnd := begin, end;
    inputs := [];
    var i := 0;
    while i < |files|
      invariant i <= |files|
      invariant inputs == Overlapping(files[..i], userBegin, userEnd)
      invariant level == 0 ==> forall k :: 0 <= k < i && Overlaps(files[k], userBegin, userEnd) ==> Within(files[k], userBegin, userEnd)
      invariant level > 0 ==> userBegin == begin && userEnd == end
      invariant SubRange(begin, end, userBegin, userEnd)
      invariant (userBegin.Some? <==> begin.Some?) && (userEnd.Some? <==> end.Some?)
      invariant Least(files, begin, end, userBegin, userEnd)
      decreases FilesBelow(files, userBegin), FilesAbove(files, userEnd), |files| - i
    {
      var f := files[i];
      assert files[..i + 1][..i] == files[..i];
      i := i + 1;
      if begin.Some? && f.largest.user < userBegin.value {
        // completely before the range
      } else if end.Some? && f.smallest.user > userEnd.value {
        // completely after the range
      } else {
        inputs := inputs + [f];
        LeastGrows(files, begin, end, userBegin, userEnd, f);
        if level == 0 {
          if begin.Some? && f.smallest.user < userBegin.value {
            assert f in FilesBelow(files, userBegin) && f !in FilesBelow(files, Some(f.smallest.user));
            userBegin := Some(f.smallest.user);
            inputs := [];
            i := 0;
          } else if end.Some? && f.largest.user > userEnd.value {
            assert f in FilesAbove(files, userEnd) && f !in FilesAbove(files, Some(f.largest.user));
            userEnd := Some(f.largest.user);
            inputs := [];
            i := 0;
          }
        }
      }
    }
    assert files[..i] == files;
    lo, hi := userBegin, userEnd;
  }

  // ---------- PickLevelForMemTableOutput ----------

  const MAX_MEM_COMPACT_LEVEL := 2

  function TotalFileSize(files: seq<File>): nat {
    if files == [] then 0 else TotalFileSize(files[..|files| - 1]) + files[|files| - 1].size
  }

  method OverlapInLevel(v: Version, level: nat, lo: Bound, hi: Bound) returns (b: bool)
    requires Valid(v) && level < NUM_LEVELS
    ensures b <==> exists f :: f in v.levels[level] && Overlaps(f, lo, hi)
  {
    b := SomeFileOverlapsRange(level > 0, v.levels[level], lo, hi);
  }

  ghost predicate NothingOverlaps(files: Level, lo: Bound, hi: Bound) {
    forall f :: f in files ==> !Overlaps(f, lo, hi)
  }

  /** From this level the table may go one down: nothing there overlaps it, and not too much below. */
  ghost predicate GoesDown(v: Version, level: nat, lo: Bound, hi: Bound, maxGrandParentOverlap: nat)
    requires |v.levels| == NUM_LEVELS && level + 2 < NUM_LEVELS
  {
    NothingOverlaps(v.levels[level + 1], lo, hi) && TotalFileSize(Overlapping(v.levels[level + 2], lo, hi)) <= maxGrandParentOverlap
  }

  /** A flushed table may skip down only past levels that hold nothing of its user-key range. */
  method PickLevelForMemTableOutput(v: Version, small: UserKey, large: UserKey, maxGrandParentOverlap: nat)
    returns (level: nat)
    requires Valid(v)
    ensures level <= MAX_MEM_COMPACT_LEVEL
    ensures forall i, f :: 0 < level && 0 <= i <= level && f in v.levels[i] ==> !Overlaps(f, Some(small), Some(large))
    ensures !NothingOverlaps(v.levels[0], Some(small), Some(large)) ==> level == 0
    ensures NothingOverlaps(v.levels[0], Some(small), Some(large)) && level < MAX_MEM_COMPACT_LEVEL ==>
              !GoesDown(v, level, Some(small), Some(large), maxGrandParentOverlap)
    ensures forall i :: 0 <= i < level ==> GoesDown(v, i, Some(small), Some(large), maxGrandParentOverlap)
  {
    level := 0;
    var overlap := OverlapInLevel(v, 0, Some(small), Some(large));
    if !overlap {
      while level < MAX_MEM_COMPACT_LEVEL
        invariant level <= MAX_MEM_COMPACT_LEVEL
        invariant forall i, f :: 0 <= i <= level && f in v.levels[i] ==> !Overlaps(f, Some(small), Some(large))
        invariant forall i :: 0 <= i < level ==> GoesDown(v, i, Some(small), Some(large), maxGrandParentOverlap)
      {
        overlap := OverlapInLevel(v, level + 1, Some(small), Some(large));
        if overlap {
          break;
        }
        if level + 2 < NUM_LEVELS {
          var overlaps, _, _ := GetOverlappingInputs(v, level + 2, Some(small), Some(large));
          if TotalFileSize(overlaps) > maxGrandParentOverlap {
            break;
          }
        }
        level := level + 1;
      }
    }
  }

  // ---------- boundary files ----------

  /** The greatest `largest` of a non-empty list of files, the first of equals. */
  ghost function LargestKey(files: seq<File>): IKey
    requires files != []
  {
    var f := files[|files| - 1];
    if |files| == 1 then f.largest
    else
      var m := LargestKey(files[..|files| - 1]);
      if Before(m, f.largest) then f.largest else m
  }

  ghost predicate IsBoundary(f: File, key: IKey) {
    Before(key, f.smallest) && f.smallest.user == key.user
  }

  /** `f` is the nearest file of `level` that continues the largest user key of `chosen`. */
  ghost predicate NextBoundary(level: Level, chosen: seq<File>, f: File) {
    && chosen != []
    && f in level && IsBoundary(f, LargestKey(chosen))
    && forall g :: g in level && IsBoundary(g, LargestKey(chosen)) ==> !Before(g.smallest, f.smallest)
  }

  ghost predicate NoBoundary(level: Level, chosen: seq<File>) {
    chosen != [] ==> forall f :: f in level ==> !IsBoundary(f, LargestKey(chosen))
  }

  method FindLargestKey(files: seq<File>) returns (key: Option<IKey>)
    ensures key == if files == [] then None else Some(LargestKey(files))
  {
    if files == [] {
      return None;
    }
    var largest := files[0].largest;
    assert files[..1] == [files[0]];
    for i := 1 to |files|
      invariant largest == LargestKey(files[..i])
    {
      assert files[..i + 1][..i] == files[..i];
      if Before(largest, files[i].largest) {
        largest := files[i].largest;
      }
    }
    assert files[..|files|] == files;
    key := Some(largest);
  }

  method FindSmallestBoundaryFile(level: Level, key: IKey) returns (r: Option<File>)
    ensures r.None? <==> forall f :: f in level ==> !IsBoundary(f, key)
    ensures r.Some? ==> r.value in level && IsBoundary(r.value, key)
    ensures r.Some? ==> forall g :: g in level && IsBoundary(g, key) ==> !Before(g.smallest, r.value.smallest)
  {
    r := None;
    for i := 0 to |level|
      invariant r.None? <==> forall k :: 0 <= k < i ==> !IsBoundary(level[k], key)
      invariant r.Some? ==> r.value in level && IsBoundary(r.value, key)
      invariant r.Some? ==> forall k :: 0 <= k < i && IsBoundary(level[k], key) ==> !Before(level[k].smallest, r.value.smallest)
    {
      var f := level[i];
      if Before(key, f.smallest) && f.smallest.user == key.user {
        if r.None? || Before(f.smallest, r.value.smallest) {
          r := Some(f);
        }
      }
    }
  }

  ghost function FilesAfter(level: Level, key: IKey): set<File> {
    set f | f in level && Before(key, f.smallest)
  }

  /** Extends `chosen` one boundary file at a time until none is left. */
  method AddBoundaryInputs(level: Level, chosen: seq<File>) returns (r: seq<File>)
    requires forall f :: f in level ==> ValidFile(f)
    ensures |chosen| <= |r| && r[..|chosen|] == chosen
    ensures forall i :: |chosen| <= i < |r| ==> NextBoundary(level, r[..i], r[i])
    ensures NoBoundary(level, r)
  {
    r := chosen;
    var largest := FindLargestKey(chosen);
    if largest.None? {
      return;
    }
    var largestKey, searching := largest.value, true;
    while searching
      invariant |chosen| <= |r| && r[..|chosen|] == chosen
      invariant forall i :: |chosen| <= i < |r| ==> NextBoundary(level, r[..i], r[i])
      invariant largestKey == LargestKey(r)
      invariant !searching ==> NoBoundary(level, r)
      decreases searching, FilesAfter(level, largestKey)
    {
      var boundary := FindSmallestBoundaryFile(level, largestKey);
      if boundary.Some? {
        var f := boundary.value;
        RangeOrdered(f);
        assert f in FilesAfter(level, largestKey) && f !in FilesAfter(level, f.largest);
        assert (r + [f])[..|r|] == r;
        assert forall i :: |chosen| <= i < |r| ==> (r + [f])[..i] == r[..i];
        r := r + [f];
        largestKey := f.largest;
      } else {
        searching := false;
      }
    }
  }

  lemma {:induction false} LargestOfSlice(level: Level, a: nat, b: nat)
    requires (forall f :: f in level ==> ValidFile(f)) && DisjointSorted(level)
    requires a < b <= |level|
    ensures LargestKey(level[a..b]) == level[b - 1].largest
  {
    if b - a > 1 {
      assert level[a..b][..b - a - 1] == level[a..b - 1];
      LargestOfSlice(level, a, b - 1);
      LargestIncreases(level, b - 2, b - 1);
    }
  }

  /** In a sorted level the next boundary file of a slice is the file right after it. */
  lemma BoundaryOfSlice(level: Level, a: nat, b: nat, f: File)
    requires (forall f :: f in level ==> ValidFile(f)) && DisjointSorted(level)
    requires a < b <= |level| && NextBoundary(level, level[a..b], f)
    ensures b < |level| && f == level[b]
  {
    LargestOfSlice(level, a, b);
    var j :| 0 <= j < |level| && level[j] == f;
    var last := b - 1;
    if j < b {
      if j < last { LargestIncreases(level, j, last); }
      RangeOrdered(f);
      assert false;
    }
    if b < j {
      assert ValidFile(level[b]);
      RangeOrdered(level[b]);
      assert Before(level[b].largest, level[j].smallest);
      assert Before(level[b - 1].largest, level[b].smallest);
      assert IsBoundary(level[b], level[b - 1].largest);
    }
  }

  /** A run of neighbouring files of a sorted level that no later file continues. */
  ghost predicate ClosedSlice(level: Level, chosen: seq<File>, a: nat, b: nat) {
    && a < b <= |level| && chosen == level[a..b]
    && (b < |level| ==> level[b].smallest.user != level[b - 1].largest.user)
  }

  lemma EndOfChain(level: Level, a: nat, b: nat)
    requires (forall f :: f in level ==> ValidFile(f)) && DisjointSorted(level)
    requires a < b <= |level| && NoBoundary(level, level[a..b])
    ensures ClosedSlice(level, level[a..b], a, b)
  {
    LargestOfSlice(level, a, b);
    if b < |level| {
      assert Before(level[b - 1].largest, level[b].smallest);
      assert !IsBoundary(level[b], level[b - 1].largest);
    }
  }

  lemma {:induction false} ChainIsSlice(level: Level, a: nat, b: nat, r: seq<File>) returns (e: nat)
    requires (forall f :: f in level ==> ValidFile(f)) && DisjointSorted(level)
    requires a < b <= |level| && b - a <= |r| && r[..b - a] == level[a..b]
    requires forall i :: b - a <= i < |r| ==> NextBoundary(level, r[..i], r[i])
    requires NoBoundary(level, r)
    ensures b <= e && ClosedSlice(level, r, a, e)
    decreases |r| - (b - a)
  {
    if |r| == b - a {
      assert r == r[..b - a];
      EndOfChain(level, a, b);
      e := b;
    } else {
      var f := r[b - a];
      assert NextBoundary(level, level[a..b], f);
      BoundaryOfSlice(level, a, b, f);
      SliceGrows(level, a, b, r);
      e := ChainIsSlice(level, a, b + 1, r);
    }
  }

  lemma SliceGrows(level: Level, a: nat, b: nat, r: seq<File>)
    requires a < b < |level| && b - a < |r| && r[..b - a] == level[a..b] && r[b - a] == level[b]
    ensures r[..b + 1 - a] == level[a..b + 1]
  {
    assert r[..b + 1 - a] == r[..b - a] + [r[b - a]];
  }

  lemma OverlapsBetween(level: Level, i: nat, j: nat, k: nat, lo: Bound, hi: Bound)
    requires (forall f :: f in level ==> ValidFile(f)) && DisjointSorted(level)
    requires i < j < k < |level|
    requires Overlaps(level[i], lo, hi) && Overlaps(level[k], lo, hi)
    ensures Overlaps(level[j], lo, hi)
  {
    LargestIncreases(level, i, j);
    assert ValidFile(level[j]) && ValidFile(level[k]);
    RangeOrdered(level[j]);
    assert Before(level[j].largest, level[k].smallest);
  }

  lemma OverlappingStep(level: Level, lo: Bound, hi: Bound, k: nat)
    requires k <= |level|
    ensures Overlapping(level[..k], lo, hi) ==
            if k == 0 then []
            else Overlapping(level[..k - 1], lo, hi) + if Overlaps(level[k - 1], lo, hi) then [level[k - 1]] else []
  {
    hide Overlaps;
    if k > 0 {
      assert level[..k][..k - 1] == level[..k - 1];
    }
  }

  lemma {:induction false} OverlappingOfPrefix(level: Level, lo: Bound, hi: Bound, a: nat, b: nat, k: nat)
    requires a <= b <= |level| && k <= |level|
    requires forall i :: 0 <= i < |level| ==> (Overlaps(level[i], lo, hi) <==> a <= i < b)
    ensures Overlapping(level[..k], lo, hi) == if k <= a then [] else if k <= b then level[a..k] else level[a..b]
  {
    hide Overlaps, Overlapping;
    OverlappingStep(level, lo, hi, k);
    if k > 0 {
      OverlappingOfPrefix(level, lo, hi, a, b, k - 1);
      if a < k <= b {
        assert level[a..k] == level[a..k - 1] + [level[k - 1]];
      }
    }
  }

  /** In a sorted level the files overlapping a range are neighbours. */
  lemma OverlappingIsSlice(level: Level, lo: Bound, hi: Bound) returns (a: nat, b: nat)
    requires (forall f :: f in level ==> ValidFile(f)) && DisjointSorted(level)
    requires Overlapping(level, lo, hi) != []
    ensures a < b <= |level| && Overlapping(level, lo, hi) == level[a..b]
  {
    a := 0;
    while a < |level| && !Overlaps(level[a], lo, hi)
      invariant a <= |level| && forall i :: 0 <= i < a ==> !Overlaps(level[i], lo, hi)
    {
      a := a + 1;
    }
    b := a;
    while b < |level| && Overlaps(level[b], lo, hi)
      invariant a <= b <= |level| && forall i :: a <= i < b ==> Overlaps(level[i], lo, hi)
    {
      b := b + 1;
    }
    forall i | b < i < |level|
      ensures !Overlaps(level[i], lo, hi)
    {
      if Overlaps(level[i], lo, hi) {
        OverlapsBetween(level, a, b, i, lo, hi);
      }
    }
    OverlappingOfPrefix(level, lo, hi, a, b, |level|);
    assert level[..|level|] == level;
  }

  lemma {:induction false} LargestIsUpperBound(files: seq<File>, f: File) returns (top: File)
    requires f in files
    ensures !Before(LargestKey(files), f.largest)
    ensures top in files && LargestKey(files) == top.largest
  {
    var last := files[|files| - 1];
    top := last;
    if |files| > 1 {
      var init := files[..|files| - 1];
      var t := LargestIsUpperBound(init, if f in init then f else files[0]);
      top := if Before(t.largest, last.largest) then last else t;
    }
  }

  /** At level 0 a set closed under user-key overlap has no boundary file outside it. */
  lemma ClosedSetHasNoBoundary(level: Level, lo: Bound, hi: Bound)
    requires forall f :: f in level ==> ValidFile(f)
    requires Closed(level, lo, hi)
    ensures NoBoundary(level, Overlapping(level, lo, hi))
  {
    var chosen := Overlapping(level, lo, hi);
    OverlappingMembers(level, lo, hi);
    if chosen != [] {
      var top := LargestIsUpperBound(chosen, chosen[0]);
      forall f | f in level
        ensures !IsBoundary(f, top.largest)
      {
        RangeOrdered(f);
        RangeOrdered(top);
        if f in chosen {
          var _ := LargestIsUpperBound(chosen, f);
        }
      }
    }
  }

  // ---------- the inputs of a compaction ----------

  /** The files of `level` (`in0`) and `level + 1` (`in1`) to merge, and the range they cover. */
  datatype Inputs = Inputs(level: nat, in0: seq<File>, in1: seq<File>, grandparents: seq<File>, compactPointer: IKey)

  /** What the initial choice of files looks like before boundary files are added. */
  ghost predicate Picked(v: Version, level: nat, chosen: seq<File>)
    requires level < |v.levels|
  {
    && chosen != []
    && if level == 0 then exists lo, hi :: ClosedUnder(v.levels[0], chosen, lo, hi)
       else exists a, b :: IsSlice(v.levels[level], chosen, a, b)
  }

  ghost predicate IsSlice(level: Level, chosen: seq<File>, a: nat, b: nat) {
    a < b <= |level| && chosen == level[a..b]
  }

  ghost predicate ClosedUnder(level: Level, chosen: seq<File>, lo: Bound, hi: Bound) {
    Closed(level, lo, hi) && chosen == Overlapping(level, lo, hi)
  }

  /** What the upper-level inputs look like once boundary files have been added. */
  ghost predicate Selected0(v: Version, level: nat, chosen: seq<File>)
    requires level < |v.levels|
  {
    && chosen != []
    && if level == 0 then exists lo, hi :: ClosedUnder(v.levels[0], chosen, lo, hi)
       else exists a, b :: ClosedSlice(v.levels[level], chosen, a, b)
  }

  /** What `SetupOtherInputs` guarantees of its choice. The lower-level inputs are picked by
      user-key overlap alone, without boundary files. */
  ghost predicate Selected(v: Version, c: Inputs) {
    && |v.levels| == NUM_LEVELS && c.level + 1 < NUM_LEVELS
    && Selected0(v, c.level, c.in0)
    && IsLowerInput(v, c.level, c.in0, c.in1)
  }

  ghost function SmallestKey(files: seq<File>): IKey
    requires files != []
  {
    var f := files[|files| - 1];
    if |files| == 1 then f.smallest
    else
      var m := SmallestKey(files[..|files| - 1]);
      if Before(f.smallest, m) then f.smallest else m
  }

  lemma {:induction false} SmallestIsLowerBound(files: seq<File>, f: File)
    requires f in files
    ensures !Before(f.smallest, SmallestKey(files))
  {
    if |files| > 1 {
      var init := files[..|files| - 1];
      SmallestIsLowerBound(init, if f in init then f else files[0]);
    }
  }

  method GetRange(files: seq<File>) returns (smallest: IKey, largest: IKey)
    requires files != []
    ensures smallest == SmallestKey(files) && largest == LargestKey(files)
  {
    smallest, largest := files[0].smallest, files[0].largest;
    assert files[..1] == [files[0]];
    for i := 1 to |files|
      invariant smallest == SmallestKey(files[..i]) && largest == LargestKey(files[..i])
    {
      assert files[..i + 1][..i] == files[..i];
      if Before(files[i].smallest, smallest) {
        smallest := files[i].smallest;
      }
      if Before(largest, files[i].largest) {
        largest := files[i].largest;
      }
    }
    assert files[..|files|] == files;
  }

  lemma BoundariesComplete(v: Version, level: nat, chosen: seq<File>, r: seq<File>)
    requires Valid(v) && level < NUM_LEVELS && Picked(v, level, chosen)
    requires |chosen| <= |r| && r[..|chosen|] == chosen
    requires forall i :: |chosen| <= i < |r| ==> NextBoundary(v.levels[level], r[..i], r[i])
    requires NoBoundary(v.levels[level], r)
    ensures Selected0(v, level, r)
  {
    if level == 0 {
      var lo, hi :| ClosedUnder(v.levels[0], chosen, lo, hi);
      ClosedSetHasNoBoundary(v.levels[0], lo, hi);
      assert r[..|chosen|] == chosen && forall f :: !NextBoundary(v.levels[0], chosen, f);
      if |chosen| < |r| {
        assert false;
      }
      assert r == chosen;
    } else {
      var a, b :| IsSlice(v.levels[level], chosen, a, b);
      var e := ChainIsSlice(v.levels[level], a, b, r);
    }
  }

  const EXPANSION_FACTOR := 25

  /** `GetOverlappingInputs` for a level above 0, where no range grows. */
  method OverlappingBelow(v: Version, level: nat, begin: IKey, end: IKey) returns (inputs: seq<File>)
    requires 0 < level < |v.levels|
    ensures inputs == Overlapping(v.levels[level], Some(begin.user), Some(end.user))
  {
    var r, _, _ := GetOverlappingInputs(v, level, Some(begin.user), Some(end.user));
    inputs := r;
  }

  /** The upper inputs regrown to everything in a range, with their boundary files. */
  method ExpandedInputs(v: Version, level: nat, allStart: IKey, allLimit: IKey) returns (expanded: seq<File>)
    requires Valid(v) && level < NUM_LEVELS
    ensures expanded != [] ==> Selected0(v, level, expanded)
    ensures forall f :: f in v.levels[level] && Overlaps(f, Some(allStart.user), Some(allLimit.user)) ==> f in expanded
  {
    ghost var lo, hi;
    expanded, lo, hi := GetOverlappingInputs(v, level, Some(allStart.user), Some(allLimit.user));
    ghost var unextended := expanded;
    OverlappingMembers(v.levels[level], lo, hi);
    expanded := AddBoundaryInputs(v.levels[level], expanded);
    KeepsChosen(unextended, expanded);
    if expanded != [] {
      ExpandedIsPicked(v, level, unextended, expanded, lo, hi);
      BoundariesComplete(v, level, unextended, expanded);
    }
  }

  ghost predicate IsLowerInput(v: Version, level: nat, in0: seq<File>, in1: seq<File>)
    requires level + 1 < |v.levels|
  {
    in0 != [] && in1 == Overlapping(v.levels[level + 1], Some(SmallestKey(in0).user), Some(LargestKey(in0).user))
  }

  /** A file overlaps the range of any files it is among. */
  lemma InRangeOfAll(files: seq<File>, f: File)
    requires f in files && ValidFile(f)
    ensures Overlaps(f, Some(SmallestKey(files).user), Some(LargestKey(files).user))
  {
    SmallestIsLowerBound(files, f);
    var _ := LargestIsUpperBound(files, f);
    RangeOrdered(f);
  }

  lemma SelectedAreValid(v: Version, level: nat, in0: seq<File>)
    requires Valid(v) && level < NUM_LEVELS && Selected0(v, level, in0)
    ensures forall f :: f in in0 ==> f in v.levels[level] && ValidFile(f)
  {
    if level == 0 {
      var lo, hi :| ClosedUnder(v.levels[0], in0, lo, hi);
      OverlappingMembers(v.levels[0], lo, hi);
    }
  }

  /** Grows the upper inputs when the whole stays small and no further lower file is needed. */
  method GrowInputs(v: Version, level: nat, in0: seq<File>, in1: seq<File>, allStart: IKey, allLimit: IKey, maxFileSize: nat)
    returns (grown0: seq<File>, grown1: seq<File>)
    requires Valid(v) && level + 1 < NUM_LEVELS
    requires Selected0(v, level, in0) && IsLowerInput(v, level, in0, in1)
    requires allStart == SmallestKey(in0 + in1) && allLimit == LargestKey(in0 + in1)
    ensures Selected0(v, level, grown0) && IsLowerInput(v, level, grown0, grown1)
    ensures |grown1| == |in1| && |grown0| >= |in0| && forall f :: f in in0 ==> f in grown0
    ensures grown0 != in0 ==> TotalFileSize(in1) + TotalFileSize(grown0) < EXPANSION_FACTOR * maxFileSize
  {
    SelectedAreValid(v, level, in0);
    forall f | f in in0
      ensures Overlaps(f, Some(allStart.user), Some(allLimit.user))
    {
      InRangeOfAll(in0 + in1, f);
    }
    grown0, grown1 := in0, in1;
    var expanded0 := ExpandedInputs(v, level, allStart, allLimit);
    if |expanded0| > |in0| && TotalFileSize(in1) + TotalFileSize(expanded0) < EXPANSION_FACTOR * maxFileSize {
      var newStart, newLimit := GetRange(expanded0);
      var expanded1 := OverlappingBelow(v, level + 1, newStart, newLimit);
      if |expanded1| == |in1| {
        grown0, grown1 := expanded0, expanded1;
      }
    }
  }

  lemma AllFilesAreValid(v: Version)
    requires Valid(v)
    ensures |v.levels| == NUM_LEVELS && forall lvl, f :: 0 <= lvl < NUM_LEVELS && f in v.levels[lvl] ==> ValidFile(f)
  {
  }

  lemma KeepsChosen(chosen: seq<File>, r: seq<File>)
    requires |chosen| <= |r| && r[..|chosen|] == chosen
    ensures forall f :: f in chosen ==> f in r
  {
    assert r == chosen + r[|chosen|..];
  }

  /** Adds boundary files, takes the overlapping files of the next level, and grows the upper
      inputs when that needs no further lower file. */
  method SetupOtherInputs(v: Version, level: nat, chosen: seq<File>, maxFileSize: nat) returns (c: Inputs)
    requires Valid(v) && level + 1 < NUM_LEVELS && Picked(v, level, chosen)
    ensures Selected(v, c) && c.level == level && forall f :: f in chosen ==> f in c.in0
  {
    hide Valid, Picked, Selected0, ValidFile;
    AllFilesAreValid(v);
    var in0 := AddBoundaryInputs(v.levels[level], chosen);
    KeepsChosen(chosen, in0);
    BoundariesComplete(v, level, chosen, in0);
    var smallest, largest := GetRange(in0);
    var in1 := OverlappingBelow(v, level + 1, smallest, largest);
    if in1 != [] {
      var allStart, allLimit := GetRange(in0 + in1);
      in0, in1 := GrowInputs(v, level, in0, in1, allStart, allLimit, maxFileSize);
      smallest, largest := GetRange(in0);
    }
    var grandparents := Grandparents(v, level, in0, in1);
    c := Inputs(level, in0, in1, grandparents, largest);
  }

  /** The files two levels down that overlap the whole range of the compaction. */
  method Grandparents(v: Version, level: nat, in0: seq<File>, in1: seq<File>) returns (r: seq<File>)
    requires |v.levels| == NUM_LEVELS && in0 != []
    ensures level + 2 < NUM_LEVELS ==>
              r == Overlapping(v.levels[level + 2], Some(SmallestKey(in0 + in1).user), Some(LargestKey(in0 + in1).user))
  {
    r := [];
    if level + 2 < NUM_LEVELS {
      var allStart, allLimit := GetRange(in0 + in1);
      r := OverlappingBelow(v, level + 2, allStart, allLimit);
    }
  }

  lemma ExpandedIsPicked(v: Version, level: nat, chosen: seq<File>, r: seq<File>, lo: Bound, hi: Bound)
    requires Valid(v) && level < NUM_LEVELS
    requires chosen == Overlapping(v.levels[level], lo, hi)
    requires level == 0 ==> Closed(v.levels[0], lo, hi)
    requires |chosen| <= |r| && r[..|chosen|] == chosen && r != []
    requires forall i :: |chosen| <= i < |r| ==> NextBoundary(v.levels[level], r[..i], r[i])
    ensures Picked(v, level, chosen)
  {
    assert chosen == [] ==> NextBoundary(v.levels[level], r[..0], r[0]);
    if level == 0 {
      assert ClosedUnder(v.levels[0], chosen, lo, hi);
    } else {
      var a, b := OverlappingIsSlice(v.levels[level], lo, hi);
      assert IsSlice(v.levels[level], chosen, a, b);
    }
  }

  /** `VersionSet::PickCompaction`, for the level and file it settles on. */
  method PickCompaction(v: Version, level: nat, picked: nat, maxFileSize: nat) returns (c: Inputs)
    requires Valid(v) && level + 1 < NUM_LEVELS && picked < |v.levels[level]|
    ensures Selected(v, c) && c.level == level && v.levels[level][picked] in c.in0
  {
    var f := v.levels[level][picked];
    var chosen := [f];
    if level == 0 {
      var smallest, largest := GetRange(chosen);
      ghost var lo, hi;
      chosen, lo, hi := GetOverlappingInputs(v, 0, Some(smallest.user), Some(largest.user));
      assert ValidFile(f);
      RangeOrdered(f);
      OverlappingMembers(v.levels[0], lo, hi);
      assert f in chosen && ClosedUnder(v.levels[0], chosen, lo, hi);
    } else {
      assert IsSlice(v.levels[level], chosen, picked, picked + 1);
    }
    c := SetupOtherInputs(v, level, chosen, maxFileSize);
  }

  /** Growing the range to a closed one never turns an empty choice into a non-empty one. */
  lemma LeastClosedRangeIsEmptyToo(files: Level, begin: Bound, end: Bound, lo: Bound, hi: Bound)
    requires SubRange(begin, end, lo, hi)
    requires Least(files, begin, end, lo, hi)
    ensures Overlapping(files, lo, hi) == [] <==> forall f :: f in files ==> !Overlaps(f, begin, end)
  {
    var r := Overlapping(files, lo, hi);
    OverlappingMembers(files, lo, hi);
    if r == [] {
      forall f | f in files
        ensures !Overlaps(f, begin, end)
      {
        assert f !in r;
      }
    } else {
      assert r[0] in r;
      assert SubRange(begin, end, begin, end);
    }
  }

  /** At level 0 all files in the range are taken; deeper, the leading ones until the limit is reached. */
  ghost predicate TakesRange(files: Level, level: nat, begin: Bound, end: Bound, limit: nat, inputs: seq<File>) {
    if level == 0 then forall f :: f in files && Overlaps(f, begin, end) ==> f in inputs
    else
      var range := Overlapping(files, begin, end);
      forall k :: 0 <= k < |range| && (k == 0 || TotalFileSize(range[..k]) < limit) ==> range[k] in inputs
  }

  lemma {:induction false} TotalGrows(files: seq<File>, k: nat)
    requires k <= |files|
    ensures TotalFileSize(files[..k]) <= TotalFileSize(files)
    decreases |files|
  {
    if k < |files| {
      TotalGrows(files[..|files| - 1], k);
      assert files[..|files| - 1][..k] == files[..k];
    } else {
      assert files[..k] == files;
    }
  }

  lemma TotalInOrder(files: seq<File>, j: nat, k: nat)
    requires j <= k <= |files|
    ensures TotalFileSize(files[..j]) <= TotalFileSize(files[..k])
  {
    TotalGrows(files[..k], j);
    assert files[..k][..j] == files[..j];
  }

  lemma CutTakesRange(range: seq<File>, limit: nat, r: seq<File>, k: nat)
    requires 0 < |r| <= |range| && r == range[..|r|] && (|r| < |range| ==> TotalFileSize(r) >= limit)
    requires k < |range| && (k == 0 || TotalFileSize(range[..k]) < limit)
    ensures range[k] in r
  {
    if |r| <= k {
      TotalInOrder(range, |r|, k);
    } else {
      assert r[k] == range[k];
    }
  }

  /** The files `CompactRange` starts from. */
  method RangeInputs(v: Version, level: nat, begin: Bound, end: Bound, maxFileSize: nat) returns (inputs: seq<File>)
    requires Valid(v) && level < NUM_LEVELS
    ensures inputs == [] <==> forall f :: f in v.levels[level] ==> !Overlaps(f, begin, end)
    ensures inputs != [] ==> Picked(v, level, inputs)
    ensures TakesRange(v.levels[level], level, begin, end, maxFileSize, inputs)
  {
    ghost var lo, hi;
    inputs, lo, hi := GetOverlappingInputs(v, level, begin, end);
    OverlappingMembers(v.levels[level], lo, hi);
    LeastClosedRangeIsEmptyToo(v.levels[level], begin, end, lo, hi);
    if level > 0 && inputs != [] {
      ghost var a, b := OverlappingIsSlice(v.levels[level], lo, hi);
      ghost var range := inputs;
      inputs := CutShort(v.levels[level], inputs, maxFileSize, a, b);
      forall k | 0 <= k < |range| && (k == 0 || TotalFileSize(range[..k]) < maxFileSize)
        ensures range[k] in inputs
      {
        CutTakesRange(range, maxFileSize, inputs, k);
      }
    } else if inputs != [] {
      assert ClosedUnder(v.levels[0], inputs, lo, hi);
    }
  }

  /** `VersionSet::CompactRange`: the files of a range, cut short above level 0. */
  method CompactRange(v: Version, level: nat, begin: Bound, end: Bound, maxFileSize: nat) returns (c: Option<Inputs>)
    requires Valid(v) && level + 1 < NUM_LEVELS
    ensures c.Some? ==> Selected(v, c.value) && c.value.level == level
    ensures c.None? <==> forall f :: f in v.levels[level] ==> !Overlaps(f, begin, end)
    ensures c.Some? ==> TakesRange(v.levels[level], level, begin, end, maxFileSize, c.value.in0)
  {
    var inputs := RangeInputs(v, level, begin, end, maxFileSize);
    if inputs == [] {
      return None;
    }
    var r := SetupOtherInputs(v, level, inputs, maxFileSize);
    c := Some(r);
  }

  /** Keeps the leading inputs up to the one that reaches the size limit. */
  method CutShort(level: Level, inputs: seq<File>, limit: nat, ghost a: nat, ghost b: nat) returns (r: seq<File>)
    requires IsSlice(level, inputs, a, b)
    ensures 0 < |r| <= |inputs| && r == inputs[..|r|] && IsSlice(level, r, a, a + |r|)
    ensures forall k :: 0 < k < |r| ==> TotalFileSize(inputs[..k]) < limit
    ensures |r| < |inputs| ==> TotalFileSize(r) >= limit
  {
    var total := 0;
    r := inputs;
    for i := 0 to |inputs|
      invariant total == TotalFileSize(inputs[..i])
      invariant forall k :: 0 < k <= i ==> TotalFileSize(inputs[..k]) < limit
    {
      total := total + inputs[i].size;
      assert inputs[..i + 1][..i] == inputs[..i];
      if total >= limit {
        r := inputs[..i + 1];
        break;
      }
    }
  }
}
