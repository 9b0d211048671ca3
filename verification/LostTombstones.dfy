/** Exactly when a compaction loses a deletion. `SetupOtherInputs` closes the upper inputs under
    boundary files, but not the lower ones (db/version_set.cc): so the file right after those may go on
    with a user key whose deletion is among the inputs. */
module LostTombstones {
  import opened History
  import opened Version
  import opened Picking
  import opened Compaction
  import opened CompactionSafety

  /** `files` are neighbours in a level, and file `b` is the next one. */
  ghost predicate NextFile(level: Level, files: seq<File>, b: nat) {
    b < |level| && exists a: nat :: a < b && files == level[a..b]
  }

  /** File `b` of the lower level, right after the inputs, begins with a value of the user key whose
      droppable deletion is what readers at `s` see, and that deletion is among the lower inputs. */
  ghost predicate SplitAt(v: Version, c: Inputs, snapshot: nat, e: Entry, u: UserKey, s: nat, b: nat)
    requires |v.levels| == NUM_LEVELS && c.level + 1 < NUM_LEVELS
  {
    && NextFile(v.levels[c.level + 1], c.in1, b)
    && v.levels[c.level + 1][b].smallest.user == u && v.levels[c.level + 1][b].smallest.kind.Value?
    && e in LevelEntries(c.in1)
    && Newest(e, Contents(v), u, s) && Obsolete(v, c.level, e, snapshot)
  }

  ghost predicate Split(v: Version, c: Inputs, snapshot: nat, e: Entry, u: UserKey, s: nat)
    requires |v.levels| == NUM_LEVELS && c.level + 1 < NUM_LEVELS
  {
    exists b: nat :: SplitAt(v, c, snapshot, e, u, s, b)
  }

  /** An older entry of the user key that stays behind lies past the end of the lower inputs. */
  lemma OlderIsPastEnd(v: Version, c: Inputs, a: nat, b: nat, x: Entry, e: Entry) returns (k: nat)
    requires Valid(v) && Selected(v, c) && BaseLevel(v, c.level, e.key.user)
    requires a < b <= |v.levels[c.level + 1]| && c.in1 == v.levels[c.level + 1][a..b]
    requires x in RestEntries(v, c) && e in LevelEntries(c.in1) && x.key.user == e.key.user && x.key.sequence <= e.key.sequence
    ensures b <= k < |v.levels[c.level + 1]| && x in v.levels[c.level + 1][k].entries
  {
    hide Valid, Selected;
    LevelsInOrder(v);
    LevelBelow(v, c);
    InputsFromLevels(v, c);
    var level := v.levels[c.level + 1];
    var lvl: nat, g :| lvl < NUM_LEVELS && g in v.levels[lvl] && !IsInput(c, lvl, g) && x in g.entries;
    var f :| f in c.in1 && e in f.entries;
    FileRange(g, x);
    if lvl <= c.level {
      ShallowerIsNewer(v, lvl, c.level + 1, g, f, x, e);
    }
    assert lvl == c.level + 1;
    k :| k < |level| && level[k] == g;
    if k < b {
      if a <= k {
        InSlice(level, a, b, k);
      } else {
        EarlierInLevel(v, c.level + 1, k, a, b, f, x, e);
      }
    }
  }

  lemma InSlice(level: Level, a: nat, b: nat, k: nat)
    requires a <= k < b <= |level|
    ensures level[k] in level[a..b]
  {
    assert level[k] == level[a..b][k - a];
  }

  lemma EarlierInLevel(v: Version, lvl: nat, k: nat, a: nat, b: nat, f: File, x: Entry, e: Entry)
    requires Valid(v) && 1 <= lvl < NUM_LEVELS && k < a < b <= |v.levels[lvl]|
    requires f in v.levels[lvl][a..b] && e in f.entries && x in v.levels[lvl][k].entries && x.key.user == e.key.user
    ensures x.key.sequence > e.key.sequence
  {
    hide Valid, ValidFile;
    LevelsInOrder(v);
    var level := v.levels[lvl];
    LevelIsValid(v, lvl);
    LevelIsDistinct(v, lvl);
    var j :| 0 <= j < b - a && level[a..b][j] == f;
    FilesInOrder(level, k, a + j, x, e);
    assert x in LevelEntries(level) && e in LevelEntries(level);
  }

  /** What the file right after the lower inputs begins with is older than an input entry of its user
      key, and newer than whatever else of it lies past the inputs. */
  lemma NextBegins(v: Version, c: Inputs, a: nat, b: nat, k: nat, x: Entry, e: Entry) returns (z: Entry)
    requires Valid(v) && Selected(v, c)
    requires a < b <= k < |v.levels[c.level + 1]| && c.in1 == v.levels[c.level + 1][a..b]
    requires e in LevelEntries(c.in1) && x in v.levels[c.level + 1][k].entries && x.key.user == e.key.user
    ensures z.key == v.levels[c.level + 1][b].smallest && z.key.user == e.key.user
    ensures x.key.sequence <= z.key.sequence <= e.key.sequence
    ensures z in RestEntries(v, c)
  {
    hide Valid, Selected, ValidFile;
    LevelsInOrder(v);
    LevelBelow(v, c);
    var level := v.levels[c.level + 1];
    LevelIsValid(v, c.level + 1);
    var f :| f in c.in1 && e in f.entries;
    var j :| 0 <= j < b - a && level[a..b][j] == f;
    z := FirstEntry(level, b);
    FilesInOrder(level, a + j, b, e, z);
    if b < k {
      FilesInOrder(level, b, k, z, x);
    } else {
      FirstIsLeast(level[b], z, x);
    }
    NextIsNoInput(level, a, b);
    assert !IsInput(c, c.level + 1, level[b]);
  }

  lemma FirstEntry(level: Level, b: nat) returns (z: Entry)
    requires ValidLevel(level) && b < |level|
    ensures z in level[b].entries && z.key == level[b].smallest && ValidFile(level[b]) && z == level[b].entries[0]
  {
    assert ValidFile(level[b]);
    z := level[b].entries[0];
  }

  lemma FirstIsLeast(f: File, z: Entry, x: Entry)
    requires ValidFile(f) && x in f.entries && z == f.entries[0] && z.key.user >= x.key.user
    ensures z.key.user == x.key.user && x.key.sequence <= z.key.sequence
  {
    var i :| 0 <= i < |f.entries| && f.entries[i] == x;
    assert i == 0 || Before(z.key, x.key);
  }

  lemma NextIsNoInput(level: Level, a: nat, b: nat)
    requires ValidLevel(level) && a < b < |level|
    ensures level[b] !in level[a..b]
  {
    forall k | a <= k < b
      ensures level[k] != level[b]
    {
      RangeOrdered(level[b]);
      assert Before(level[k].largest, level[b].smallest);
    }
  }

  /** The lower inputs are neighbours. */
  lemma LowerInputsAreSlice(v: Version, c: Inputs) returns (a: nat, b: nat)
    requires Valid(v) && Selected(v, c) && c.in1 != []
    ensures a < b <= |v.levels[c.level + 1]| && c.in1 == v.levels[c.level + 1][a..b]
  {
    LevelIsValid(v, c.level + 1);
    a, b := OverlappingIsSlice(v.levels[c.level + 1], Some(SmallestKey(c.in0).user), Some(LargestKey(c.in0).user));
  }

  lemma RestIsContents(v: Version, c: Inputs)
    requires Valid(v)
    ensures RestEntries(v, c) <= Contents(v) && Distinct(Contents(v)) && Distinct(RestEntries(v, c))
  {
    hide ValidFile, LevelNewer, DisjointSorted, NumberedByAge, DistinctNumbers, SortedBySmallest, DisjointNumbers;
    forall x | x in RestEntries(v, c)
      ensures x in Contents(v)
    {
      var lvl, g :| 0 <= lvl < |v.levels| && g in v.levels[lvl] && !IsInput(c, lvl, g) && x in g.entries;
      assert v.levels[lvl] in v.levels;
    }
  }

  /** What is lost is a deletion among the lower inputs. */
  lemma LostFromLowerInputs(v: Version, c: Inputs, x: Entry, e: Entry)
    requires Valid(v) && Selected(v, c) && BaseLevel(v, c.level, e.key.user)
    requires x in RestEntries(v, c) && e in InputEntries(c) && x.key.user == e.key.user && x.key.sequence <= e.key.sequence
    ensures e in LevelEntries(c.in1)
  {
    hide Valid, Selected;
    LevelsInOrder(v);
    LevelBelow(v, c);
    InputsFromLevels(v, c);
    if e in LevelEntries(c.in0) {
      var lvl: nat, g :| lvl < NUM_LEVELS && g in v.levels[lvl] && !IsInput(c, lvl, g) && x in g.entries;
      var f :| f in c.in0 && e in f.entries;
      FileRange(g, x);
      if lvl <= c.level + 1 {
        RestVersusUpper(v, c, lvl, g, f, x, e);
      }
    }
  }

  lemma LossIsSplit(v: Version, c: Inputs, snapshot: nat, e: Entry, u: UserKey, s: nat)
    requires Valid(v) && Selected(v, c) && LosesTombstone(v, c, snapshot, e, u, s)
    ensures Split(v, c, snapshot, e, u, s)
  {
    hide Valid, Selected, ValidFile, RestEntries, InputEntries, LevelEntries, Contents, BaseLevel, Distinct;
    LevelsInOrder(v);
    LevelBelow(v, c);
    RestIsContents(v, c);
    NewestExistsIfFound(RestEntries(v, c), u, s);
    var x :| Newest(x, RestEntries(v, c), u, s);
    ReadOfNewest(RestEntries(v, c), u, s, x);
    LostFromLowerInputs(v, c, x, e);
    SomeLowerInput(c, e);
    var a, b := LowerInputsAreSlice(v, c);
    var k := OlderIsPastEnd(v, c, a, b, x, e);
    var z := NextBegins(v, c, a, b, k, x, e);
    SameSequenceSameEntry(RestEntries(v, c), z, x, u, s);
    assert SplitAt(v, c, snapshot, e, u, s, b);
  }

  lemma SomeLowerInput(c: Inputs, e: Entry)
    requires e in LevelEntries(c.in1)
    ensures c.in1 != []
  {
  }

  lemma NewestExistsIfFound(S: set<Entry>, u: UserKey, s: nat)
    requires Read(S, u, s).Found?
    ensures exists x :: Newest(x, S, u, s)
  {
  }

  lemma SameSequenceSameEntry(S: set<Entry>, z: Entry, x: Entry, u: UserKey, s: nat)
    requires Distinct(S) && Newest(x, S, u, s) && z in S && z.key.user == u && x.key.sequence <= z.key.sequence <= s
    ensures z == x
  {
    assert Visible(z, u, s);
  }

  lemma SplitIsLoss(v: Version, c: Inputs, snapshot: nat, e: Entry, u: UserKey, s: nat)
    requires Valid(v) && Selected(v, c) && c.level + 1 < |v.levels| == NUM_LEVELS && Split(v, c, snapshot, e, u, s)
    ensures LosesTombstone(v, c, snapshot, e, u, s)
  {
    hide Valid, Selected, ValidFile, RestEntries, Contents, Distinct, ValidLevel, LevelEntries, BaseLevel;
    RestIsContents(v, c);
    var b: nat :| SplitAt(v, c, snapshot, e, u, s, b);
    var a: nat :| a < b && c.in1 == v.levels[c.level + 1][a..b];
    LevelIsValid(v, c.level + 1);
    var first := FirstEntry(v.levels[c.level + 1], b);
    var z := NextBegins(v, c, a, b, b, first, e);
    forall x | x in RestEntries(v, c) && Visible(x, u, s)
      ensures x.key.sequence <= z.key.sequence
    {
      var k := OlderIsPastEnd(v, c, a, b, x, e);
      var y := NextBegins(v, c, a, b, k, x, e);
      SameKeySameSequence(y, z);
    }
    assert Newest(z, RestEntries(v, c), u, s);
    ReadOfNewest(RestEntries(v, c), u, s, z);
  }

  lemma SameKeySameSequence(y: Entry, z: Entry)
    requires y.key == z.key
    ensures y.key.sequence == z.key.sequence
  {
  }

  /** A deletion is lost to a reader exactly when its user key is split at the end of the lower inputs. */
  lemma LossIffSplit(v: Version, c: Inputs, snapshot: nat, e: Entry, u: UserKey, s: nat)
    requires Valid(v) && Selected(v, c)
    ensures |v.levels| == NUM_LEVELS && c.level + 1 < NUM_LEVELS
    ensures LosesTombstone(v, c, snapshot, e, u, s) <==> Split(v, c, snapshot, e, u, s)
  {
    hide Valid, Selected, LosesTombstone, Split;
    LevelsInOrder(v);
    LevelBelow(v, c);
    if LosesTombstone(v, c, snapshot, e, u, s) {
      LossIsSplit(v, c, snapshot, e, u, s);
    }
    if Split(v, c, snapshot, e, u, s) {
      SplitIsLoss(v, c, snapshot, e, u, s);
    }
  }

  /** What any later reader loses, the oldest one loses. */
  lemma SplitForOldest(v: Version, c: Inputs, snapshot: nat, e: Entry, u: UserKey, s: nat)
    requires |v.levels| == NUM_LEVELS && c.level + 1 < NUM_LEVELS && snapshot <= s && Split(v, c, snapshot, e, u, s)
    ensures Split(v, c, snapshot, e, u, snapshot)
  {
    hide NextFile, BaseLevel, LevelEntries, Contents;
    var b: nat :| SplitAt(v, c, snapshot, e, u, s, b);
    forall x | x in Contents(v) && Visible(x, u, snapshot)
      ensures x.key.sequence <= e.key.sequence
    {
      assert Visible(x, u, s);
    }
    assert SplitAt(v, c, snapshot, e, u, snapshot, b);
  }

  /** A user key is split from a deletion that readers at the smallest snapshot see. */
  ghost predicate SplitsSomeKey(v: Version, c: Inputs, snapshot: nat)
    requires |v.levels| == NUM_LEVELS && c.level + 1 < NUM_LEVELS
  {
    exists e, u :: Split(v, c, snapshot, e, u, snapshot)
  }

  ghost predicate KeepsAllReads(v: Version, c: Inputs, input: seq<Entry>, snapshot: nat)
    requires |v.levels| == NUM_LEVELS
  {
    forall u, s :: snapshot <= s ==> Read(EntriesAfter(v, c, input, snapshot), u, s) == Read(Contents(v), u, s)
  }

  /** The compaction theorem without a condition on the inputs: every read at every live snapshot is the
      same before and after, exactly when no user key is split at the end of the lower inputs between a
      deletion and an older value. */
  lemma CompactionKeepsReadsIff(v: Version, c: Inputs, input: seq<Entry>, snapshot: nat)
    requires Valid(v) && Selected(v, c) && IsMergedInput(c, input)
    ensures |v.levels| == NUM_LEVELS && c.level + 1 < NUM_LEVELS
    ensures KeepsAllReads(v, c, input, snapshot) <==> !SplitsSomeKey(v, c, snapshot)
  {
    hide Valid, Selected, LosesTombstone, Split, EntriesAfter, Contents, IsMergedInput;
    LevelsInOrder(v);
    LevelBelow(v, c);
    if SplitsSomeKey(v, c, snapshot) {
      var e, u :| Split(v, c, snapshot, e, u, snapshot);
      LossIffSplit(v, c, snapshot, e, u, snapshot);
      ReadChangesIffTombstoneLost(v, c, input, snapshot, u, snapshot);
    } else {
      forall u, s | snapshot <= s
        ensures Read(EntriesAfter(v, c, input, snapshot), u, s) == Read(Contents(v), u, s)
      {
        ReadChangesIffTombstoneLost(v, c, input, snapshot, u, s);
        if e :| LosesTombstone(v, c, snapshot, e, u, s) {
          LossIffSplit(v, c, snapshot, e, u, s);
          SplitForOldest(v, c, snapshot, e, u, s);
        }
      }
    }
  }
}
