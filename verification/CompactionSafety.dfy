/** What a compaction does to readers and to the version invariants. */
module CompactionSafety {
  import opened History
  import opened Version
  import opened Picking
  import opened Compaction
  import Manifest

  ghost function SeqSet(s: seq<Entry>): set<Entry> {
    set e | e in s
  }

  ghost predicate IsInput(c: Inputs, lvl: int, f: File) {
    (lvl == c.level && f in c.in0) || (lvl == c.level + 1 && f in c.in1)
  }

  ghost function InputEntries(c: Inputs): set<Entry> {
    LevelEntries(c.in0) + LevelEntries(c.in1)
  }

  /** The entries of the files a compaction leaves alone. */
  ghost function RestEntries(v: Version, c: Inputs): set<Entry> {
    set lvl, f, e | 0 <= lvl < |v.levels| && f in v.levels[lvl] && !IsInput(c, lvl, f) && e in f.entries :: e
  }

  /** The sorted merge of the input files. */
  ghost predicate IsMergedInput(c: Inputs, input: seq<Entry>) {
    Sorted(input) && SeqSet(input) == InputEntries(c)
  }

  /** What a reader finds once the outputs have replaced the inputs. */
  ghost function EntriesAfter(v: Version, c: Inputs, input: seq<Entry>, snapshot: nat): set<Entry>
    requires |v.levels| == NUM_LEVELS
  {
    RestEntries(v, c) + SeqSet(Kept(v, c.level, input, |input|, snapshot))
  }

  lemma {:induction false} KeptMembers(v: Version, level: nat, input: seq<Entry>, n: nat, snapshot: nat)
    requires |v.levels| == NUM_LEVELS && n <= |input|
    ensures forall e :: e in Kept(v, level, input, n, snapshot) <==>
              exists i :: 0 <= i < n && input[i] == e && !Dropped(v, level, input, i, snapshot)
  {
    if n > 0 {
      KeptMembers(v, level, input, n - 1, snapshot);
    }
  }

  /** A tombstone is lost to a reader: it is what the reader saw, it is dropped as obsolete, and an
      older value of the key stays behind outside the inputs. */
  ghost predicate LosesTombstone(v: Version, c: Inputs, snapshot: nat, e: Entry, u: UserKey, s: nat)
    requires |v.levels| == NUM_LEVELS
  {
    && e in InputEntries(c)
    && Newest(e, Contents(v), u, s)
    && Obsolete(v, c.level, e, snapshot)
    && Read(RestEntries(v, c), u, s).Found?
  }

  lemma InputsAreFiles(v: Version, c: Inputs)
    requires Valid(v) && Selected(v, c)
    ensures forall f :: f in c.in0 ==> f in v.levels[c.level]
    ensures forall f :: f in c.in1 ==> f in v.levels[c.level + 1]
    ensures Contents(v) == RestEntries(v, c) + InputEntries(c)
  {
    InputsFromLevels(v, c);
    forall e | e in Contents(v)
      ensures e in RestEntries(v, c) + InputEntries(c)
    {
      var lvl, f :| 0 <= lvl < NUM_LEVELS && f in v.levels[lvl] && e in f.entries;
      if !IsInput(c, lvl, f) {
        assert e in RestEntries(v, c);
      }
    }
  }

  lemma InputsFromLevels(v: Version, c: Inputs)
    requires Valid(v) && Selected(v, c)
    ensures forall f :: f in c.in0 ==> f in v.levels[c.level]
    ensures forall f :: f in c.in1 ==> f in v.levels[c.level + 1]
  {
    OverlappingMembers(v.levels[c.level + 1], Some(SmallestKey(c.in0).user), Some(LargestKey(c.in0).user));
    if c.level == 0 {
      var lo, hi :| ClosedUnder(v.levels[0], c.in0, lo, hi);
      OverlappingMembers(v.levels[0], lo, hi);
    } else {
      var a, b :| ClosedSlice(v.levels[c.level], c.in0, a, b);
    }
  }

  /** When the newest entry survives, so does the read. */
  lemma KeptNewestIsRead(before: set<Entry>, after: set<Entry>, u: UserKey, s: nat, e: Entry)
    requires Distinct(before) && after <= before && Newest(e, before, u, s) && e in after
    ensures Read(after, u, s) == Read(before, u, s)
  {
    ReadOfNewest(before, u, s, e);
    ReadOfNewest(after, u, s, e);
  }

  lemma ReadDependsOnVisible(a: set<Entry>, b: set<Entry>, u: UserKey, s: nat)
    requires Distinct(a) && Distinct(b)
    requires forall e :: Visible(e, u, s) ==> (e in a <==> e in b)
    ensures Read(a, u, s) == Read(b, u, s)
  {
    if NoneVisible(a, u, s) {
      assert NoneVisible(b, u, s);
    } else {
      NewestExists(a, u, s);
      var e :| Newest(e, a, u, s);
      ReadOfNewest(a, u, s, e);
      ReadOfNewest(b, u, s, e);
    }
  }

  /** `before` is what is stored, `rest` its part outside the inputs, `after` what remains. */
  ghost predicate Splits(v: Version, level: nat, input: seq<Entry>, snapshot: nat,
                         before: set<Entry>, rest: set<Entry>, after: set<Entry>) {
    && |v.levels| == NUM_LEVELS
    && Sorted(input) && Distinct(before)
    && before == rest + SeqSet(input)
    && after == rest + SeqSet(Kept(v, level, input, |input|, snapshot))
  }

  lemma KeptEntry(v: Version, level: nat, input: seq<Entry>, snapshot: nat, before: set<Entry>, rest: set<Entry>, after: set<Entry>, e: Entry)
    requires Splits(v, level, input, snapshot, before, rest, after)
    ensures e in after <==> e in rest || exists i :: 0 <= i < |input| && input[i] == e && !Dropped(v, level, input, i, snapshot)
    ensures e in after ==> e in before
  {
    KeptMembers(v, level, input, |input|, snapshot);
  }

  /** Among entries of one user key, an earlier one of the input is newer. */
  lemma EarlierIsNewer(input: seq<Entry>, i: nat, k: nat)
    requires Sorted(input) && i < k < |input| && input[i].key.user == input[k].key.user
    ensures input[i].key.sequence >= input[k].key.sequence
  {
    assert Before(input[i].key, input[k].key);
  }

  /** A newest entry is dropped only as an obsolete tombstone. */
  lemma DroppedNewestIsObsolete(v: Version, level: nat, input: seq<Entry>, snapshot: nat,
                                before: set<Entry>, rest: set<Entry>, after: set<Entry>, u: UserKey, s: nat, e: Entry)
    returns (i: nat)
    requires Splits(v, level, input, snapshot, before, rest, after) && snapshot <= s
    requires Newest(e, before, u, s) && e !in after
    ensures i < |input| && input[i] == e && Obsolete(v, level, e, snapshot)
  {
    assert e in SeqSet(input);
    i :| 0 <= i < |input| && input[i] == e;
    KeptEntry(v, level, input, snapshot, before, rest, after, e);
  }

  /** Below an obsolete tombstone the older input entries of its key go too, so that what is left
      to read lies outside the inputs. */
  lemma ReadBelowTombstone(v: Version, level: nat, input: seq<Entry>, snapshot: nat,
                           before: set<Entry>, rest: set<Entry>, after: set<Entry>, u: UserKey, s: nat, i: nat)
    requires Splits(v, level, input, snapshot, before, rest, after) && snapshot <= s
    requires i < |input| && Newest(input[i], before, u, s) && Obsolete(v, level, input[i], snapshot)
    ensures Read(after, u, s) == Read(rest, u, s)
  {
    forall x | x in after && Visible(x, u, s)
      ensures x in rest
    {
      KeptEntry(v, level, input, snapshot, before, rest, after, x);
      if x !in rest {
        var k :| 0 <= k < |input| && input[k] == x && !Dropped(v, level, input, k, snapshot);
        if k < i {
          EarlierIsNewer(input, k, i);
        }
      }
    }
    forall x | x in after
      ensures x in before
    {
      KeptEntry(v, level, input, snapshot, before, rest, after, x);
    }
    ReadDependsOnVisible(after, rest, u, s);
  }

  lemma ReadChanges(v: Version, level: nat, input: seq<Entry>, snapshot: nat,
                    before: set<Entry>, rest: set<Entry>, after: set<Entry>, u: UserKey, s: nat)
    requires Splits(v, level, input, snapshot, before, rest, after) && snapshot <= s
    ensures Read(after, u, s) != Read(before, u, s) <==>
              (exists e :: e in SeqSet(input) && Newest(e, before, u, s) && Obsolete(v, level, e, snapshot) && Read(rest, u, s).Found?)
  {
    if NoneVisible(before, u, s) {
      forall x | x in after
        ensures x in before
      {
        KeptEntry(v, level, input, snapshot, before, rest, after, x);
      }
    } else {
      NewestExists(before, u, s);
      var e :| Newest(e, before, u, s);
      assert forall x :: Newest(x, before, u, s) ==> x == e;
      ReadOfNewest(before, u, s, e);
      if e in after {
        SurvivingNewest(v, level, input, snapshot, before, rest, after, u, s, e);
      } else {
        var i := DroppedNewestIsObsolete(v, level, input, snapshot, before, rest, after, u, s, e);
        ReadBelowTombstone(v, level, input, snapshot, before, rest, after, u, s, i);
        assert e in SeqSet(input);
      }
    }
  }

  /** The exact effect of the drop rules: a read at a live snapshot changes if and only if a
      tombstone is lost. */
  lemma ReadChangesIffTombstoneLost(v: Version, c: Inputs, input: seq<Entry>, snapshot: nat, u: UserKey, s: nat)
    requires Valid(v) && Selected(v, c) && IsMergedInput(c, input) && snapshot <= s
    ensures (exists e :: LosesTombstone(v, c, snapshot, e, u, s)) <==>
              Read(EntriesAfter(v, c, input, snapshot), u, s) != Read(Contents(v), u, s)
  {
    InputsAreFiles(v, c);
    var before, rest, after := Contents(v), RestEntries(v, c), EntriesAfter(v, c, input, snapshot);
    ReadChanges(v, c.level, input, snapshot, before, rest, after, u, s);
    assert SeqSet(input) == InputEntries(c);
    assert forall e :: LosesTombstone(v, c, snapshot, e, u, s) <==>
        (e in SeqSet(input) && Newest(e, before, u, s) && Obsolete(v, c.level, e, snapshot) && Read(rest, u, s).Found?);
  }

  lemma SurvivingNewest(v: Version, level: nat, input: seq<Entry>, snapshot: nat,
                        before: set<Entry>, rest: set<Entry>, after: set<Entry>, u: UserKey, s: nat, e: Entry)
    requires Splits(v, level, input, snapshot, before, rest, after)
    requires Newest(e, before, u, s) && e in after
    ensures Read(after, u, s) == Read(before, u, s)
    ensures Obsolete(v, level, e, snapshot) ==> Read(rest, u, s) == Missing
  {
    forall x | x in after
      ensures x in before
    {
      KeptEntry(v, level, input, snapshot, before, rest, after, x);
    }
    KeptNewestIsRead(before, after, u, s, e);
    if Obsolete(v, level, e, snapshot) {
      KeptEntry(v, level, input, snapshot, before, rest, after, e);
      ReadOfNewest(rest, u, s, e);
    }
  }

  // ---------- when no tombstone is lost ----------

  /** The files end where a user key ends: the next file of their level starts a new one. */
  ghost predicate EndsUserKey(level: Level, files: seq<File>) {
    files == [] || exists a, b :: ClosedSlice(level, files, a, b)
  }

  /** What `SetupOtherInputs` leaves unchecked: the lower inputs, too, end where a user key ends. */
  ghost predicate LowerClosed(v: Version, c: Inputs)
    requires c.level + 1 < |v.levels|
  {
    EndsUserKey(v.levels[c.level + 1], c.in1)
  }

  ghost predicate ValidLevel(level: Level) {
    (forall f :: f in level ==> ValidFile(f)) && DisjointSorted(level)
  }

  lemma FilesInOrder(level: Level, x: nat, y: nat, a: Entry, b: Entry)
    requires ValidLevel(level) && x < y < |level| && a in level[x].entries && b in level[y].entries
    ensures Before(a.key, b.key)
  {
    FileRange(level[x], a);
    FileRange(level[y], b);
    assert Before(level[x].largest, level[y].smallest);
  }

  /** Past the end of a run that ends a user key, all user keys are larger. */
  lemma LargerPastEnd(level: Level, y: nat, j: nat, x: nat, a: Entry, b: Entry)
    requires ValidLevel(level) && y < j <= x < |level| && a in level[x].entries && b in level[y].entries
    requires level[j].smallest.user != level[j - 1].largest.user
    ensures b.key.user < a.key.user
  {
    FileRange(level[x], a);
    FileRange(level[y], b);
    if y < j - 1 { LargestIncreases(level, y, j - 1); }
    assert Before(level[j - 1].largest, level[j].smallest);
    assert ValidFile(level[j]) && ValidFile(level[x]);
    if j < x { FilesInOrder(level, j, x, level[j].entries[0], level[x].entries[0]); }
  }

  /** Outside a run that ends a user key, files share user keys with the run only in newer entries. */
  lemma RestOfLevelIsNewer(level: Level, i: nat, j: nat, x: nat, y: nat, a: Entry, b: Entry)
    requires ValidLevel(level) && Distinct(LevelEntries(level))
    requires i <= y < j <= |level| && x < |level| && !(i <= x < j)
    requires j < |level| ==> level[j].smallest.user != level[j - 1].largest.user
    requires a in level[x].entries && b in level[y].entries && a.key.user == b.key.user
    ensures a.key.sequence > b.key.sequence
  {
    if x < y {
      FilesInOrder(level, x, y, a, b);
      assert a in LevelEntries(level) && b in LevelEntries(level);
    } else {
      LargerPastEnd(level, y, j, x, a, b);
    }
  }

  lemma LevelIsDistinct(v: Version, lvl: nat)
    requires Valid(v) && lvl < NUM_LEVELS
    ensures Distinct(LevelEntries(v.levels[lvl]))
  {
    forall e | e in LevelEntries(v.levels[lvl])
      ensures e in Contents(v)
    {
      var f :| f in v.levels[lvl] && e in f.entries;
    }
  }

  /** Where a file outside a run, and one inside it, stand in their level. */
  lemma RunIndices(level: Level, run: seq<File>, i: nat, j: nat, g: File, f: File) returns (x: nat, y: nat)
    requires ClosedSlice(level, run, i, j)
    requires g in level && g !in run && f in run
    ensures x < |level| && level[x] == g && !(i <= x < j)
    ensures i <= y < j && level[y] == f
  {
    x :| 0 <= x < |level| && level[x] == g;
    assert forall k :: i <= k < j ==> level[k] == run[k - i];
    var k :| 0 <= k < |run| && run[k] == f;
    y := i + k;
  }

  /** The entries of a user key that stay behind in the level of a run are newer than the run's. */
  lemma RestNewerThanRun(level: Level, run: seq<File>, g: File, f: File)
    requires ValidLevel(level) && Distinct(LevelEntries(level)) && EndsUserKey(level, run)
    requires g in level && g !in run && f in run
    ensures FileNewer(g, f)
  {
    var i: nat, j: nat :| ClosedSlice(level, run, i, j);
    var x, y := RunIndices(level, run, i, j, g, f);
    FileOutsideIsNewer(level, i, j, x, y);
  }

  lemma FileOutsideIsNewer(level: Level, i: nat, j: nat, x: nat, y: nat)
    requires ValidLevel(level) && Distinct(LevelEntries(level))
    requires i <= y < j <= |level| && x < |level| && !(i <= x < j)
    requires j < |level| ==> level[j].smallest.user != level[j - 1].largest.user
    ensures FileNewer(level[x], level[y])
  {
    forall a, b | a in level[x].entries && b in level[y].entries && a.key.user == b.key.user
      ensures a.key.sequence > b.key.sequence
    {
      RestOfLevelIsNewer(level, i, j, x, y, a, b);
    }
  }

  /** A file of the upper level outside the inputs holds only newer entries than an upper input. */
  lemma UpperRestIsNewer(v: Version, c: Inputs, g: File, f: File)
    requires Valid(v) && Selected(v, c)
    requires g in v.levels[c.level] && g !in c.in0 && f in c.in0
    ensures FileNewer(g, f)
  {
    if c.level == 0 {
      var lo, hi :| ClosedUnder(v.levels[0], c.in0, lo, hi);
      OverlappingMembers(v.levels[0], lo, hi);
      forall a, b | a in g.entries && b in f.entries
        ensures a.key.user != b.key.user
      {
        FileRange(g, a);
        FileRange(f, b);
      }
    } else {
      LevelIsDistinct(v, c.level);
      RestNewerThanRun(v.levels[c.level], c.in0, g, f);
    }
  }

  /** A file of the lower level outside the inputs shares no user key with an upper input. */
  lemma LowerRestIsApart(v: Version, c: Inputs, g: File, f: File, a: Entry, b: Entry)
    requires Selected(v, c) && ValidFile(g) && ValidFile(f)
    requires g in v.levels[c.level + 1] && g !in c.in1 && f in c.in0
    requires a in g.entries && b in f.entries
    ensures a.key.user != b.key.user
  {
    OverlappingMembers(v.levels[c.level + 1], Some(SmallestKey(c.in0).user), Some(LargestKey(c.in0).user));
    FileRange(g, a);
    FileRange(f, b);
    SmallestIsLowerBound(c.in0, f);
    var _ := LargestIsUpperBound(c.in0, f);
  }

  /** With both input sets ending where a user key ends, no tombstone is lost. */
  lemma NoTombstoneLost(v: Version, c: Inputs, snapshot: nat, u: UserKey, s: nat, e: Entry)
    requires Valid(v) && Selected(v, c) && LowerClosed(v, c)
    ensures !LosesTombstone(v, c, snapshot, e, u, s)
  {
    InputsAreFiles(v, c);
    if e in InputEntries(c) && Newest(e, Contents(v), u, s) && Obsolete(v, c.level, e, snapshot) {
      forall x | x in RestEntries(v, c)
        ensures !Visible(x, u, s)
      {
        if x.key.user == u {
          RestIsNewer(v, c, x, e);
        }
      }
    }
  }

  /** What stays outside the inputs is newer than an input entry of its user key, unless it lies in
      a level that the base-level test looks at. */
  lemma RestIsNewer(v: Version, c: Inputs, x: Entry, e: Entry)
    requires Valid(v) && Selected(v, c) && LowerClosed(v, c)
    requires x in RestEntries(v, c) && e in InputEntries(c) && x.key.user == e.key.user
    requires BaseLevel(v, c.level, e.key.user)
    ensures x.key.sequence > e.key.sequence
  {
    InputsAreFiles(v, c);
    var lvl, g :| 0 <= lvl < NUM_LEVELS && g in v.levels[lvl] && !IsInput(c, lvl, g) && x in g.entries;
    FileRange(g, x);
    if e in LevelEntries(c.in0) {
      var f :| f in c.in0 && e in f.entries;
      RestVersusUpper(v, c, lvl, g, f, x, e);
    } else {
      var f :| f in c.in1 && e in f.entries;
      RestVersusLower(v, c, lvl, g, f, x, e);
    }
  }

  lemma LevelsInOrder(v: Version)
    requires Valid(v)
    ensures |v.levels| == NUM_LEVELS
    ensures forall lvl, f :: 0 <= lvl < NUM_LEVELS && f in v.levels[lvl] ==> ValidFile(f)
  {
  }

  lemma LevelIsValid(v: Version, lvl: nat)
    requires Valid(v) && 1 <= lvl < NUM_LEVELS
    ensures ValidLevel(v.levels[lvl])
  {
  }

  lemma LevelBelow(v: Version, c: Inputs)
    requires Selected(v, c)
    ensures c.level + 1 < |v.levels|
  {
  }

  lemma ShallowerIsNewer(v: Version, i: nat, j: nat, g: File, f: File, x: Entry, e: Entry)
    requires Valid(v) && i < j < NUM_LEVELS && g in v.levels[i] && f in v.levels[j]
    requires x in g.entries && e in f.entries && x.key.user == e.key.user
    ensures x.key.sequence > e.key.sequence
  {
    assert LevelNewer(v.levels[i], v.levels[j]) && FileNewer(g, f);
  }

  lemma RestVersusLower(v: Version, c: Inputs, lvl: nat, g: File, f: File, x: Entry, e: Entry)
    requires Valid(v) && c.level + 1 < NUM_LEVELS && LowerClosed(v, c) && lvl <= c.level + 1
    requires g in v.levels[lvl] && !IsInput(c, lvl, g) && x in g.entries
    requires f in c.in1 && f in v.levels[c.level + 1] && e in f.entries && x.key.user == e.key.user
    ensures x.key.sequence > e.key.sequence
  {
    hide Valid, EndsUserKey, ValidLevel, Distinct, LevelEntries, FileNewer, ValidFile;
    LevelsInOrder(v);
    if lvl <= c.level {
      ShallowerIsNewer(v, lvl, c.level + 1, g, f, x, e);
    } else {
      LevelIsValid(v, c.level + 1);
      LevelIsDistinct(v, c.level + 1);
      RestNewerThanRun(v.levels[c.level + 1], c.in1, g, f);
      NewerFile(g, f, x, e);
    }
  }

  lemma NewerFile(g: File, f: File, x: Entry, e: Entry)
    requires FileNewer(g, f) && x in g.entries && e in f.entries && x.key.user == e.key.user
    ensures x.key.sequence > e.key.sequence
  {
  }

  lemma RestVersusUpper(v: Version, c: Inputs, lvl: nat, g: File, f: File, x: Entry, e: Entry)
    requires Valid(v) && Selected(v, c) && lvl <= c.level + 1
    requires g in v.levels[lvl] && !IsInput(c, lvl, g) && x in g.entries
    requires f in c.in0 && f in v.levels[c.level] && e in f.entries && x.key.user == e.key.user
    ensures x.key.sequence > e.key.sequence
  {
    hide Valid, Selected;
    LevelsInOrder(v);
    LevelBelow(v, c);
    if lvl < c.level {
      ShallowerIsNewer(v, lvl, c.level, g, f, x, e);
    } else if lvl == c.level {
      UpperRestIsNewer(v, c, g, f);
    } else {
      LowerRestIsApart(v, c, g, f, x, e);
    }
  }

  /** The compaction theorem: if the lower inputs end where a user key ends, every read at every
      snapshot not older than the smallest is the same before and after. */
  lemma CompactionKeepsReads(v: Version, c: Inputs, input: seq<Entry>, snapshot: nat, u: UserKey, s: nat)
    requires Valid(v) && Selected(v, c) && IsMergedInput(c, input) && snapshot <= s
    requires LowerClosed(v, c)
    ensures Read(EntriesAfter(v, c, input, snapshot), u, s) == Read(Contents(v), u, s)
  {
    ReadChangesIffTombstoneLost(v, c, input, snapshot, u, s);
    forall e
      ensures !LosesTombstone(v, c, snapshot, e, u, s)
    {
      NoTombstoneLost(v, c, snapshot, u, s, e);
    }
  }

  // ---------- the invariants after a compaction ----------

  /** The version after the inputs have been replaced by `outputs` in the lower level. */
  ghost predicate IsCompacted(v: Version, c: Inputs, outputs: seq<File>, w: Version) {
    && |v.levels| == NUM_LEVELS && |w.levels| == NUM_LEVELS && c.level + 1 < NUM_LEVELS
    && (forall lvl :: 0 <= lvl < NUM_LEVELS ==> SortedBySmallest(w.levels[lvl]))
    && (forall lvl, f :: 0 <= lvl < NUM_LEVELS ==> (f in w.levels[lvl] <==> BelongsAfter(v, c, outputs, lvl, f)))
  }

  ghost predicate BelongsAfter(v: Version, c: Inputs, outputs: seq<File>, lvl: int, f: File)
    requires 0 <= lvl < |v.levels|
  {
    (f in v.levels[lvl] && !IsInput(c, lvl, f)) || (lvl == c.level + 1 && f in outputs)
  }

  /** Sorted tables made of input entries, with numbers found nowhere else in the version. */
  ghost predicate GoodOutputs(v: Version, c: Inputs, outputs: seq<File>) {
    && (forall f :: f in outputs ==> ValidFile(f) && FileEntries(f) <= InputEntries(c))
    && DisjointSorted(outputs)
    && DistinctNumbers(outputs)
    && (forall lvl, f, g :: 0 <= lvl < |v.levels| && f in v.levels[lvl] && !IsInput(c, lvl, f) && g in outputs ==> f.number != g.number)
  }

  lemma InputInRange(v: Version, c: Inputs, e: Entry) returns (f: File)
    requires Valid(v) && Selected(v, c) && e in InputEntries(c)
    ensures ValidFile(f) && e in f.entries
    ensures (f in c.in1 && f in v.levels[c.level + 1])
         || (f in c.in0 && SmallestKey(c.in0).user <= e.key.user <= LargestKey(c.in0).user)
  {
    InputsAreFiles(v, c);
    if e in LevelEntries(c.in1) {
      f :| f in c.in1 && e in f.entries;
    } else {
      f :| f in c.in0 && e in f.entries;
      FileRange(f, e);
      SmallestIsLowerBound(c.in0, f);
      var _ := LargestIsUpperBound(c.in0, f);
    }
  }

  /** In a sorted level, the file whose user keys reach further comes later. */
  lemma LaterFile(level: Level, g: File, f: File, e: Entry)
    requires ValidLevel(level) && g in level && f in level && e in f.entries
    ensures g.largest.user < f.largest.user ==> Before(g.largest, e.key)
    ensures f.smallest.user < g.smallest.user ==> Before(e.key, g.smallest)
  {
    var x :| 0 <= x < |level| && level[x] == g;
    var y :| 0 <= y < |level| && level[y] == f;
    RangeOrdered(g);
    FileRange(f, e);
    assert x < y ==> Before(level[x].largest, level[y].smallest);
    assert y < x ==> Before(level[y].largest, level[x].smallest);
  }

  /** A lower file outside the inputs lies wholly before or wholly after all of them. */
  lemma LowerRestIsDisjoint(v: Version, c: Inputs, g: File)
    requires Valid(v) && Selected(v, c)
    requires g in v.levels[c.level + 1] && g !in c.in1
    ensures (forall e :: e in InputEntries(c) ==> Before(g.largest, e.key))
         || (forall e :: e in InputEntries(c) ==> Before(e.key, g.smallest))
  {
    var lo, hi := SmallestKey(c.in0).user, LargestKey(c.in0).user;
    OverlappingMembers(v.levels[c.level + 1], Some(lo), Some(hi));
    assert !Overlaps(g, Some(lo), Some(hi));
    forall e | e in InputEntries(c)
      ensures g.largest.user < lo ==> Before(g.largest, e.key)
      ensures g.smallest.user > hi ==> Before(e.key, g.smallest)
    {
      var f := InputInRange(v, c, e);
      if f in c.in1 && f in v.levels[c.level + 1] {
        assert Overlaps(f, Some(lo), Some(hi));
        LaterFile(v.levels[c.level + 1], g, f, e);
      }
    }
  }

  lemma LowerLevelApart(v: Version, c: Inputs, outputs: seq<File>, f: File, g: File)
    requires Valid(v) && Selected(v, c) && GoodOutputs(v, c, outputs) && f != g
    requires (f in v.levels[c.level + 1] && f !in c.in1) || f in outputs
    requires (g in v.levels[c.level + 1] && g !in c.in1) || g in outputs
    ensures Apart(f, g)
  {
    if f in outputs && g in outputs {
      TwoFilesApart(outputs, f, g);
    } else if f in outputs {
      OutputApart(v, c, g, f);
    } else if g in outputs {
      OutputApart(v, c, f, g);
    } else {
      TwoFilesApart(v.levels[c.level + 1], f, g);
    }
  }

  lemma OutputsInLowerLevel(v: Version, c: Inputs, outputs: seq<File>, w: Version)
    requires Valid(v) && Selected(v, c) && GoodOutputs(v, c, outputs) && IsCompacted(v, c, outputs, w)
    ensures DisjointSorted(w.levels[c.level + 1])
  {
    forall f, g | f in w.levels[c.level + 1] && g in w.levels[c.level + 1] && f != g
      ensures Apart(f, g)
    {
      LowerLevelApart(v, c, outputs, f, g);
    }
    Manifest.SortedDisjointFiles(w.levels[c.level + 1]);
  }

  lemma TwoFilesApart(level: Level, f: File, g: File)
    requires DisjointSorted(level) && f in level && g in level && f != g
    ensures Apart(f, g)
  {
    var x :| 0 <= x < |level| && level[x] == f;
    var y :| 0 <= y < |level| && level[y] == g;
    assert x < y ==> Before(level[x].largest, level[y].smallest);
    assert y < x ==> Before(level[y].largest, level[x].smallest);
  }

  lemma OutputApart(v: Version, c: Inputs, g: File, o: File)
    requires Valid(v) && Selected(v, c) && ValidFile(o) && FileEntries(o) <= InputEntries(c)
    requires g in v.levels[c.level + 1] && g !in c.in1
    ensures Apart(g, o)
  {
    LowerRestIsDisjoint(v, c, g);
    assert o.entries[0] in FileEntries(o) && o.entries[|o.entries| - 1] in FileEntries(o);
  }

  lemma NumbersStayDistinct(v: Version, c: Inputs, outputs: seq<File>, w: Version, lvl: nat)
    requires Valid(v) && GoodOutputs(v, c, outputs) && IsCompacted(v, c, outputs, w) && lvl < NUM_LEVELS
    ensures DistinctNumbers(w.levels[lvl])
  {
    var level := w.levels[lvl];
    forall i, j | 0 <= i < j < |level|
      ensures level[i].number != level[j].number
    {
      var f, g := level[i], level[j];
      assert f in level && g in level && BySmallest(f, g);
      if f in outputs && lvl == c.level + 1 && g in outputs {
        DifferentNumbers(outputs, f, g);
      } else if f in v.levels[lvl] && g in v.levels[lvl] {
        DifferentNumbers(v.levels[lvl], f, g);
      }
    }
  }

  lemma DifferentNumbers(level: Level, f: File, g: File)
    requires DistinctNumbers(level) && f in level && g in level && f != g
    ensures f.number != g.number
  {
    var x :| 0 <= x < |level| && level[x] == f;
    var y :| 0 <= y < |level| && level[y] == g;
  }

  lemma OtherLevelStaysSorted(v: Version, c: Inputs, outputs: seq<File>, w: Version, lvl: nat)
    requires Valid(v) && IsCompacted(v, c, outputs, w) && 1 <= lvl < NUM_LEVELS && lvl != c.level + 1
    ensures DisjointSorted(w.levels[lvl])
  {
    forall f, g | f in w.levels[lvl] && g in w.levels[lvl] && f != g
      ensures Apart(f, g)
    {
      TwoFilesApart(v.levels[lvl], f, g);
    }
    Manifest.SortedDisjointFiles(w.levels[lvl]);
  }

  /** Entries of one key keep the newer one in the shallower level. */
  lemma LevelsStayOrdered(v: Version, c: Inputs, outputs: seq<File>, i: nat, j: nat, f: File, g: File)
    requires Valid(v) && Selected(v, c) && GoodOutputs(v, c, outputs)
    requires i < j < NUM_LEVELS && BelongsAfter(v, c, outputs, i, f) && BelongsAfter(v, c, outputs, j, g)
    ensures FileNewer(f, g) && f.number != g.number
  {
    if f in v.levels[i] && !IsInput(c, i, f) {
      if g in v.levels[j] && !IsInput(c, j, g) {
        assert LevelNewer(v.levels[i], v.levels[j]) && DisjointNumbers(v.levels[i], v.levels[j]);
      } else {
        ShallowerThanOutput(v, c, i, f, g);
      }
    } else {
      DeeperThanOutput(v, c, j, f, g);
    }
  }

  lemma ShallowerThanOutput(v: Version, c: Inputs, i: nat, f: File, g: File)
    requires Valid(v) && Selected(v, c) && i <= c.level && f in v.levels[i] && !IsInput(c, i, f)
    requires FileEntries(g) <= InputEntries(c)
    ensures FileNewer(f, g)
  {
    forall a, b | a in f.entries && b in g.entries && a.key.user == b.key.user
      ensures a.key.sequence > b.key.sequence
    {
      assert b in FileEntries(g);
      ShallowerThanInput(v, c, i, f, a, b);
    }
  }

  lemma DeeperThanOutput(v: Version, c: Inputs, j: nat, f: File, g: File)
    requires Valid(v) && Selected(v, c) && c.level + 1 < j < NUM_LEVELS && g in v.levels[j]
    requires FileEntries(f) <= InputEntries(c)
    ensures FileNewer(f, g)
  {
    forall a, b | a in f.entries && b in g.entries && a.key.user == b.key.user
      ensures a.key.sequence > b.key.sequence
    {
      assert a in FileEntries(f);
      DeeperThanInput(v, c, j, g, a, b);
    }
  }

  lemma ShallowerThanInput(v: Version, c: Inputs, i: nat, f: File, a: Entry, b: Entry)
    requires Valid(v) && Selected(v, c) && i <= c.level && f in v.levels[i] && !IsInput(c, i, f)
    requires a in f.entries && b in InputEntries(c) && a.key.user == b.key.user
    ensures a.key.sequence > b.key.sequence
  {
    InputsAreFiles(v, c);
    if b in LevelEntries(c.in0) {
      var g :| g in c.in0 && b in g.entries;
      RestVersusUpper(v, c, i, f, g, a, b);
    } else {
      var g :| g in c.in1 && b in g.entries;
      assert LevelNewer(v.levels[i], v.levels[c.level + 1]) && FileNewer(f, g);
    }
  }

  lemma DeeperThanInput(v: Version, c: Inputs, j: nat, g: File, a: Entry, b: Entry)
    requires Valid(v) && Selected(v, c) && c.level + 1 < j < NUM_LEVELS && g in v.levels[j]
    requires a in InputEntries(c) && b in g.entries && a.key.user == b.key.user
    ensures a.key.sequence > b.key.sequence
  {
    InputsAreFiles(v, c);
    if a in LevelEntries(c.in0) {
      var f :| f in c.in0 && a in f.entries;
      assert LevelNewer(v.levels[c.level], v.levels[j]) && FileNewer(f, g);
    } else {
      var f :| f in c.in1 && a in f.entries;
      assert LevelNewer(v.levels[c.level + 1], v.levels[j]) && FileNewer(f, g);
    }
  }

  lemma ContentsShrink(v: Version, c: Inputs, outputs: seq<File>, w: Version)
    requires Valid(v) && Selected(v, c) && IsCompacted(v, c, outputs, w)
    requires forall f :: f in outputs ==> FileEntries(f) <= InputEntries(c)
    ensures Contents(w) <= Contents(v)
    ensures Contents(w) == RestEntries(v, c) + LevelEntries(outputs)
  {
    InputsAreFiles(v, c);
    forall e | e in Contents(w)
      ensures e in RestEntries(v, c) + LevelEntries(outputs)
    {
      var lvl, f :| 0 <= lvl < NUM_LEVELS && f in w.levels[lvl] && e in f.entries;
      if f in v.levels[lvl] && !IsInput(c, lvl, f) {
        assert e in RestEntries(v, c);
      } else {
        assert e in LevelEntries(outputs);
      }
    }
    forall e | e in RestEntries(v, c)
      ensures e in Contents(w)
    {
      var lvl, f :| 0 <= lvl < NUM_LEVELS && f in v.levels[lvl] && !IsInput(c, lvl, f) && e in f.entries;
      assert f in w.levels[lvl] && w.levels[lvl] in w.levels;
    }
    forall e | e in LevelEntries(outputs)
      ensures e in Contents(w) && e in InputEntries(c)
    {
      var f :| f in outputs && e in f.entries;
      assert f in w.levels[c.level + 1] && w.levels[c.level + 1] in w.levels;
      assert e in FileEntries(f);
    }
  }

  lemma AllLevelsStayOrdered(v: Version, c: Inputs, outputs: seq<File>, w: Version)
    requires Valid(v) && Selected(v, c) && GoodOutputs(v, c, outputs) && IsCompacted(v, c, outputs, w)
    ensures forall i, j :: 0 <= i < j < NUM_LEVELS ==> LevelNewer(w.levels[i], w.levels[j]) && DisjointNumbers(w.levels[i], w.levels[j])
  {
    forall i, j, f, g | 0 <= i < j < NUM_LEVELS && f in w.levels[i] && g in w.levels[j]
      ensures FileNewer(f, g) && f.number != g.number
    {
      LevelsStayOrdered(v, c, outputs, i, j, f, g);
    }
  }

  lemma EachLevelStaysSorted(v: Version, c: Inputs, outputs: seq<File>, w: Version)
    requires Valid(v) && Selected(v, c) && GoodOutputs(v, c, outputs) && IsCompacted(v, c, outputs, w)
    ensures forall lvl :: 0 <= lvl < NUM_LEVELS ==> DistinctNumbers(w.levels[lvl])
    ensures forall lvl :: 1 <= lvl < NUM_LEVELS ==> DisjointSorted(w.levels[lvl])
  {
    OutputsInLowerLevel(v, c, outputs, w);
    forall lvl | 0 <= lvl < NUM_LEVELS
      ensures DistinctNumbers(w.levels[lvl])
      ensures 1 <= lvl ==> DisjointSorted(w.levels[lvl])
    {
      NumbersStayDistinct(v, c, outputs, w, lvl);
      if 1 <= lvl && lvl != c.level + 1 {
        OtherLevelStaysSorted(v, c, outputs, w, lvl);
      }
    }
  }

  lemma FilesStayValid(v: Version, c: Inputs, outputs: seq<File>, w: Version)
    requires Valid(v) && GoodOutputs(v, c, outputs) && IsCompacted(v, c, outputs, w)
    ensures forall lvl, f :: 0 <= lvl < NUM_LEVELS && f in w.levels[lvl] ==> ValidFile(f)
    ensures NumberedByAge(w.levels[0])
  {
    assert forall lvl, f :: 0 <= lvl < NUM_LEVELS && f in w.levels[lvl] ==> BelongsAfter(v, c, outputs, lvl, f);
  }

  /** Installing a compaction keeps every invariant of the version. */
  lemma CompactionKeepsInvariants(v: Version, c: Inputs, outputs: seq<File>, w: Version)
    requires Valid(v) && Selected(v, c) && GoodOutputs(v, c, outputs) && IsCompacted(v, c, outputs, w)
    ensures Valid(w)
  {
    FilesStayValid(v, c, outputs, w);
    EachLevelStaysSorted(v, c, outputs, w);
    AllLevelsStayOrdered(v, c, outputs, w);
    ContentsStayDistinct(v, c, outputs, w);
    IsValid(w);
  }

  lemma ContentsStayDistinct(v: Version, c: Inputs, outputs: seq<File>, w: Version)
    requires Valid(v) && Selected(v, c) && GoodOutputs(v, c, outputs) && IsCompacted(v, c, outputs, w)
    ensures Distinct(Contents(w))
  {
    ContentsShrink(v, c, outputs, w);
    DistinctSubset(Contents(w), Contents(v));
  }

  lemma DistinctSubset(s: set<Entry>, t: set<Entry>)
    requires s <= t && Distinct(t)
    ensures Distinct(s)
  {
  }

  lemma IsValid(w: Version)
    requires |w.levels| == NUM_LEVELS && Distinct(Contents(w)) && NumberedByAge(w.levels[0])
    requires forall lvl, f :: 0 <= lvl < NUM_LEVELS && f in w.levels[lvl] ==> ValidFile(f)
    requires forall lvl :: 0 <= lvl < NUM_LEVELS ==> DistinctNumbers(w.levels[lvl])
    requires forall lvl :: 0 <= lvl < NUM_LEVELS ==> SortedBySmallest(w.levels[lvl])
    requires forall lvl :: 1 <= lvl < NUM_LEVELS ==> DisjointSorted(w.levels[lvl])
    requires forall i, j :: 0 <= i < j < NUM_LEVELS ==> LevelNewer(w.levels[i], w.levels[j]) && DisjointNumbers(w.levels[i], w.levels[j])
    ensures Valid(w)
  {
  }

  // ---------- the outputs of the merge loop ----------

  lemma {:induction false} KeptIsSorted(v: Version, level: nat, input: seq<Entry>, n: nat, snapshot: nat)
    requires |v.levels| == NUM_LEVELS && n <= |input| && Sorted(input)
    ensures Sorted(Kept(v, level, input, n, snapshot))
  {
    if n > 0 {
      KeptIsSorted(v, level, input, n - 1, snapshot);
      KeptMembers(v, level, input, n - 1, snapshot);
      var k := Kept(v, level, input, n - 1, snapshot);
      forall j | 0 <= j < |k|
        ensures Before(k[j].key, input[n - 1].key)
      {
        assert k[j] in k;
      }
    }
  }

  lemma {:induction false} CutEntries(files: seq<File>)
    ensures LevelEntries(files) == SeqSet(Concat(files))
  {
    if files != [] {
      var init, last := files[..|files| - 1], files[|files| - 1];
      CutEntries(init);
      assert forall f :: f in files <==> f in init || f == last;
      assert LevelEntries(files) == LevelEntries(init) + FileEntries(last);
      assert SeqSet(Concat(files)) == SeqSet(Concat(init)) + SeqSet(last.entries);
    }
  }

  /** Where the entries of one table stand in the whole list. */
  lemma {:induction false} BlockOf(files: seq<File>, i: nat) returns (at: nat)
    requires i < |files|
    ensures at == |Concat(files[..i])|
    ensures at + |files[i].entries| <= |Concat(files)| && Concat(files)[at..at + |files[i].entries|] == files[i].entries
  {
    var n := |files| - 1;
    at := |Concat(files[..i])|;
    if i < n {
      var _ := BlockOf(files[..n], i);
      assert files[..n][..i] == files[..i];
      assert Concat(files)[..|Concat(files[..n])|] == Concat(files[..n]);
    }
  }

  lemma {:induction false} PrefixLength(files: seq<File>, i: nat, j: nat)
    requires i < j <= |files|
    ensures |Concat(files[..i])| + |files[i].entries| <= |Concat(files[..j])|
  {
    assert files[..i + 1][..i] == files[..i];
    if i + 1 < j {
      PrefixLength(files, i, j - 1);
      assert files[..j][..j - 1] == files[..j - 1];
    }
  }

  /** Cutting a sorted list into tables gives sorted, disjoint tables. */
  lemma {:induction false} CutIsSorted(files: seq<File>, firstNumber: nat)
    requires WellDescribed(files, firstNumber) && Sorted(Concat(files))
    ensures forall i :: 0 <= i < |files| ==> Sorted(files[i].entries)
    ensures DisjointSorted(files)
  {
    forall i | 0 <= i < |files|
      ensures Sorted(files[i].entries)
    {
      var at := BlockOf(files, i);
      assert forall k :: 0 <= k < |files[i].entries| ==> files[i].entries[k] == Concat(files)[at + k];
    }
    forall i, j | 0 <= i < j < |files|
      ensures Before(files[i].largest, files[j].smallest)
    {
      var x := BlockOf(files, i);
      var y := BlockOf(files, j);
      PrefixLength(files, i, j);
      var last := |files[i].entries| - 1;
      assert files[i].entries[last] == Concat(files)[x + last] && files[j].entries[0] == Concat(files)[y];
    }
  }

  /** Every file of the version has a number below the counter that hands them out. */
  ghost predicate NumbersBelow(v: Version, next: nat) {
    forall lvl, f :: 0 <= lvl < |v.levels| && f in v.levels[lvl] ==> f.number < next
  }

  lemma MergeOutputsAreGood(v: Version, c: Inputs, input: seq<Entry>, snapshot: nat, outputs: seq<File>, firstNumber: nat)
    requires Valid(v) && Selected(v, c) && IsMergedInput(c, input) && NumbersBelow(v, firstNumber)
    requires WellDescribed(outputs, firstNumber) && Concat(outputs) == Kept(v, c.level, input, |input|, snapshot)
    ensures GoodOutputs(v, c, outputs)
    ensures LevelEntries(outputs) == SeqSet(Kept(v, c.level, input, |input|, snapshot))
  {
    hide Selected, Kept, ValidFile, WellDescribed, DisjointSorted, NumbersBelow;
    KeptIsSorted(v, c.level, input, |input|, snapshot);
    KeptMembers(v, c.level, input, |input|, snapshot);
    CutIsSorted(outputs, firstNumber);
    CutEntries(outputs);
    forall i | 0 <= i < |outputs|
      ensures ValidFile(outputs[i]) && FileEntries(outputs[i]) <= InputEntries(c)
    {
      OutputIsValid(v, c, input, outputs, i, firstNumber);
    }
    OutputNumbersAreNew(v, c, outputs, firstNumber);
  }

  lemma OutputNumbersAreNew(v: Version, c: Inputs, outputs: seq<File>, firstNumber: nat)
    requires NumbersBelow(v, firstNumber) && WellDescribed(outputs, firstNumber)
    ensures DistinctNumbers(outputs)
    ensures forall lvl, f, g :: 0 <= lvl < |v.levels| && f in v.levels[lvl] && !IsInput(c, lvl, f) && g in outputs ==> f.number != g.number
  {
  }

  lemma OutputIsValid(v: Version, c: Inputs, input: seq<Entry>, outputs: seq<File>, i: nat, firstNumber: nat)
    requires Valid(v) && Selected(v, c) && SeqSet(input) == InputEntries(c)
    requires i < |outputs| && LevelEntries(outputs) <= SeqSet(input) && WellDescribed(outputs, firstNumber) && Sorted(outputs[i].entries)
    ensures ValidFile(outputs[i])
    ensures FileEntries(outputs[i]) <= InputEntries(c)
    ensures forall e :: e in outputs[i].entries ==> e.key.sequence <= MAX_SEQUENCE
  {
    forall e | e in outputs[i].entries
      ensures e in InputEntries(c) && e.key.sequence <= MAX_SEQUENCE
    {
      assert e in LevelEntries(outputs);
      var g := InputInRange(v, c, e);
    }
  }

  /** `IsTrivialMove` and the edit it leads to: the only input file changes level. */
  lemma TrivialMoveIsGood(v: Version, c: Inputs)
    requires Valid(v) && Selected(v, c) && |c.in0| == 1 && c.in1 == []
    ensures GoodOutputs(v, c, c.in0)
    ensures LevelEntries(c.in0) == InputEntries(c)
  {
    hide Valid, Selected, ValidFile;
    var f := c.in0[0];
    assert f in c.in0;
    UpperInputIsFile(v, c, f);
    SingleFileEntries(c);
    LevelsInOrder(v);
    LevelBelow(v, c);
    forall lvl, g | 0 <= lvl < NUM_LEVELS && g in v.levels[lvl] && !IsInput(c, lvl, g)
      ensures g.number != f.number
    {
      NumberFoundOnce(v, c.level, f, lvl, g);
    }
  }

  lemma UpperInputIsFile(v: Version, c: Inputs, f: File)
    requires Valid(v) && Selected(v, c) && f in c.in0
    ensures f in v.levels[c.level] && ValidFile(f)
  {
    InputsAreFiles(v, c);
  }

  lemma SingleFileEntries(c: Inputs)
    requires |c.in0| == 1 && c.in1 == []
    ensures FileEntries(c.in0[0]) <= InputEntries(c)
    ensures LevelEntries(c.in0) == InputEntries(c)
  {
    assert c.in0[0] in c.in0;
  }

  lemma NumberFoundOnce(v: Version, i: nat, f: File, j: nat, g: File)
    requires Valid(v) && i < NUM_LEVELS && j < NUM_LEVELS && f in v.levels[i] && g in v.levels[j]
    requires i != j || f != g
    ensures f.number != g.number
  {
    if i == j {
      DifferentNumbers(v.levels[i], g, f);
    } else {
      assert DisjointNumbers(v.levels[if i < j then i else j], v.levels[if i < j then j else i]);
    }
  }

  // ---------- a tombstone that is lost ----------

  function Table(number: nat, entries: seq<Entry>): File
    requires entries != []
  {
    File(number, 1, entries[0].key, entries[|entries| - 1].key, entries)
  }

  /** Level 2 holds one user key, 2.0, across the end of a table: its deletion at sequence number 10
      in table 1, its older value in table 2. Compacting table 3 of level 1 takes table 1 along, by
      user-key overlap, and leaves table 2. */
  const OTHER: Entry := Entry(IKey(0.5, 3, Value), "a")
  const TOMBSTONE: Entry := Entry(IKey(2.0, 10, Deletion), "")
  const OLD_VALUE: Entry := Entry(IKey(2.0, 4, Value), "old")
  const UPPER: Entry := Entry(IKey(0.7, 12, Value), "b")

  function FirstTable(): File { Table(1, [OTHER, TOMBSTONE]) }

  function SecondTable(): File { Table(2, [OLD_VALUE]) }

  function ThirdTable(): File { Table(3, [UPPER]) }

  function SplitKeyVersion(): Version {
    Version([[], [ThirdTable()], [FirstTable(), SecondTable()], [], [], [], []])
  }

  function SplitKeyInputs(): Inputs {
    Inputs(1, [ThirdTable()], [FirstTable()], [], UPPER.key)
  }

  lemma FilesOfSplitKey(lvl: nat, f: File)
    requires lvl < NUM_LEVELS && f in SplitKeyVersion().levels[lvl]
    ensures (lvl == 1 && f == ThirdTable()) || (lvl == 2 && f in {FirstTable(), SecondTable()})
    ensures ValidFile(f)
  {
  }

  lemma InContents(v: Version, lvl: nat, f: File, e: Entry)
    requires lvl < |v.levels| && f in v.levels[lvl] && e in f.entries
    ensures e in Contents(v)
  {
    assert v.levels[lvl] in v.levels;
  }

  lemma SplitKeyTables()
    ensures FirstTable() in SplitKeyVersion().levels[2] && SecondTable() in SplitKeyVersion().levels[2]
    ensures ThirdTable() in SplitKeyVersion().levels[1]
    ensures forall e :: e in FirstTable().entries <==> e in {OTHER, TOMBSTONE}
    ensures forall e :: e in SecondTable().entries <==> e in {OLD_VALUE}
    ensures forall e :: e in ThirdTable().entries <==> e in {UPPER}
  {
    assert FirstTable() == SplitKeyVersion().levels[2][0];
    assert SecondTable() == SplitKeyVersion().levels[2][1];
  }

  lemma SplitKeyContents()
    ensures Contents(SplitKeyVersion()) == {OTHER, TOMBSTONE, OLD_VALUE, UPPER}
    ensures RestEntries(SplitKeyVersion(), SplitKeyInputs()) == {OLD_VALUE}
    ensures InputEntries(SplitKeyInputs()) == {OTHER, TOMBSTONE, UPPER}
  {
    var v, c := SplitKeyVersion(), SplitKeyInputs();
    SplitKeyTables();
    InContents(v, 2, FirstTable(), OTHER);
    InContents(v, 2, FirstTable(), TOMBSTONE);
    InContents(v, 2, SecondTable(), OLD_VALUE);
    InContents(v, 1, ThirdTable(), UPPER);
    forall e | e in Contents(v)
      ensures e in {OTHER, TOMBSTONE, OLD_VALUE, UPPER}
    {
      var lvl, f :| 0 <= lvl < NUM_LEVELS && f in v.levels[lvl] && e in f.entries;
      FilesOfSplitKey(lvl, f);
    }
    forall e | e in RestEntries(v, c)
      ensures e == OLD_VALUE
    {
      var lvl, f :| 0 <= lvl < NUM_LEVELS && f in v.levels[lvl] && !IsInput(c, lvl, f) && e in f.entries;
      FilesOfSplitKey(lvl, f);
    }
    assert ThirdTable() in c.in0 && FirstTable() in c.in1 && !IsInput(c, 2, SecondTable());
  }

  lemma SplitKeyLevels(lvl: nat)
    requires lvl < NUM_LEVELS
    ensures DistinctNumbers(SplitKeyVersion().levels[lvl])
    ensures SortedBySmallest(SplitKeyVersion().levels[lvl])
    ensures DisjointSorted(SplitKeyVersion().levels[lvl])
    ensures lvl == 0 || lvl > 2 ==> SplitKeyVersion().levels[lvl] == []
  {
    var level := SplitKeyVersion().levels[lvl];
    if lvl == 2 {
      assert |level| == 2 && level[0] == FirstTable() && level[1] == SecondTable();
    } else if lvl == 1 {
      assert |level| == 1;
    }
  }

  lemma SplitKeyAcrossLevels(i: nat, j: nat, f: File, g: File)
    requires i < j < NUM_LEVELS && f in SplitKeyVersion().levels[i] && g in SplitKeyVersion().levels[j]
    ensures FileNewer(f, g) && f.number != g.number
  {
    FilesOfSplitKey(i, f);
    FilesOfSplitKey(j, g);
    assert f.entries == [UPPER] && f.number == 3;
    assert forall b :: b in g.entries ==> b in [OTHER, TOMBSTONE, OLD_VALUE];
  }

  lemma SplitKeyEachLevel()
    ensures forall lvl, f :: 0 <= lvl < NUM_LEVELS && f in SplitKeyVersion().levels[lvl] ==> ValidFile(f)
    ensures forall lvl :: 0 <= lvl < NUM_LEVELS ==> DistinctNumbers(SplitKeyVersion().levels[lvl])
    ensures forall lvl :: 0 <= lvl < NUM_LEVELS ==> SortedBySmallest(SplitKeyVersion().levels[lvl])
    ensures forall lvl :: 1 <= lvl < NUM_LEVELS ==> DisjointSorted(SplitKeyVersion().levels[lvl])
    ensures NumberedByAge(SplitKeyVersion().levels[0])
  {
    forall lvl | 0 <= lvl < NUM_LEVELS
      ensures DistinctNumbers(SplitKeyVersion().levels[lvl]) && SortedBySmallest(SplitKeyVersion().levels[lvl])
      ensures DisjointSorted(SplitKeyVersion().levels[lvl])
    {
      SplitKeyLevels(lvl);
    }
    forall lvl, f | 0 <= lvl < NUM_LEVELS && f in SplitKeyVersion().levels[lvl]
      ensures ValidFile(f)
    {
      FilesOfSplitKey(lvl, f);
    }
    SplitKeyLevels(0);
  }

  lemma SplitKeyOrdered()
    ensures forall i, j :: 0 <= i < j < NUM_LEVELS ==>
              LevelNewer(SplitKeyVersion().levels[i], SplitKeyVersion().levels[j])
              && DisjointNumbers(SplitKeyVersion().levels[i], SplitKeyVersion().levels[j])
  {
    forall i, j, f, g | 0 <= i < j < NUM_LEVELS && f in SplitKeyVersion().levels[i] && g in SplitKeyVersion().levels[j]
      ensures FileNewer(f, g) && f.number != g.number
    {
      SplitKeyAcrossLevels(i, j, f, g);
    }
  }

  lemma SplitKeyIsValid()
    ensures Valid(SplitKeyVersion())
  {
    SplitKeyContents();
    SplitKeyReads();
    SplitKeyEachLevel();
    SplitKeyOrdered();
    IsValid(SplitKeyVersion());
  }

  lemma SplitKeyReads()
    ensures Distinct({OTHER, TOMBSTONE, OLD_VALUE, UPPER})
    ensures Newest(TOMBSTONE, {OTHER, TOMBSTONE, OLD_VALUE, UPPER}, 2.0, 12)
    ensures Newest(OLD_VALUE, {OLD_VALUE}, 2.0, 12)
  {
  }

  lemma SplitKeyInput(input: seq<Entry>)
    requires input == [OTHER, UPPER, TOMBSTONE]
    ensures Sorted(input) && SeqSet(input) == {OTHER, TOMBSTONE, UPPER}
    ensures Obsolete(SplitKeyVersion(), 1, TOMBSTONE, 12)
  {
    assert input[0] == OTHER && input[1] == UPPER && input[2] == TOMBSTONE;
    forall lvl | 3 <= lvl < NUM_LEVELS
      ensures SplitKeyVersion().levels[lvl] == []
    {
      SplitKeyLevels(lvl);
    }
  }

  lemma SplitKeyIsSelected()
    ensures Selected(SplitKeyVersion(), SplitKeyInputs())
  {
    var v, c := SplitKeyVersion(), SplitKeyInputs();
    assert ClosedSlice(v.levels[1], c.in0, 0, 1);
    var level := v.levels[2];
    assert level[..1] == [FirstTable()] && level[..1][..0] == [];
    assert Overlapping(level[..1], Some(0.7), Some(0.7)) == [FirstTable()];
  }

  /** `SetupOtherInputs` chooses these inputs, and the deletion is lost: a key that reads as missing
      reads as its old value afterwards. So the read-preservation law does need `LowerClosed`. */
  lemma TombstoneLossExample(input: seq<Entry>)
    requires input == [OTHER, UPPER, TOMBSTONE]
    ensures Valid(SplitKeyVersion()) && Selected(SplitKeyVersion(), SplitKeyInputs())
    ensures IsMergedInput(SplitKeyInputs(), input)
    ensures Read(Contents(SplitKeyVersion()), 2.0, 12) == Missing
    ensures Read(EntriesAfter(SplitKeyVersion(), SplitKeyInputs(), input, 12), 2.0, 12) == Found("old")
  {
    SplitKeyIsValid();
    SplitKeyIsSelected();
    SplitKeyContents();
    SplitKeyInput(input);
    SplitKeyVerdicts(input, Contents(SplitKeyVersion()), RestEntries(SplitKeyVersion(), SplitKeyInputs()));
  }

  lemma SplitKeyVerdicts(input: seq<Entry>, before: set<Entry>, rest: set<Entry>)
    requires before == {OTHER, TOMBSTONE, OLD_VALUE, UPPER} && rest == {OLD_VALUE}
    requires input == [OTHER, UPPER, TOMBSTONE]
    ensures Read(before, 2.0, 12) == Missing
    ensures Read(rest + SeqSet(Kept(SplitKeyVersion(), 1, input, |input|, 12)), 2.0, 12) == Found("old")
  {
    SplitKeyInput(input);
    SplitKeyReads();
    ReadOfNewest(before, 2.0, 12, TOMBSTONE);
    ReadOfNewest(rest, 2.0, 12, OLD_VALUE);
    ReadBelowTombstone(SplitKeyVersion(), 1, input, 12, before, rest,
                       rest + SeqSet(Kept(SplitKeyVersion(), 1, input, |input|, 12)), 2.0, 12, 2);
  }
}
