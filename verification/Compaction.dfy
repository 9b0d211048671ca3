/** Merging the inputs of a compaction into new tables (db/db_impl.cc, db/version_set.cc). */
module Compaction {
  import opened History
  import opened Version
  import opened Picking

  /** No file below the output level covers the user key. */
  ghost predicate BaseLevel(v: Version, level: nat, u: UserKey)
    requires |v.levels| == NUM_LEVELS
  {
    forall lvl, f :: level + 2 <= lvl < NUM_LEVELS && f in v.levels[lvl] ==> !(f.smallest.user <= u <= f.largest.user)
  }

  /** Rule (A): a newer entry of the same user key is already visible to every snapshot. */
  ghost predicate Hidden(input: seq<Entry>, i: nat, snapshot: nat)
    requires i < |input|
  {
    exists j :: 0 <= j < i && input[j].key.user == input[i].key.user && input[j].key.sequence <= snapshot
  }

  /** The other rule: a deletion that every snapshot sees and that covers nothing below. */
  ghost predicate Obsolete(v: Version, level: nat, e: Entry, snapshot: nat)
    requires |v.levels| == NUM_LEVELS
  {
    e.key.kind.Deletion? && e.key.sequence <= snapshot && BaseLevel(v, level, e.key.user)
  }

  ghost predicate Dropped(v: Version, level: nat, input: seq<Entry>, i: nat, snapshot: nat)
    requires |v.levels| == NUM_LEVELS && i < |input|
  {
    Hidden(input, i, snapshot) || Obsolete(v, level, input[i], snapshot)
  }

  /** The entries among the first `n` that the two rules keep. */
  ghost function Kept(v: Version, level: nat, input: seq<Entry>, n: nat, snapshot: nat): seq<Entry>
    requires |v.levels| == NUM_LEVELS && n <= |input|
  {
    if n == 0 then []
    else Kept(v, level, input, n - 1, snapshot) + if Dropped(v, level, input, n - 1, snapshot) then [] else [input[n - 1]]
  }

  /** The part of the version invariants that the cursors rely on. */
  ghost predicate SortedBelow(v: Version) {
    && |v.levels| == NUM_LEVELS
    && (forall lvl :: 1 <= lvl < NUM_LEVELS ==> DisjointSorted(v.levels[lvl]))
    && (forall lvl, f :: 0 <= lvl < NUM_LEVELS && f in v.levels[lvl] ==> f.smallest.user <= f.largest.user)
  }

  lemma TotalOfSlice(files: seq<File>, a: nat, b: nat)
    requires a <= b < |files|
    ensures TotalFileSize(files[a..b + 1]) == TotalFileSize(files[a..b]) + files[b].size
  {
    assert files[a..b + 1][..b - a] == files[a..b];
  }

  class Compaction {
    const version: Version
    const inputs: Inputs
    const maxGrandParentOverlap: nat
    var levelPtrs: seq<nat>
    var grandparentIndex: nat
    var seenKey: bool
    var overlappedBytes: nat

    constructor (v: Version, c: Inputs, maxGrandParentOverlap: nat)
      requires SortedBelow(v)
      ensures version == v && inputs == c && forall u :: CursorBefore(u)
      ensures grandparentIndex == 0 && !seenKey && overlappedBytes == 0
    {
      version, inputs, this.maxGrandParentOverlap := v, c, maxGrandParentOverlap;
      levelPtrs := seq(NUM_LEVELS, _ => 0);
      grandparentIndex, seenKey, overlappedBytes := 0, false, 0;
    }

    /** Every file the cursors have passed ends before `u`. */
    ghost predicate CursorBefore(u: UserKey)
      reads this
    {
      && SortedBelow(version)
      && |levelPtrs| == NUM_LEVELS
      && forall lvl :: inputs.level + 2 <= lvl < NUM_LEVELS ==>
           && levelPtrs[lvl] <= |version.levels[lvl]|
           && forall i :: 0 <= i < levelPtrs[lvl] ==> version.levels[lvl][i].largest.user < u
    }

    /** The cursors only move forward, so the keys asked about must not decrease. */
    method IsBaseLevelForKey(u: UserKey) returns (b: bool)
      requires CursorBefore(u)
      modifies this`levelPtrs
      ensures CursorBefore(u)
      ensures b <==> BaseLevel(version, inputs.level, u)
    {
      var lvl := inputs.level + 2;
      while lvl < NUM_LEVELS
        invariant CursorBefore(u)
        invariant forall l, f :: inputs.level + 2 <= l < lvl && l < NUM_LEVELS && f in version.levels[l] ==>
                    !(f.smallest.user <= u <= f.largest.user)
      {
        var files := version.levels[lvl];
        while levelPtrs[lvl] < |files|
          invariant CursorBefore(u)
          decreases |files| - levelPtrs[lvl]
        {
          var f := files[levelPtrs[lvl]];
          if u <= f.largest.user {
            if f.smallest.user <= u {
              assert f in files;
              return false;
            }
            break;
          }
          levelPtrs := levelPtrs[lvl := levelPtrs[lvl] + 1];
        }
        assert forall i :: levelPtrs[lvl] < i < |files| ==> Before(files[levelPtrs[lvl]].largest, files[i].smallest);
        assert levelPtrs[lvl] < |files| ==> files[levelPtrs[lvl]] in files;
        lvl := lvl + 1;
      }
      b := true;
    }

    /** Ends an output table that overlaps too much of the level below the output: the sizes of the
        files passed since the last end are added up. */
    method ShouldStopBefore(key: IKey) returns (stop: bool)
      requires grandparentIndex <= |inputs.grandparents|
      modifies this`grandparentIndex, this`seenKey, this`overlappedBytes
      ensures old(grandparentIndex) <= grandparentIndex <= |inputs.grandparents|
      ensures forall i :: old(grandparentIndex) <= i < grandparentIndex ==> Before(inputs.grandparents[i].largest, key)
      ensures grandparentIndex < |inputs.grandparents| ==> !Before(inputs.grandparents[grandparentIndex].largest, key)
      ensures var total := old(overlappedBytes)
                           + if old(seenKey) then TotalFileSize(inputs.grandparents[old(grandparentIndex)..grandparentIndex]) else 0;
              seenKey && stop == (total > maxGrandParentOverlap) && overlappedBytes == if stop then 0 else total
    {
      while grandparentIndex < |inputs.grandparents| && Before(inputs.grandparents[grandparentIndex].largest, key)
        invariant old(grandparentIndex) <= grandparentIndex <= |inputs.grandparents| && seenKey == old(seenKey)
        invariant forall i :: old(grandparentIndex) <= i < grandparentIndex ==> Before(inputs.grandparents[i].largest, key)
        invariant overlappedBytes == old(overlappedBytes)
                    + if seenKey then TotalFileSize(inputs.grandparents[old(grandparentIndex)..grandparentIndex]) else 0
      {
        TotalOfSlice(inputs.grandparents, old(grandparentIndex), grandparentIndex);
        if seenKey {
          overlappedBytes := overlappedBytes + inputs.grandparents[grandparentIndex].size;
        }
        grandparentIndex := grandparentIndex + 1;
      }
      seenKey := true;
      stop := overlappedBytes > maxGrandParentOverlap;
      if stop {
        overlappedBytes := 0;
      }
    }
  }

  // ---------- output files ----------

  ghost function Concat(files: seq<File>): seq<Entry> {
    if files == [] then [] else Concat(files[..|files| - 1]) + files[|files| - 1].entries
  }

  /** Metadata that fit the contents, and consecutive fresh numbers. */
  ghost predicate WellDescribed(outputs: seq<File>, firstNumber: nat) {
    forall i :: 0 <= i < |outputs| ==>
      && outputs[i].number == firstNumber + i
      && outputs[i].entries != []
      && outputs[i].smallest == outputs[i].entries[0].key
      && outputs[i].largest == outputs[i].entries[|outputs[i].entries| - 1].key
  }

  /** The tables finished so far and the one being built. */
  class CompactionState {
    const firstNumber: nat
    var outputs: seq<File>
    var builder: Option<seq<Entry>>

    ghost predicate Valid()
      reads this
    {
      WellDescribed(outputs, firstNumber) && (builder.Some? ==> builder.value != [])
    }

    /** Everything added so far. */
    ghost function Written(): seq<Entry>
      reads this
    {
      Concat(outputs) + if builder.Some? then builder.value else []
    }

    constructor (firstNumber: nat)
      ensures Valid() && Written() == [] && this.firstNumber == firstNumber
    {
      this.firstNumber := firstNumber;
      outputs, builder := [], None;
    }

    method Finish(size: nat)
      requires Valid() && builder.Some?
      modifies this
      ensures Valid() && builder.None? && Written() == old(Written())
    {
      var entries := builder.value;
      var f := File(firstNumber + |outputs|, size, entries[0].key, entries[|entries| - 1].key, entries);
      assert (outputs + [f])[..|outputs|] == outputs;
      outputs := outputs + [f];
      builder := None;
    }

    method FinishIf(stop: bool, tableSize: seq<Entry> -> nat)
      requires Valid()
      modifies this
      ensures Valid() && Written() == old(Written())
      ensures stop ==> builder.None?
    {
      if stop && builder.Some? {
        Finish(tableSize(builder.value));
      }
    }

    /** Appends an entry that is kept, and closes the table once it is big enough. */
    method Emit(e: Entry, tableSize: seq<Entry> -> nat, maxOutputFileSize: nat)
      requires Valid()
      modifies this
      ensures Valid() && Written() == old(Written()) + [e]
    {
      Add(e);
      FinishIf(tableSize(builder.value) >= maxOutputFileSize, tableSize);
    }

    /** Opens an output table when there is none, and appends to it. */
    method Add(e: Entry)
      requires Valid()
      modifies this
      ensures Valid() && builder.Some? && Written() == old(Written()) + [e]
    {
      if builder.None? {
        builder := Some([]);
      }
      assert Concat(outputs) + (builder.value + [e]) == Concat(outputs) + builder.value + [e];
      builder := Some(builder.value + [e]);
    }
  }

  /** The two drop rules, given the sequence number of the previous entry of the same user key. */
  method ShouldDrop(compaction: Compaction, e: Entry, lastSequenceForKey: nat, smallestSnapshot: nat) returns (drop: bool)
    requires compaction.CursorBefore(e.key.user)
    modifies compaction`levelPtrs
    ensures compaction.CursorBefore(e.key.user)
    ensures drop <==> lastSequenceForKey <= smallestSnapshot
                      || Obsolete(compaction.version, compaction.inputs.level, e, smallestSnapshot)
  {
    if lastSequenceForKey <= smallestSnapshot {
      drop := true;
    } else if e.key.kind.Deletion? && e.key.sequence <= smallestSnapshot {
      drop := compaction.IsBaseLevelForKey(e.key.user);
    } else {
      drop := false;
    }
  }

  /** The merge loop of `DoCompactionWork`. `tableSize` is the size of the table file that holds
      the given entries. */
  method DoCompactionWork(compaction: Compaction, input: seq<Entry>, smallestSnapshot: nat,
                          tableSize: seq<Entry> -> nat, maxOutputFileSize: nat, firstNumber: nat)
    returns (outputs: seq<File>)
    requires SortedBelow(compaction.version)
    requires Sorted(input) && smallestSnapshot < MAX_SEQUENCE
    requires input != [] ==> compaction.CursorBefore(input[0].key.user)
    requires compaction.grandparentIndex <= |compaction.inputs.grandparents|
    modifies compaction
    ensures WellDescribed(outputs, firstNumber)
    ensures Concat(outputs) == Kept(compaction.version, compaction.inputs.level, input, |input|, smallestSnapshot)
  {
    ghost var v, level := compaction.version, compaction.inputs.level;
    var compact := new CompactionState(firstNumber);
    var currentUserKey: Option<UserKey> := None;
    var lastSequenceForKey := MAX_SEQUENCE;
    for i := 0 to |input|
      invariant fresh(compact) && compact.Valid() && compact.firstNumber == firstNumber
      invariant i < |input| ==> compaction.CursorBefore(input[i].key.user)
      invariant compaction.grandparentIndex <= |compaction.inputs.grandparents|
      invariant currentUserKey == if i == 0 then None else Some(input[i - 1].key.user)
      invariant i > 0 ==> lastSequenceForKey == input[i - 1].key.sequence
      invariant compact.Written() == Kept(v, level, input, i, smallestSnapshot)
    {
      var e := input[i];
      var stop := compaction.ShouldStopBefore(e.key);
      compact.FinishIf(stop, tableSize);
      if currentUserKey.None? || e.key.user != currentUserKey.value {
        currentUserKey := Some(e.key.user);
        lastSequenceForKey := MAX_SEQUENCE;
      }
      HiddenByPrevious(input, i, smallestSnapshot);
      var drop := ShouldDrop(compaction, e, lastSequenceForKey, smallestSnapshot);
      lastSequenceForKey := e.key.sequence;
      if !drop {
        compact.Emit(e, tableSize, maxOutputFileSize);
      }
      assert i + 1 < |input| ==> Before(e.key, input[i + 1].key);
    }
    compact.FinishIf(true, tableSize);
    outputs := compact.outputs;
  }

  /** Entries of a user key are neighbours in decreasing order, so rule (A) need only look at the
      entry just before. */
  lemma HiddenByPrevious(input: seq<Entry>, i: nat, snapshot: nat)
    requires Sorted(input) && i < |input|
    ensures Hidden(input, i, snapshot) <==>
              i > 0 && input[i - 1].key.user == input[i].key.user && input[i - 1].key.sequence <= snapshot
  {
    if Hidden(input, i, snapshot) {
      var j :| 0 <= j < i && input[j].key.user == input[i].key.user && input[j].key.sequence <= snapshot;
      assert Before(input[i - 1].key, input[i].key);
      assert j < i - 1 ==> Before(input[j].key, input[i - 1].key);
    }
  }
}
