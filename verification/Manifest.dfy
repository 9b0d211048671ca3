/** Version edits, the builder that applies them, and the manifest (db/version_set.cc, db/version_edit.h). */
module Manifest {
  import opened History
  import opened Version

  /** What a `VersionEdit` does to the file lists, and the counters it records. */
  datatype Edit = Edit(deleted: set<(nat, nat)>, added: seq<(nat, File)>,
                       logNumber: Option<nat>, prevLogNumber: Option<nat>,
                       nextFile: Option<nat>, lastSequence: Option<nat>)

  ghost predicate ValidEdit(e: Edit) {
    && (forall d :: d in e.deleted ==> d.0 < NUM_LEVELS)
    && (forall a :: a in e.added ==> a.0 < NUM_LEVELS)
  }

  ghost function AddedAt(e: Edit, lvl: nat): set<File> {
    set a | a in e.added && a.0 == lvl :: a.1
  }

  ghost predicate DeletedAt(e: Edit, lvl: nat, f: File) {
    (lvl, f.number) in e.deleted && f !in AddedAt(e, lvl)
  }

  ghost function AllAdded(e: Edit): set<File> {
    set a | a in e.added :: a.1
  }

  /** The files of one level after an edit. */
  ghost function EditedFiles(files: set<File>, e: Edit, lvl: nat): set<File> {
    set f | f in files + AddedAt(e, lvl) && !DeletedAt(e, lvl, f)
  }

  /** A file number names one table for ever. */
  ghost predicate NumbersIdentify(universe: set<File>) {
    forall f, g :: f in universe && g in universe && f.number == g.number ==> f == g
  }

  // ---------- order of a level ----------

  lemma BySmallestIsStrictOrder(f: File, g: File, h: File)
    ensures BySmallest(f, g) && BySmallest(g, h) ==> BySmallest(f, h)
    ensures !(BySmallest(f, g) && BySmallest(g, f))
    ensures f.number != g.number ==> BySmallest(f, g) || BySmallest(g, f)
  {
  }

  /** A set of files has only one sorted listing. */
  lemma {:induction false} SortedListingIsUnique(a: Level, b: Level)
    requires SortedBySmallest(a) && SortedBySmallest(b)
    requires forall f :: f in a <==> f in b
    ensures a == b
  {
    if a == [] {
      NonEmptyHasMember(b);
    } else {
      assert a[0] in b;
      var i :| 0 <= i < |b| && b[i] == a[0];
      assert b[0] in a;
      var j :| 0 <= j < |a| && a[j] == b[0];
      assert i == 0 && j == 0;
      TailMembers(a);
      TailMembers(b);
      SortedListingIsUnique(a[1..], b[1..]);
    }
  }

  lemma NonEmptyHasMember(a: Level)
    ensures a != [] ==> exists f :: f in a
  {
    if a != [] {
      assert a[0] in a;
    }
  }

  lemma TailMembers(a: Level)
    requires SortedBySmallest(a) && a != []
    ensures SortedBySmallest(a[1..])
    ensures forall f :: f in a[1..] <==> f in a && f != a[0]
  {
    forall f | f in a && f != a[0]
      ensures f in a[1..]
    {
      var k :| 0 <= k < |a| && a[k] == f;
      assert f == a[1..][k - 1];
    }
  }

  /** Pairwise disjoint files are disjoint and sorted once they are sorted by smallest key. */
  lemma SortedDisjointFiles(level: Level)
    requires forall f :: f in level ==> ValidFile(f)
    requires SortedBySmallest(level)
    requires forall f, g :: f in level && g in level && f != g ==> Apart(f, g)
    ensures DisjointSorted(level)
  {
    forall i, j | 0 <= i < j < |level|
      ensures Before(level[i].largest, level[j].smallest)
    {
      var f, g := level[i], level[j];
      assert f in level && g in level && BySmallest(f, g) && Apart(f, g);
      RangeOrdered(f);
      RangeOrdered(g);
    }
  }

  // ---------- the builder ----------

  class Builder {
    const base: Version
    var deleted: seq<set<nat>>
    var added: seq<Level>

    ghost predicate Valid()
      reads this
    {
      && |base.levels| == |deleted| == |added| == NUM_LEVELS
      && (forall lvl :: 0 <= lvl < NUM_LEVELS ==> SortedBySmallest(base.levels[lvl]) && SortedBySmallest(added[lvl]))
    }

    /** The files the builder stands for at one level. */
    ghost function Live(lvl: nat): set<File>
      requires Valid() && lvl < NUM_LEVELS
      reads this
    {
      set f | f in FilesOf(base.levels[lvl]) + FilesOf(added[lvl]) && f.number !in deleted[lvl]
    }

    /** Every file the builder has seen at one level. */
    ghost function Seen(lvl: nat): set<File>
      requires Valid() && lvl < NUM_LEVELS
      reads this
    {
      FilesOf(base.levels[lvl]) + FilesOf(added[lvl])
    }

    constructor (v: Version)
      requires |v.levels| == NUM_LEVELS
      requires forall lvl :: 0 <= lvl < NUM_LEVELS ==> SortedBySmallest(v.levels[lvl])
      ensures Valid() && base == v
      ensures forall lvl :: 0 <= lvl < NUM_LEVELS ==> deleted[lvl] == {} && added[lvl] == []
      ensures forall lvl :: 0 <= lvl < NUM_LEVELS ==> Live(lvl) == FilesOf(v.levels[lvl])
    {
      base := v;
      deleted := seq(NUM_LEVELS, _ => {});
      added := seq(NUM_LEVELS, _ => []);
    }

    /** Inserting into the ordered set of added files: an equivalent file is already there, or
        the file goes where the order puts it. */
    method InsertAdded(lvl: nat, f: File)
      requires Valid() && lvl < NUM_LEVELS
      requires forall g :: g in added[lvl] && g.number == f.number ==> g == f
      modifies this`added
      ensures Valid()
      ensures FilesOf(added[lvl]) == FilesOf(old(added[lvl])) + {f}
      ensures forall m :: 0 <= m < NUM_LEVELS && m != lvl ==> added[m] == old(added[m])
    {
      var files := added[lvl];
      var k := 0;
      while k < |files| && BySmallest(files[k], f)
        invariant k <= |files|
        invariant forall m :: 0 <= m < k ==> BySmallest(files[m], f)
      {
        k := k + 1;
      }
      if k < |files| && !BySmallest(f, files[k]) {
        BySmallestIsStrictOrder(f, files[k], f);
        assert files[k] in added[lvl];
        assert files[k] == f;
      } else {
        forall m | k <= m < |files|
          ensures BySmallest(f, files[m])
        {
          if k < m { BySmallestIsStrictOrder(f, files[k], files[m]); }
        }
        added := added[lvl := InsertAt(files, k, f)];
      }
    }

    method ApplyDeletions(e: Edit)
      requires Valid() && ValidEdit(e)
      modifies this`deleted
      ensures Valid()
      ensures forall lvl, n :: 0 <= lvl < NUM_LEVELS ==>
                (n in deleted[lvl] <==> n in old(deleted[lvl]) || (lvl, n) in e.deleted)
    {
      var toDelete := e.deleted;
      while toDelete != {}
        invariant Valid()
        invariant toDelete <= e.deleted
        invariant forall lvl, n :: 0 <= lvl < NUM_LEVELS ==>
                    (n in deleted[lvl] <==> n in old(deleted[lvl]) || (lvl, n) in e.deleted - toDelete)
      {
        var d :| d in toDelete;
        toDelete := toDelete - {d};
        deleted := deleted[d.0 := deleted[d.0] + {d.1}];
      }
    }

    method ApplyAdditions(e: Edit)
      requires Valid() && ValidEdit(e)
      requires forall lvl :: 0 <= lvl < NUM_LEVELS ==> NumbersIdentify(Seen(lvl) + AddedAt(e, lvl))
      modifies this
      ensures Valid()
      ensures forall lvl :: 0 <= lvl < NUM_LEVELS ==> FilesOf(added[lvl]) == old(FilesOf(added[lvl])) + AddedAt(e, lvl)
      ensures forall lvl :: 0 <= lvl < NUM_LEVELS ==> deleted[lvl] == old(deleted[lvl]) - Numbers(AddedAt(e, lvl))
    {
      for i := 0 to |e.added|
        invariant Valid()
        invariant forall lvl :: 0 <= lvl < NUM_LEVELS ==> FilesOf(added[lvl]) == old(FilesOf(added[lvl])) + AddedUpTo(e, lvl, i)
        invariant forall lvl :: 0 <= lvl < NUM_LEVELS ==> deleted[lvl] == old(deleted[lvl]) - Numbers(AddedUpTo(e, lvl, i))
      {
        var lvl, f := e.added[i].0, e.added[i].1;
        assert e.added[i] in e.added && f in AddedAt(e, lvl);
        forall g | g in added[lvl] && g.number == f.number
          ensures g == f
        {
          assert g in FilesOf(added[lvl]);
        }
        AddedStep(e, i);
        deleted := deleted[lvl := deleted[lvl] - {f.number}];
        InsertAdded(lvl, f);
      }
      assert forall lvl: nat :: AddedUpTo(e, lvl, |e.added|) == AddedAt(e, lvl);
    }

    /** `Builder::Apply`: afterwards the builder stands for the edited file sets. */
    method Apply(e: Edit)
      requires Valid() && ValidEdit(e)
      requires forall lvl :: 0 <= lvl < NUM_LEVELS ==> NumbersIdentify(Seen(lvl) + AddedAt(e, lvl))
      modifies this
      ensures Valid()
      ensures forall lvl :: 0 <= lvl < NUM_LEVELS ==> Live(lvl) == EditedFiles(old(Live(lvl)), e, lvl)
      ensures forall lvl :: 0 <= lvl < NUM_LEVELS ==> FilesOf(added[lvl]) == old(FilesOf(added[lvl])) + AddedAt(e, lvl)
    {
      ApplyDeletions(e);
      ApplyAdditions(e);
    }

    /** `MaybeAddFile`: appends unless the file is deleted. */
    method MaybeAddFile(lvl: nat, files: Level, f: File) returns (r: Level)
      requires Valid() && lvl < NUM_LEVELS
      ensures r == if f.number in deleted[lvl] then files else files + [f]
    {
      if f.number in deleted[lvl] {
        return files;
      }
      r := files + [f];
    }

    /** One level of `Builder::SaveTo`: merges the added files into the base files. */
    method SaveLevel(lvl: nat) returns (r: Level)
      requires Valid() && lvl < NUM_LEVELS
      requires FilesOf(base.levels[lvl]) !! FilesOf(added[lvl]) && NumbersIdentify(Seen(lvl))
      ensures SortedBySmallest(r) && FilesOf(r) == Live(lvl)
    {
      r := [];
      var b, a := base.levels[lvl], added[lvl];
      AllComparable(b, a);
      var i := 0;
      for j := 0 to |a|
        invariant i <= |b| && Merged(r, b, a, i, j, deleted[lvl])
      {
        // all smaller base files come first
        while i < |b| && !BySmallest(a[j], b[i])
          invariant i <= |b| && Merged(r, b, a, i, j, deleted[lvl])
        {
          MergePush(r, b, a, i, j, deleted[lvl]);
          r := MaybeAddFile(lvl, r, b[i]);
          i := i + 1;
        }
        MergePush(r, a, b, j, i, deleted[lvl]);
        r := MaybeAddFile(lvl, r, a[j]);
      }
      while i < |b|
        invariant i <= |b| && Merged(r, b, a, i, |a|, deleted[lvl])
      {
        MergePush(r, b, a, i, |a|, deleted[lvl]);
        r := MaybeAddFile(lvl, r, b[i]);
        i := i + 1;
      }
      assert b[..|b|] == b && a[..|a|] == a;
    }

    /** `Builder::SaveTo`. The source asserts, above level 0, that each file starts after the end of
        the one before it; that holds whenever the live files are pairwise disjoint. */
    method SaveTo() returns (v: Version)
      requires Valid()
      requires forall lvl :: 0 <= lvl < NUM_LEVELS ==>
                 FilesOf(base.levels[lvl]) !! FilesOf(added[lvl]) && NumbersIdentify(Seen(lvl))
      ensures |v.levels| == NUM_LEVELS
      ensures forall lvl :: 0 <= lvl < NUM_LEVELS ==> SortedBySmallest(v.levels[lvl]) && FilesOf(v.levels[lvl]) == Live(lvl)
    {
      var levels: seq<Level> := [];
      for lvl := 0 to NUM_LEVELS
        invariant |levels| == lvl
        invariant forall m :: 0 <= m < lvl ==> SortedBySmallest(levels[m]) && FilesOf(levels[m]) == Live(m)
      {
        var level := SaveLevel(lvl);
        levels := levels + [level];
      }
      v := Version(levels);
    }
  }

  /** `r` lists in order the undeleted files among the first `i` of `b` and the first `j` of `a`,
      all of which come before the rest. */
  ghost predicate Merged(r: Level, b: Level, a: Level, i: nat, j: nat, del: set<nat>) {
    && i <= |b| && j <= |a|
    && SortedBySmallest(b) && SortedBySmallest(a)
    && SortedBySmallest(r)
    && (forall f :: f in r <==> (f in b[..i] || f in a[..j]) && f.number !in del)
    && (forall f, m :: f in r && i <= m < |b| ==> BySmallest(f, b[m]))
    && (forall f, m :: f in r && j <= m < |a| ==> BySmallest(f, a[m]))
  }

  /** Pushing the next file of `b` when it precedes the next file of `a`; by symmetry of
      `Merged`, also the other way round. */
  lemma MergePush(r: Level, b: Level, a: Level, i: nat, j: nat, del: set<nat>)
    requires Merged(r, b, a, i, j, del) && i < |b|
    requires j < |a| ==> BySmallest(b[i], a[j])
    ensures Merged(if b[i].number in del then r else r + [b[i]], b, a, i + 1, j, del)
    ensures Merged(if b[i].number in del then r else r + [b[i]], a, b, j, i + 1, del)
  {
    assert b[..i + 1] == b[..i] + [b[i]];
    forall m | j <= m < |a|
      ensures BySmallest(b[i], a[m])
    {
      if j < m { BySmallestIsStrictOrder(b[i], a[j], a[m]); }
    }
  }

  lemma AllComparable(b: Level, a: Level)
    requires FilesOf(b) !! FilesOf(a) && NumbersIdentify(FilesOf(b) + FilesOf(a))
    ensures forall f, g :: f in b && g in a ==> BySmallest(f, g) || BySmallest(g, f)
  {
    forall f, g | f in b && g in a
      ensures BySmallest(f, g) || BySmallest(g, f)
    {
      assert f in FilesOf(b) && g in FilesOf(a);
      BySmallestIsStrictOrder(f, g, f);
    }
  }

  ghost function AddedUpTo(e: Edit, lvl: nat, n: nat): set<File>
    requires n <= |e.added|
  {
    set i | 0 <= i < n && e.added[i].0 == lvl :: e.added[i].1
  }

  ghost function Numbers(files: set<File>): set<nat> {
    set f | f in files :: f.number
  }

  lemma AddedStep(e: Edit, n: nat)
    requires n < |e.added|
    ensures forall lvl: nat :: AddedUpTo(e, lvl, n + 1) == AddedUpTo(e, lvl, n) + if lvl == e.added[n].0 then {e.added[n].1} else {}
  {
  }

  // ---------- the manifest ----------

  datatype Counter = LogNumber | PrevLogNumber | NextFile | LastSequence

  function Recorded(e: Edit, c: Counter): Option<nat> {
    match c
    case LogNumber => e.logNumber
    case PrevLogNumber => e.prevLogNumber
    case NextFile => e.nextFile
    case LastSequence => e.lastSequence
  }

  /** The last value a manifest records for a counter. */
  ghost function LastRecorded(manifest: seq<Edit>, c: Counter): Option<nat> {
    if manifest == [] then None
    else
      var n := |manifest| - 1;
      if Recorded(manifest[n], c).Some? then Recorded(manifest[n], c) else LastRecorded(manifest[..n], c)
  }

  /** The files of one level after installing each edit in turn. */
  ghost function Replayed(manifest: seq<Edit>, lvl: nat): set<File> {
    if manifest == [] then {}
    else EditedFiles(Replayed(manifest[..|manifest| - 1], lvl), manifest[|manifest| - 1], lvl)
  }

  /** Every file a manifest ever adds at a level. */
  ghost function EverAdded(manifest: seq<Edit>, lvl: nat): set<File> {
    set e, f | e in manifest && f in AddedAt(e, lvl) :: f
  }

  ghost predicate ValidManifest(manifest: seq<Edit>) {
    && (forall e :: e in manifest ==> ValidEdit(e))
    && (forall lvl :: 0 <= lvl < NUM_LEVELS ==> NumbersIdentify(EverAdded(manifest, lvl)))
  }

  datatype Counters = Counters(logNumber: nat, prevLogNumber: nat, nextFile: nat, lastSequence: nat)

  datatype RecoverStatus = Recovered(version: Version, counters: Counters) | Corruption(reason: string)

  function EmptyVersion(): Version {
    Version(seq(NUM_LEVELS, _ => []))
  }

  /** `VersionSet::Recover`: one builder takes every edit, then the version is saved once. */
  method Recover(manifest: seq<Edit>) returns (r: RecoverStatus)
    requires ValidManifest(manifest)
    ensures r.Recovered? <==> LastRecorded(manifest, NextFile).Some? && LastRecorded(manifest, LogNumber).Some?
                              && LastRecorded(manifest, LastSequence).Some?
    ensures r.Recovered? ==> |r.version.levels| == NUM_LEVELS
    ensures r.Recovered? ==> forall lvl :: 0 <= lvl < NUM_LEVELS ==>
              SortedBySmallest(r.version.levels[lvl]) && FilesOf(r.version.levels[lvl]) == Replayed(manifest, lvl)
    ensures r.Recovered? ==> RecoveredCounters(manifest, r.counters)
  {
    var builder := new Builder(EmptyVersion());
    var log: Option<nat>, prevLog: Option<nat>, next: Option<nat>, last: Option<nat> := None, None, None, None;
    for i := 0 to |manifest|
      invariant builder.Valid() && builder.base == EmptyVersion() && fresh(builder)
      invariant forall lvl :: 0 <= lvl < NUM_LEVELS ==> builder.Live(lvl) == Replayed(manifest[..i], lvl)
      invariant forall lvl :: 0 <= lvl < NUM_LEVELS ==> FilesOf(builder.added[lvl]) <= EverAdded(manifest, lvl)
      invariant log == LastRecorded(manifest[..i], LogNumber) && prevLog == LastRecorded(manifest[..i], PrevLogNumber)
      invariant next == LastRecorded(manifest[..i], NextFile) && last == LastRecorded(manifest[..i], LastSequence)
    {
      var edit := manifest[i];
      assert manifest[..i + 1][..i] == manifest[..i] && manifest[..i + 1][i] == edit;
      forall lvl | 0 <= lvl < NUM_LEVELS
        ensures AddedAt(edit, lvl) <= EverAdded(manifest, lvl)
      {
        assert edit in manifest;
      }
      builder.Apply(edit);
      log := if edit.logNumber.Some? then edit.logNumber else log;
      prevLog := if edit.prevLogNumber.Some? then edit.prevLogNumber else prevLog;
      next := if edit.nextFile.Some? then edit.nextFile else next;
      last := if edit.lastSequence.Some? then edit.lastSequence else last;
    }
    assert manifest[..|manifest|] == manifest;
    if next.None? {
      return Corruption("no meta-nextfile entry in descriptor");
    } else if log.None? {
      return Corruption("no meta-lognumber entry in descriptor");
    } else if last.None? {
      return Corruption("no last-sequence-number entry in descriptor");
    }
    var v := builder.SaveTo();
    var prev := if prevLog.Some? then prevLog.value else 0;
    r := Recovered(v, Counters(log.value, prev, next.value + 1, last.value));
  }

  ghost predicate RecoveredCounters(manifest: seq<Edit>, c: Counters) {
    && LastRecorded(manifest, LogNumber) == Some(c.logNumber)
    && LastRecorded(manifest, LastSequence) == Some(c.lastSequence)
    && c.nextFile > 0 && LastRecorded(manifest, NextFile) == Some(c.nextFile - 1)
    && c.prevLogNumber == (if LastRecorded(manifest, PrevLogNumber).Some? then LastRecorded(manifest, PrevLogNumber).value else 0)
  }

  /** Replaying the manifest gives the files of the version. */
  ghost predicate Describes(manifest: seq<Edit>, v: Version) {
    && ValidManifest(manifest)
    && |v.levels| == NUM_LEVELS
    && forall lvl :: 0 <= lvl < NUM_LEVELS ==> FilesOf(v.levels[lvl]) == Replayed(manifest, lvl)
  }

  ghost function FilesOfVersion(v: Version): set<File> {
    set level, f | level in v.levels && f in level :: f
  }

  /** What a manifest has to record of the current state to be recoverable. */
  ghost predicate Records(manifest: seq<Edit>, v: Version, c: Counters) {
    && Describes(manifest, v)
    && LastRecorded(manifest, LogNumber) == Some(c.logNumber)
    && LastRecorded(manifest, PrevLogNumber) == Some(c.prevLogNumber)
    && LastRecorded(manifest, NextFile).Some? && LastRecorded(manifest, LastSequence).Some?
  }

  class VersionSet {
    var current: Version
    var counters: Counters
    var hasDescriptor: bool
    var manifest: seq<Edit>
    ghost var files: set<File>  // every table there has ever been

    /** The manifest, replayed, is the current version; and it records the current log numbers. */
    ghost predicate Valid()
      reads this
    {
      && |current.levels| == NUM_LEVELS
      && (forall lvl :: 0 <= lvl < NUM_LEVELS ==> SortedBySmallest(current.levels[lvl]) && FilesOf(current.levels[lvl]) <= files)
      && NumbersIdentify(files)
      && (forall f :: f in files ==> f.number < counters.nextFile)
      && (hasDescriptor ==>
            && Records(manifest, current, counters)
            && forall lvl :: 0 <= lvl < NUM_LEVELS ==> EverAdded(manifest, lvl) <= files)
    }

    /** The state after `Recover`: a version, its counters, and no manifest of its own yet. */
    constructor (v: Version, c: Counters)
      requires |v.levels| == NUM_LEVELS
      requires forall lvl :: 0 <= lvl < NUM_LEVELS ==> SortedBySmallest(v.levels[lvl])
      requires NumbersIdentify(FilesOfVersion(v)) && forall f :: f in FilesOfVersion(v) ==> f.number < c.nextFile
      ensures Valid() && current == v && counters == c && !hasDescriptor && files == FilesOfVersion(v)
    {
      current, counters, hasDescriptor, manifest := v, c, false, [];
      files := FilesOfVersion(v);
    }

    /** The files an edit brings in are new to their levels, and carry numbers that were handed out
        for them. */
    ghost predicate Fits(e: Edit)
      requires |current.levels| == NUM_LEVELS
      reads this
    {
      && ValidEdit(e)
      && (forall lvl :: 0 <= lvl < NUM_LEVELS ==> AddedAt(e, lvl) !! FilesOf(current.levels[lvl]))
      && NumbersIdentify(files + AllAdded(e))
      && (forall f :: f in AllAdded(e) ==> f.number < counters.nextFile)
    }

    method NewFileNumber() returns (number: nat)
      requires Valid()
      modifies this`counters
      ensures Valid() && number == old(counters.nextFile) && forall f :: f in files ==> f.number < number
      ensures counters == old(counters).(nextFile := number + 1)
    {
      number := counters.nextFile;
      counters := counters.(nextFile := number + 1);
    }

    method SetLastSequence(s: nat)
      requires Valid() && counters.lastSequence <= s
      modifies this`counters
      ensures Valid() && counters == old(counters).(lastSequence := s)
    {
      counters := counters.(lastSequence := s);
    }

    /** A record that lists the whole current version. */
    method WriteSnapshot() returns (edit: Edit)
      requires Valid()
      ensures ValidEdit(edit) && edit.deleted == {}
      ensures forall lvl :: 0 <= lvl < NUM_LEVELS ==> AddedAt(edit, lvl) == FilesOf(current.levels[lvl])
      ensures forall c :: Recorded(edit, c).None?
    {
      var added: seq<(nat, File)> := [];
      for lvl := 0 to NUM_LEVELS
        invariant forall m, f :: (m, f) in added <==> 0 <= m < lvl && f in current.levels[m]
      {
        var files := current.levels[lvl];
        for i := 0 to |files|
          invariant forall m, f :: (m, f) in added <==> (0 <= m < lvl && f in current.levels[m]) || (m == lvl && f in files[..i])
        {
          added := added + [(lvl, files[i])];
        }
        assert files[..|files|] == files;
      }
      edit := Edit({}, added, None, None, None, None);
      forall lvl | 0 <= lvl < NUM_LEVELS
        ensures AddedAt(edit, lvl) == FilesOf(current.levels[lvl])
      {
        forall f | f in FilesOf(current.levels[lvl])
          ensures f in AddedAt(edit, lvl)
        {
          assert (lvl, f) in added;
        }
        forall f | f in AddedAt(edit, lvl)
          ensures f in FilesOf(current.levels[lvl])
        {
          assert (lvl, f) in added;
        }
      }
    }

    /** The current version with one edit applied. */
    method Edited(edit: Edit) returns (v: Version)
      requires Valid() && Fits(edit)
      ensures |v.levels| == NUM_LEVELS
      ensures forall lvl :: 0 <= lvl < NUM_LEVELS ==> SortedBySmallest(v.levels[lvl])
      ensures forall lvl :: 0 <= lvl < NUM_LEVELS ==> FilesOf(v.levels[lvl]) == EditedFiles(FilesOf(current.levels[lvl]), edit, lvl)
    {
      var builder := new Builder(current);
      assert forall lvl :: 0 <= lvl < NUM_LEVELS ==> builder.Seen(lvl) == FilesOf(current.levels[lvl]);
      builder.Apply(edit);
      v := builder.SaveTo();
    }

    /** The manifest so far, or a new one that starts with a snapshot record. */
    method Descriptor() returns (log: seq<Edit>)
      requires Valid()
      ensures hasDescriptor ==> log == manifest
      ensures Describes(log, current)
      ensures !hasDescriptor ==> forall lvl :: 0 <= lvl < NUM_LEVELS ==> EverAdded(log, lvl) == FilesOf(current.levels[lvl])
    {
      log := manifest;
      if !hasDescriptor {
        var snapshot := WriteSnapshot();
        SnapshotManifest(snapshot);
        log := [snapshot];
      }
    }

    /** `VersionSet::LogAndApply`. When the manifest cannot be written nothing is installed. */
    method LogAndApply(e: Edit, writable: bool) returns (ok: bool)
      requires Valid() && Fits(e)
      requires e.logNumber.Some? ==> counters.logNumber <= e.logNumber.value < counters.nextFile
      modifies this
      ensures Valid() && ok == writable
      ensures !ok ==> current == old(current) && counters == old(counters) && manifest == old(manifest) && hasDescriptor == old(hasDescriptor)
      ensures ok ==> hasDescriptor && files == old(files) + AllAdded(e)
      ensures ok ==> forall lvl :: 0 <= lvl < NUM_LEVELS ==>
                FilesOf(current.levels[lvl]) == EditedFiles(old(FilesOf(current.levels[lvl])), e, lvl)
      ensures ok ==> counters == old(counters).(logNumber := Default(e.logNumber, old(counters.logNumber)),
                                                prevLogNumber := Default(e.prevLogNumber, old(counters.prevLogNumber)))
      ensures ok ==> LastRecorded(manifest, NextFile) == Some(counters.nextFile)
      ensures ok ==> LastRecorded(manifest, LastSequence) == Some(counters.lastSequence)
    {
      var edit := e.(logNumber := Some(Default(e.logNumber, counters.logNumber)),
                     prevLogNumber := Some(Default(e.prevLogNumber, counters.prevLogNumber)),
                     nextFile := Some(counters.nextFile), lastSequence := Some(counters.lastSequence));
      assert forall lvl: nat :: AddedAt(edit, lvl) == AddedAt(e, lvl);
      assert AllAdded(edit) == AllAdded(e);
      var v := Edited(edit);
      if !writable {
        return false;
      }
      var log := Descriptor();
      ManifestGrows(log, current, edit, v, files + AllAdded(edit));
      Install(log + [edit], v, counters.(logNumber := edit.logNumber.value, prevLogNumber := edit.prevLogNumber.value),
              files + AllAdded(edit));
      ok := true;
    }

    /** The new version becomes current, and the manifest one record longer. */
    method Install(log: seq<Edit>, v: Version, c: Counters, ghost all: set<File>)
      requires Records(log, v, c)
      requires forall lvl :: 0 <= lvl < NUM_LEVELS ==> SortedBySmallest(v.levels[lvl]) && FilesOf(v.levels[lvl]) <= all
      requires forall lvl :: 0 <= lvl < NUM_LEVELS ==> EverAdded(log, lvl) <= all
      requires NumbersIdentify(all) && forall f :: f in all ==> f.number < c.nextFile
      modifies this
      ensures Valid() && hasDescriptor && manifest == log && current == v && counters == c && files == all
    {
      manifest, hasDescriptor, current, counters := log, true, v, c;
      files := all;
    }
  }

  /** Files with newly handed-out numbers always fit. */
  lemma FreshFilesFit(vs: VersionSet, e: Edit)
    requires vs.Valid() && ValidEdit(e)
    requires forall f, g :: f in AllAdded(e) && g in vs.files ==> g.number < f.number
    requires NumbersIdentify(AllAdded(e)) && forall f :: f in AllAdded(e) ==> f.number < vs.counters.nextFile
    ensures vs.Fits(e)
  {
    forall lvl, f | 0 <= lvl < NUM_LEVELS && f in AddedAt(e, lvl)
      ensures f !in FilesOf(vs.current.levels[lvl])
    {
      assert f in AllAdded(e);
    }
  }

  function Default(o: Option<nat>, d: nat): nat {
    if o.Some? then o.value else d
  }

  lemma SnapshotManifest(snapshot: Edit)
    requires ValidEdit(snapshot) && snapshot.deleted == {}
    requires forall lvl :: 0 <= lvl < NUM_LEVELS ==> NumbersIdentify(AddedAt(snapshot, lvl))
    ensures ValidManifest([snapshot])
    ensures forall lvl :: 0 <= lvl < NUM_LEVELS ==> Replayed([snapshot], lvl) == AddedAt(snapshot, lvl)
    ensures forall lvl :: 0 <= lvl < NUM_LEVELS ==> EverAdded([snapshot], lvl) == AddedAt(snapshot, lvl)
  {
    assert [snapshot][..0] == [];
    forall lvl | 0 <= lvl < NUM_LEVELS
      ensures EverAdded([snapshot], lvl) == AddedAt(snapshot, lvl)
    {
      assert snapshot in [snapshot];
    }
  }

  lemma ManifestGrows(manifest: seq<Edit>, v: Version, e: Edit, w: Version, all: set<File>)
    requires Describes(manifest, v) && |w.levels| == NUM_LEVELS && ValidEdit(e)
    requires forall lvl :: 0 <= lvl < NUM_LEVELS ==> EverAdded(manifest, lvl) + AddedAt(e, lvl) <= all
    requires NumbersIdentify(all)
    requires forall lvl :: 0 <= lvl < NUM_LEVELS ==> FilesOf(w.levels[lvl]) == EditedFiles(FilesOf(v.levels[lvl]), e, lvl)
    ensures Describes(manifest + [e], w)
    ensures forall c :: Recorded(e, c).Some? ==> LastRecorded(manifest + [e], c) == Recorded(e, c)
    ensures forall lvl :: 0 <= lvl < NUM_LEVELS ==> EverAdded(manifest + [e], lvl) <= all
  {
    assert (manifest + [e])[..|manifest|] == manifest;
    forall lvl | 0 <= lvl < NUM_LEVELS
      ensures EverAdded(manifest + [e], lvl) <= EverAdded(manifest, lvl) + AddedAt(e, lvl)
    {
    }
  }

  /** Crash and reopen: recovery from the manifest yields the version installed last. */
  method Reopen(vs: VersionSet) returns (r: RecoverStatus)
    requires vs.Valid() && vs.hasDescriptor
    ensures r.Recovered? && r.version == vs.current
    ensures r.counters.logNumber == vs.counters.logNumber && r.counters.prevLogNumber == vs.counters.prevLogNumber
  {
    r := Recover(vs.manifest);
    forall lvl | 0 <= lvl < NUM_LEVELS
      ensures r.version.levels[lvl] == vs.current.levels[lvl]
    {
      SameFilesSameListing(r.version.levels[lvl], vs.current.levels[lvl]);
    }
    assert r.version.levels == vs.current.levels;
  }

  lemma SameFilesSameListing(a: Level, b: Level)
    requires SortedBySmallest(a) && SortedBySmallest(b) && FilesOf(a) == FilesOf(b)
    ensures a == b
  {
    assert forall f :: f in a <==> f in FilesOf(a);
    assert forall f :: f in b <==> f in FilesOf(b);
    SortedListingIsUnique(a, b);
  }
}
