/** Which table files may be deleted (db/db_impl.cc): the background thread flushes and compacts,
    readers hold on to versions, and `DeleteObsoleteFiles` runs in between. */
module Collection {
  import opened History
  import opened Version

  // ---------- the state ----------

  /** What the background thread is in the middle of, apart from a compaction. */
  datatype Task =
    | Free
    | Building(number: nat)                      // `WriteLevel0Table`, its number pending
    | Built(f: File)                             // its table written, and no longer pending
    | Applying(next: set<File>, flush: bool)     // `LogAndApply` writing the manifest

  /** A running compaction: the version it reads, and its outputs. */
  datatype Work = Work(input: set<File>, writing: Option<nat>, outputs: seq<File>)

  /** A version is represented by its files. `uncertain` are those of versions that `LogAndApply` has
      failed to write, of which the manifest may hold something all the same. */
  datatype State = State(tables: map<nat, seq<Entry>>, pending: set<nat>, next: nat, current: set<File>, held: seq<set<File>>,
                         task: Task, work: Option<Work>, failed: bool, uncertain: set<File>)

  datatype Step =
    | StartCompaction
    | OpenOutput
    | FinishOutput(f: File)
    | ApplyCompaction(inputs: set<File>)
    | EndCompaction
    | StartFlush
    | FinishFlush(f: File)
    | ApplyFlush
    | EndApply(ok: bool)
    | Hold
    | Release(i: nat)
    | Collect

  function NumbersOf(files: set<File>): set<nat> {
    set f | f in files :: f.number
  }

  function OutputSet(w: Work): set<File> {
    set f | f in w.outputs
  }

  function HeldFiles(held: seq<set<File>>): set<File> {
    set v, f | v in held && f in v :: f
  }

  /** The files of all versions that are referenced: `AddLiveFiles`. */
  function LiveFiles(s: State): set<File> {
    s.current + HeldFiles(s.held) + if s.work.Some? then s.work.value.input else {}
  }

  /** The background thread is the only one that flushes, compacts and collects; a flush may come in
      the middle of a compaction, between two of its keys. */
  predicate Enabled(s: State, step: Step) {
    match step
    case StartCompaction => s.task.Free? && s.work.None?
    case OpenOutput => s.task.Free? && s.work.Some? && s.work.value.writing.None?
    case FinishOutput(f) => s.task.Free? && s.work.Some? && s.work.value.writing == Some(f.number)
    case ApplyCompaction(inputs) => s.task.Free? && s.work.Some? && s.work.value.writing.None?
    case EndCompaction => s.task.Free? && s.work.Some?
    case StartFlush => s.task.Free?
    case FinishFlush(f) => s.task == Building(f.number)
    case ApplyFlush => s.task.Built?
    case EndApply(_) => s.task.Applying?
    case Hold => true
    case Release(i) => i < |s.held|
    case Collect => s.task.Free?
  }

  function Take(s: State, step: Step): State
    requires Enabled(s, step)
  {
    match step
    case StartCompaction => s.(work := Some(Work(s.current, None, [])))
    case OpenOutput =>
      s.(pending := s.pending + {s.next}, next := s.next + 1, work := Some(s.work.value.(writing := Some(s.next))))
    case FinishOutput(f) =>
      s.(tables := s.tables[f.number := f.entries],
         work := Some(s.work.value.(writing := None, outputs := s.work.value.outputs + [f])))
    case ApplyCompaction(inputs) => s.(task := Applying((s.current - inputs) + OutputSet(s.work.value), false))
    case EndCompaction =>
      var writing := if s.work.value.writing.Some? then {s.work.value.writing.value} else {};
      s.(pending := s.pending - NumbersOf(OutputSet(s.work.value)) - writing, work := None)
    case StartFlush => s.(pending := s.pending + {s.next}, next := s.next + 1, task := Building(s.next))
    case FinishFlush(f) => s.(tables := s.tables[f.number := f.entries], pending := s.pending - {f.number}, task := Built(f))
    case ApplyFlush => s.(task := Applying(s.current + {s.task.f}, true))
    case EndApply(ok) => if ok then s.(current := s.task.next, task := Free) else s.(failed := true, uncertain := s.uncertain + s.task.next, task := Free)
    case Hold => s.(held := s.held + [s.current])
    case Release(i) => s.(held := s.held[..i] + s.held[i + 1..])
    case Collect =>
      if s.failed then s
      else s.(tables := map n | n in s.tables && n in s.pending + NumbersOf(LiveFiles(s)) :: s.tables[n])
  }

  // ---------- the invariant ----------

  /** The table of a file is in the directory, with the file's contents. */
  predicate Stored(tables: map<nat, seq<Entry>>, f: File) {
    f.number in tables && tables[f.number] == f.entries
  }

  ghost predicate AllStored(s: State, files: set<File>) {
    forall f :: f in files ==> Stored(s.tables, f) && f.number < s.next
  }

  /** Every file there is a use for. */
  ghost function KnownFiles(s: State): set<File> {
    LiveFiles(s) + s.uncertain + WorkFiles(s) + TaskFiles(s)
  }

  ghost function WorkFiles(s: State): set<File> {
    if s.work.Some? then OutputSet(s.work.value) else {}
  }

  ghost function TaskFiles(s: State): set<File> {
    match s.task
    case Built(f) => {f}
    case Applying(next, _) => next
    case _ => {}
  }

  /** A number that has been given out for a table still to be written. */
  ghost predicate Reserved(s: State, n: nat) {
    n < s.next && forall f :: f in KnownFiles(s) ==> f.number != n
  }

  /** `pending_outputs_` is what is being written and the outputs not yet cleaned up; none is forgotten. */
  ghost predicate PendingIsExact(s: State) {
    forall n :: n in s.pending <==>
      || (s.work.Some? && (s.work.value.writing == Some(n) || exists f :: f in s.work.value.outputs && f.number == n))
      || s.task == Building(n)
  }

  ghost predicate Inv(s: State) {
    && AllStored(s, KnownFiles(s)) && PendingIsExact(s)
    && (s.work.Some? && s.work.value.writing.Some? ==> Reserved(s, s.work.value.writing.value))
    && (s.task.Building? ==> Reserved(s, s.task.number))
    && (s.task.Building? && s.work.Some? ==> s.work.value.writing != Some(s.task.number))
    && (!s.failed ==> s.uncertain == {})
  }

  /** What is known afterwards was known before, or is the table that the step has written. */
  ghost predicate AddsOnly(s: State, t: State, written: set<File>) {
    && KnownFiles(t) <= KnownFiles(s) + written && s.next <= t.next
    && forall f :: f in written ==> Stored(t.tables, f) && f.number < s.next
  }

  lemma HeldChange(held: seq<set<File>>, v: set<File>, i: nat)
    ensures HeldFiles(held + [v]) == HeldFiles(held) + v
    ensures i < |held| ==> HeldFiles(held[..i] + held[i + 1..]) <= HeldFiles(held)
  {
    forall f | f in HeldFiles(held) + v
      ensures f in HeldFiles(held + [v])
    {
      if f in v {
        assert v in held + [v];
      } else {
        var w :| w in held && f in w;
        assert w in held + [v];
      }
    }
  }

  lemma LiveStays(s: State, step: Step)
    requires Enabled(s, step)
    ensures LiveFiles(Take(s, step)) <= LiveFiles(s) + TaskFiles(s)
    ensures Take(s, step).uncertain <= s.uncertain + TaskFiles(s)
    ensures s.current <= LiveFiles(s)
  {
    hide HeldFiles, OutputSet;
    HeldChange(s.held, s.current, if step.Release? then step.i else 0);
  }

  /** The table that a step writes. */
  function WrittenBy(step: Step): set<File> {
    match step
    case FinishOutput(f) => {f}
    case FinishFlush(f) => {f}
    case _ => {}
  }

  lemma WorkStays(s: State, step: Step)
    requires Enabled(s, step)
    ensures WorkFiles(Take(s, step)) <= WorkFiles(s) + WrittenBy(step)
    ensures TaskFiles(Take(s, step)) <= TaskFiles(s) + WorkFiles(s) + s.current + WrittenBy(step)
  {
  }

  lemma WrittenIsStored(s: State, step: Step)
    requires Enabled(s, step) && Inv(s)
    ensures s.next <= Take(s, step).next
    ensures forall f :: f in WrittenBy(step) ==> Stored(Take(s, step).tables, f) && f.number < s.next
  {
    hide KnownFiles, PendingIsExact, LiveFiles, OutputSet;
  }

  lemma KnownStays(s: State, step: Step)
    requires Enabled(s, step) && Inv(s)
    ensures AddsOnly(s, Take(s, step), WrittenBy(step))
  {
    hide Take, Enabled, Inv, LiveFiles, WorkFiles, TaskFiles, WrittenBy, Stored;
    LiveStays(s, step);
    WorkStays(s, step);
    WrittenIsStored(s, step);
  }

  /** No table that was there and is still of use is overwritten or deleted. */
  lemma KnownTablesStay(s: State, step: Step, f: File)
    requires Inv(s) && Enabled(s, step) && f in KnownFiles(s)
    requires step.Collect? ==> f in KnownFiles(Take(s, step))
    ensures Stored(Take(s, step).tables, f)
  {
    if step.Collect? && !s.failed {
      assert f in LiveFiles(s) || f in OutputSet(s.work.value);
    }
  }

  lemma OutputsAreKnown(s: State, f: File)
    requires s.work.Some? && f in s.work.value.outputs
    ensures f in KnownFiles(s) && f in OutputSet(s.work.value)
  {
    assert f in OutputSet(s.work.value);
  }

  lemma PendingStaysExact(s: State, step: Step)
    requires Inv(s) && Enabled(s, step)
    ensures PendingIsExact(Take(s, step))
  {
    hide KnownFiles, AllStored;
    if s.work.Some? {
      forall f | f in s.work.value.outputs
        ensures f in KnownFiles(s) && f in OutputSet(s.work.value)
      {
        OutputsAreKnown(s, f);
      }
    }
    if step.FinishOutput? {
      var before, after := s.work.value.outputs, Take(s, step).work.value.outputs;
      assert forall f :: f in after <==> f in before || f == step.f;
    }
  }

  lemma StepKeeps(s: State, step: Step)
    requires Inv(s) && Enabled(s, step)
    ensures Inv(Take(s, step))
  {
    hide KnownFiles, LiveFiles, HeldFiles, PendingIsExact;
    var t := Take(s, step);
    KnownStays(s, step);
    PendingStaysExact(s, step);
    forall f | f in KnownFiles(t)
      ensures Stored(t.tables, f) && f.number < t.next
    {
      if f !in WrittenBy(step) { KnownTablesStay(s, step, f); }
    }
  }

  // ---------- runs ----------

  /** The state after some steps, each of which was possible. */
  ghost predicate IsRun(states: seq<State>, steps: seq<Step>) {
    && |states| == |steps| + 1
    && forall i :: 0 <= i < |steps| ==> Enabled(states[i], steps[i]) && states[i + 1] == Take(states[i], steps[i])
  }

  lemma {:induction false} RunKeeps(states: seq<State>, steps: seq<Step>, n: nat)
    requires IsRun(states, steps) && Inv(states[0]) && n < |states|
    ensures Inv(states[n])
  {
    if n > 0 {
      RunKeeps(states, steps, n - 1);
      StepKeeps(states[n - 1], steps[n - 1]);
    }
  }

  /** A store that has just been opened. */
  ghost predicate IsOpened(s: State) {
    && s.pending == {} && s.held == [] && s.task.Free? && s.work.None? && !s.failed && s.uncertain == {}
    && AllStored(s, s.current)
  }

  /** Whenever a reader or the compaction looks into a table of a version it holds, the table is
      there as it was written. */
  lemma HeldTablesAreThere(states: seq<State>, steps: seq<Step>, n: nat, f: File)
    requires IsRun(states, steps) && IsOpened(states[0]) && n < |states| && f in LiveFiles(states[n])
    ensures Stored(states[n].tables, f)
  {
    RunKeeps(states, steps, n);
    assert f in KnownFiles(states[n]);
  }

  /** The files of the versions that the manifest may describe at a crash: the current one, the one
      that is being written, or one whose writing seemed to fail. */
  ghost predicate MayBeRecorded(s: State, f: File) {
    f in s.current || (s.task.Applying? && f in s.task.next) || f in s.uncertain
  }

  /** Recovery never misses a table. */
  lemma RecoveryFindsTables(states: seq<State>, steps: seq<Step>, n: nat, f: File)
    requires IsRun(states, steps) && IsOpened(states[0]) && n < |states| && MayBeRecorded(states[n], f)
    ensures Stored(states[n].tables, f)
  {
    RunKeeps(states, steps, n);
    assert f in KnownFiles(states[n]);
  }

  /** And when nothing is going on, a collection leaves the tables of the current version only. */
  lemma CollectionIsComplete(states: seq<State>, steps: seq<Step>, n: nat)
    requires IsRun(states, steps) && IsOpened(states[0]) && n < |steps| && steps[n].Collect? && !states[n].failed
    requires states[n].held == [] && states[n].work.None?
    ensures states[n + 1].tables.Keys == NumbersOf(states[n].current)
  {
    RunKeeps(states, steps, n);
    var s, t := states[n], states[n + 1];
    assert t == Take(s, steps[n]);
    assert HeldFiles([]) == {};
    forall f | f in s.current
      ensures f.number in t.tables
    {
      assert f in KnownFiles(s);
    }
  }
}
