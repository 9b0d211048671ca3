/** The queue of writers: any number of threads write at once, and the one at the front writes for a
    group of them (db/db_impl.cc, Write and BuildBatchGroup). The state changes in steps: one for each
    stretch of code under the mutex, and in the part outside it one for the log record, one for the
    sync, and one for each entry that goes into the memtable. */
module WriteQueue {
  import opened History

  // ---------- batch groups ----------

  /** What a thread asks for. Without a batch it only wants the memtable switched. */
  datatype Request = Request(batch: Option<seq<Update>>, sync: bool)

  function Batch(r: Request): seq<Update> {
    if r.batch.Some? then r.batch.value else []
  }

  function Merged(rs: seq<Request>): seq<Update> {
    if rs == [] then [] else Merged(rs[..|rs| - 1]) + Batch(rs[|rs| - 1])
  }

  function TotalSize(rs: seq<Request>, byteSize: seq<Update> -> nat): nat {
    if rs == [] then 0
    else TotalSize(rs[..|rs| - 1], byteSize) + if rs[|rs| - 1].batch.Some? then byteSize(rs[|rs| - 1].batch.value) else 0
  }

  const SMALL: nat := 0x2_0000
  const LARGE: nat := 0x10_0000

  function MaxGroupSize(first: nat): nat {
    if first <= SMALL then first + SMALL else LARGE
  }

  /** The next request must not join the group of the requests before it. */
  predicate Stops(rs: seq<Request>, k: nat, byteSize: seq<Update> -> nat)
    requires 0 < k < |rs| && rs[0].batch.Some?
  {
    || (rs[k].sync && !rs[0].sync)
    || (rs[k].batch.Some? && TotalSize(rs[..k + 1], byteSize) > MaxGroupSize(byteSize(rs[0].batch.value)))
  }

  /** The longest group the rules allow. */
  ghost predicate IsGroup(rs: seq<Request>, size: nat, byteSize: seq<Update> -> nat) {
    && 0 < size <= |rs| && rs[0].batch.Some?
    && (forall k :: 0 < k < size ==> !Stops(rs, k, byteSize))
    && (size < |rs| ==> Stops(rs, size, byteSize))
  }

  method BuildBatchGroup(rs: seq<Request>, byteSize: seq<Update> -> nat) returns (size: nat, updates: seq<Update>)
    requires rs != [] && rs[0].batch.Some?
    ensures IsGroup(rs, size, byteSize) && updates == Merged(rs[..size])
  {
    updates := rs[0].batch.value;
    var bytes := byteSize(updates);
    var maxSize := MaxGroupSize(bytes);
    size := 1;
    assert rs[..1][..0] == [] && rs[..1] == [rs[0]];
    while size < |rs|
      invariant 0 < size <= |rs| && updates == Merged(rs[..size]) && bytes == TotalSize(rs[..size], byteSize)
      invariant forall k :: 0 < k < size ==> !Stops(rs, k, byteSize)
    {
      var w := rs[size];
      assert rs[..size + 1][..size] == rs[..size];
      if w.sync && !rs[0].sync {
        // a sync write is not handled by a writer that does not sync
        break;
      }
      if w.batch.Some? {
        bytes := bytes + byteSize(w.batch.value);
        if bytes > maxSize {
          break;
        }
        updates := updates + w.batch.value;
      }
      size := size + 1;
    }
  }

  /** The sequence numbers of each request in a group: the first, and how many. */
  function Spans(rs: seq<Request>, first: nat): (r: seq<(nat, nat)>)
    ensures |r| == |rs|
  {
    if rs == [] then []
    else Spans(rs[..|rs| - 1], first) + [(first + |Merged(rs[..|rs| - 1])|, |Batch(rs[|rs| - 1])|)]
  }

  lemma {:induction false} SpanOf(rs: seq<Request>, first: nat, k: nat)
    requires k < |rs|
    ensures Spans(rs, first)[k] == (first + |Merged(rs[..k])|, |Batch(rs[k])|)
    decreases |rs|
  {
    hide Merged, Batch;
    if k < |rs| - 1 {
      SpanOf(rs[..|rs| - 1], first, k);
      assert rs[..|rs| - 1][..k] == rs[..k];
    }
  }

  lemma MergedStep(rs: seq<Request>, k: nat)
    requires k < |rs|
    ensures Merged(rs[..k + 1]) == Merged(rs[..k]) + Batch(rs[k])
  {
    assert rs[..k + 1][..k] == rs[..k];
  }

  lemma {:induction false} MergedPrefix(rs: seq<Request>, k: nat)
    requires k <= |rs|
    ensures Merged(rs[..k]) <= Merged(rs)
    decreases |rs| - k
  {
    if k < |rs| {
      MergedPrefix(rs, k + 1);
      MergedStep(rs, k);
    } else {
      assert rs[..k] == rs;
    }
  }

  /** Each request has its own stretch of the merged updates. */
  lemma StretchOf(rs: seq<Request>, k: nat)
    requires k < |rs|
    ensures |Merged(rs[..k])| + |Batch(rs[k])| <= |Merged(rs)|
    ensures Merged(rs)[|Merged(rs[..k])|..|Merged(rs[..k])| + |Batch(rs[k])|] == Batch(rs[k])
  {
    hide Batch;
    MergedStep(rs, k);
    MergedPrefix(rs, k + 1);
  }

  // ---------- state ----------

  datatype Status = Success | Failure

  /** How far the writer at the front has come with its group. */
  datatype Stage = Started | Logged | Inserting(inserted: nat) | Broken(syncError: bool)

  datatype Pc = Waiting | Working(size: nat, updates: seq<Update>, before: nat, stage: Stage) | Returned(status: Status)

  datatype LogRecord = LogRecord(first: nat, updates: seq<Update>, synced: bool)

  /** `requests` has all threads in the order they came, the first `popped` of which have left the
      queue; `spans` are the sequence numbers these took. `mem` stands for both memtables. */
  datatype State = State(requests: seq<Request>, pcs: seq<Pc>, popped: nat, spans: seq<(nat, nat)>,
                         log: seq<LogRecord>, mem: set<Entry>, base: nat, lastSequence: nat, bgError: bool)

  ghost predicate Init(s: State) {
    s.requests == [] && s.pcs == [] && s.popped == 0 && s.spans == [] && s.log == [] && s.mem == {} && s.lastSequence == s.base
  }

  /** The loop in `Write` lets a thread go on when it is at the front of the queue and not done. */
  predicate MayLead(s: State, i: nat) {
    i < |s.pcs| && s.pcs[i].Waiting? && i == s.popped && i < |s.requests|
  }

  predicate At(s: State, i: nat, stage: Stage) {
    i < |s.pcs| && s.pcs[i].Working? && s.pcs[i].stage == stage
  }

  function ToStage(s: State, i: nat, stage: Stage): State
    requires i < |s.pcs| && s.pcs[i].Working?
  {
    s.(pcs := s.pcs[i := s.pcs[i].(stage := stage)])
  }

  // ---------- steps ----------

  datatype Step =
    | Arrive(request: Request)
    | BackgroundError
    | Refuse(i: nat)
    | SwitchOnly(i: nat)
    | Lead(i: nat, size: nat)
    | AppendLog(i: nat)
    | AppendFails(i: nat, written: bool)
    | SyncLog(i: nat)
    | SyncFails(i: nat)
    | SkipSync(i: nat)
    | Insert(i: nat)
    | Finish(i: nat)

  ghost predicate Enabled(s: State, step: Step, byteSize: seq<Update> -> nat) {
    match step
    case Arrive(r) => true
    case BackgroundError => true
    case Refuse(i) => MayLead(s, i)
    case SwitchOnly(i) => MayLead(s, i) && !s.bgError && s.requests[i].batch.None?
    case Lead(i, size) => MayLead(s, i) && !s.bgError && IsGroup(s.requests[i..], size, byteSize)
    case AppendLog(i) => At(s, i, Started)
    case AppendFails(i, _) => At(s, i, Started)
    case SyncLog(i) => At(s, i, Logged) && i < |s.requests| && s.requests[i].sync && s.log != []
    case SyncFails(i) => At(s, i, Logged) && i < |s.requests| && s.requests[i].sync
    case SkipSync(i) => At(s, i, Logged) && i < |s.requests| && !s.requests[i].sync
    case Insert(i) => i < |s.pcs| && s.pcs[i].Working? && s.pcs[i].stage.Inserting? && s.pcs[i].stage.inserted < |s.pcs[i].updates|
    case Finish(i) =>
      && i < |s.pcs| && s.pcs[i].Working? && i + s.pcs[i].size <= |s.requests| && |s.pcs| == |s.requests|
      && (s.pcs[i].stage.Broken? || s.pcs[i].stage == Inserting(|s.pcs[i].updates|))
  }

  function Pop(s: State, n: nat, status: Status, taken: seq<(nat, nat)>): State
    requires s.popped + n <= |s.pcs|
  {
    s.(pcs := s.pcs[..s.popped] + seq(n, _ => Returned(status)) + s.pcs[s.popped + n..],
       popped := s.popped + n, spans := s.spans + taken)
  }

  ghost function After(s: State, step: Step, byteSize: seq<Update> -> nat): State
    requires Enabled(s, step, byteSize)
  {
    match step
    case Arrive(r) => s.(requests := s.requests + [r], pcs := s.pcs + [Waiting])
    case BackgroundError => s.(bgError := true)
    case Refuse(i) => Pop(s, 1, Failure, [(s.lastSequence + 1, 0)])
    case SwitchOnly(i) => Pop(s, 1, Success, [(s.lastSequence + 1, 0)])
    case Lead(i, size) =>
      s.(pcs := s.pcs[i := Working(size, Merged(s.requests[i..][..size]), s.lastSequence, Started)])
    case AppendLog(i) =>
      ToStage(s, i, Logged).(log := s.log + [LogRecord(s.pcs[i].before + 1, s.pcs[i].updates, false)])
    case AppendFails(i, written) =>
      ToStage(s, i, Broken(false)).(log := s.log + if written then [LogRecord(s.pcs[i].before + 1, s.pcs[i].updates, false)] else [])
    case SyncLog(i) =>
      var last := |s.log| - 1;
      ToStage(s, i, Inserting(0)).(log := s.log[last := s.log[last].(synced := true)])
    case SyncFails(i) => ToStage(s, i, Broken(true))
    case SkipSync(i) => ToStage(s, i, Inserting(0))
    case Insert(i) =>
      var n := s.pcs[i].stage.inserted;
      ToStage(s, i, Inserting(n + 1)).(mem := s.mem + {Numbered(s.pcs[i].updates, s.pcs[i].before + 1)[n]})
    case Finish(i) =>
      var pc := s.pcs[i];
      if s.popped + pc.size > |s.pcs| then s
      else
        Pop(s, pc.size, if pc.stage.Broken? then Failure else Success, Spans(s.requests[i..i + pc.size], pc.before + 1))
        .(lastSequence := pc.before + |pc.updates|, bgError := s.bgError || (pc.stage.Broken? && pc.stage.syncError))
  }

  // ---------- what every step keeps ----------

  /** Those popped have returned, those in the queue have not, and only the front one works. */
  ghost predicate Shape(s: State) {
    && |s.requests| == |s.pcs| && s.popped <= |s.pcs| && |s.spans| == s.popped
    && (forall k :: 0 <= k < |s.pcs| ==> (s.pcs[k].Returned? <==> k < s.popped))
    && (forall k :: 0 <= k < |s.pcs| && s.pcs[k].Working? ==> k == s.popped)
  }

  /** Consecutive sequence numbers, in queue order. */
  ghost predicate Chained(spans: seq<(nat, nat)>, first: nat, end: nat) {
    && (if spans == [] then first == end else spans[0].0 == first)
    && forall k :: 0 <= k < |spans| ==> LinkedAt(spans, k, end)
  }

  ghost predicate LinkedAt(spans: seq<(nat, nat)>, k: int, end: nat)
    requires 0 <= k < |spans|
  {
    spans[k].0 + spans[k].1 == if k + 1 < |spans| then spans[k + 1].0 else end
  }

  ghost predicate Applied(mem: set<Entry>, entries: seq<Entry>) {
    forall e :: e in entries ==> e in mem
  }

  /** A log record, synced if that was asked for, holds a batch under its sequence numbers. */
  ghost predicate HeldBy(r: LogRecord, batch: seq<Update>, first: nat, sync: bool) {
    && r.first <= first && first - r.first + |batch| <= |r.updates|
    && r.updates[first - r.first..first - r.first + |batch|] == batch && (sync ==> r.synced)
  }

  ghost predicate InLog(log: seq<LogRecord>, batch: seq<Update>, first: nat, sync: bool) {
    exists i :: 0 <= i < |log| && HeldBy(log[i], batch, first, sync)
  }

  ghost predicate Succeeded(s: State, k: int)
    requires Shape(s)
  {
    0 <= k < s.popped && s.pcs[k] == Returned(Success)
  }

  /** A writer that was told of success took one number for each update, and its batch is in the
      memtable and the log. */
  ghost predicate Settled(s: State)
    requires Shape(s)
  {
    forall k :: Succeeded(s, k) ==>
      && s.spans[k].1 == |Batch(s.requests[k])|
      && Applied(s.mem, Numbered(Batch(s.requests[k]), s.spans[k].0))
      && (s.requests[k].batch.Some? ==> InLog(s.log, Batch(s.requests[k]), s.spans[k].0, s.requests[k].sync))
  }

  ghost predicate FromSuccess(s: State, e: Entry)
    requires Shape(s)
  {
    exists k :: Succeeded(s, k) && e in Numbered(Batch(s.requests[k]), s.spans[k].0)
  }

  /** What the working writer has inserted so far. */
  ghost function Pending(s: State): seq<Entry>
    requires Shape(s)
  {
    if s.popped < |s.pcs| && s.pcs[s.popped].Working? && s.pcs[s.popped].stage.Inserting?
       && s.pcs[s.popped].stage.inserted <= |s.pcs[s.popped].updates|
    then Numbered(s.pcs[s.popped].updates, s.pcs[s.popped].before + 1)[..s.pcs[s.popped].stage.inserted]
    else []
  }

  /** Up to the last sequence number the memtable holds only acknowledged writes, and beyond it only
      what the working writer has inserted. */
  ghost predicate MemSound(s: State)
    requires Shape(s)
  {
    && Applied(s.mem, Pending(s))
    && forall e :: e in s.mem ==> if e.key.sequence <= s.lastSequence then FromSuccess(s, e) else e in Pending(s)
  }

  ghost predicate WorkOk(s: State)
    requires Shape(s)
  {
    s.popped < |s.pcs| && s.pcs[s.popped].Working? ==>
      var pc := s.pcs[s.popped];
      var rs := s.requests[s.popped..];
      && 0 < pc.size <= |rs| && pc.updates == Merged(rs[..pc.size]) && pc.before == s.lastSequence
      && (forall k :: 0 <= k < pc.size && rs[k].sync ==> rs[0].sync)
      && (pc.stage.Logged? || pc.stage.Inserting? ==>
            && s.log != [] && s.log[|s.log| - 1].first == pc.before + 1 && s.log[|s.log| - 1].updates == pc.updates
            && (pc.stage.Inserting? && rs[0].sync ==> s.log[|s.log| - 1].synced))
      && (pc.stage.Inserting? ==> pc.stage.inserted <= |pc.updates|)
  }

  ghost predicate Inv(s: State) {
    && Shape(s) && s.base <= s.lastSequence && Chained(s.spans, s.base + 1, s.lastSequence + 1)
    && Settled(s) && MemSound(s) && WorkOk(s)
  }

  lemma InitKeeps(s: State)
    requires Init(s)
    ensures Inv(s)
  {
  }

  // ---------- steps that leave the queue as it is, or make it longer ----------

  ghost predicate LogGrows(a: seq<LogRecord>, b: seq<LogRecord>) {
    && |a| <= |b|
    && forall i :: 0 <= i < |a| ==> b[i].first == a[i].first && b[i].updates == a[i].updates && (a[i].synced ==> b[i].synced)
  }

  lemma InLogStays(a: seq<LogRecord>, b: seq<LogRecord>, batch: seq<Update>, first: nat, sync: bool)
    requires LogGrows(a, b) && InLog(a, batch, first, sync)
    ensures InLog(b, batch, first, sync)
  {
    var i :| 0 <= i < |a| && HeldBy(a[i], batch, first, sync);
    assert HeldBy(b[i], batch, first, sync);
  }

  /** Nothing about the threads that have returned is taken back. */
  ghost predicate Extends(s: State, t: State)
    requires Shape(s)
  {
    && s.requests <= t.requests && s.spans <= t.spans && s.popped <= t.popped <= |t.pcs|
    && s.pcs[..s.popped] == t.pcs[..s.popped]
    && LogGrows(s.log, t.log) && s.mem <= t.mem
  }

  lemma SucceededStays(s: State, t: State, k: int)
    requires Shape(s) && Shape(t) && Extends(s, t) && 0 <= k < s.popped
    ensures Succeeded(t, k) <==> Succeeded(s, k)
    ensures t.requests[k] == s.requests[k] && t.spans[k] == s.spans[k]
  {
    assert s.pcs[..s.popped][k] == t.pcs[..s.popped][k];
  }

  lemma SettledStays(s: State, t: State, k: int)
    requires Shape(s) && Shape(t) && Extends(s, t) && Settled(s) && Succeeded(t, k) && k < s.popped
    ensures t.spans[k].1 == |Batch(t.requests[k])|
    ensures Applied(t.mem, Numbered(Batch(t.requests[k]), t.spans[k].0))
    ensures t.requests[k].batch.Some? ==> InLog(t.log, Batch(t.requests[k]), t.spans[k].0, t.requests[k].sync)
  {
    SucceededStays(s, t, k);
    if t.requests[k].batch.Some? {
      InLogStays(s.log, t.log, Batch(s.requests[k]), s.spans[k].0, s.requests[k].sync);
    }
  }

  lemma FromSuccessStays(s: State, t: State, e: Entry)
    requires Shape(s) && Shape(t) && Extends(s, t) && FromSuccess(s, e)
    ensures FromSuccess(t, e)
  {
    var k :| Succeeded(s, k) && e in Numbered(Batch(s.requests[k]), s.spans[k].0);
    SucceededStays(s, t, k);
  }

  /** A step that pops nothing keeps what holds of the returned threads. */
  lemma QuietStep(s: State, t: State)
    requires Inv(s) && Shape(t) && Extends(s, t) && t.popped == s.popped && t.spans == s.spans
    requires t.lastSequence == s.lastSequence && t.base == s.base
    requires Applied(t.mem, Pending(t)) && (forall e :: e in t.mem ==> e in s.mem || e in Pending(t))
    requires (forall e :: e in Pending(s) ==> e in Pending(t)) && forall e :: e in Pending(t) ==> e.key.sequence > t.lastSequence
    requires WorkOk(t)
    ensures Inv(t)
  {
    forall k | Succeeded(t, k)
      ensures t.spans[k].1 == |Batch(t.requests[k])|
      ensures Applied(t.mem, Numbered(Batch(t.requests[k]), t.spans[k].0))
      ensures t.requests[k].batch.Some? ==> InLog(t.log, Batch(t.requests[k]), t.spans[k].0, t.requests[k].sync)
    {
      SettledStays(s, t, k);
    }
    forall e | e in t.mem
      ensures if e.key.sequence <= t.lastSequence then FromSuccess(t, e) else e in Pending(t)
    {
      if e in s.mem && e.key.sequence <= t.lastSequence {
        FromSuccessStays(s, t, e);
      }
    }
  }

  lemma ArriveKeeps(s: State, r: Request, byteSize: seq<Update> -> nat)
    requires Inv(s)
    ensures Inv(After(s, Arrive(r), byteSize))
  {
    hide Numbered, Merged, Batch, HeldBy;
    var t := After(s, Arrive(r), byteSize);
    if s.popped < |s.pcs| && s.pcs[s.popped].Working? {
      var size := s.pcs[s.popped].size;
      assert t.requests[s.popped..][..size] == s.requests[s.popped..][..size];
    }
    PendingIsLate(s);
    QuietStep(s, t);
  }

  lemma PendingIsLate(s: State)
    requires Shape(s) && WorkOk(s)
    ensures forall e :: e in Pending(s) ==> e.key.sequence > s.lastSequence
  {
  }

  lemma BackgroundErrorKeeps(s: State, byteSize: seq<Update> -> nat)
    requires Inv(s)
    ensures Inv(After(s, BackgroundError, byteSize))
  {
    hide Numbered, Merged, Batch, HeldBy;
    PendingIsLate(s);
    QuietStep(s, After(s, BackgroundError, byteSize));
  }

  lemma LeadKeeps(s: State, i: nat, size: nat, byteSize: seq<Update> -> nat)
    requires Inv(s) && Enabled(s, Lead(i, size), byteSize)
    ensures Inv(After(s, Lead(i, size), byteSize))
  {
    var t := After(s, Lead(i, size), byteSize);
    var rs := s.requests[i..];
    forall k | 0 <= k < size && rs[k].sync
      ensures rs[0].sync
    {
      if k > 0 { assert !Stops(rs, k, byteSize); }
    }
    QuietStep(s, t);
  }

  lemma AppendKeeps(s: State, i: nat, step: Step, byteSize: seq<Update> -> nat)
    requires Inv(s) && step in {AppendLog(i), AppendFails(i, true), AppendFails(i, false)} && Enabled(s, step, byteSize)
    ensures Inv(After(s, step, byteSize))
  {
    QuietStep(s, After(s, step, byteSize));
  }

  lemma SyncKeeps(s: State, i: nat, step: Step, byteSize: seq<Update> -> nat)
    requires Inv(s) && step in {SyncLog(i), SyncFails(i), SkipSync(i)} && Enabled(s, step, byteSize)
    ensures Inv(After(s, step, byteSize))
  {
    QuietStep(s, After(s, step, byteSize));
  }

  lemma InsertKeeps(s: State, i: nat, byteSize: seq<Update> -> nat)
    requires Inv(s) && Enabled(s, Insert(i), byteSize)
    ensures Inv(After(s, Insert(i), byteSize))
  {
    hide Settled, Chained, WorkOk, Numbered, FromSuccess, Succeeded;
    var t := After(s, Insert(i), byteSize);
    InsertedEntry(s, t, i);
    InsertWork(s, t, i);
    QuietStep(s, t);
  }

  lemma InsertedEntry(s: State, t: State, i: nat)
    requires Inv(s) && i < |s.pcs| && s.pcs[i].Working? && s.pcs[i].stage.Inserting? && s.pcs[i].stage.inserted < |s.pcs[i].updates|
    requires t == ToStage(s, i, Inserting(s.pcs[i].stage.inserted + 1))
                  .(mem := s.mem + {Numbered(s.pcs[i].updates, s.pcs[i].before + 1)[s.pcs[i].stage.inserted]})
    ensures Shape(t) && Pending(t) == Pending(s) + [Numbered(s.pcs[i].updates, s.pcs[i].before + 1)[s.pcs[i].stage.inserted]]
    ensures forall e :: e in Pending(t) ==> e.key.sequence > t.lastSequence
  {
    var all := Numbered(s.pcs[i].updates, s.pcs[i].before + 1);
    assert all[..s.pcs[i].stage.inserted + 1] == all[..s.pcs[i].stage.inserted] + [all[s.pcs[i].stage.inserted]];
  }

  lemma InsertWork(s: State, t: State, i: nat)
    requires Inv(s) && i < |s.pcs| && s.pcs[i].Working? && s.pcs[i].stage.Inserting? && s.pcs[i].stage.inserted < |s.pcs[i].updates|
    requires Shape(t) && t.(mem := s.mem) == ToStage(s, i, Inserting(s.pcs[i].stage.inserted + 1))
    ensures WorkOk(t)
  {
  }

  // ---------- steps that pop writers ----------

  lemma ChainedAppend(a: seq<(nat, nat)>, b: seq<(nat, nat)>, first: nat, middle: nat, end: nat)
    requires Chained(a, first, middle) && Chained(b, middle, end)
    ensures Chained(a + b, first, end)
  {
    var c := a + b;
    forall k | 0 <= k < |c|
      ensures LinkedAt(c, k, end)
    {
      if k < |a| {
        assert LinkedAt(a, k, middle) && c[k] == a[k];
        if k + 1 < |a| {
          assert c[k + 1] == a[k + 1];
        } else if b != [] {
          assert c[k + 1] == b[0];
        }
      } else {
        assert LinkedAt(b, k - |a|, end) && c[k] == b[k - |a|];
        assert k + 1 < |c| ==> c[k + 1] == b[k + 1 - |a|];
      }
    }
  }

  /** What has to hold of a thread that has just returned with success. */
  ghost predicate SettledAt(t: State, k: nat)
    requires Shape(t) && k < t.popped
  {
    && t.spans[k].1 == |Batch(t.requests[k])|
    && Applied(t.mem, Numbered(Batch(t.requests[k]), t.spans[k].0))
    && (t.requests[k].batch.Some? ==> InLog(t.log, Batch(t.requests[k]), t.spans[k].0, t.requests[k].sync))
  }

  lemma PopStep(s: State, t: State)
    requires Inv(s) && Shape(t) && Extends(s, t) && t.mem == s.mem && t.base == s.base && s.lastSequence <= t.lastSequence
    requires Chained(t.spans, t.base + 1, t.lastSequence + 1)
    requires t.popped < |t.pcs| ==> t.pcs[t.popped].Waiting?
    requires forall k :: s.popped <= k < t.popped && Succeeded(t, k) ==> SettledAt(t, k)
    requires forall e :: e in s.mem && e.key.sequence > s.lastSequence ==> e.key.sequence <= t.lastSequence && FromSuccess(t, e)
    ensures Inv(t)
  {
    hide Numbered, Applied, InLog, Chained, WorkOk, Extends;
    forall k | Succeeded(t, k)
      ensures SettledAt(t, k)
    {
      if k < s.popped { SettledStays(s, t, k); }
    }
    forall e | e in t.mem
      ensures e.key.sequence <= t.lastSequence && FromSuccess(t, e)
    {
      if e.key.sequence <= s.lastSequence { FromSuccessStays(s, t, e); }
    }
    NothingPending(t);
  }

  lemma NothingPending(t: State)
    requires Shape(t) && (t.popped < |t.pcs| ==> t.pcs[t.popped].Waiting?)
    ensures Pending(t) == [] && WorkOk(t) && Applied(t.mem, Pending(t))
  {
  }

  /** The front writer leaves without having written. */
  lemma LeaveKeeps(s: State, i: nat, step: Step, byteSize: seq<Update> -> nat)
    requires Inv(s) && step in {Refuse(i), SwitchOnly(i)} && Enabled(s, step, byteSize)
    ensures Inv(After(s, step, byteSize))
  {
    var t := After(s, step, byteSize);
    ChainedAppend(s.spans, [(s.lastSequence + 1, 0)], s.base + 1, s.lastSequence + 1, s.lastSequence + 1);
    assert t.pcs[i] == Returned(if step.Refuse? then Failure else Success);
    assert Pending(s) == [];
    PopStep(s, t);
  }

  lemma {:induction false} SpansChained(rs: seq<Request>, first: nat)
    ensures Chained(Spans(rs, first), first, first + |Merged(rs)|)
    decreases |rs|
  {
    if rs != [] {
      var init := rs[..|rs| - 1];
      SpansChained(init, first);
      var last := (first + |Merged(init)|, |Batch(rs[|rs| - 1])|);
      ChainedAppend(Spans(init, first), [last], first, first + |Merged(init)|, first + |Merged(rs)|);
    }
  }

  /** Every update of the group belongs to one of its requests. */
  lemma {:induction false} RequestOf(rs: seq<Request>, first: nat, j: nat) returns (k: nat)
    requires j < |Merged(rs)|
    ensures k < |rs| && Numbered(Merged(rs), first)[j] in Numbered(Batch(rs[k]), first + |Merged(rs[..k])|)
    decreases |rs|
  {
    var last := |rs| - 1;
    var init := rs[..last];
    if j < |Merged(init)| {
      k := RequestOf(init, first, j);
      assert init[..k] == rs[..k] && Numbered(Merged(rs), first)[j] == Numbered(Merged(init), first)[j];
    } else {
      k := last;
      var q := j - |Merged(init)|;
      assert Numbered(Batch(rs[last]), first + |Merged(init)|)[q] == Numbered(Merged(rs), first)[j];
    }
  }

  /** The entries of one request are among those of the group. */
  lemma EntriesOfRequest(rs: seq<Request>, first: nat, k: nat, e: Entry)
    requires k < |rs| && e in Numbered(Batch(rs[k]), first + |Merged(rs[..k])|)
    ensures e in Numbered(Merged(rs), first)
  {
    hide Numbered, Merged, Batch;
    StretchOf(rs, k);
    NumberedPart(Merged(rs), first, |Merged(rs[..k])|, Batch(rs[k]), e);
  }

  lemma NumberedPart(updates: seq<Update>, first: nat, at: nat, part: seq<Update>, e: Entry)
    requires at + |part| <= |updates| && updates[at..at + |part|] == part && e in Numbered(part, first + at)
    ensures e in Numbered(updates, first)
  {
    var q :| 0 <= q < |part| && Numbered(part, first + at)[q] == e;
    assert part[q] == updates[at + q];
    assert Numbered(updates, first)[at + q] == e;
  }

  lemma PopShape(s: State, n: nat, status: Status, taken: seq<(nat, nat)>)
    requires Shape(s) && 0 < n && s.popped + n <= |s.pcs| && |taken| == n
    ensures var t := Pop(s, n, status, taken);
            && Shape(t) && Extends(s, t)
            && (forall k :: s.popped <= k < t.popped ==> t.pcs[k] == Returned(status))
            && (t.popped < |t.pcs| ==> t.pcs[t.popped].Waiting?)
  {
    var t := Pop(s, n, status, taken);
    forall k | 0 <= k < |t.pcs|
      ensures t.pcs[k] == if s.popped <= k < t.popped then Returned(status) else s.pcs[k]
    {
    }
  }

  lemma FinishShape(s: State, i: nat, byteSize: seq<Update> -> nat)
    requires Inv(s) && Enabled(s, Finish(i), byteSize)
    ensures var t := After(s, Finish(i), byteSize);
            var status := if s.pcs[i].stage.Broken? then Failure else Success;
            && i == s.popped && Shape(t) && Extends(s, t) && t.popped == i + s.pcs[i].size
            && t.mem == s.mem && t.log == s.log && t.base == s.base && t.requests == s.requests
            && t.lastSequence == s.lastSequence + |s.pcs[i].updates|
            && t.spans == s.spans + Spans(s.requests[i..t.popped], s.lastSequence + 1)
            && (forall k :: i <= k < t.popped ==> t.pcs[k] == Returned(status))
            && (t.popped < |t.pcs| ==> t.pcs[t.popped].Waiting?)
            && s.pcs[i].updates == Merged(s.requests[i..t.popped])
  {
    hide Settled, Chained, MemSound, Spans, Merged;
    var n := s.pcs[i].size;
    assert s.requests[i..][..n] == s.requests[i..i + n];
    PopShape(s, n, if s.pcs[i].stage.Broken? then Failure else Success, Spans(s.requests[i..i + n], s.pcs[i].before + 1));
  }

  /** One request of a group that has been written. */
  lemma GroupSettled(s: State, t: State, i: nat, k: nat)
    requires Shape(s) && Shape(t) && i <= k < t.popped && i == s.popped && |s.pcs| > i && s.pcs[i].Working?
    requires s.pcs[i].stage == Inserting(|s.pcs[i].updates|) && MemSound(s) && WorkOk(s)
    requires t.popped == i + s.pcs[i].size && t.mem == s.mem && t.log == s.log && t.requests == s.requests
    requires t.spans == s.spans + Spans(s.requests[i..t.popped], s.lastSequence + 1)
    requires s.pcs[i].updates == Merged(s.requests[i..t.popped])
    ensures SettledAt(t, k)
  {
    hide MemSound, WorkOk, Numbered, Spans, Merged, Batch, Shape, Applied;
    ShapeSizes(s);
    ShapeSizes(t);
    var rs := s.requests[i..t.popped];
    var first := s.lastSequence + 1;
    SpanOf(rs, first, k - i);
    StretchOf(rs, k - i);
    assert t.spans[k] == Spans(rs, first)[k - i] && rs[k - i] == t.requests[k];
    AllInserted(s, i);
    RequestApplied(rs, first, k - i, s.mem);
    GroupLogged(s, i, k);
    assert HeldBy(t.log[|t.log| - 1], Batch(t.requests[k]), t.spans[k].0, t.requests[k].sync);
  }

  lemma ShapeSizes(s: State)
    requires Shape(s)
    ensures |s.requests| == |s.pcs| && s.popped <= |s.pcs| && |s.spans| == s.popped
  {
  }

  lemma RequestApplied(rs: seq<Request>, first: nat, k: nat, mem: set<Entry>)
    requires k < |rs| && Applied(mem, Numbered(Merged(rs), first))
    ensures Applied(mem, Numbered(Batch(rs[k]), first + |Merged(rs[..k])|))
  {
    forall e | e in Numbered(Batch(rs[k]), first + |Merged(rs[..k])|)
      ensures e in mem
    {
      EntriesOfRequest(rs, first, k, e);
    }
  }

  lemma AllInserted(s: State, i: nat)
    requires Shape(s) && i == s.popped && |s.pcs| > i && s.pcs[i].Working? && s.pcs[i].stage == Inserting(|s.pcs[i].updates|)
    requires MemSound(s) && WorkOk(s)
    ensures Applied(s.mem, Numbered(s.pcs[i].updates, s.lastSequence + 1))
  {
    var all := Numbered(s.pcs[i].updates, s.lastSequence + 1);
    assert all[..|all|] == all;
  }

  lemma GroupLogged(s: State, i: nat, k: nat)
    requires Shape(s) && i == s.popped && |s.pcs| > i && s.pcs[i].Working? && s.pcs[i].stage.Inserting? && WorkOk(s)
    requires i <= k < i + s.pcs[i].size
    ensures s.log != [] && k < |s.requests|
    ensures s.log[|s.log| - 1].first == s.lastSequence + 1 && s.log[|s.log| - 1].updates == s.pcs[i].updates
    ensures s.requests[k].sync ==> s.log[|s.log| - 1].synced
  {
    assert s.requests[i..][k - i] == s.requests[k];
  }

  lemma FinishKeeps(s: State, i: nat, byteSize: seq<Update> -> nat)
    requires Inv(s) && Enabled(s, Finish(i), byteSize)
    ensures Inv(After(s, Finish(i), byteSize))
  {
    hide Chained, Applied, InLog, Settled, Numbered, FromSuccess, Extends, SettledAt, Spans, Merged;
    var t := After(s, Finish(i), byteSize);
    FinishShape(s, i, byteSize);
    var rs := s.requests[i..t.popped];
    SpansChained(rs, s.lastSequence + 1);
    ChainedAppend(s.spans, Spans(rs, s.lastSequence + 1), s.base + 1, s.lastSequence + 1, t.lastSequence + 1);
    if s.pcs[i].stage.Inserting? {
      forall k | i <= k < t.popped
        ensures SettledAt(t, k)
      {
        GroupSettled(s, t, i, k);
      }
    }
    forall e | e in s.mem && e.key.sequence > s.lastSequence
      ensures e.key.sequence <= t.lastSequence && FromSuccess(t, e)
    {
      FinishedEntry(s, t, i, e);
    }
    PopStep(s, t);
  }

  /** An entry the working writer has inserted is acknowledged when it finishes. */
  lemma FinishedEntry(s: State, t: State, i: nat, e: Entry)
    requires Inv(s) && Shape(t) && i == s.popped && |s.pcs| > i && s.pcs[i].Working?
             && (s.pcs[i].stage.Broken? || s.pcs[i].stage == Inserting(|s.pcs[i].updates|))
    requires t.popped == i + s.pcs[i].size && t.requests == s.requests && t.lastSequence == s.lastSequence + |s.pcs[i].updates|
    requires s.pcs[i].updates == Merged(s.requests[i..t.popped])
    requires t.spans == s.spans + Spans(s.requests[i..t.popped], s.lastSequence + 1)
    requires forall k :: i <= k < t.popped ==> t.pcs[k] == Returned(if s.pcs[i].stage.Broken? then Failure else Success)
    requires e in s.mem && e.key.sequence > s.lastSequence
    ensures e.key.sequence <= t.lastSequence && FromSuccess(t, e)
  {
    hide Settled, Chained, Spans, Merged, Numbered, Batch;
    var rs := s.requests[i..t.popped];
    var j := PendingEntry(s, i, e);
    var k := RequestOf(rs, s.lastSequence + 1, j);
    SpanOf(rs, s.lastSequence + 1, k);
    assert t.spans[i + k] == Spans(rs, s.lastSequence + 1)[k] && Succeeded(t, i + k) && t.requests[i + k] == rs[k];
  }

  lemma PendingEntry(s: State, i: nat, e: Entry) returns (j: nat)
    requires Shape(s) && MemSound(s) && WorkOk(s) && i == s.popped && |s.pcs| > i && s.pcs[i].Working?
    requires s.pcs[i].stage.Broken? || s.pcs[i].stage == Inserting(|s.pcs[i].updates|)
    requires e in s.mem && e.key.sequence > s.lastSequence
    ensures s.pcs[i].stage.Inserting?
    ensures j < |s.pcs[i].updates| && e == Numbered(s.pcs[i].updates, s.lastSequence + 1)[j]
    ensures e.key.sequence <= s.lastSequence + |s.pcs[i].updates|
  {
    hide FromSuccess, Merged, Applied;
    assert e in Pending(s);
    var all := Numbered(s.pcs[i].updates, s.lastSequence + 1);
    assert all[..|all|] == all;
    j :| j < |all| && all[j] == e;
  }

  /** Whatever step is taken, in whatever order, keeps the invariant. */
  lemma StepKeeps(s: State, step: Step, byteSize: seq<Update> -> nat)
    requires Inv(s) && Enabled(s, step, byteSize)
    ensures Inv(After(s, step, byteSize))
  {
    hide Inv, Enabled, After;
    match step
    case Arrive(r) => ArriveKeeps(s, r, byteSize);
    case BackgroundError => BackgroundErrorKeeps(s, byteSize);
    case Refuse(i) => LeaveKeeps(s, i, step, byteSize);
    case SwitchOnly(i) => LeaveKeeps(s, i, step, byteSize);
    case Lead(i, size) => LeadKeeps(s, i, size, byteSize);
    case AppendLog(i) => AppendKeeps(s, i, step, byteSize);
    case AppendFails(i, _) => AppendKeeps(s, i, step, byteSize);
    case SyncLog(i) => SyncKeeps(s, i, step, byteSize);
    case SyncFails(i) => SyncKeeps(s, i, step, byteSize);
    case SkipSync(i) => SyncKeeps(s, i, step, byteSize);
    case Insert(i) => InsertKeeps(s, i, byteSize);
    case Finish(i) => FinishKeeps(s, i, byteSize);
  }

  // ---------- all runs ----------

  /** Any interleaving of the threads. */
  ghost predicate IsRun(states: seq<State>, steps: seq<Step>, byteSize: seq<Update> -> nat) {
    && |states| == |steps| + 1 && Init(states[0])
    && forall i :: 0 <= i < |steps| ==> Enabled(states[i], steps[i], byteSize) && states[i + 1] == After(states[i], steps[i], byteSize)
  }

  lemma {:induction false} RunKeeps(states: seq<State>, steps: seq<Step>, byteSize: seq<Update> -> nat, n: nat)
    requires IsRun(states, steps, byteSize) && n < |states|
    ensures Inv(states[n])
  {
    hide Inv, Enabled, After, Init;
    if n == 0 {
      InitKeeps(states[0]);
    } else {
      RunKeeps(states, steps, byteSize, n - 1);
      StepKeeps(states[n - 1], steps[n - 1], byteSize);
    }
  }

  lemma {:induction false} SpansInOrder(spans: seq<(nat, nat)>, first: nat, end: nat, j: nat, k: nat)
    requires Chained(spans, first, end) && j <= k < |spans|
    ensures first <= spans[j].0 && spans[k].0 + spans[k].1 <= end
    ensures j < k ==> spans[j].0 + spans[j].1 <= spans[k].0
    decreases k - j, |spans| - k + j
  {
    assert LinkedAt(spans, j, end) && LinkedAt(spans, k, end);
    if j < k {
      SpansInOrder(spans, first, end, j + 1, k);
      FirstSpan(spans, first, end, j);
    } else {
      FirstSpan(spans, first, end, j);
      LastSpan(spans, first, end, k);
    }
  }

  lemma {:induction false} FirstSpan(spans: seq<(nat, nat)>, first: nat, end: nat, j: nat)
    requires Chained(spans, first, end) && j < |spans|
    ensures first <= spans[j].0
  {
    if j > 0 {
      FirstSpan(spans, first, end, j - 1);
      assert LinkedAt(spans, j - 1, end);
    }
  }

  lemma {:induction false} LastSpan(spans: seq<(nat, nat)>, first: nat, end: nat, k: nat)
    requires Chained(spans, first, end) && k < |spans|
    ensures spans[k].0 + spans[k].1 <= end
    decreases |spans| - k
  {
    assert LinkedAt(spans, k, end);
    if k + 1 < |spans| {
      LastSpan(spans, first, end, k + 1);
    }
  }

  /** What the writers that were told of success have written. */
  ghost function Acknowledged(s: State): set<Entry>
    requires Shape(s)
  {
    set k, e | 0 <= k < s.popped && Succeeded(s, k) && e in Numbered(Batch(s.requests[k]), s.spans[k].0) :: e
  }

  /** In every reachable state a reader at the last sequence number sees exactly the acknowledged
      batches: each of them whole, and nothing of any other. */
  lemma ReaderSeesAcknowledged(states: seq<State>, steps: seq<Step>, byteSize: seq<Update> -> nat, n: nat)
    requires IsRun(states, steps, byteSize) && n < |states|
    ensures Shape(states[n])
    ensures (set e | e in states[n].mem && e.key.sequence <= states[n].lastSequence) == Acknowledged(states[n])
  {
    hide IsRun, WorkOk, Merged, Batch, InLog, Chained;
    RunKeeps(states, steps, byteSize, n);
    var s := states[n];
    PendingIsLate(s);
    forall e | e in Acknowledged(s)
      ensures e in s.mem && e.key.sequence <= s.lastSequence
    {
      var k :| 0 <= k < s.popped && Succeeded(s, k) && e in Numbered(Batch(s.requests[k]), s.spans[k].0);
      SpansInOrder(s.spans, s.base + 1, s.lastSequence + 1, k, k);
    }
  }

  /** Only one thread at a time is in the part of `Write` that runs without the mutex, and it is the
      one at the front of the queue. */
  lemma OneWriterAtATime(states: seq<State>, steps: seq<Step>, byteSize: seq<Update> -> nat, n: nat, i: nat, j: nat)
    requires IsRun(states, steps, byteSize) && n < |states|
    requires i < |states[n].pcs| && j < |states[n].pcs| && states[n].pcs[i].Working? && states[n].pcs[j].Working?
    ensures i == j == states[n].popped
  {
    RunKeeps(states, steps, byteSize, n);
  }

  /** A writer that was told of success has its batch in the memtable under sequence numbers of its
      own, later than those of all writers before it in the queue, and in the log; and the log was
      synced after that if the writer asked for it. */
  lemma SuccessMeansWritten(states: seq<State>, steps: seq<Step>, byteSize: seq<Update> -> nat, n: nat, k: nat)
    requires IsRun(states, steps, byteSize) && n < |states|
    requires k < |states[n].pcs| && states[n].pcs[k] == Returned(Success) && k < |states[n].requests| && states[n].requests[k].batch.Some?
    ensures var s := states[n];
            && k < |s.spans| && s.spans[k].1 == |s.requests[k].batch.value|
            && Applied(s.mem, Numbered(s.requests[k].batch.value, s.spans[k].0))
            && InLog(s.log, s.requests[k].batch.value, s.spans[k].0, s.requests[k].sync)
            && forall j :: 0 <= j < k ==> s.spans[j].0 + s.spans[j].1 <= s.spans[k].0
  {
    RunKeeps(states, steps, byteSize, n);
    hide IsRun, MemSound, WorkOk;
    var s := states[n];
    assert Succeeded(s, k);
    forall j | 0 <= j < k
      ensures s.spans[j].0 + s.spans[j].1 <= s.spans[k].0
    {
      SpansInOrder(s.spans, s.base + 1, s.lastSequence + 1, j, k);
    }
  }
}
