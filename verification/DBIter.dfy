/** Iterating over the user keys visible at a sequence number (db/db_iter.cc). */
module DBIter {
  import opened History
  import opened Iterators

  // ---------- what the iterator enumerates ----------

  /** Entry `i` is what a reader at `s` gets for its user key. */
  ghost predicate Live(list: seq<Entry>, s: nat, i: nat) {
    && i < |list|
    && Visible(list[i], list[i].key.user, s) && list[i].key.kind.Value?
    && NoVisibleBefore(list, s, i, i)
  }

  /** None of the first `n` entries shows the user key of entry `i` at `s`. */
  ghost predicate NoVisibleBefore(list: seq<Entry>, s: nat, n: nat, i: nat)
    requires n <= |list| && i < |list|
  {
    forall j :: 0 <= j < n ==> !Visible(list[j], list[i].key.user, s)
  }

  ghost function Listed(list: seq<Entry>): set<Entry> {
    set e | e in list
  }

  /** The list an iterator runs over: sorted, and no two writes share a sequence number. */
  ghost predicate Iterable(list: seq<Entry>) {
    Sorted(list) && Distinct(Listed(list))
  }

  /** The reader's view of one user key. */
  ghost function View(list: seq<Entry>, s: nat, u: UserKey): Lookup {
    Read(Listed(list), u, s)
  }

  lemma LiveIsView(list: seq<Entry>, s: nat, i: nat)
    requires Iterable(list) && Live(list, s, i)
    ensures View(list, s, list[i].key.user) == Found(list[i].val)
  {
    forall e | e in list && Visible(e, list[i].key.user, s)
      ensures e.key.sequence <= list[i].key.sequence
    {
      var j :| 0 <= j < |list| && list[j] == e;
      assert i < j ==> Before(list[i].key, list[j].key);
    }
    ReadOfNewest(Listed(list), list[i].key.user, s, list[i]);
  }

  /** Every key a reader finds has its live entry. */
  lemma ViewIsLive(list: seq<Entry>, s: nat, u: UserKey) returns (i: nat)
    requires Iterable(list) && View(list, s, u).Found?
    ensures Live(list, s, i) && list[i].key.user == u
  {
    var e :| Newest(e, Listed(list), u, s);
    i :| i < |list| && list[i] == e;
    forall j | 0 <= j < i
      ensures !Visible(list[j], u, s)
    {
      assert Before(list[j].key, list[i].key) && list[j] in Listed(list);
      if Visible(list[j], u, s) {
        SameSequence(list, j, i);
      }
    }
  }

  lemma SameSequence(list: seq<Entry>, j: nat, i: nat)
    requires Iterable(list) && j < i < |list| && list[j].key.user == list[i].key.user
    ensures list[j].key.sequence > list[i].key.sequence
  {
    assert Before(list[j].key, list[i].key) && list[j] in Listed(list) && list[i] in Listed(list);
  }

  lemma UsersInOrder(list: seq<Entry>, i: nat, j: nat)
    requires Sorted(list) && i <= j < |list|
    ensures list[i].key.user <= list[j].key.user
  {
    assert i < j ==> Before(list[i].key, list[j].key);
  }

  /** Different live entries belong to different user keys. */
  lemma LiveIncreases(list: seq<Entry>, s: nat, i: nat, j: nat)
    requires Sorted(list) && Live(list, s, i) && Live(list, s, j) && i < j
    ensures list[i].key.user < list[j].key.user
  {
    UsersInOrder(list, i, j);
  }

  /** The first live entry from `from` on, `|list|` if there is none. */
  ghost predicate FirstLive(list: seq<Entry>, s: nat, from: nat, i: nat) {
    && from <= i <= |list| && (i < |list| ==> Live(list, s, i))
    && forall j :: from <= j < i ==> !Live(list, s, j)
  }

  /** The last live entry before `n`, `|list|` if there is none. */
  ghost predicate LastLive(list: seq<Entry>, s: nat, n: nat, i: nat) {
    && n <= |list|
    && if i < |list| then i < n && Live(list, s, i) && forall j :: i < j < n ==> !Live(list, s, j)
       else i == |list| && forall j :: 0 <= j < n ==> !Live(list, s, j)
  }

  /** Going backwards, the inner position `p` is just before the entries of the user key at `at`. */
  ghost predicate JustBefore(list: seq<Entry>, s: nat, p: nat, at: nat) {
    && at < |list|
    && (p < |list| ==> p < at && list[p].key.user < list[at].key.user)
    && forall q :: 0 <= q < at && (p < |list| ==> p < q) ==> list[q].key.sequence > s || list[q].key.user == list[at].key.user
  }

  // ---------- the iterator ----------

  class DBIter {
    const iter: MergingIterator
    const sequence: nat
    var savedKey: Option<UserKey>
    var savedValue: string
    var direction: Direction
    var valid: bool
    ghost var at: nat  // the live entry the iterator stands at

    ghost const list: seq<Entry> := iter.list

    ghost predicate Ok()
      reads this, iter, iter.children
    {
      && iter.Ok() && Iterable(list)
      && (valid ==>
            && Live(list, sequence, at)
            && if direction.Forward? then iter.pos == at
               else JustBefore(list, sequence, iter.pos, at) && savedKey == Some(list[at].key.user) && savedValue == list[at].val)
    }

    constructor (iter: MergingIterator, s: nat)
      requires iter.Ok() && Iterable(iter.list)
      ensures Ok() && !valid && this.iter == iter && sequence == s
    {
      this.iter, sequence := iter, s;
      savedKey, savedValue, direction, valid, at := None, "", Forward, false, 0;
    }

    /** Where the iterator stands, in the reader's terms. */
    ghost function Position(): Option<(UserKey, string)>
      requires Ok()
      reads this, iter, iter.children
    {
      if valid then Some((Key(), Value())) else None
    }

    function Key(): (u: UserKey)
      requires Ok() && valid
      reads this, iter, iter.children
      ensures u == list[at].key.user
    {
      if direction.Forward? then iter.Current().key.user else savedKey.value
    }

    function Value(): (v: string)
      requires Ok() && valid
      reads this, iter, iter.children
      ensures v == list[at].val
    {
      if direction.Forward? then iter.Current().val else savedValue
    }

    /** Moves forward to the first entry that may be yielded. */
    method FindNextUserEntry(skipping: bool, ghost from: nat)
      requires iter.Ok() && iter.Valid() && Iterable(list) && direction.Forward?
      requires Skips(list, sequence, iter.pos, from, skipping, savedKey)
      modifies this`savedKey, this`valid, this`at, iter, iter.children
      ensures Ok() && (valid <==> at < |list|) && FirstLive(list, sequence, from, at)
    {
      hide Skips, Live, Iterable, FirstLive, IsUnion, SplitAt, LastBefore, Sorted;
      var skip := skipping;
      while true
        invariant iter.Ok() && iter.Valid() && iter.pos < |list| && Skips(list, sequence, iter.pos, from, skip, savedKey)
        decreases |list| - iter.pos
      {
        var ikey := iter.Current().key;
        SkipStep(list, sequence, iter.pos, from, skip, savedKey);
        if ikey.sequence <= sequence {
          match ikey.kind
          case Deletion =>
            savedKey := Some(ikey.user);
            skip := true;
          case Value =>
            if skip && ikey.user <= savedKey.value {
              // hidden
            } else {
              valid, savedKey, at := true, None, iter.pos;
              return;
            }
        }
        iter.Next();
        if !iter.Valid() {
          break;
        }
      }
      SkippedAll(list, sequence, from, skip, savedKey);
      savedKey, valid, at := None, false, |list|;
    }

    /** Moves backward to the last live entry among those up to the inner iterator. */
    method FindPrevUserEntry(ghost n: nat)
      requires iter.Ok() && Iterable(list) && direction.Reverse? && n <= |list|
      requires if n == 0 then !iter.Valid() else iter.Valid() && iter.pos == n - 1
      modifies this, iter, iter.children
      ensures Ok() && (valid <==> at < |list|) && LastLive(list, sequence, n, at)
    {
      hide Live, Iterable, MergingIterator.Ok, LastLive, Scanned, JustBefore;
      var kind := Deletion;
      ghost var p: nat, m: nat := n, |list|;
      ScanStart(list, sequence, n);
      iter.PositionIsValid();
      if iter.Valid() {
        while true
          invariant iter.Ok() && iter.Valid() && p == iter.pos + 1 && direction.Reverse?
          invariant Scanned(list, sequence, p, n, m, kind, savedKey, savedValue)
          decreases iter.pos
        {
          var e := iter.Current();
          ScanStep(list, sequence, p, n, m, kind, savedKey, savedValue);
          if e.key.sequence <= sequence {
            if kind != Deletion && e.key.user < savedKey.value {
              break;
            }
            kind, m := e.key.kind, iter.pos;
            savedKey := if kind == Deletion then None else Some(e.key.user);
            savedValue := if kind == Deletion then "" else e.val;
          }
          iter.Prev();
          iter.PositionIsValid();
          p := p - 1;
          if !iter.Valid() {
            break;
          }
        }
      }
      ScanEnd(list, sequence, p, n, m, kind, savedKey, savedValue);
      if kind == Deletion {
        valid, savedKey, savedValue, direction, at := false, None, "", Forward, |list|;
      } else {
        valid, at := true, m;
      }
    }

    /** To the least visible user key at or after `target`. */
    method Seek(target: UserKey)
      requires Ok()
      modifies this, iter, iter.children
      ensures Ok() && IsLeast(list, sequence, Above(target, true), Position())
    {
      hide Live, Iterable, IsUnion, SplitAt, LastBefore, Sorted, FirstLive, Skips, IsSeek, JustBefore, IsLeast;
      direction, savedValue, savedKey := Forward, "", None;
      iter.Seek(SeekKey(target, sequence));
      ghost var p := iter.pos;
      SeekStarts(list, sequence, p, target);
      if iter.Valid() {
        FindNextUserEntry(false, p);
      } else {
        valid, at := false, |list|;
      }
      LeastFrom(list, sequence, p, at, target);
    }

    method SeekToFirst()
      requires Ok()
      modifies this, iter, iter.children
      ensures Ok() && IsLeast(list, sequence, Everything, Position())
    {
      hide Live, Iterable, IsUnion, SplitAt, LastBefore, Sorted, FirstLive, Skips, JustBefore, IsLeast;
      direction, savedValue, savedKey := Forward, "", None;
      iter.SeekToFirst();
      FirstStarts(list, sequence);
      if iter.Valid() {
        FindNextUserEntry(false, 0);
      } else {
        valid, at := false, |list|;
      }
      LeastOfAll(list, sequence, at);
    }

    method SeekToLast()
      requires Ok()
      modifies this, iter, iter.children
      ensures Ok() && IsGreatest(list, sequence, Everything, Position())
    {
      hide Live, Iterable, IsUnion, SplitAt, LastBefore, Sorted, LastLive, JustBefore, IsGreatest;
      direction, savedValue := Reverse, "";
      iter.SeekToLast();
      FindPrevUserEntry(|list|);
      GreatestOfAll(list, sequence, at);
    }

    /** To the least visible user key after the current one. */
    method Next()
      requires Ok() && valid
      modifies this, iter, iter.children
      ensures Ok() && IsLeast(list, sequence, Above(old(Key()), false), Position())
    {
      hide Live, Iterable, IsUnion, SplitAt, LastBefore, Sorted, FirstLive, Skips, JustBefore, IsLeast;
      ghost var i := at;
      LiveIsInside(list, sequence, i);
      if direction == Reverse {
        direction := Forward;
        BackStarts(list, sequence, iter.pos, i);
        if !iter.Valid() {
          iter.SeekToFirst();
        } else {
          iter.Next();
        }
        if !iter.Valid() {
          // never: the entries of the current key lie ahead
          assert false;
        }
      } else {
        savedKey := Some(iter.Current().key.user);
        LiveStarts(list, sequence, i);
      }
      FindNextUserEntry(true, i + 1);
      LeastAfter(list, sequence, i, at);
    }

    /** To the greatest visible user key before the current one. */
    method Prev()
      requires Ok() && valid
      modifies this, iter, iter.children
      ensures Ok() && IsGreatest(list, sequence, Below(old(Key())), Position())
    {
      hide Live, Iterable, IsUnion, SplitAt, LastBefore, Sorted, LastLive, JustBefore, IsGreatest;
      ghost var i := at;
      LiveIsInside(list, sequence, i);
      if direction == Forward {
        savedKey := Some(iter.Current().key.user);
        while true
          invariant iter.Ok() && iter.Valid() && iter.pos <= i && direction.Forward?
          invariant savedKey == Some(list[i].key.user)
          invariant forall q :: iter.pos <= q < i ==> list[q].key.user >= list[i].key.user
          decreases iter.pos
        {
          iter.Prev();
          if !iter.Valid() {
            valid, savedKey, savedValue, at := false, None, "", |list|;
            NoneBefore(list, sequence, i);
            return;
          }
          if iter.Current().key.user < savedKey.value {
            break;
          }
        }
        direction := Reverse;
        OutOfGroup(list, sequence, iter.pos, i);
      }
      ghost var n := if iter.Valid() then iter.pos + 1 else 0;
      BeforeGroup(list, sequence, iter.pos, i, n);
      FindPrevUserEntry(n);
      GreatestBefore(list, sequence, i, n, at);
    }
  }

  // ---------- the reader's cursor ----------

  datatype Range = Everything | Above(key: UserKey, inclusive: bool) | Below(limit: UserKey)

  predicate InRange(r: Range, u: UserKey) {
    match r
    case Everything => true
    case Above(key, inclusive) => key < u || (inclusive && key == u)
    case Below(limit) => u < limit
  }

  /** The cursor is at the least key of a range that a reader sees, or at the end if there is none. */
  ghost predicate IsLeast(list: seq<Entry>, s: nat, r: Range, c: Option<(UserKey, string)>) {
    && (c.Some? ==> InRange(r, c.value.0) && View(list, s, c.value.0) == Found(c.value.1))
    && forall u :: InRange(r, u) && (c.Some? ==> u < c.value.0) ==> View(list, s, u).Missing?
  }

  ghost predicate IsGreatest(list: seq<Entry>, s: nat, r: Range, c: Option<(UserKey, string)>) {
    && (c.Some? ==> InRange(r, c.value.0) && View(list, s, c.value.0) == Found(c.value.1))
    && forall u :: InRange(r, u) && (c.Some? ==> u > c.value.0) ==> View(list, s, u).Missing?
  }

  ghost function CursorAt(list: seq<Entry>, i: nat): Option<(UserKey, string)> {
    if i < |list| then Some((list[i].key.user, list[i].val)) else None
  }

  /** The least key of a range is found at the first live entry from `from` on, when the entries
      from there on are those of the range. */
  lemma LeastOfRange(list: seq<Entry>, s: nat, from: nat, at: nat, r: Range)
    requires Iterable(list) && FirstLive(list, s, from, at)
    requires forall i: nat :: Live(list, s, i) ==> (InRange(r, list[i].key.user) <==> from <= i)
    ensures IsLeast(list, s, r, CursorAt(list, at))
  {
    if at < |list| {
      LiveIsView(list, s, at);
    }
    forall u | InRange(r, u) && (at < |list| ==> u < list[at].key.user)
      ensures View(list, s, u).Missing?
    {
      if View(list, s, u).Found? {
        var i := ViewIsLive(list, s, u);
      }
    }
  }

  lemma GreatestOfRange(list: seq<Entry>, s: nat, n: nat, at: nat, r: Range)
    requires Iterable(list) && LastLive(list, s, n, at)
    requires forall i: nat :: Live(list, s, i) ==> (InRange(r, list[i].key.user) <==> i < n)
    ensures IsGreatest(list, s, r, CursorAt(list, at))
  {
    if at < |list| {
      LiveIsView(list, s, at);
    }
    forall u | InRange(r, u) && (at < |list| ==> u > list[at].key.user)
      ensures View(list, s, u).Missing?
    {
      if View(list, s, u).Found? {
        var i := ViewIsLive(list, s, u);
      }
    }
  }

  lemma LeastFrom(list: seq<Entry>, s: nat, p: nat, at: nat, target: UserKey)
    requires Iterable(list) && IsSeek(list, SeekKey(target, s), p) && FirstLive(list, s, p, at)
    ensures IsLeast(list, s, Above(target, true), CursorAt(list, at))
  {
    LeastOfRange(list, s, p, at, Above(target, true));
  }

  lemma LeastOfAll(list: seq<Entry>, s: nat, at: nat)
    requires Iterable(list) && FirstLive(list, s, 0, at)
    ensures IsLeast(list, s, Everything, CursorAt(list, at))
  {
    LeastOfRange(list, s, 0, at, Everything);
  }

  lemma GreatestOfAll(list: seq<Entry>, s: nat, at: nat)
    requires Iterable(list) && LastLive(list, s, |list|, at)
    ensures IsGreatest(list, s, Everything, CursorAt(list, at))
  {
    GreatestOfRange(list, s, |list|, at, Everything);
  }

  lemma LeastAfter(list: seq<Entry>, s: nat, i: nat, at: nat)
    requires Iterable(list) && Live(list, s, i) && FirstLive(list, s, i + 1, at)
    ensures IsLeast(list, s, Above(list[i].key.user, false), CursorAt(list, at))
  {
    forall j: nat | Live(list, s, j)
      ensures list[i].key.user < list[j].key.user <==> i + 1 <= j
    {
      if i < j { LiveIncreases(list, s, i, j); } else { UsersInOrder(list, j, i); }
    }
    LeastOfRange(list, s, i + 1, at, Above(list[i].key.user, false));
  }

  lemma GreatestBefore(list: seq<Entry>, s: nat, i: nat, n: nat, at: nat)
    requires Iterable(list) && Live(list, s, i) && LastLive(list, s, n, at)
    requires forall j: nat :: Live(list, s, j) ==> (j < n <==> j < i)
    ensures IsGreatest(list, s, Below(list[i].key.user), CursorAt(list, at))
  {
    forall j: nat | Live(list, s, j)
      ensures list[j].key.user < list[i].key.user <==> j < n
    {
      if j < i { LiveIncreases(list, s, j, i); } else { UsersInOrder(list, i, j); }
    }
    GreatestOfRange(list, s, n, at, Below(list[i].key.user));
  }

  lemma NoneBefore(list: seq<Entry>, s: nat, i: nat)
    requires Iterable(list) && Live(list, s, i)
    requires forall q :: 0 <= q < i ==> list[q].key.user >= list[i].key.user
    ensures IsGreatest(list, s, Below(list[i].key.user), None)
  {
    forall u | u < list[i].key.user
      ensures View(list, s, u).Missing?
    {
      if View(list, s, u).Found? {
        var j := ViewIsLive(list, s, u);
        UsersFrom(list, i, j);
      }
    }
  }

  /** Stepping back over the entries of a user key leads just before them. */
  lemma OutOfGroup(list: seq<Entry>, s: nat, p: nat, i: nat)
    requires Iterable(list) && p < i < |list| && list[p].key.user < list[i].key.user
    requires forall q :: p < q < i ==> list[q].key.user >= list[i].key.user
    ensures JustBefore(list, s, p, i)
  {
    forall q | p < q < i
      ensures list[q].key.user == list[i].key.user
    {
      UsersInOrder(list, q, i);
    }
  }

  lemma BeforeGroup(list: seq<Entry>, s: nat, p: nat, i: nat, n: nat)
    requires Live(list, s, i) && JustBefore(list, s, p, i) && n == if p < |list| then p + 1 else 0
    ensures n <= |list| && forall j: nat :: Live(list, s, j) ==> (j < n <==> j < i)
  {
    forall j: nat | Live(list, s, j) && n <= j < i
      ensures false
    {
      assert Visible(list[j], list[i].key.user, s);
    }
  }

  lemma UsersFrom(list: seq<Entry>, i: nat, j: nat)
    requires Sorted(list) && i < |list| && j < |list|
    requires forall q :: 0 <= q < i ==> list[q].key.user >= list[i].key.user
    ensures list[j].key.user >= list[i].key.user
  {
  }

  lemma LiveIsInside(list: seq<Entry>, s: nat, i: nat)
    requires Live(list, s, i)
    ensures i < |list|
  {
  }

  /** The search after the live entry `i` may start at that entry. */
  lemma LiveStarts(list: seq<Entry>, s: nat, i: nat)
    requires Iterable(list) && Live(list, s, i)
    ensures Skips(list, s, i, i + 1, true, Some(list[i].key.user))
  {
  }

  /** Or just before the entries of its user key. */
  lemma BackStarts(list: seq<Entry>, s: nat, p: nat, i: nat)
    requires Iterable(list) && Live(list, s, i) && JustBefore(list, s, p, i)
    ensures Skips(list, s, if p < |list| then p + 1 else 0, i + 1, true, Some(list[i].key.user))
    ensures p < |list| ==> p < i
  {
    var start := if p < |list| then p + 1 else 0;
    forall j | 0 <= j < start
      ensures list[j].key.user < list[i].key.user
    {
      UsersInOrder(list, j, p);
    }
    forall q | start <= q < |list|
      ensures list[q].key.sequence <= s ==> list[i].key.user <= list[q].key.user
      ensures q <= i ==> list[q].key.user <= list[i].key.user
      ensures i < q && list[q].key.user <= list[i].key.user ==> !Live(list, s, q)
    {
      BackEntry(list, s, p, i, q);
    }
  }

  lemma BackEntry(list: seq<Entry>, s: nat, p: nat, i: nat, q: nat)
    requires Iterable(list) && Live(list, s, i) && JustBefore(list, s, p, i) && q < |list| && (p < |list| ==> p < q)
    ensures list[q].key.sequence <= s ==> list[i].key.user <= list[q].key.user
    ensures q <= i ==> list[q].key.user <= list[i].key.user
    ensures i < q && list[q].key.user <= list[i].key.user ==> !Live(list, s, q)
  {
    if q <= i {
      UsersInOrder(list, q, i);
    } else {
      UsersInOrder(list, i, q);
      if list[q].key.user <= list[i].key.user {
        assert Visible(list[i], list[q].key.user, s);
      }
    }
  }

  /** The search has come to `p` without meeting a live entry from `from` on. Nothing before `p` is
      visible under a user key from `p` on, except under keys being skipped; and those have nothing
      live to offer from `from` on. */
  ghost predicate Skips(list: seq<Entry>, s: nat, p: nat, from: nat, skipping: bool, skip: Option<UserKey>) {
    && p <= |list| && from <= |list| && (skipping ==> skip.Some?)
    && (forall j, q :: 0 <= j < p <= q < |list| && Visible(list[j], list[q].key.user, s) ==>
          skipping && list[q].key.user <= skip.value)
    && (forall q :: p <= q < |list| && skipping && list[q].key.sequence <= s ==> skip.value <= list[q].key.user)
    && (forall q :: p <= q < |list| && from <= q && skipping && list[q].key.user <= skip.value ==> !Live(list, s, q))
    && (forall q :: from <= q < p ==> !Live(list, s, q))
    && (forall q :: p <= q < from ==> skipping && list[q].key.user <= skip.value)
  }

  /** The backward scan has passed the entries from `p` to `n`; `m` is the last visible one it has
      passed, `|list|` if there was none. No entry beyond `m` is live. */
  ghost predicate Scanned(list: seq<Entry>, s: nat, p: nat, n: nat, m: nat, kind: Kind, key: Option<UserKey>, val: string) {
    && p <= n <= |list|
    && (forall q :: p <= q < n && q != m && (m < |list| ==> q < m) ==> list[q].key.sequence > s)
    && if m < |list| then
         && p <= m < n && list[m].key.sequence <= s && kind == list[m].key.kind
         && (kind.Value? ==> key == Some(list[m].key.user) && val == list[m].val)
         && (forall q :: m < q < n ==> !Live(list, s, q))
       else m == |list| && kind.Deletion?
  }

  lemma ScanStart(list: seq<Entry>, s: nat, n: nat)
    requires n <= |list|
    ensures forall key, val :: Scanned(list, s, n, n, |list|, Deletion, key, val)
  {
  }

  lemma ScanStep(list: seq<Entry>, s: nat, p: nat, n: nat, m: nat, kind: Kind, key: Option<UserKey>, val: string)
    requires Iterable(list) && 0 < p && Scanned(list, s, p, n, m, kind, key, val)
    ensures p <= |list| && (kind.Value? ==> key.Some?)
    ensures list[p - 1].key.sequence > s ==> Scanned(list, s, p - 1, n, m, kind, key, val)
    ensures list[p - 1].key.sequence <= s && !(kind.Value? && list[p - 1].key.user < key.value) ==>
              if list[p - 1].key.kind.Deletion? then Scanned(list, s, p - 1, n, p - 1, Deletion, None, "")
              else Scanned(list, s, p - 1, n, p - 1, Value, Some(list[p - 1].key.user), list[p - 1].val)
  {
    if list[p - 1].key.sequence <= s && !(kind.Value? && list[p - 1].key.user < key.value) {
      ScanVisible(list, s, p, n, m, kind, key, val);
    }
  }

  /** A visible entry takes the place of the one found so far, which it hides if that is a value. */
  lemma ScanVisible(list: seq<Entry>, s: nat, p: nat, n: nat, m: nat, kind: Kind, key: Option<UserKey>, val: string)
    requires Iterable(list) && 0 < p && Scanned(list, s, p, n, m, kind, key, val)
    requires list[p - 1].key.sequence <= s && !(kind.Value? && list[p - 1].key.user < key.value)
    ensures forall q :: p - 1 < q < n ==> !Live(list, s, q)
  {
    if m < |list| && kind.Value? {
      UsersInOrder(list, p - 1, m);
      assert Visible(list[p - 1], list[m].key.user, s);
    }
  }

  /** The scan ends at the front, or before a visible entry of a smaller user key. */
  lemma ScanEnd(list: seq<Entry>, s: nat, p: nat, n: nat, m: nat, kind: Kind, key: Option<UserKey>, val: string)
    requires Iterable(list) && Scanned(list, s, p, n, m, kind, key, val)
    requires p == 0 || (kind.Value? && list[p - 1].key.sequence <= s && list[p - 1].key.user < key.value)
    ensures kind.Deletion? ==> LastLive(list, s, n, |list|)
    ensures kind.Value? ==> m < |list| && Live(list, s, m) && LastLive(list, s, n, m) && key == Some(list[m].key.user) && val == list[m].val
    ensures kind.Value? ==> JustBefore(list, s, if p == 0 then |list| else p - 1, m)
  {
    if kind.Value? {
      forall j | 0 <= j < m
        ensures !Visible(list[j], list[m].key.user, s)
      {
        if j < p { UsersInOrder(list, j, p - 1); }
      }
    }
  }

  lemma SeekStarts(list: seq<Entry>, s: nat, p: nat, target: UserKey)
    requires Iterable(list) && IsSeek(list, SeekKey(target, s), p)
    ensures Skips(list, s, p, p, false, None)
  {
  }

  lemma FirstStarts(list: seq<Entry>, s: nat)
    ensures Skips(list, s, 0, 0, false, None)
    ensures |list| == 0 ==> FirstLive(list, s, 0, 0)
  {
  }

  /** An invisible entry is passed. */
  lemma SkipInvisible(list: seq<Entry>, s: nat, p: nat, from: nat, skipping: bool, skip: Option<UserKey>)
    requires Iterable(list) && p < |list| && Skips(list, s, p, from, skipping, skip)
    requires list[p].key.sequence > s
    ensures Skips(list, s, p + 1, from, skipping, skip)
  {
    hide Live, Sorted, Distinct;
    InvisibleIsNotLive(list, s, p);
  }

  lemma InvisibleIsNotLive(list: seq<Entry>, s: nat, p: nat)
    requires p < |list| && list[p].key.sequence > s
    ensures !Live(list, s, p)
  {
  }

  /** A deletion hides what is left of its user key. */
  lemma SkipDeletion(list: seq<Entry>, s: nat, p: nat, from: nat, skipping: bool, skip: Option<UserKey>)
    requires Iterable(list) && p < |list| && Skips(list, s, p, from, skipping, skip)
    requires list[p].key.sequence <= s && list[p].key.kind.Deletion?
    ensures Skips(list, s, p + 1, from, true, Some(list[p].key.user))
  {
    hide Live, Sorted, Distinct;
    var u := list[p].key.user;
    DeletionIsNotLive(list, s, p);
    forall q | p < q < |list|
      ensures u <= list[q].key.user
      ensures list[q].key.user <= u ==> !Live(list, s, q)
    {
      UsersInOrder(list, p, q);
      if list[q].key.user <= u {
        HiddenIsNotLive(list, s, p, q);
      }
    }
  }

  lemma DeletionIsNotLive(list: seq<Entry>, s: nat, p: nat)
    requires p < |list| && list[p].key.kind.Deletion?
    ensures !Live(list, s, p)
  {
  }

  lemma HiddenIsNotLive(list: seq<Entry>, s: nat, p: nat, q: nat)
    requires p < q < |list| && list[p].key.sequence <= s && list[p].key.user == list[q].key.user
    ensures !Live(list, s, q)
  {
    assert Visible(list[p], list[q].key.user, s);
  }

  /** A hidden value is passed. */
  lemma SkipHidden(list: seq<Entry>, s: nat, p: nat, from: nat, skip: Option<UserKey>)
    requires Iterable(list) && p < |list| && Skips(list, s, p, from, true, skip)
    requires list[p].key.sequence <= s && list[p].key.user <= skip.value
    ensures Skips(list, s, p + 1, from, true, skip)
  {
  }

  /** A value that is not hidden is the answer. */
  lemma SkipFound(list: seq<Entry>, s: nat, p: nat, from: nat, skipping: bool, skip: Option<UserKey>)
    requires p < |list| && Skips(list, s, p, from, skipping, skip)
    requires list[p].key.sequence <= s && list[p].key.kind.Value? && !(skipping && list[p].key.user <= skip.value)
    ensures FirstLive(list, s, from, p)
  {
  }

  lemma SkippedAll(list: seq<Entry>, s: nat, from: nat, skipping: bool, skip: Option<UserKey>)
    requires Skips(list, s, |list|, from, skipping, skip)
    ensures FirstLive(list, s, from, |list|)
  {
  }

  /** One step of the search. */
  lemma SkipStep(list: seq<Entry>, s: nat, p: nat, from: nat, skipping: bool, skip: Option<UserKey>)
    requires Iterable(list) && p < |list| && Skips(list, s, p, from, skipping, skip)
    ensures skipping ==> skip.Some?
    ensures list[p].key.sequence > s ==> Skips(list, s, p + 1, from, skipping, skip)
    ensures list[p].key.sequence <= s && list[p].key.kind.Deletion? ==> Skips(list, s, p + 1, from, true, Some(list[p].key.user))
    ensures list[p].key.sequence <= s && list[p].key.kind.Value? ==>
              if skipping && list[p].key.user <= skip.value then Skips(list, s, p + 1, from, skipping, skip)
              else Live(list, s, p) && FirstLive(list, s, from, p)
  {
    assert skipping ==> skip.Some?;
    hide Skips, Iterable;
    if list[p].key.sequence > s {
      SkipInvisible(list, s, p, from, skipping, skip);
    } else if list[p].key.kind.Deletion? {
      SkipDeletion(list, s, p, from, skipping, skip);
    } else if skipping && list[p].key.user <= skip.value {
      SkipHidden(list, s, p, from, skip);
    } else {
      SkipFound(list, s, p, from, skipping, skip);
    }
  }
}
