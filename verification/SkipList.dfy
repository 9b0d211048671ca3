/** The skip list of the memtable (db/skiplist.h). Nodes live in an arena and refer to each other by
    their place in it; node 0 is the head. */
module SkipList {
  import opened History

  const MAX_HEIGHT := 12
  const HEAD: nat := 0

  datatype Node = Node(entry: Entry, next: seq<Option<nat>>)

  /** The arena, and for each level the nodes linked into it. */
  datatype Arena = Arena(nodes: seq<Node>, levels: seq<set<nat>>, maxHeight: nat)

  // ---------- order ----------

  predicate Less(nodes: seq<Node>, n: nat, m: nat)
    requires n < |nodes| && m < |nodes|
  {
    m != HEAD && (n == HEAD || Before(nodes[n].entry.key, nodes[m].entry.key))
  }

  /** The node comes before a key; the head comes before all. */
  predicate IsBefore(nodes: seq<Node>, n: nat, key: IKey)
    requires n < |nodes|
  {
    n == HEAD || Before(nodes[n].entry.key, key)
  }

  ghost predicate InArena(nodes: seq<Node>, level: set<nat>) {
    forall m :: m in level ==> 0 < m < |nodes|
  }

  /** `next` is the first node of the level after node `n`. */
  ghost predicate IsNext(nodes: seq<Node>, level: set<nat>, n: nat, next: Option<nat>)
    requires n < |nodes| && InArena(nodes, level)
  {
    match next
    case None => forall m :: m in level ==> !Less(nodes, n, m)
    case Some(x) => x in level && Less(nodes, n, x) && forall m :: m in level && Less(nodes, n, m) ==> !Less(nodes, m, x)
  }

  ghost predicate DistinctKeys(nodes: seq<Node>, level: set<nat>)
    requires InArena(nodes, level)
  {
    forall n, m :: n in level && m in level && n != m ==> nodes[n].entry.key != nodes[m].entry.key
  }

  /** Every level is a sorted list, and a part of the level below. */
  ghost predicate Valid(a: Arena) {
    && |a.levels| == MAX_HEIGHT && 1 <= a.maxHeight <= MAX_HEIGHT
    && 0 < |a.nodes| && |a.nodes[HEAD].next| == MAX_HEIGHT
    && (forall l :: 0 <= l < MAX_HEIGHT ==> InArena(a.nodes, a.levels[l]))
    && (forall l, n :: 0 <= l < MAX_HEIGHT && n in a.levels[l] ==> l < |a.nodes[n].next|)
    && (forall l :: 0 <= l < MAX_HEIGHT - 1 ==> a.levels[l + 1] <= a.levels[l])
    && (forall l :: a.maxHeight <= l < MAX_HEIGHT ==> a.levels[l] == {})
    && DistinctKeys(a.nodes, a.levels[0])
    && (forall l, n: nat :: 0 <= l < MAX_HEIGHT && OnLevel(a, l, n) ==> IsNext(a.nodes, a.levels[l], n, a.nodes[n].next[l]))
  }

  ghost predicate OnLevel(a: Arena, l: int, n: nat)
    requires 0 <= l < |a.levels|
  {
    n == HEAD || n in a.levels[l]
  }

  ghost function Contents(a: Arena): set<Entry>
    requires |a.levels| > 0 && InArena(a.nodes, a.levels[0])
  {
    set n | n in a.levels[0] :: a.nodes[n].entry
  }

  lemma LowerLevel(a: Arena, l: nat, k: nat)
    requires Valid(a) && k <= l < MAX_HEIGHT
    ensures a.levels[l] <= a.levels[k]
    decreases l - k
  {
    if k < l { LowerLevel(a, l, k + 1); }
  }

  // ---------- what searches find ----------

  /** The earliest node of the list at or after a key. */
  ghost predicate IsCeiling(a: Arena, key: IKey, r: Option<nat>)
    requires Valid(a)
  {
    match r
    case None => forall m :: m in a.levels[0] ==> IsBefore(a.nodes, m, key)
    case Some(x) => x in a.levels[0] && !IsBefore(a.nodes, x, key)
                    && forall m :: m in a.levels[0] && !IsBefore(a.nodes, m, key) ==> !Less(a.nodes, m, x)
  }

  /** The latest node of a level before a key; the head if there is none. */
  ghost predicate IsFloor(a: Arena, l: nat, key: IKey, x: nat)
    requires Valid(a) && l < MAX_HEIGHT
  {
    && OnLevel(a, l, x) && x < |a.nodes| && IsBefore(a.nodes, x, key)
    && forall m :: m in a.levels[l] && IsBefore(a.nodes, m, key) ==> !Less(a.nodes, x, m)
  }

  /** The last node of the list; the head if it is empty. */
  ghost predicate IsLast(a: Arena, x: nat)
    requires Valid(a)
  {
    OnLevel(a, 0, x) && x < |a.nodes| && forall m :: m in a.levels[0] ==> !Less(a.nodes, x, m)
  }

  /** The nodes still ahead in a level. */
  ghost function Ahead(a: Arena, l: nat, x: nat): set<nat>
    requires Valid(a) && l < MAX_HEIGHT && x < |a.nodes|
  {
    set m | m in a.levels[l] && Less(a.nodes, x, m)
  }

  lemma AheadShrinks(a: Arena, l: nat, x: nat, y: nat)
    requires Valid(a) && l < MAX_HEIGHT && OnLevel(a, l, x) && a.nodes[x].next[l] == Some(y)
    ensures y in a.levels[l] && Ahead(a, l, y) < Ahead(a, l, x)
  {
    assert y in Ahead(a, l, x) && y !in Ahead(a, l, y);
    forall m | m in Ahead(a, l, y)
      ensures m in Ahead(a, l, x)
    {
    }
  }

  /** Where the next node is not before the key, the search has come to the latest node that is. */
  lemma FloorFound(a: Arena, l: nat, key: IKey, x: nat)
    requires Valid(a) && l < MAX_HEIGHT && OnLevel(a, l, x) && IsBefore(a.nodes, x, key)
    requires a.nodes[x].next[l].None? || !IsBefore(a.nodes, a.nodes[x].next[l].value, key)
    ensures IsFloor(a, l, key, x)
    ensures l == 0 ==> IsCeiling(a, key, a.nodes[x].next[l])
  {
    var next := a.nodes[x].next[l];
    assert IsNext(a.nodes, a.levels[l], x, next);
    forall m | m in a.levels[l] && IsBefore(a.nodes, m, key)
      ensures !Less(a.nodes, x, m)
    {
    }
  }

  class SkipList {
    var nodes: seq<Node>
    var maxHeight: nat
    ghost var levels: seq<set<nat>>

    ghost function AsArena(): Arena
      reads this
    {
      Arena(nodes, levels, maxHeight)
    }

    ghost predicate Ok()
      reads this
    {
      Valid(AsArena())
    }

    constructor ()
      ensures Ok() && Contents(AsArena()) == {}
    {
      nodes := [Node(Entry(IKey(0.0, 0, Value), ""), seq(MAX_HEIGHT, _ => None))];
      maxHeight := 1;
      levels := seq(MAX_HEIGHT, _ => {});
    }

    /** Also fills `prev` for every level in use. */
    method FindGreaterOrEqual(key: IKey) returns (r: Option<nat>, prev: seq<nat>)
      requires Ok()
      ensures IsCeiling(AsArena(), key, r)
      ensures |prev| == MAX_HEIGHT && forall l :: 0 <= l < maxHeight ==> IsFloor(AsArena(), l, key, prev[l])
    {
      var x: nat, level: nat := HEAD, maxHeight - 1;
      prev := seq(MAX_HEIGHT, _ => HEAD);
      while true
        invariant 0 <= level < maxHeight && |prev| == MAX_HEIGHT
        invariant OnLevel(AsArena(), level, x) && x < |nodes| && IsBefore(nodes, x, key)
        invariant forall l :: level < l < maxHeight ==> IsFloor(AsArena(), l, key, prev[l])
        decreases level, Ahead(AsArena(), level, x)
      {
        assert IsNext(nodes, levels[level], x, nodes[x].next[level]);
        var next := nodes[x].next[level];
        if next.Some? && IsBefore(nodes, next.value, key) {
          AheadShrinks(AsArena(), level, x, next.value);
          x := next.value;
        } else {
          FloorFound(AsArena(), level, key, x);
          prev := prev[level := x];
          if level == 0 {
            return next, prev;
          }
          level := level - 1;
        }
      }
    }

    method FindLessThan(key: IKey) returns (x: nat)
      requires Ok()
      ensures IsFloor(AsArena(), 0, key, x)
    {
      x := HEAD;
      var level: nat := maxHeight - 1;
      while true
        invariant 0 <= level < maxHeight
        invariant OnLevel(AsArena(), level, x) && x < |nodes| && IsBefore(nodes, x, key)
        decreases level, Ahead(AsArena(), level, x)
      {
        assert IsNext(nodes, levels[level], x, nodes[x].next[level]);
        var next := nodes[x].next[level];
        if next.None? || !Before(nodes[next.value].entry.key, key) {
          if level == 0 {
            FloorFound(AsArena(), level, key, x);
            return;
          }
          level := level - 1;
        } else {
          AheadShrinks(AsArena(), level, x, next.value);
          x := next.value;
        }
      }
    }

    method FindLast() returns (x: nat)
      requires Ok()
      ensures IsLast(AsArena(), x)
    {
      x := HEAD;
      var level: nat := maxHeight - 1;
      while true
        invariant 0 <= level < maxHeight
        invariant OnLevel(AsArena(), level, x) && x < |nodes|
        decreases level, Ahead(AsArena(), level, x)
      {
        assert IsNext(nodes, levels[level], x, nodes[x].next[level]);
        var next := nodes[x].next[level];
        if next.None? {
          if level == 0 {
            return;
          }
          level := level - 1;
        } else {
          AheadShrinks(AsArena(), level, x, next.value);
          x := next.value;
        }
      }
    }

    /** `NewNode`, for a key that is not in the list: its links are not set yet. */
    method NewNode(entry: Entry, height: nat) returns (x: nat)
      requires Ok() && 1 <= height <= MAX_HEIGHT
      modifies this`nodes
      ensures Ok() && x == |old(nodes)| && nodes == old(nodes) + [Node(entry, seq(height, _ => None))]
      ensures WriterStep(old(AsArena()), AsArena())
    {
      x := |nodes|;
      nodes := nodes + [Node(entry, seq(height, _ => None))];
      NewNodeKeeps(old(AsArena()), AsArena());
    }

    /** The store into the new node's own link, which no reader can reach yet. */
    method SetOwnLink(x: nat, i: nat, next: Option<nat>)
      requires Ok() && i < maxHeight && 0 < x < |nodes| && i < |nodes[x].next| && x !in levels[i]
      modifies this`nodes
      ensures Ok() && WriterStep(old(AsArena()), AsArena())
      ensures nodes == old(nodes)[x := old(nodes)[x].(next := old(nodes)[x].next[i := next])]
    {
      nodes := nodes[x := nodes[x].(next := nodes[x].next[i := next])];
      UnreachableLinkKeeps(old(AsArena()), AsArena(), x, i);
      assert StoresLink(old(AsArena()), AsArena(), x, i, next);
    }

    /** The store that makes the new node reachable on one more level. */
    method Publish(x: nat, i: nat, prev: nat)
      requires Ok() && i < maxHeight && 0 < x < |nodes| && i < |nodes[x].next|
      requires x !in levels[i] && (i > 0 ==> x in levels[i - 1])
      requires forall m :: m in levels[0] && m != x ==> nodes[m].entry.key != nodes[x].entry.key
      requires IsFloor(AsArena(), i, nodes[x].entry.key, prev) && nodes[x].next[i] == nodes[prev].next[i]
      modifies this`nodes, this`levels
      ensures Ok() && levels == old(levels)[i := old(levels)[i] + {x}] && WriterStep(old(AsArena()), AsArena())
      ensures nodes == old(nodes)[prev := old(nodes)[prev].(next := old(nodes)[prev].next[i := Some(x)])]
    {
      nodes := nodes[prev := nodes[prev].(next := nodes[prev].next[i := Some(x)])];
      levels := levels[i := levels[i] + {x}];
      LinkKeeps(old(AsArena()), AsArena(), x, i, prev);
      assert StoresLink(old(AsArena()), AsArena(), prev, i, Some(x));
    }

    /** One round of the last loop of `Insert`: the new node is linked into one level by two stores.
        A reader may run between them. */
    method Link(x: nat, i: nat, prev: nat) returns (ghost between: Arena)
      requires Ok() && i < maxHeight && 0 < x < |nodes| && i < |nodes[x].next|
      requires x !in levels[i] && (i > 0 ==> x in levels[i - 1])
      requires forall m :: m in levels[0] && m != x ==> nodes[m].entry.key != nodes[x].entry.key
      requires IsFloor(AsArena(), i, nodes[x].entry.key, prev)
      modifies this`nodes, this`levels
      ensures Ok() && levels == old(levels)[i := old(levels)[i] + {x}]
      ensures Valid(between) && WriterStep(old(AsArena()), between) && WriterStep(between, AsArena())
      ensures |nodes| == |old(nodes)|
      ensures forall n :: 0 <= n < |nodes| ==> nodes[n].entry == old(nodes)[n].entry && |nodes[n].next| == |old(nodes)[n].next|
    {
      hide IsFloor, IsNext, DistinctKeys, WriterStep;
      FloorIsOther(AsArena(), x, i, prev);
      SetOwnLink(x, i, nodes[prev].next[i]);
      between := AsArena();
      FloorStays(old(AsArena()), between, i, nodes[x].entry.key, prev);
      Publish(x, i, prev);
    }

    /** `Insert`, with the random height as a parameter. */
    method Insert(entry: Entry, height: nat) returns (ghost steps: seq<Arena>)
      requires Ok() && 1 <= height <= MAX_HEIGHT
      requires forall e :: e in Contents(AsArena()) ==> e.key != entry.key
      modifies this
      ensures Ok() && Contents(AsArena()) == old(Contents(AsArena())) + {entry}
      ensures |steps| > 0 && WriterSteps(steps) && steps[0] == old(AsArena()) && steps[|steps| - 1] == AsArena()
    {
      hide Valid, IsFloor, IsNext, WriterSteps, WriterStep;
      var _, prev := FindGreaterOrEqual(entry.key);
      HeightIsBounded(AsArena());
      steps := [AsArena()];
      NoSteps(AsArena());
      if height > maxHeight {
        RaiseHeight(AsArena(), height, entry.key, prev);
        prev := prev[..maxHeight] + seq(MAX_HEIGHT - maxHeight, _ => HEAD);
        maxHeight := height;
        assert forall l :: 0 <= l < maxHeight ==> IsFloor(AsArena(), l, entry.key, prev[l]);
        OneMoreStep(steps, AsArena());
        steps := steps + [AsArena()];
      }
      ghost var before := AsArena();
      var x := NewNode(entry, height);
      NoLevelYet(before, AsArena(), x, entry, height, prev);
      ghost var linking := LinkLevels(before, x, entry, height, prev);
      StepsJoin(steps, linking);
      steps := steps + linking;
      ContentsGrow(before, AsArena(), x, entry);
    }

    /** The last loop of `Insert`, from the lowest level up. */
    method LinkLevels(ghost before: Arena, x: nat, ghost entry: Entry, height: nat, prev: seq<nat>) returns (ghost steps: seq<Arena>)
      requires Linking(before, AsArena(), x, 0, entry, height) && height <= maxHeight && |prev| == MAX_HEIGHT
      requires forall l :: 0 <= l < height ==> IsFloor(AsArena(), l, entry.key, prev[l])
      requires forall e :: e in Contents(before) ==> e.key != entry.key
      modifies this`nodes, this`levels
      ensures Linking(before, AsArena(), x, height, entry, height)
      ensures |steps| > 0 && WriterSteps(steps) && steps[0] == old(AsArena()) && steps[|steps| - 1] == AsArena()
    {
      hide Valid, IsFloor, IsNext, Contents, WriterStep, WriterSteps;
      steps := [AsArena()];
      NoSteps(AsArena());
      for i := 0 to height
        invariant Linking(before, AsArena(), x, i, entry, height)
        invariant |steps| > 0 && WriterSteps(steps) && steps[0] == old(AsArena()) && steps[|steps| - 1] == AsArena()
        invariant forall l :: i <= l < height ==> IsFloor(AsArena(), l, entry.key, prev[l])
      {
        ghost var earlier := AsArena();
        KeyIsNew(before, earlier, x, entry);
        NotLinkedYet(before, earlier, x, i);
        ghost var between := Link(x, i, prev[i]);
        OneMoreStep(steps, between);
        OneMoreStep(steps + [between], AsArena());
        steps := steps + [between] + [AsArena()];
        forall l | i < l < height
          ensures IsFloor(AsArena(), l, entry.key, prev[l])
        {
          FloorStays(earlier, AsArena(), l, entry.key, prev[l]);
        }
      }
    }

    method Contains(key: IKey) returns (b: bool)
      requires Ok()
      ensures b <==> exists e :: e in Contents(AsArena()) && e.key == key
    {
      var x, _ := FindGreaterOrEqual(key);
      b := x.Some? && nodes[x.value].entry.key == key;
      FoundIfThere(AsArena(), key, x);
    }
  }

  lemma FoundIfThere(a: Arena, key: IKey, r: Option<nat>)
    requires Valid(a) && IsCeiling(a, key, r)
    ensures (r.Some? && a.nodes[r.value].entry.key == key) <==> exists e :: e in Contents(a) && e.key == key
  {
    if exists e :: e in Contents(a) && e.key == key {
      var e :| e in Contents(a) && e.key == key;
      var n :| n in a.levels[0] && a.nodes[n].entry == e;
      assert !IsBefore(a.nodes, n, key);
    }
    if r.Some? {
      assert a.nodes[r.value].entry in Contents(a);
    }
  }

  // ---------- inserting ----------

  /** A node outside every level changes nothing. */
  lemma NewNodeKeeps(a: Arena, b: Arena)
    requires Valid(a) && b.levels == a.levels && b.maxHeight == a.maxHeight && |b.nodes| > |a.nodes| && b.nodes[..|a.nodes|] == a.nodes
    ensures Valid(b) && Contents(b) == Contents(a)
  {
    assert forall n :: 0 <= n < |a.nodes| ==> b.nodes[n] == a.nodes[n];
    forall l, n: nat | 0 <= l < MAX_HEIGHT && OnLevel(b, l, n)
      ensures IsNext(b.nodes, b.levels[l], n, b.nodes[n].next[l])
    {
      assert IsNext(a.nodes, a.levels[l], n, a.nodes[n].next[l]);
    }
  }

  /** The links of one level after a node has been put in behind `prev`. */
  lemma LinkKeeps(a: Arena, b: Arena, x: nat, i: nat, prev: nat)
    requires Valid(a) && i < a.maxHeight && 0 < x < |a.nodes| && i < |a.nodes[x].next|
    requires x !in a.levels[i] && (i > 0 ==> x in a.levels[i - 1])
    requires forall m :: m in a.levels[0] && m != x ==> a.nodes[m].entry.key != a.nodes[x].entry.key
    requires IsFloor(a, i, a.nodes[x].entry.key, prev) && a.nodes[x].next[i] == a.nodes[prev].next[i]
    requires b.maxHeight == a.maxHeight && b.levels == a.levels[i := a.levels[i] + {x}] && |b.nodes| == |a.nodes|
    requires forall n :: 0 <= n < |a.nodes| ==> b.nodes[n].entry == a.nodes[n].entry && |b.nodes[n].next| == |a.nodes[n].next|
    requires forall n, l :: 0 <= n < |a.nodes| && 0 <= l < |a.nodes[n].next| ==>
               b.nodes[n].next[l] == if l == i && n == prev then Some(x) else a.nodes[n].next[l]
    ensures Valid(b)
  {
    hide Before, IsNext, IsFloor, DistinctKeys;
    forall l, n: nat | 0 <= l < MAX_HEIGHT && OnLevel(b, l, n)
      ensures IsNext(b.nodes, b.levels[l], n, b.nodes[n].next[l])
    {
      if l == i {
        LinkedNext(a, x, i, prev, n);
      }
      SameOrder(a.nodes, b.nodes, b.levels[l], n, b.nodes[n].next[l]);
    }
    SameKeysDistinct(a.nodes, b.nodes, a.levels[0], x);
  }

  /** A link of a node that is not on the level yet is seen by nobody. */
  lemma UnreachableLinkKeeps(a: Arena, b: Arena, x: nat, i: nat)
    requires Valid(a) && i < a.maxHeight && 0 < x < |a.nodes| && i < |a.nodes[x].next| && x !in a.levels[i]
    requires b.maxHeight == a.maxHeight && b.levels == a.levels && |b.nodes| == |a.nodes|
    requires forall n :: 0 <= n < |a.nodes| ==> b.nodes[n].entry == a.nodes[n].entry && |b.nodes[n].next| == |a.nodes[n].next|
    requires forall n, l :: 0 <= n < |a.nodes| && 0 <= l < |a.nodes[n].next| && (n != x || l != i) ==> b.nodes[n].next[l] == a.nodes[n].next[l]
    ensures Valid(b)
  {
    hide Before, IsNext, DistinctKeys;
    forall l, n: nat | 0 <= l < MAX_HEIGHT && OnLevel(b, l, n)
      ensures IsNext(b.nodes, b.levels[l], n, b.nodes[n].next[l])
    {
      assert OnLevel(a, l, n) && l < |a.nodes[n].next| && b.nodes[n].next[l] == a.nodes[n].next[l];
      SameOrder(a.nodes, b.nodes, b.levels[l], n, b.nodes[n].next[l]);
    }
    SameKeys(a.nodes, b.nodes, a.levels[0]);
  }

  lemma SameKeys(a: seq<Node>, b: seq<Node>, level: set<nat>)
    requires |a| == |b| && InArena(a, level) && DistinctKeys(a, level)
    requires forall k :: 0 <= k < |a| ==> a[k].entry == b[k].entry
    ensures DistinctKeys(b, level)
  {
  }

  lemma FloorIsOther(a: Arena, x: nat, i: nat, prev: nat)
    requires Valid(a) && i < a.maxHeight && 0 < x < |a.nodes| && x !in a.levels[i] && IsFloor(a, i, a.nodes[x].entry.key, prev)
    ensures i < MAX_HEIGHT && prev != x && prev < |a.nodes| && i < |a.nodes[prev].next|
  {
  }

  lemma SameKeysDistinct(a: seq<Node>, b: seq<Node>, level: set<nat>, x: nat)
    requires |a| == |b| && InArena(a, level) && DistinctKeys(a, level) && 0 < x < |a|
    requires forall k :: 0 <= k < |a| ==> a[k].entry == b[k].entry
    requires forall m :: m in level && m != x ==> a[m].entry.key != a[x].entry.key
    ensures DistinctKeys(b, level) && DistinctKeys(b, level + {x})
  {
  }

  lemma SameOrder(a: seq<Node>, b: seq<Node>, level: set<nat>, n: nat, next: Option<nat>)
    requires |a| == |b| && n < |a| && InArena(a, level) && forall k :: 0 <= k < |a| ==> a[k].entry == b[k].entry
    requires IsNext(a, level, n, next)
    ensures IsNext(b, level, n, next)
  {
    forall m | m in level
      ensures Less(a, n, m) == Less(b, n, m)
      ensures next.Some? && next.value in level ==> Less(a, m, next.value) == Less(b, m, next.value)
    {
    }
  }

  lemma LessIsStrict(nodes: seq<Node>, n: nat, m: nat, k: nat)
    requires n < |nodes| && m < |nodes| && k < |nodes|
    ensures Less(nodes, n, m) && Less(nodes, m, k) ==> Less(nodes, n, k)
    ensures !Less(nodes, n, n)
  {
  }

  lemma LessIsTotal(nodes: seq<Node>, n: nat, m: nat)
    requires n < |nodes| && m < |nodes| && n != m
    requires n != HEAD && m != HEAD ==> nodes[n].entry.key != nodes[m].entry.key
    ensures Less(nodes, n, m) || Less(nodes, m, n)
  {
  }

  /** The links of the level after the new node `x` has been put in behind `prev`. */
  lemma LinkedNext(a: Arena, x: nat, i: nat, prev: nat, n: nat)
    requires Valid(a) && i < MAX_HEIGHT && 0 < x < |a.nodes| && x !in a.levels[i]
    requires forall m :: m in a.levels[0] && m != x ==> a.nodes[m].entry.key != a.nodes[x].entry.key
    requires IsFloor(a, i, a.nodes[x].entry.key, prev)
    requires OnLevel(a, i, n) || n == x
    ensures n < |a.nodes|
    ensures IsNext(a.nodes, a.levels[i] + {x}, n,
                   if n == prev then Some(x) else if n == x then a.nodes[prev].next[i] else a.nodes[n].next[i])
  {
    hide Before;
    var level := a.levels[i];
    LowerLevel(a, i, 0);
    assert Less(a.nodes, prev, x);
    if n == prev {
      LessIsStrict(a.nodes, x, x, x);
    } else if n == x {
      assert IsNext(a.nodes, level, prev, a.nodes[prev].next[i]);
      NewNodeNext(a.nodes, level, x, prev, a.nodes[prev].next[i]);
    } else {
      assert IsNext(a.nodes, level, n, a.nodes[n].next[i]);
      OtherNodeNext(a.nodes, level, x, prev, n, a.nodes[n].next[i]);
    }
  }

  /** `prev` is the latest node of the level before `x`. */
  ghost predicate Precedes(nodes: seq<Node>, level: set<nat>, prev: nat, x: nat)
    requires InArena(nodes, level) && 0 < x < |nodes| && prev < |nodes|
  {
    && (prev == HEAD || prev in level) && Less(nodes, prev, x) && x !in level
    && (forall m :: m in level ==> nodes[m].entry.key != nodes[x].entry.key)
    && forall m :: m in level && Less(nodes, m, x) ==> !Less(nodes, prev, m)
  }

  lemma NewNodeNext(nodes: seq<Node>, level: set<nat>, x: nat, prev: nat, next: Option<nat>)
    requires InArena(nodes, level) && 0 < x < |nodes| && prev < |nodes| && Precedes(nodes, level, prev, x)
    requires IsNext(nodes, level, prev, next)
    ensures IsNext(nodes, level + {x}, x, next)
  {
    hide Before;
    LessIsStrict(nodes, x, x, x);
    forall m | m in level && Less(nodes, x, m)
      ensures Less(nodes, prev, m)
    {
      LessIsStrict(nodes, prev, x, m);
    }
    if next.Some? {
      LessIsTotal(nodes, x, next.value);
    }
  }

  lemma OtherNodeNext(nodes: seq<Node>, level: set<nat>, x: nat, prev: nat, n: nat, next: Option<nat>)
    requires InArena(nodes, level) && 0 < x < |nodes| && prev < |nodes| && Precedes(nodes, level, prev, x)
    requires DistinctKeys(nodes, level) && n < |nodes| && (n == HEAD || n in level) && n != prev && IsNext(nodes, level, n, next)
    ensures IsNext(nodes, level + {x}, n, next)
  {
    hide Before;
    if Less(nodes, n, x) {
      LessIsTotal(nodes, n, prev);
      assert Less(nodes, n, prev) && prev in level;
      if next.Some? {
        LessIsStrict(nodes, prev, x, next.value);
      }
    }
  }

  /** The new node has been linked into the lowest `i` levels. */
  ghost predicate Linking(a: Arena, b: Arena, x: nat, i: nat, entry: Entry, height: nat) {
    && Valid(a) && Valid(b) && 1 <= height <= b.maxHeight <= MAX_HEIGHT && b.maxHeight == a.maxHeight
    && |b.levels| == |a.levels| == MAX_HEIGHT
    && 0 < x && |b.nodes| == x + 1 == |a.nodes| + 1 && b.nodes[x].entry == entry && |b.nodes[x].next| == height
    && (forall n :: 0 <= n < x ==> b.nodes[n].entry == a.nodes[n].entry)
    && forall l :: 0 <= l < MAX_HEIGHT ==> b.levels[l] == a.levels[l] + if l < i then {x} else {}
  }

  lemma NoLevelYet(a: Arena, b: Arena, x: nat, entry: Entry, height: nat, prev: seq<nat>)
    requires Valid(a) && Valid(b) && 1 <= height <= a.maxHeight && b.maxHeight == a.maxHeight && b.levels == a.levels
    requires x == |a.nodes| && b.nodes == a.nodes + [Node(entry, seq(height, _ => None))]
    requires |prev| == MAX_HEIGHT && forall l :: 0 <= l < a.maxHeight ==> IsFloor(a, l, entry.key, prev[l])
    ensures Linking(a, b, x, 0, entry, height)
    ensures forall l :: 0 <= l < height ==> IsFloor(b, l, entry.key, prev[l])
  {
    forall l | 0 <= l < height
      ensures IsFloor(b, l, entry.key, prev[l])
    {
      FloorStays(a, b, l, entry.key, prev[l]);
    }
  }

  lemma NotLinkedYet(a: Arena, b: Arena, x: nat, i: nat)
    requires Valid(a) && x == |a.nodes| && |b.levels| == MAX_HEIGHT && i < MAX_HEIGHT
    requires forall l :: 0 <= l < MAX_HEIGHT ==> b.levels[l] == a.levels[l] + if l < i then {x} else {}
    ensures x !in b.levels[i] && (i > 0 ==> x in b.levels[i - 1])
  {
  }

  lemma FloorStays(a: Arena, b: Arena, l: nat, key: IKey, prev: nat)
    requires Valid(a) && Valid(b) && l < MAX_HEIGHT && a.levels[l] == b.levels[l]
    requires |a.nodes| <= |b.nodes| && forall n :: 0 <= n < |a.nodes| ==> a.nodes[n].entry == b.nodes[n].entry
    requires IsFloor(a, l, key, prev)
    ensures IsFloor(b, l, key, prev)
  {
  }

  lemma KeyIsNew(a: Arena, b: Arena, x: nat, entry: Entry)
    requires Valid(a) && Valid(b) && |b.nodes| == x + 1 == |a.nodes| + 1 && b.nodes[x].entry == entry
    requires forall n :: 0 <= n < x ==> b.nodes[n].entry == a.nodes[n].entry
    requires b.levels[0] <= a.levels[0] + {x} && forall e :: e in Contents(a) ==> e.key != entry.key
    ensures forall m :: m in b.levels[0] && m != x ==> b.nodes[m].entry.key != entry.key
    ensures x !in a.levels[0]
  {
    forall m | m in b.levels[0] && m != x
      ensures b.nodes[m].entry.key != entry.key
    {
      assert a.nodes[m].entry in Contents(a);
    }
  }

  lemma ContentsGrow(a: Arena, b: Arena, x: nat, entry: Entry)
    requires Valid(a) && Valid(b) && |b.nodes| == x + 1 == |a.nodes| + 1 && b.nodes[x].entry == entry
    requires forall n :: 0 <= n < x ==> b.nodes[n].entry == a.nodes[n].entry
    requires b.levels[0] == a.levels[0] + {x}
    ensures Contents(b) == Contents(a) + {entry}
  {
    forall e | e in Contents(a)
      ensures e in Contents(b)
    {
      var n :| n in a.levels[0] && a.nodes[n].entry == e;
      assert n in b.levels[0];
    }
  }

  lemma HeightIsBounded(a: Arena)
    requires Valid(a)
    ensures 1 <= a.maxHeight <= MAX_HEIGHT == |a.levels|
  {
  }

  lemma RaisedIsValid(a: Arena, height: nat)
    requires Valid(a) && a.maxHeight <= height <= MAX_HEIGHT
    ensures Valid(a.(maxHeight := height)) && WriterStep(a, a.(maxHeight := height))
    ensures Contents(a) == Contents(a.(maxHeight := height))
    ensures |a.levels| == MAX_HEIGHT && forall l :: a.maxHeight <= l < MAX_HEIGHT ==> a.levels[l] == {}
  {
  }

  lemma RaiseHeight(a: Arena, height: nat, key: IKey, prev: seq<nat>)
    requires Valid(a) && a.maxHeight <= height <= MAX_HEIGHT == |prev|
    requires forall l :: 0 <= l < a.maxHeight ==> IsFloor(a, l, key, prev[l])
    ensures Valid(a.(maxHeight := height)) && WriterStep(a, a.(maxHeight := height))
    ensures Contents(a) == Contents(a.(maxHeight := height))
    ensures forall l :: 0 <= l < a.maxHeight ==> IsFloor(a.(maxHeight := height), l, key, prev[l])
    ensures forall l :: a.maxHeight <= l < height ==> IsFloor(a.(maxHeight := height), l, key, HEAD)
  {
    hide Valid, WriterStep, Contents, IsBefore;
    RaisedIsValid(a, height);
    var b := a.(maxHeight := height);
    forall l | 0 <= l < a.maxHeight
      ensures IsFloor(b, l, key, prev[l])
    {
      FloorStays(a, b, l, key, prev[l]);
    }
    forall l | a.maxHeight <= l < height
      ensures IsFloor(b, l, key, HEAD)
    {
      HeadIsFloor(b, l, key);
    }
  }

  lemma HeadIsFloor(a: Arena, l: nat, key: IKey)
    requires Valid(a) && l < MAX_HEIGHT && a.levels[l] == {}
    ensures IsFloor(a, l, key, HEAD)
  {
  }

  // ---------- iterating ----------

  class Iterator {
    const list: SkipList
    var node: Option<nat>

    ghost predicate Ok()
      reads this, list
    {
      list.Ok() && (node.Some? ==> node.value in list.levels[0])
    }

    constructor (list: SkipList)
      requires list.Ok()
      ensures Ok() && this.list == list && node.None?
    {
      this.list, node := list, None;
    }

    function Current(): (e: Entry)
      requires Ok() && node.Some?
      reads this, list
      ensures e in Contents(list.AsArena())
    {
      list.nodes[node.value].entry
    }

    /** To the next entry in order. */
    method Next()
      requires Ok() && node.Some?
      modifies this
      ensures Ok() && IsNext(list.nodes, list.levels[0], old(node.value), node)
    {
      assert IsNext(list.nodes, list.levels[0], node.value, list.nodes[node.value].next[0]);
      node := list.nodes[node.value].next[0];
    }

    /** To the entry before, by searching for it from the head. */
    method Prev()
      requires Ok() && node.Some?
      modifies this
      ensures Ok()
      ensures node.Some? ==> IsFloor(list.AsArena(), 0, list.nodes[old(node.value)].entry.key, node.value)
      ensures node.None? ==> forall m :: m in list.levels[0] ==> !Less(list.nodes, m, old(node.value))
    {
      var x := list.FindLessThan(list.nodes[node.value].entry.key);
      node := if x == HEAD then None else Some(x);
    }

    method Seek(target: IKey)
      requires Ok()
      modifies this
      ensures Ok() && IsCeiling(list.AsArena(), target, node)
    {
      var r, _ := list.FindGreaterOrEqual(target);
      node := r;
    }

    method SeekToFirst()
      requires Ok()
      modifies this
      ensures Ok() && IsNext(list.nodes, list.levels[0], HEAD, node)
    {
      assert IsNext(list.nodes, list.levels[0], HEAD, list.nodes[HEAD].next[0]);
      node := list.nodes[HEAD].next[0];
    }

    method SeekToLast()
      requires Ok()
      modifies this
      ensures Ok() && (node.None? <==> list.levels[0] == {})
      ensures node.Some? ==> forall m :: m in list.levels[0] ==> !Less(list.nodes, node.value, m)
    {
      var x := list.FindLast();
      node := if x == HEAD then None else Some(x);
    }
  }

  // ---------- searching while a node is being inserted ----------

  /** A search under way: at a node of some level, or ended between two neighbours of the lowest level. */
  datatype Search = At(x: nat, level: nat) | Ended(x: nat, next: Option<nat>)

  /** `target` is the key searched for, or nothing when the end of the list is. */
  predicate Passes(nodes: seq<Node>, n: nat, target: Option<IKey>)
    requires n < |nodes|
  {
    target.None? || IsBefore(nodes, n, target.value)
  }

  predicate CanLoad(a: Arena, s: Search) {
    && s.At? && s.x < |a.nodes| && s.level < |a.nodes[s.x].next|
    && (a.nodes[s.x].next[s.level].Some? ==> a.nodes[s.x].next[s.level].value < |a.nodes|)
  }

  /** One load of a link by the reader, and what it does with it. */
  function SearchStep(a: Arena, target: Option<IKey>, s: Search): Search
    requires CanLoad(a, s)
  {
    var next := a.nodes[s.x].next[s.level];
    if next.Some? && Passes(a.nodes, next.value, target) then At(next.value, s.level)
    else if s.level > 0 then At(s.x, s.level - 1)
    else Ended(s.x, next)
  }

  ghost predicate Searching(a: Arena, target: Option<IKey>, s: Search)
    requires Valid(a)
  {
    s.At? && s.level < MAX_HEIGHT && OnLevel(a, s.level, s.x) && s.x < |a.nodes| && Passes(a.nodes, s.x, target)
  }

  /** The two neighbours between which the target lies. */
  ghost predicate Brackets(a: Arena, target: Option<IKey>, x: nat, next: Option<nat>)
    requires Valid(a)
  {
    && OnLevel(a, 0, x) && x < |a.nodes| && Passes(a.nodes, x, target)
    && IsNext(a.nodes, a.levels[0], x, next) && (next.Some? ==> !Passes(a.nodes, next.value, target))
  }

  lemma LinkIsSet(a: Arena, s: Search, target: Option<IKey>)
    requires Valid(a) && Searching(a, target, s)
    ensures s.level < |a.nodes[s.x].next| && IsNext(a.nodes, a.levels[s.level], s.x, a.nodes[s.x].next[s.level])
  {
  }

  lemma SearchStepKeeps(a: Arena, target: Option<IKey>, s: Search)
    requires Valid(a) && Searching(a, target, s)
    ensures CanLoad(a, s)
    ensures var t := SearchStep(a, target, s);
            if t.At? then Searching(a, target, t) else Brackets(a, target, t.x, t.next)
  {
    LinkIsSet(a, s, target);
    if s.level > 0 {
      LowerLevel(a, s.level, s.level - 1);
    }
  }

  /** What the writer does to the list in one step: nothing a reader has passed goes away. */
  ghost predicate Grows(a: Arena, b: Arena)
    requires Valid(a) && Valid(b)
  {
    && |a.nodes| <= |b.nodes| && (forall n :: 0 <= n < |a.nodes| ==> b.nodes[n].entry == a.nodes[n].entry)
    && forall l :: 0 <= l < MAX_HEIGHT ==> a.levels[l] <= b.levels[l]
  }

  ghost predicate StoresLink(a: Arena, b: Arena, n: nat, l: nat, link: Option<nat>) {
    && n < |a.nodes| && l < |a.nodes[n].next| && b.maxHeight == a.maxHeight
    && b.nodes == a.nodes[n := a.nodes[n].(next := a.nodes[n].next[l := link])]
  }

  /** A single store: of the height, of a new node not yet linked, or of one link. */
  ghost predicate IsStore(a: Arena, b: Arena) {
    || b.nodes == a.nodes
    || (b.maxHeight == a.maxHeight && |b.nodes| == |a.nodes| + 1 && b.nodes[..|a.nodes|] == a.nodes)
    || exists n, l, link :: StoresLink(a, b, n, l, link)
  }

  ghost predicate WriterStep(a: Arena, b: Arena)
    requires Valid(a) && Valid(b)
  {
    IsStore(a, b) && Grows(a, b)
  }

  /** The arenas a reader may meet while a writer is at work, one store apart. */
  ghost predicate WriterSteps(steps: seq<Arena>) {
    && |steps| > 0 && (forall i :: 0 <= i < |steps| ==> Valid(steps[i]))
    && forall i :: 0 <= i < |steps| - 1 ==> WriterStep(steps[i], steps[i + 1])
  }

  lemma NoSteps(a: Arena)
    requires Valid(a)
    ensures WriterSteps([a])
  {
  }

  lemma OneMoreStep(steps: seq<Arena>, a: Arena)
    requires |steps| > 0 && WriterSteps(steps) && Valid(a) && Valid(steps[|steps| - 1]) && WriterStep(steps[|steps| - 1], a)
    ensures WriterSteps(steps + [a])
  {
    hide Valid, WriterStep;
  }

  lemma StepsJoin(first: seq<Arena>, second: seq<Arena>)
    requires |first| > 0 && |second| > 0 && WriterSteps(first) && WriterSteps(second) && WriterStep(first[|first| - 1], second[0])
    ensures WriterSteps(first + second)
  {
    hide Valid, WriterStep;
    var steps := first + second;
    forall i | 0 <= i < |steps| - 1
      ensures WriterStep(steps[i], steps[i + 1])
    {
      if i < |first| - 1 {
        assert WriterStep(first[i], first[i + 1]);
      } else if i >= |first| {
        assert WriterStep(second[i - |first|], second[i - |first| + 1]);
      }
    }
  }

  /** Steps of one reader among the steps of a writer. */
  ghost predicate Interleaved(arenas: seq<Arena>, searches: seq<Search>, target: Option<IKey>) {
    && |arenas| == |searches| > 0 && (forall i :: 0 <= i < |arenas| ==> Valid(arenas[i]))
    && searches[0].At? && searches[0].x == HEAD && searches[0].level < MAX_HEIGHT
    && forall i {:trigger searches[i]} :: 0 < i < |arenas| ==> InterleavedAt(arenas[i - 1], arenas[i], searches[i - 1], searches[i], target)
  }

  ghost predicate InterleavedAt(a: Arena, b: Arena, s: Search, t: Search, target: Option<IKey>)
    requires Valid(a) && Valid(b)
  {
    || (Grows(a, b) && t == s)
    || (a == b && CanLoad(a, s) && t == SearchStep(a, target, s))
  }

  /** The reader never follows a link that has not been set. */
  lemma {:induction false} SearchGoesOn(arenas: seq<Arena>, searches: seq<Search>, target: Option<IKey>, n: nat)
    requires Interleaved(arenas, searches, target) && n < |arenas| && searches[n].At?
    ensures Searching(arenas[n], target, searches[n]) && CanLoad(arenas[n], searches[n])
  {
    if n > 0 {
      assert InterleavedAt(arenas[n - 1], arenas[n], searches[n - 1], searches[n], target);
      if searches[n - 1].At? {
        SearchGoesOn(arenas, searches, target, n - 1);
        if Grows(arenas[n - 1], arenas[n]) && searches[n] == searches[n - 1] {
        } else {
          SearchStepKeeps(arenas[n], target, searches[n - 1]);
        }
      }
    }
    SearchStepKeeps(arenas[n], target, searches[n]);
  }

  /** Whatever the writer does meanwhile, a search ends with the right neighbours for the list as it
      is at the last load; and that list has everything the list had when the search began. */
  lemma SearchEndsRight(arenas: seq<Arena>, searches: seq<Search>, target: Option<IKey>, n: nat)
    requires Interleaved(arenas, searches, target) && n + 1 < |arenas| && searches[n].At? && searches[n + 1].Ended?
    ensures target.Some? ==> IsFloor(arenas[n + 1], 0, target.value, searches[n + 1].x)
    ensures target.Some? ==> IsCeiling(arenas[n + 1], target.value, searches[n + 1].next)
    ensures target.None? ==> IsLast(arenas[n + 1], searches[n + 1].x) && searches[n + 1].next.None?
    ensures Contents(arenas[0]) <= Contents(arenas[n + 1])
  {
    hide Valid, Brackets, Searching, Grows, Contents, IsFloor, IsCeiling, IsLast;
    assert InterleavedAt(arenas[n], arenas[n + 1], searches[n], searches[n + 1], target);
    SearchGoesOn(arenas, searches, target, n);
    SearchStepKeeps(arenas[n], target, searches[n]);
    BracketIsResult(arenas[n + 1], target, searches[n + 1].x, searches[n + 1].next);
    OnlyGrows(arenas, searches, target, n + 1);
  }

  lemma {:induction false} OnlyGrows(arenas: seq<Arena>, searches: seq<Search>, target: Option<IKey>, n: nat)
    requires Interleaved(arenas, searches, target) && n < |arenas|
    ensures Grows(arenas[0], arenas[n]) && Contents(arenas[0]) <= Contents(arenas[n])
  {
    if n > 0 {
      OnlyGrows(arenas, searches, target, n - 1);
      assert InterleavedAt(arenas[n - 1], arenas[n], searches[n - 1], searches[n], target);
      GrowsIsTransitive(arenas[0], arenas[n - 1], arenas[n]);
    }
    GrownContents(arenas[0], arenas[n]);
  }

  lemma GrowsIsTransitive(a: Arena, b: Arena, c: Arena)
    requires Valid(a) && Valid(b) && Valid(c) && Grows(a, b) && (b == c || Grows(b, c))
    ensures Grows(a, c)
  {
    assert forall l :: 0 <= l < MAX_HEIGHT ==> a.levels[l] <= b.levels[l] <= c.levels[l];
  }

  lemma GrownContents(a: Arena, b: Arena)
    requires Valid(a) && Valid(b) && Grows(a, b)
    ensures Contents(a) <= Contents(b)
  {
    forall e | e in Contents(a)
      ensures e in Contents(b)
    {
      var n :| n in a.levels[0] && a.nodes[n].entry == e;
      assert n in b.levels[0];
    }
  }

  /** The neighbours give the results of the three searches. */
  lemma BracketIsResult(a: Arena, target: Option<IKey>, x: nat, next: Option<nat>)
    requires Valid(a) && Brackets(a, target, x, next)
    ensures target.Some? ==> IsFloor(a, 0, target.value, x) && IsCeiling(a, target.value, next)
    ensures target.None? ==> IsLast(a, x) && next.None?
  {
    if target.Some? {
      assert a.nodes[x].next[0] == next by {
        NextIsUnique(a, 0, x, next);
      }
      FloorFound(a, 0, target.value, x);
    }
  }

  lemma NextIsUnique(a: Arena, l: nat, x: nat, next: Option<nat>)
    requires Valid(a) && l < MAX_HEIGHT && OnLevel(a, l, x) && x < |a.nodes| && IsNext(a.nodes, a.levels[l], x, next)
    ensures l < |a.nodes[x].next| && a.nodes[x].next[l] == next
  {
    var r := a.nodes[x].next[l];
    assert IsNext(a.nodes, a.levels[l], x, r);
    LowerLevel(a, l, 0);
    if r.Some? && next.Some? && r != next {
      LessIsTotal(a.nodes, r.value, next.value);
    }
  }
}
