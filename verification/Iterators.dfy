/** Iterators over sorted entries: the plain one, and the merging one built from several
    (table/merger.cc). */
module Iterators {
  import opened History

  /** `k` is where `Seek(target)` stops: at the first entry at or after the target. */
  ghost predicate IsSeek(list: seq<Entry>, target: IKey, k: nat) {
    && k <= |list|
    && (forall i :: 0 <= i < k ==> Before(list[i].key, target))
    && (forall i :: k <= i < |list| ==> !Before(list[i].key, target))
  }

  /** A position in one sorted list; `|list|` means not valid. */
  class SortedIterator {
    const list: seq<Entry>
    var pos: nat

    ghost predicate Ok()
      reads this
    {
      Sorted(list) && pos <= |list|
    }

    predicate Valid()
      reads this
    {
      pos < |list|
    }

    function Current(): Entry
      requires Valid()
      reads this
    {
      list[pos]
    }

    constructor (list: seq<Entry>)
      requires Sorted(list)
      ensures Ok() && this.list == list && !Valid()
    {
      this.list, pos := list, |list|;
    }

    method SeekToFirst()
      requires Ok()
      modifies this
      ensures Ok() && pos == 0
    {
      pos := 0;
    }

    method SeekToLast()
      requires Ok()
      modifies this
      ensures Ok() && pos == if list == [] then 0 else |list| - 1
    {
      pos := if list == [] then 0 else |list| - 1;
    }

    method Seek(target: IKey)
      requires Ok()
      modifies this
      ensures Ok() && IsSeek(list, target, pos)
    {
      pos := 0;
      while pos < |list| && Before(list[pos].key, target)
        invariant pos <= |list| && forall i :: 0 <= i < pos ==> Before(list[i].key, target)
      {
        pos := pos + 1;
      }
    }

    method Next()
      requires Ok() && Valid()
      modifies this
      ensures Ok() && pos == old(pos) + 1
    {
      pos := pos + 1;
    }

    method Prev()
      requires Ok() && Valid()
      modifies this
      ensures Ok() && pos == if old(pos) == 0 then |list| else old(pos) - 1
    {
      pos := if pos == 0 then |list| else pos - 1;
    }
  }

  // ---------- the merged list ----------

  /** `list` is the sorted union of the parts, and no key occurs in two of them. */
  ghost predicate IsUnion(list: seq<Entry>, parts: seq<seq<Entry>>) {
    && Sorted(list)
    && (forall i, q :: 0 <= i < |parts| && 0 <= q < |parts[i]| ==> parts[i][q] in list)
    && (forall e :: e in list ==> exists i :: 0 <= i < |parts| && e in parts[i])
    && (forall i, j, e :: 0 <= i < |parts| && 0 <= j < |parts| && i != j && e in parts[i] ==> e !in parts[j])
  }

  /** `p` divides a part as index `k` divides the union. */
  ghost predicate SplitAt(list: seq<Entry>, k: nat, part: seq<Entry>, p: nat) {
    && k <= |list| && p <= |part|
    && forall q :: 0 <= q < |part| ==> (q < p <==> part[q] in list[..k])
  }

  /** `p` is the last entry of a part before index `k` of the union; `|part|` if there is none. */
  ghost predicate LastBefore(list: seq<Entry>, k: nat, part: seq<Entry>, p: nat) {
    && k <= |list| && p <= |part|
    && forall q :: 0 <= q < |part| ==> (p < |part| && q <= p <==> part[q] in list[..k])
  }

  lemma InPrefix(list: seq<Entry>, k: nat, i: nat)
    requires Sorted(list) && k <= |list| && i < |list|
    ensures list[i] in list[..k] <==> i < k
  {
    if i < k {
      assert list[i] == list[..k][i];
    }
    if list[i] in list[..k] {
      var j :| 0 <= j < k && list[..k][j] == list[i];
      assert i < j ==> Before(list[i].key, list[j].key);
      assert j < i ==> Before(list[j].key, list[i].key);
    }
  }

  lemma InOrder(list: seq<Entry>, i: nat, j: nat)
    requires Sorted(list) && i < |list| && j < |list|
    ensures i < j ==> Before(list[i].key, list[j].key)
  {
  }

  lemma SeekSplits(list: seq<Entry>, target: IKey, k: nat, part: seq<Entry>, p: nat)
    requires Sorted(list) && IsSeek(list, target, k) && IsSeek(part, target, p)
    requires forall q :: 0 <= q < |part| ==> part[q] in list
    ensures SplitAt(list, k, part, p)
  {
    forall q | 0 <= q < |part|
      ensures q < p <==> part[q] in list[..k]
    {
      var i: nat :| i < |list| && list[i] == part[q];
      InPrefix(list, k, i);
    }
  }

  /** Going past entry `k` of the union: its own part moves on, the others stay. */
  lemma SplitNext(list: seq<Entry>, k: nat, part: seq<Entry>, p: nat)
    requires SplitAt(list, k, part, p) && k < |list| && Sorted(part)
    ensures p < |part| && part[p] == list[k] ==> SplitAt(list, k + 1, part, p + 1)
    ensures list[k] !in part ==> SplitAt(list, k + 1, part, p)
  {
    assert list[..k + 1] == list[..k] + [list[k]];
    forall q | 0 <= q < |part| && p < |part| && part[p] == list[k]
      ensures q < p + 1 <==> part[q] in list[..k + 1]
    {
      assert p < q ==> Before(part[p].key, part[q].key);
    }
  }

  /** Going back before entry `k` of the union. */
  lemma SplitPrev(list: seq<Entry>, k: nat, part: seq<Entry>, p: nat)
    requires LastBefore(list, k + 1, part, p) && Sorted(part) && Sorted(list)
    ensures p < |part| && part[p] == list[k] ==> LastBefore(list, k, part, if p == 0 then |part| else p - 1)
    ensures list[k] !in part ==> LastBefore(list, k, part, p)
  {
    assert list[..k + 1] == list[..k] + [list[k]];
    InPrefix(list, k, k);
    forall q | 0 <= q < |part| && p < |part| && part[p] == list[k]
      ensures q < p <==> part[q] in list[..k]
    {
      assert q < p ==> Before(part[q].key, part[p].key);
    }
  }

  lemma SplitIsLastBefore(list: seq<Entry>, k: nat, part: seq<Entry>, p: nat)
    requires SplitAt(list, k, part, p)
    ensures LastBefore(list, k, part, if p == 0 then |part| else p - 1)
  {
  }

  lemma InSomePart(list: seq<Entry>, parts: seq<seq<Entry>>, x: nat) returns (i: nat, q: nat)
    requires IsUnion(list, parts) && x < |list|
    ensures i < |parts| && q < |parts[i]| && parts[i][q] == list[x]
  {
    assert list[x] in list;
    i :| i < |parts| && list[x] in parts[i];
    q :| q < |parts[i]| && parts[i][q] == list[x];
  }

  /** An entry of the union after all that is split off belongs to the part of a valid child, at or
      after its position. */
  lemma HeadIsLeast(list: seq<Entry>, parts: seq<seq<Entry>>, ps: seq<nat>, k: nat, c: nat)
    requires k <= |list| && IsUnion(list, parts) && |ps| == |parts| && c < |parts| && (forall i :: 0 <= i < |parts| ==> Sorted(parts[i]))
    requires forall i :: 0 <= i < |parts| ==> SplitAt(list, k, parts[i], ps[i])
    requires ps[c] < |parts[c]|
    requires forall i :: 0 <= i < |parts| && ps[i] < |parts[i]| ==> !Before(parts[i][ps[i]].key, parts[c][ps[c]].key)
    ensures k < |list| && parts[c][ps[c]] == list[k]
  {
    var m := parts[c][ps[c]];
    var x: nat :| x < |list| && list[x] == m;
    InPrefix(list, k, x);
    var i, q := InSomePart(list, parts, k);
    InPrefix(list, k, k);
    assert ps[i] < q ==> Before(parts[i][ps[i]].key, parts[i][q].key);
    InOrder(list, k, x);
  }

  lemma NoHead(list: seq<Entry>, parts: seq<seq<Entry>>, ps: seq<nat>, k: nat)
    requires k <= |list| && IsUnion(list, parts) && |ps| == |parts|
    requires forall i :: 0 <= i < |parts| ==> SplitAt(list, k, parts[i], ps[i])
    requires forall i :: 0 <= i < |parts| ==> ps[i] == |parts[i]|
    ensures k == |list|
  {
    if k < |list| {
      InPrefix(list, k, k);
      var i, q := InSomePart(list, parts, k);
    }
  }

  lemma TailIsGreatest(list: seq<Entry>, parts: seq<seq<Entry>>, ps: seq<nat>, k: nat, c: nat)
    requires k <= |list| && IsUnion(list, parts) && |ps| == |parts| && c < |parts| && (forall i :: 0 <= i < |parts| ==> Sorted(parts[i]))
    requires forall i :: 0 <= i < |parts| ==> LastBefore(list, k, parts[i], ps[i])
    requires ps[c] < |parts[c]|
    requires forall i :: 0 <= i < |parts| && ps[i] < |parts[i]| ==> !Before(parts[c][ps[c]].key, parts[i][ps[i]].key)
    ensures 0 < k && parts[c][ps[c]] == list[k - 1]
  {
    var m := parts[c][ps[c]];
    var x: nat :| x < |list| && list[x] == m;
    InPrefix(list, k, x);
    InPrefix(list, k, k - 1);
    InOrder(list, x, k - 1);
    var i, q := InSomePart(list, parts, k - 1);
    assert q < ps[i] < |parts[i]| ==> Before(parts[i][q].key, parts[i][ps[i]].key);
  }

  lemma NoTail(list: seq<Entry>, parts: seq<seq<Entry>>, ps: seq<nat>, k: nat)
    requires k <= |list| && IsUnion(list, parts) && |ps| == |parts|
    requires forall i :: 0 <= i < |parts| ==> LastBefore(list, k, parts[i], ps[i])
    requires forall i :: 0 <= i < |parts| ==> ps[i] == |parts[i]|
    ensures k == 0
  {
    if 0 < k {
      InPrefix(list, k, k - 1);
      var i, q := InSomePart(list, parts, k - 1);
    }
  }

  // ---------- the merging iterator ----------

  datatype Direction = Forward | Reverse

  /** Its position `pos` is an index into the sorted union `list` of the children's lists. */
  class MergingIterator {
    const children: seq<SortedIterator>
    var current: Option<nat>
    var direction: Direction
    ghost const list: seq<Entry>
    ghost var pos: nat

    ghost function Parts(): (p: seq<seq<Entry>>)
      ensures |p| == |children| && forall i :: 0 <= i < |children| ==> p[i] == children[i].list
    {
      seq(|children|, i requires 0 <= i < |children| => children[i].list)
    }

    ghost function Positions(): (p: seq<nat>)
      reads this, children
      ensures |p| == |children| && forall i :: 0 <= i < |children| ==> p[i] == children[i].pos
    {
      seq(|children|, i requires 0 <= i < |children| reads this, children => children[i].pos)
    }

    ghost predicate Children()
      reads this, children
    {
      && (forall i :: 0 <= i < |children| ==> children[i].Ok())
      && (forall i, j :: 0 <= i < j < |children| ==> children[i] != children[j])
      && IsUnion(list, Parts())
    }

    ghost predicate Split(k: nat)
      reads this, children
    {
      forall i :: 0 <= i < |children| ==> SplitAt(list, k, children[i].list, children[i].pos)
    }

    ghost predicate SplitBack(k: nat)
      reads this, children
    {
      forall i :: 0 <= i < |children| ==> LastBefore(list, k, children[i].list, children[i].pos)
    }

    ghost predicate Ok()
      reads this, children
    {
      && Children()
      && pos <= |list|
      && (current.Some? <==> pos < |list|)
      && (current.Some? ==>
            && current.value < |children|
            && children[current.value].Valid() && children[current.value].Current() == list[pos]
            && if direction.Forward? then Split(pos) else SplitBack(pos + 1))
    }

    predicate Valid()
      reads this
    {
      current.Some?
    }

    lemma PositionIsValid()
      requires Ok()
      ensures pos <= |list| && (Valid() <==> pos < |list|)
    {
    }

    function Current(): (e: Entry)
      requires Ok() && Valid()
      reads this, children
      ensures e == list[pos]
    {
      children[current.value].Current()
    }

    constructor (children: seq<SortedIterator>, ghost list: seq<Entry>)
      requires forall i :: 0 <= i < |children| ==> children[i].Ok()
      requires forall i, j :: 0 <= i < j < |children| ==> children[i] != children[j]
      requires IsUnion(list, seq(|children|, i requires 0 <= i < |children| => children[i].list))
      ensures Ok() && this.children == children && this.list == list && !Valid()
    {
      this.children, this.list, pos := children, list, |list|;
      current, direction := None, Forward;
      new;
      assert Parts() == seq(|children|, i requires 0 <= i < |children| => children[i].list);
    }

    method FindSmallest(ghost k: nat)
      requires Children() && Split(k) && k <= |list| && direction.Forward?
      modifies this`current, this`pos
      ensures Ok() && pos == k
    {
      hide IsUnion, SplitAt, LastBefore, Sorted;
      current := None;
      for i := 0 to |children|
        invariant current.Some? ==> current.value < i && children[current.value].Valid()
        invariant forall j :: 0 <= j < i && children[j].Valid() ==>
                    current.Some? && !Before(children[j].Current().key, children[current.value].Current().key)
      {
        if children[i].Valid() {
          if current.None? || Before(children[i].Current().key, children[current.value].Current().key) {
            current := Some(i);
          }
        }
      }
      pos := k;
      if current.Some? {
        HeadIsLeast(list, Parts(), Positions(), k, current.value);
      } else {
        NoHead(list, Parts(), Positions(), k);
      }
    }

    method FindLargest(ghost k: nat)
      requires Children() && SplitBack(k) && k <= |list| && direction.Reverse?
      modifies this`current, this`pos
      ensures Ok() && pos == if k == 0 then |list| else k - 1
    {
      hide IsUnion, SplitAt, LastBefore, Sorted;
      current := None;
      for i := |children| downto 0
        invariant current.Some? ==> i <= current.value < |children| && children[current.value].Valid()
        invariant forall j :: i <= j < |children| && children[j].Valid() ==>
                    current.Some? && !Before(children[current.value].Current().key, children[j].Current().key)
      {
        if children[i].Valid() {
          if current.None? || Before(children[current.value].Current().key, children[i].Current().key) {
            current := Some(i);
          }
        }
      }
      pos := if k == 0 then |list| else k - 1;
      if current.Some? {
        TailIsGreatest(list, Parts(), Positions(), k, current.value);
      } else {
        NoTail(list, Parts(), Positions(), k);
      }
    }

    method SeekToFirst()
      requires Ok()
      modifies this, children
      ensures Ok() && pos == 0
    {
      for i := 0 to |children|
        invariant Children()
        invariant forall j :: 0 <= j < i ==> children[j].pos == 0
      {
        children[i].SeekToFirst();
      }
      direction := Forward;
      FindSmallest(0);
    }

    method SeekToLast()
      requires Ok()
      modifies this, children
      ensures Ok() && pos == if list == [] then 0 else |list| - 1
    {
      for i := 0 to |children|
        invariant Children()
        invariant forall j :: 0 <= j < i ==> LastBefore(list, |list|, children[j].list, children[j].pos)
      {
        children[i].SeekToLast();
        assert children[i].list == Parts()[i] && list[..|list|] == list;
      }
      direction := Reverse;
      FindLargest(|list|);
    }

    method Seek(target: IKey)
      requires Ok()
      modifies this, children
      ensures Ok() && IsSeek(list, target, pos)
    {
      ghost var k := SeekPosition(list, target);
      for i := 0 to |children|
        invariant Children()
        invariant forall j :: 0 <= j < i ==> SplitAt(list, k, children[j].list, children[j].pos)
      {
        children[i].Seek(target);
        assert children[i].list == Parts()[i];
        SeekSplits(list, target, k, children[i].list, children[i].pos);
      }
      direction := Forward;
      FindSmallest(k);
    }

    method Next()
      requires Ok() && Valid()
      modifies this, children
      ensures Ok() && pos == old(pos) + 1
    {
      var c := current.value;
      if !direction.Forward? {
        TurnForward();
      }
      forall i | 0 <= i < |children|
        ensures SplitAt(list, pos + 1, children[i].list, if i == c then children[i].pos + 1 else children[i].pos)
      {
        assert children[i].list == Parts()[i] && children[c].list == Parts()[c];
        SplitNext(list, pos, children[i].list, children[i].pos);
      }
      children[c].Next();
      FindSmallest(pos + 1);
    }

    /** Positions every child but the current one after the current key. */
    method TurnForward()
      requires Ok() && Valid() && direction.Reverse?
      modifies this`direction, children
      ensures Ok() && direction.Forward?
      ensures unchanged(children[current.value])
    {
      hide IsUnion, SplitAt, LastBefore, Sorted, Before;
      var c := current.value;
      CurrentSplits(c);
      for i := 0 to |children|
        invariant Children() && children[c].Valid() && children[c].Current() == list[pos]
        invariant unchanged(children[c])
        invariant forall j :: 0 <= j < |children| && (j < i || j == c) ==> SplitAt(list, pos, children[j].list, children[j].pos)
      {
        if i != c {
          OtherChild(list, Parts(), i, c, pos);
          StepAfter(children[i], children[c].Current().key, list, pos);
        }
      }
      direction := Forward;
    }

    lemma CurrentSplits(c: nat)
      requires Ok() && current == Some(c) && direction.Reverse?
      ensures SplitAt(list, pos, children[c].list, children[c].pos)
    {
      assert list[..pos + 1] == list[..pos] + [list[pos]];
      InPrefix(list, pos, pos);
      SplitPrev(list, pos, children[c].list, children[c].pos);
    }

    method Prev()
      requires Ok() && Valid()
      modifies this, children
      ensures Ok() && pos == if old(pos) == 0 then |list| else old(pos) - 1
    {
      var c := current.value;
      if !direction.Reverse? {
        TurnBack();
      }
      forall i | 0 <= i < |children|
        ensures LastBefore(list, pos, children[i].list,
                           if i == c then (if children[i].pos == 0 then |children[i].list| else children[i].pos - 1) else children[i].pos)
      {
        assert children[i].list == Parts()[i] && children[c].list == Parts()[c];
        SplitPrev(list, pos, children[i].list, children[i].pos);
      }
      children[c].Prev();
      FindLargest(pos);
    }

    /** Positions every child but the current one before the current key. */
    method TurnBack()
      requires Ok() && Valid() && direction.Forward?
      modifies this`direction, children
      ensures Ok() && direction.Reverse?
      ensures unchanged(children[current.value])
    {
      hide IsUnion, SplitAt, LastBefore, Sorted, Before;
      var c := current.value;
      CurrentEnds(c);
      for i := 0 to |children|
        invariant Children() && children[c].Valid() && children[c].Current() == list[pos]
        invariant unchanged(children[c])
        invariant forall j :: 0 <= j < |children| && (j < i || j == c) ==> LastBefore(list, pos + 1, children[j].list, children[j].pos)
      {
        if i != c {
          OtherChild(list, Parts(), i, c, pos);
          StepBefore(children[i], children[c].Current().key, list, pos);
        }
      }
      direction := Reverse;
    }

    lemma CurrentEnds(c: nat)
      requires Ok() && current == Some(c) && direction.Forward?
      ensures LastBefore(list, pos + 1, children[c].list, children[c].pos)
    {
      SplitNext(list, pos, children[c].list, children[c].pos);
      SplitIsLastBefore(list, pos + 1, children[c].list, children[c].pos + 1);
    }
  }

  /** What a child knows of the current entry of another. */
  lemma OtherChild(list: seq<Entry>, parts: seq<seq<Entry>>, i: nat, c: nat, k: nat)
    requires IsUnion(list, parts) && i < |parts| && c < |parts| && i != c && k < |list| && list[k] in parts[c]
    ensures Sorted(list) && list[k] !in parts[i] && forall q :: 0 <= q < |parts[i]| ==> parts[i][q] in list
  {
  }

  /** Moves a child past the key of entry `k` of the union. */
  method StepAfter(child: SortedIterator, key: IKey, ghost list: seq<Entry>, ghost k: nat)
    requires child.Ok() && Sorted(list) && k < |list| && key == list[k].key
    requires list[k] !in child.list && forall q :: 0 <= q < |child.list| ==> child.list[q] in list
    modifies child
    ensures child.Ok() && SplitAt(list, k, child.list, child.pos)
  {
    child.Seek(key);
    SeekHere(list, k, child.list, child.pos);
    if child.Valid() && child.Current().key == key {
      // the source steps over an equal key; no two children hold one
      assert false;
    }
  }

  /** Moves a child to its last entry before the key of entry `k` of the union. */
  method StepBefore(child: SortedIterator, key: IKey, ghost list: seq<Entry>, ghost k: nat)
    requires child.Ok() && Sorted(list) && k < |list| && key == list[k].key
    requires list[k] !in child.list && forall q :: 0 <= q < |child.list| ==> child.list[q] in list
    modifies child
    ensures child.Ok() && LastBefore(list, k + 1, child.list, child.pos)
  {
    child.Seek(key);
    SeekHere(list, k, child.list, child.pos);
    SplitNext(list, k, child.list, child.pos);
    SplitIsLastBefore(list, k + 1, child.list, child.pos);
    if child.Valid() {
      child.Prev();
    } else {
      child.SeekToLast();
    }
  }

  lemma KeysDiffer(list: seq<Entry>, i: nat, k: nat)
    requires Sorted(list) && i < |list| && k < |list| && i != k
    ensures list[i].key != list[k].key
  {
    assert Before(list[if i < k then i else k].key, list[if i < k then k else i].key);
  }

  lemma SeekHere(list: seq<Entry>, k: nat, part: seq<Entry>, p: nat)
    requires Sorted(list) && k < |list| && IsSeek(part, list[k].key, p)
    requires forall q :: 0 <= q < |part| ==> part[q] in list
    ensures SplitAt(list, k, part, p)
    ensures list[k] !in part && p < |part| ==> part[p].key != list[k].key
  {
    assert IsSeek(list, list[k].key, k);
    SeekSplits(list, list[k].key, k, part, p);
    if list[k] !in part && p < |part| {
      var i: nat :| i < |list| && list[i] == part[p];
      KeysDiffer(list, i, k);
    }
  }

  lemma SeekPosition(list: seq<Entry>, target: IKey) returns (k: nat)
    requires Sorted(list)
    ensures IsSeek(list, target, k)
  {
    k := 0;
    while k < |list| && Before(list[k].key, target)
      invariant k <= |list| && forall i :: 0 <= i < k ==> Before(list[i].key, target)
    {
      k := k + 1;
    }
  }
}
