/** The iterator that walks the blocks an index leads to, or the files of a sorted level
    (table/two_level_iterator.cc). */
module TwoLevel {
  import opened History
  import opened Iterators

  /** An index entry, and what the block it leads to holds. */
  datatype Block = Block(key: IKey, entries: seq<Entry>)

  /** Each index key is at or after the keys of its block, and before those of later blocks.
      Blocks may be empty. */
  ghost predicate Indexed(index: seq<Block>) {
    && (forall i :: 0 <= i < |index| ==> Sorted(index[i].entries))
    && (forall i, q :: 0 <= i < |index| && 0 <= q < |index[i].entries| ==> !Before(index[i].key, index[i].entries[q].key))
    && (forall i, j, q :: 0 <= i < j < |index| && 0 <= q < |index[j].entries| ==> Before(index[i].key, index[j].entries[q].key))
    && (forall i, j :: 0 <= i < j < |index| ==> Before(index[i].key, index[j].key))
  }

  function Flat(index: seq<Block>): seq<Entry> {
    if index == [] then [] else Flat(index[..|index| - 1]) + index[|index| - 1].entries
  }

  ghost function Offset(index: seq<Block>, i: nat): nat
    requires i <= |index|
  {
    |Flat(index[..i])|
  }

  lemma OffsetStep(index: seq<Block>, i: nat)
    requires i < |index|
    ensures Offset(index, 0) == 0
    ensures Offset(index, i + 1) == Offset(index, i) + |index[i].entries|
    ensures Offset(index, |index|) == |Flat(index)|
  {
    assert index[..i + 1][..i] == index[..i];
    assert index[..|index|] == index;
  }

  /** Where an entry of a block stands in the concatenation. */
  lemma {:induction false} EntryAt(index: seq<Block>, i: nat, q: nat)
    requires i < |index| && q < |index[i].entries|
    ensures Offset(index, i) + q < |Flat(index)| && Flat(index)[Offset(index, i) + q] == index[i].entries[q]
    decreases |index|
  {
    var n := |index| - 1;
    if i < n {
      EntryAt(index[..n], i, q);
      assert index[..n][..i] == index[..i];
    }
  }

  /** Every position of the concatenation is in some block. */
  lemma {:induction false} BlockAt(index: seq<Block>, k: nat) returns (i: nat, q: nat)
    requires k < |Flat(index)|
    ensures i < |index| && q < |index[i].entries| && k == Offset(index, i) + q
    ensures Flat(index)[k] == index[i].entries[q]
    decreases |index|
  {
    var n := |index| - 1;
    if k < |Flat(index[..n])| {
      i, q := BlockAt(index[..n], k);
      assert index[..n][..i] == index[..i];
    } else {
      i, q := n, k - |Flat(index[..n])|;
    }
  }

  lemma FlatIsSorted(index: seq<Block>)
    requires Indexed(index)
    ensures Sorted(Flat(index))
  {
    forall x, y | 0 <= x < y < |Flat(index)|
      ensures Before(Flat(index)[x].key, Flat(index)[y].key)
    {
      var i, q := BlockAt(index, x);
      var j, r := BlockAt(index, y);
      if j < i {
        OffsetIncreases(index, j, i);
      } else if i < j {
        assert Before(index[i].key, index[j].entries[r].key) && !Before(index[i].key, index[i].entries[q].key);
      }
    }
  }

  lemma {:induction false} OffsetIncreases(index: seq<Block>, j: nat, i: nat)
    requires j < i <= |index|
    ensures Offset(index, j) + |index[j].entries| <= Offset(index, i)
    decreases i
  {
    if j + 1 == i {
      OffsetStep(index, j);
    } else {
      OffsetIncreases(index, j, i - 1);
      OffsetStep(index, i - 1);
    }
  }

  /** Seeking in the index and then in the block is seeking in the concatenation. */
  lemma SeekTwoLevels(index: seq<Block>, target: IKey, i: nat, q: nat)
    requires Indexed(index) && i <= |index|
    requires forall j :: 0 <= j < i ==> Before(index[j].key, target)
    requires if i < |index| then !Before(index[i].key, target) && IsSeek(index[i].entries, target, q) else q == 0
    ensures Offset(index, i) + q <= |Flat(index)| && IsSeek(Flat(index), target, Offset(index, i) + q)
  {
    if i < |index| {
      OffsetIncreases(index, i, |index|);
    }
    assert index[..|index|] == index;
    forall x | 0 <= x < |Flat(index)|
      ensures Before(Flat(index)[x].key, target) <==> x < Offset(index, i) + q
    {
      var j, r := BlockAt(index, x);
      if j < i {
        OffsetIncreases(index, j, i);
        assert !Before(index[j].key, index[j].entries[r].key);
      } else if i < j {
        OffsetIncreases(index, i, j);
        assert Before(index[i].key, index[j].entries[r].key);
      }
    }
  }

  class TwoLevelIterator {
    const index: seq<Block>
    var indexPos: nat
    var data: SortedIterator?
    var handle: nat
    ghost var pos: nat

    ghost const list: seq<Entry> := Flat(index)

    ghost function Repr(): set<object>
      reads this
    {
      if data == null then {this} else {this, data}
    }

    /** Between calls of the two-step operations: the data iterator, if any, is on the block its
        handle names. */
    ghost predicate Loaded()
      reads this, Repr()
    {
      && Indexed(index) && indexPos <= |index|
      && (data != null ==> data.Ok() && handle < |index| && data.list == index[handle].entries)
    }

    /** The data iterator is on the block of the index position; there is none at the end. */
    ghost predicate InBlock()
      reads this, Repr()
    {
      Loaded() && (data != null <==> indexPos < |index|) && (data != null ==> handle == indexPos)
    }

    ghost predicate Ok()
      reads this, Repr()
    {
      && InBlock()
      && if data != null then data.Valid() && pos == Offset(index, indexPos) + data.pos else pos == |list|
    }

    predicate Valid()
      reads this, Repr()
    {
      data != null && data.Valid()
    }

    function Current(): (e: Entry)
      requires Ok() && Valid()
      reads this, Repr()
      ensures pos < |list| && e == list[pos]
    {
      EntryAt(index, indexPos, data.pos);
      data.Current()
    }

    constructor (index: seq<Block>)
      requires Indexed(index)
      ensures Ok() && this.index == index && !Valid() && data == null
    {
      this.index, indexPos, data, handle := index, |index|, null, 0;
      pos := |Flat(index)|;
    }

    /** Keeps the data iterator when it already is on the right block. */
    method InitDataBlock()
      requires Loaded()
      modifies this
      ensures InBlock() && indexPos == old(indexPos) && pos == old(pos)
      ensures data != null ==> data == old(data) || fresh(data)
    {
      if indexPos == |index| {
        data := null;
      } else if data != null && handle == indexPos {
        // already on this block
      } else {
        data := new SortedIterator(index[indexPos].entries);
        handle := indexPos;
      }
    }

    method SkipEmptyDataBlocksForward(ghost k: nat)
      requires InBlock() && k == Offset(index, indexPos) + if data != null then data.pos else 0
      modifies Repr()
      ensures Ok() && pos == k && fresh(Repr() - old(Repr()))
    {
      assert index[..|index|] == index;
      while data == null || !data.Valid()
        invariant InBlock() && k == Offset(index, indexPos) + if data != null then data.pos else 0
        invariant fresh(Repr() - old(Repr()))
        decreases |index| - indexPos, data
      {
        if indexPos == |index| {
          data := null;
          break;
        }
        OffsetStep(index, indexPos);
        indexPos := indexPos + 1;
        InitDataBlock();
        if data != null {
          data.SeekToFirst();
        }
      }
      pos := k;
    }

    /** Back to the last entry before position `k`; the block at hand has no more entries to offer
        unless its iterator is valid. */
    method SkipEmptyDataBlocksBackward(ghost k: nat)
      requires InBlock()
      requires k == if data != null && data.Valid() then Offset(index, indexPos) + data.pos + 1 else if data != null then Offset(index, indexPos) else 0
      modifies Repr()
      ensures Ok() && pos == (if k == 0 then |list| else k - 1) && fresh(Repr() - old(Repr()))
    {
      while data == null || !data.Valid()
        invariant InBlock() && fresh(Repr() - old(Repr()))
        invariant k == if data != null && data.Valid() then Offset(index, indexPos) + data.pos + 1 else if data != null then Offset(index, indexPos) else 0
        decreases data != null, indexPos
      {
        if indexPos == |index| {
          data := null;
          break;
        }
        if indexPos > 0 { OffsetStep(index, indexPos - 1); }
        indexPos := if indexPos == 0 then |index| else indexPos - 1;
        InitDataBlock();
        if data != null {
          data.SeekToLast();
        }
      }
      pos := if k == 0 then |list| else k - 1;
    }

    method SeekToFirst()
      requires Ok()
      modifies Repr()
      ensures Ok() && pos == 0 && fresh(Repr() - old(Repr()))
    {
      indexPos := 0;
      InitDataBlock();
      if data != null {
        data.SeekToFirst();
      }
      SkipEmptyDataBlocksForward(0);
    }

    method SeekToLast()
      requires Ok()
      modifies Repr()
      ensures Ok() && pos == (if list == [] then 0 else |list| - 1) && fresh(Repr() - old(Repr()))
    {
      indexPos := if index == [] then 0 else |index| - 1;
      InitDataBlock();
      if data != null {
        data.SeekToLast();
        OffsetStep(index, indexPos);
      }
      SkipEmptyDataBlocksBackward(|list|);
    }

    method Seek(target: IKey)
      requires Ok()
      modifies Repr()
      ensures Ok() && IsSeek(list, target, pos) && fresh(Repr() - old(Repr()))
    {
      indexPos := 0;
      while indexPos < |index| && Before(index[indexPos].key, target)
        invariant indexPos <= |index| && forall j :: 0 <= j < indexPos ==> Before(index[j].key, target)
        invariant Loaded() && data == old(data)
      {
        indexPos := indexPos + 1;
      }
      InitDataBlock();
      if data != null {
        data.Seek(target);
      }
      SeekTwoLevels(index, target, indexPos, if data != null then data.pos else 0);
      SkipEmptyDataBlocksForward(Offset(index, indexPos) + if data != null then data.pos else 0);
    }

    method Next()
      requires Ok() && Valid()
      modifies Repr()
      ensures Ok() && pos == old(pos) + 1 && fresh(Repr() - old(Repr()))
    {
      data.Next();
      SkipEmptyDataBlocksForward(pos + 1);
    }

    method Prev()
      requires Ok() && Valid()
      modifies Repr()
      ensures Ok() && pos == (if old(pos) == 0 then |list| else old(pos) - 1) && fresh(Repr() - old(Repr()))
    {
      data.Prev();
      SkipEmptyDataBlocksBackward(pos);
    }
  }
}
