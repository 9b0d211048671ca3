/** Tables: data blocks, an index with shortened keys, and filters
    (table/table_builder.cc, table/table.cc, db/dbformat.cc). */
module Table {
  import opened History
  import opened Coding
  import Bytewise
  import opened FilterBlock

  // ---------- internal keys over byte strings ----------

  datatype TableKey = TableKey(user: Bytes, sequence: nat, kind: Kind)
  datatype TableEntry = TableEntry(key: TableKey, val: Bytes)

  /** The internal key with the user key replaced by its rank. */
  function Ranked(k: TableKey): IKey {
    IKey(Bytewise.Rank(k.user), k.sequence, k.kind)
  }

  function PackedTag(k: TableKey): nat {
    k.sequence * 256 + if k.kind.Value? then 1 else 0
  }

  /** `InternalKeyComparator::Compare(a, b) < 0`, over the bytewise comparator. */
  predicate KeyBefore(a: TableKey, b: TableKey) {
    Bytewise.Less(a.user, b.user) || (a.user == b.user && PackedTag(a) > PackedTag(b))
  }

  lemma KeyBeforeIsBefore(a: TableKey, b: TableKey)
    ensures KeyBefore(a, b) <==> Before(Ranked(a), Ranked(b))
  {
    Bytewise.RankIsOrderEmbedding(a.user, b.user);
  }

  lemma KeyOrder(a: TableKey, b: TableKey, c: TableKey)
    ensures KeyBefore(a, b) && KeyBefore(b, c) ==> KeyBefore(a, c)
    ensures !(KeyBefore(a, b) && KeyBefore(b, a))
    ensures !KeyBefore(a, b) && KeyBefore(a, c) ==> KeyBefore(b, c)
    ensures KeyBefore(a, b) || !KeyBefore(b, a) ==> !Bytewise.Less(b.user, a.user)
  {
    Bytewise.RankIsOrderEmbedding(a.user, b.user);
    Bytewise.RankIsOrderEmbedding(b.user, a.user);
    Bytewise.RankIsOrderEmbedding(b.user, c.user);
    Bytewise.RankIsOrderEmbedding(a.user, c.user);
  }

  ghost predicate KeysIncrease(es: seq<TableEntry>) {
    forall i, j :: 0 <= i < j < |es| ==> KeyBefore(es[i].key, es[j].key)
  }

  /** `InternalKeyComparator::FindShortestSeparator`. */
  method FindShortestSeparator(start: TableKey, limit: TableKey) returns (sep: TableKey)
    ensures KeyBefore(start, limit) ==> KeyBefore(sep, limit)
    ensures sep == start || (sep.sequence == MAX_SEQUENCE && sep.kind == Value
                             && Bytewise.Less(start.user, sep.user) && Bytewise.Less(sep.user, limit.user) && |sep.user| < |start.user|)
    ensures sep == start || KeyBefore(start, sep)
    ensures forall d: nat :: Bytewise.HasRoomAt(start.user, limit.user, d) && d + 1 < |start.user| ==>
              sep == TableKey(Bytewise.RaisedAt(start.user, d), MAX_SEQUENCE, Value)
  {
    var tmp := Bytewise.FindShortestSeparator(start.user, limit.user);
    if |tmp| < |start.user| && Bytewise.Less(start.user, tmp) {
      Bytewise.LessIsTotal(start.user, tmp);
      sep := TableKey(tmp, MAX_SEQUENCE, Value);
    } else {
      sep := start;
    }
  }

  /** `InternalKeyComparator::FindShortSuccessor`. */
  method FindShortSuccessor(key: TableKey) returns (succ: TableKey)
    ensures succ == key || (succ.sequence == MAX_SEQUENCE && succ.kind == Value && Bytewise.Less(key.user, succ.user) && |succ.user| < |key.user|)
    ensures succ == key || KeyBefore(key, succ)
    ensures forall i :: 0 <= i < |key.user| - 1 && Bytewise.AllMax(key.user[..i]) && key.user[i] < 255 ==>
              succ == TableKey(Bytewise.RaisedAt(key.user, i), MAX_SEQUENCE, Value)
  {
    var tmp := Bytewise.FindShortSuccessor(key.user);
    if |tmp| < |key.user| && Bytewise.Less(key.user, tmp) {
      succ := TableKey(tmp, MAX_SEQUENCE, Value);
    } else {
      succ := key;
    }
  }

  // ---------- the table ----------

  /** A data block at its offset in the file. */
  datatype DataBlock = DataBlock(offset: nat, entries: seq<TableEntry>)
  datatype IndexEntry = IndexEntry(key: TableKey, block: DataBlock)

  /** An index key is the last key of its block, or a key with a shorter user key that follows it and
      precedes the user keys of the next block. */
  ghost predicate Separates(key: TableKey, entries: seq<TableEntry>, next: seq<TableEntry>)
  {
    && entries != []
    && var last := entries[|entries| - 1].key;
       && (key == last || (key.sequence == MAX_SEQUENCE && key.kind == Value && Bytewise.Less(last.user, key.user)))
       && (next != [] ==> KeyBefore(key, next[0].key) && (key != last ==> Bytewise.Less(key.user, next[0].key.user)))
  }

  ghost function AllEntries(index: seq<IndexEntry>): seq<TableEntry> {
    if index == [] then [] else AllEntries(index[..|index| - 1]) + index[|index| - 1].block.entries
  }

  // ---------- building ----------

  const BLOCK_TRAILER_SIZE := 5

  /** The user keys of the entries. */
  ghost predicate UsersIn(entries: seq<TableEntry>, keys: seq<Bytes>) {
    forall e :: e in entries ==> e.key.user in keys
  }

  function TailOf(pending: Option<DataBlock>, dataBlock: seq<TableEntry>): seq<TableEntry> {
    if pending.Some? then pending.value.entries else dataBlock
  }

  /** The blocks of the index, then the block whose index entry is to come or the one being filled,
      are the entries added so far. */
  ghost predicate Arranged(index: seq<IndexEntry>, pending: Option<DataBlock>, dataBlock: seq<TableEntry>,
          entries: seq<TableEntry>, lastKey: TableKey) {
    var tail := TailOf(pending, dataBlock);
    && entries == AllEntries(index) + tail
    && KeysIncrease(entries) && (forall e :: e in entries ==> e.key.sequence <= MAX_SEQUENCE)
    && (entries != [] ==> tail != [] && lastKey == tail[|tail| - 1].key)
    && (pending.Some? ==> dataBlock == [] && pending.value.entries != [])
    && (index != [] ==> tail != []) && IndexBefore(index, tail)
  }

  lemma AppendArranged(index: seq<IndexEntry>, dataBlock: seq<TableEntry>, entries: seq<TableEntry>, e: TableEntry)
    requires AllEntries(index) + dataBlock == entries && IndexBefore(index, dataBlock + [e]) && KeysIncrease(entries + [e])
    requires (forall x :: x in entries ==> x.key.sequence <= MAX_SEQUENCE) && e.key.sequence <= MAX_SEQUENCE
    ensures Arranged(index, None, dataBlock + [e], entries + [e], e.key)
  {
    hide KeysIncrease, IndexBefore, AllEntries;
    assert entries + [e] == AllEntries(index) + (dataBlock + [e]);
    assert (dataBlock + [e])[|dataBlock + [e]| - 1] == e;
  }

  lemma ArrangedFacts(index: seq<IndexEntry>, pending: Option<DataBlock>, dataBlock: seq<TableEntry>, entries: seq<TableEntry>, lastKey: TableKey)
    requires Arranged(index, pending, dataBlock, entries, lastKey)
    ensures KeysIncrease(entries) && (forall e :: e in entries ==> e.key.sequence <= MAX_SEQUENCE)
    ensures entries != [] ==> entries[|entries| - 1].key == lastKey
  {
    var tail := TailOf(pending, dataBlock);
    if entries != [] { LastOfTail(AllEntries(index), tail); }
  }

  /** Where the block after the last one of an index goes. */
  function EndOf(index: seq<IndexEntry>, encodedSize: seq<TableEntry> -> nat): nat {
    if index == [] then 0
    else index[|index| - 1].block.offset + encodedSize(index[|index| - 1].block.entries) + BLOCK_TRAILER_SIZE
  }

  /** The blocks of an index follow one another in the file. */
  ghost predicate Placed(index: seq<IndexEntry>, encodedSize: seq<TableEntry> -> nat) {
    forall i :: 0 <= i < |index| ==> index[i].block.offset == EndOf(index[..i], encodedSize)
  }

  ghost predicate PlacedSoFar(index: seq<IndexEntry>, pending: Option<DataBlock>, offset: nat, encodedSize: seq<TableEntry> -> nat) {
    && Placed(index, encodedSize)
    && if pending.None? then offset == EndOf(index, encodedSize)
       else pending.value.offset == EndOf(index, encodedSize) && offset == pending.value.offset + encodedSize(pending.value.entries) + BLOCK_TRAILER_SIZE
  }

  lemma IsPlaced(index: seq<IndexEntry>, offset: nat, encodedSize: seq<TableEntry> -> nat)
    requires PlacedSoFar(index, None, offset, encodedSize)
    ensures Placed(index, encodedSize)
  {
  }

  lemma PendingIsPlaced(index: seq<IndexEntry>, entry: IndexEntry, offset: nat, encodedSize: seq<TableEntry> -> nat)
    requires PlacedSoFar(index, Some(entry.block), offset, encodedSize)
    ensures PlacedSoFar(index + [entry], None, offset, encodedSize)
  {
    forall i | 0 <= i < |index + [entry]|
      ensures (index + [entry])[i].block.offset == EndOf((index + [entry])[..i], encodedSize)
    {
      assert (index + [entry])[..i] == index[..i];
      assert index[..|index|] == index;
    }
  }

  ghost predicate BlockCovered(block: DataBlock, filters: seq<seq<Bytes>>, keys: seq<Bytes>) {
    UsersIn(block.entries, KeysAt(filters, keys, block.offset / FILTER_BASE))
  }

  /** The keys of every block are among those for the filter of its offset. */
  ghost predicate Covered(index: seq<IndexEntry>, pending: Option<DataBlock>, filters: seq<seq<Bytes>>, keys: seq<Bytes>) {
    && (forall i :: 0 <= i < |index| ==> BlockCovered(index[i].block, filters, keys))
    && (pending.Some? ==> BlockCovered(pending.value, filters, keys))
  }

  lemma MoreKeysCover(index: seq<IndexEntry>, pending: Option<DataBlock>, filters: seq<seq<Bytes>>, keys: seq<Bytes>, key: Bytes)
    requires Covered(index, pending, filters, keys)
    ensures Covered(index, pending, filters, keys + [key])
  {
    forall block: DataBlock | BlockCovered(block, filters, keys)
      ensures BlockCovered(block, filters, keys + [key])
    {
    }
  }

  lemma NewPendingCovered(index: seq<IndexEntry>, block: DataBlock, filters: seq<seq<Bytes>>, keys: seq<Bytes>)
    requires Covered(index, None, filters, keys) && block.offset / FILTER_BASE == |filters| && UsersIn(block.entries, keys)
    ensures Covered(index, Some(block), filters, keys)
  {
  }

  lemma PendingJoinsIndex(index: seq<IndexEntry>, entry: IndexEntry, filters: seq<seq<Bytes>>, keys: seq<Bytes>)
    requires Covered(index, Some(entry.block), filters, keys)
    ensures Covered(index + [entry], None, filters, keys)
  {
  }

  lemma SameKeysCover(index: seq<IndexEntry>, pending: Option<DataBlock>, filters: seq<seq<Bytes>>, keys: seq<Bytes>,
                      laterFilters: seq<seq<Bytes>>, laterKeys: seq<Bytes>)
    requires Covered(index, pending, filters, keys)
    requires forall i: nat :: KeysAt(laterFilters, laterKeys, i) == KeysAt(filters, keys, i)
    ensures Covered(index, pending, laterFilters, laterKeys)
  {
    forall block: DataBlock | BlockCovered(block, filters, keys)
      ensures BlockCovered(block, laterFilters, laterKeys)
    {
    }
  }

  lemma NewPendingPlaced(index: seq<IndexEntry>, block: DataBlock, encodedSize: seq<TableEntry> -> nat)
    requires PlacedSoFar(index, None, block.offset, encodedSize)
    ensures PlacedSoFar(index, Some(block), block.offset + encodedSize(block.entries) + BLOCK_TRAILER_SIZE, encodedSize)
  {
  }

  class TableBuilder {
    const blockSize: nat
    const encodedSize: seq<TableEntry> -> nat
    const hasFilter: bool
    const filter: FilterBlockBuilder
    var offset: nat
    var lastKey: TableKey
    var pending: Option<DataBlock>  // the block whose index entry is still to come
    var dataBlock: seq<TableEntry>
    var index: seq<IndexEntry>
    ghost var entries: seq<TableEntry>

    /** What has been written after the blocks of the index. */
    ghost function Tail(): seq<TableEntry>
      reads this
    {
      TailOf(pending, dataBlock)
    }

    ghost predicate Ordered()
      reads this
    {
      Arranged(index, pending, dataBlock, entries, lastKey)
    }

    ghost predicate Filtered()
      reads this, filter
    {
      && filter.Valid()
      && (hasFilter ==>
            && |filter.filters| == offset / FILTER_BASE && UsersIn(dataBlock, filter.keys)
            && Covered(index, pending, filter.filters, filter.keys))
    }

    ghost predicate Valid()
      reads this, filter
    {
      Ordered() && Filtered() && PlacedSoFar(index, pending, offset, encodedSize)
    }

    constructor (policy: Policy, hasFilter: bool, blockSize: nat, encodedSize: seq<TableEntry> -> nat)
      ensures Valid() && entries == [] && dataBlock == [] && fresh(filter) && filter.policy == policy && this.hasFilter == hasFilter
      ensures this.encodedSize == encodedSize
    {
      this.hasFilter, this.blockSize, this.encodedSize := hasFilter, blockSize, encodedSize;
      var f := new FilterBlockBuilder(policy);
      filter := f;
      offset, lastKey, pending, dataBlock, index, entries := 0, TableKey([], 0, Value), None, [], [], [];
    }

    /** The index entry of the block before, once the next key is known. */
    method AddPendingIndexEntry(e: TableEntry)
      requires Valid() && (entries != [] ==> KeyBefore(lastKey, e.key))
      modifies this`lastKey, this`index, this`pending
      ensures pending.None? && dataBlock == old(dataBlock) && IndexBefore(index, dataBlock + [e])
      ensures AllEntries(index) + dataBlock == entries
      ensures hasFilter ==> Covered(index, None, filter.filters, filter.keys)
      ensures PlacedSoFar(index, None, offset, encodedSize)
    {
      hide Separates, KeyBefore, KeysIncrease, IndexBefore, AllEntries, Covered, PlacedSoFar;
      if pending.Some? {
        ghost var block := pending.value;
        lastKey := FindShortestSeparator(lastKey, e.key);
        SeparatorSeparates(old(lastKey), lastKey, block.entries, e);
        PendingIsPlaced(index, IndexEntry(lastKey, pending.value), offset, encodedSize);
        index := index + [IndexEntry(lastKey, pending.value)];
        pending := None;
        AppendIndex(old(index), IndexEntry(lastKey, block), block.entries, [e]);
        if hasFilter { PendingJoinsIndex(old(index), IndexEntry(lastKey, block), filter.filters, filter.keys); }
        assert dataBlock + [e] == [e];
      } else {
        ExtendTail(index, dataBlock, e);
      }
    }

    method Add(key: TableKey, val: Bytes)
      requires Valid() && (entries != [] ==> KeyBefore(lastKey, key)) && key.sequence <= MAX_SEQUENCE
      modifies this, filter
      ensures Valid() && entries == old(entries) + [TableEntry(key, val)] && lastKey == key && (dataBlock != [] ==> pending.None?)
    {
      hide Separates, KeyBefore, KeysIncrease, IndexBefore, AllEntries, Ordered, Filtered, PlacedSoFar;
      AppendEntry(TableEntry(key, val));
      if encodedSize(dataBlock) >= blockSize {
        Flush();
      }
    }

    /** `Add` up to the check of the block size. */
    method AppendEntry(e: TableEntry)
      requires Valid() && (entries != [] ==> KeyBefore(lastKey, e.key)) && e.key.sequence <= MAX_SEQUENCE
      modifies this, filter
      ensures Valid() && entries == old(entries) + [e] && pending.None? && lastKey == e.key
    {
      hide Separates, KeyBefore, KeysIncrease, IndexBefore, AllEntries, Covered, Arranged, PlacedSoFar;
      ArrangedFacts(index, pending, dataBlock, entries, lastKey);
      LastIsGreatest(entries, e);
      AddPendingIndexEntry(e);
      AppendArranged(index, dataBlock, entries, e);
      if hasFilter {
        MoreKeysCover(index, None, filter.filters, filter.keys, e.key.user);
        filter.AddKey(e.key.user);
      }
      lastKey, dataBlock, entries := e.key, dataBlock + [e], entries + [e];
    }

    /** Writes the data block, if it has entries. */
    method Flush()
      requires Valid() && (dataBlock != [] ==> pending.None?)
      modifies this, filter
      ensures Valid() && entries == old(entries) && dataBlock == []
      ensures index == old(index) && Tail() == old(Tail()) && lastKey == old(lastKey)
    {
      hide Separates, KeyBefore, KeysIncrease, IndexBefore, AllEntries, Covered, PlacedSoFar;
      if dataBlock == [] {
        return;
      }
      if hasFilter { NewPendingCovered(index, DataBlock(offset, dataBlock), filter.filters, filter.keys); }
      NewPendingPlaced(index, DataBlock(offset, dataBlock), encodedSize);
      pending := Some(DataBlock(offset, dataBlock));
      offset := offset + encodedSize(dataBlock) + BLOCK_TRAILER_SIZE;
      dataBlock := [];
      if hasFilter {
        ghost var filters, keys := filter.filters, filter.keys;
        filter.StartBlock(offset);
        forall i: nat
          ensures KeysAt(filter.filters, filter.keys, i) == KeysAt(filters, keys, i)
        {
          assert filter.KeysOf(i) == old(filter.KeysOf(i));
        }
        SameKeysCover(index, pending, filters, keys, filter.filters, filter.keys);
      }
      assert Tail() == old(Tail());
    }

    /** The last block, the filters and the last index entry. */
    method Finish() returns (table: seq<IndexEntry>, filterBlock: Option<Bytes>)
      requires Valid() && (dataBlock != [] ==> pending.None?)
      modifies this, filter
      ensures IsIndex(table) && AllEntries(table) == old(entries) && (filterBlock.Some? <==> hasFilter)
      ensures hasFilter && Fits(filter.policy, filter.filters) ==> filterBlock.value == FilterBlockOf(filter.policy, filter.filters)
      ensures hasFilter ==> (Fits(filter.policy, filter.filters) <==> |filterBlock.value| < 0x1_0000_0000)
      ensures hasFilter ==> FiltersCover(table, filter.filters)
      ensures Placed(table, encodedSize)
    {
      hide Separates, KeyBefore, KeysIncrease, IndexBefore, AllEntries, Fits, FilterBlockOf, Ordered, Filtered, Placed, PlacedSoFar;
      Flush();
      table, filterBlock := FinishIndex();
    }

    method FinishIndex() returns (table: seq<IndexEntry>, filterBlock: Option<Bytes>)
      requires Valid() && dataBlock == []
      modifies this, filter
      ensures IsIndex(table) && AllEntries(table) == old(entries) && (filterBlock.Some? <==> hasFilter)
      ensures hasFilter && Fits(filter.policy, filter.filters) ==> filterBlock.value == FilterBlockOf(filter.policy, filter.filters)
      ensures hasFilter ==> (Fits(filter.policy, filter.filters) <==> |filterBlock.value| < 0x1_0000_0000)
      ensures hasFilter ==> FiltersCover(table, filter.filters)
      ensures Placed(table, encodedSize)
    {
      hide Separates, KeyBefore, KeysIncrease, IndexBefore, AllEntries, Fits, FilterBlockOf, Covered, FiltersCover, Placed, PlacedSoFar;
      NoTail(index, Tail());
      ghost var filters, keys := filter.filters, filter.keys;
      filterBlock := None;
      if hasFilter {
        var f := filter.Finish();
        filterBlock := Some(f);
        forall i: nat
          ensures FilterAt(filter.filters, i) == KeysAt(filters, keys, i)
        {
          assert (if i < |filter.filters| then filter.filters[i] else []) == old(filter.KeysOf(i));
        }
      }
      if pending.Some? {
        lastKey := FindShortSuccessor(lastKey);
        PendingIsPlaced(index, IndexEntry(lastKey, pending.value), offset, encodedSize);
        index := index + [IndexEntry(lastKey, pending.value)];
        LastSeparates(old(lastKey), lastKey, pending.value.entries);
        CloseIndex(old(index), index[|index| - 1], old(Tail()));
        if hasFilter { PendingJoinsIndex(old(index), index[|index| - 1], filters, keys); }
        pending := None;
      }
      if hasFilter { FinishedCover(index, filters, keys, filter.filters); }
      IsPlaced(index, offset, encodedSize);
      table := index;
    }
  }

  function FilterAt(filters: seq<seq<Bytes>>, n: nat): seq<Bytes> {
    if n < |filters| then filters[n] else []
  }

  lemma FinishedCover(index: seq<IndexEntry>, filters: seq<seq<Bytes>>, keys: seq<Bytes>, finished: seq<seq<Bytes>>)
    requires Covered(index, None, filters, keys) && forall i: nat :: FilterAt(finished, i) == KeysAt(filters, keys, i)
    ensures FiltersCover(index, finished)
  {
    forall i | 0 <= i < |index|
      ensures UsersIn(index[i].block.entries, FilterAt(finished, index[i].block.offset / FILTER_BASE))
    {
      assert BlockCovered(index[i].block, filters, keys);
    }
  }

  /** The keys of every block are in the filter for its offset. */
  ghost predicate FiltersCover(index: seq<IndexEntry>, filters: seq<seq<Bytes>>) {
    forall i :: 0 <= i < |index| ==> UsersIn(index[i].block.entries, FilterAt(filters, index[i].block.offset / FILTER_BASE))
  }

  /** The index of a table, in which the last key need only follow its block. */
  ghost predicate IsIndex(index: seq<IndexEntry>) {
    KeysIncrease(AllEntries(index)) && IndexBefore(index, [])
  }

  ghost predicate IndexBefore(index: seq<IndexEntry>, tail: seq<TableEntry>) {
    forall i :: 0 <= i < |index| ==> SeparatesAt(index, tail, i)
  }

  ghost predicate SeparatesAt(index: seq<IndexEntry>, tail: seq<TableEntry>, i: int)
    requires 0 <= i < |index|
  {
    Separates(index[i].key, index[i].block.entries, if i + 1 < |index| then index[i + 1].block.entries else tail)
  }

  lemma LastIsGreatest(es: seq<TableEntry>, e: TableEntry)
    requires KeysIncrease(es) && (es != [] ==> KeyBefore(es[|es| - 1].key, e.key))
    ensures KeysIncrease(es + [e])
  {
    forall i | 0 <= i < |es|
      ensures KeyBefore(es[i].key, e.key)
    {
      if i < |es| - 1 { KeyOrder(es[i].key, es[|es| - 1].key, e.key); }
    }
  }

  lemma LastOfTail(before: seq<TableEntry>, tail: seq<TableEntry>)
    requires tail != []
    ensures before + tail != [] && (before + tail)[|before + tail| - 1] == tail[|tail| - 1]
  {
  }

  lemma SeparatorSeparates(last: TableKey, sep: TableKey, entries: seq<TableEntry>, e: TableEntry)
    requires entries != [] && last == entries[|entries| - 1].key && KeyBefore(last, e.key) && KeyBefore(sep, e.key)
    requires sep == last || (sep.sequence == MAX_SEQUENCE && sep.kind == Value
                             && Bytewise.Less(last.user, sep.user) && Bytewise.Less(sep.user, e.key.user))
    ensures Separates(sep, entries, [TableEntry(e.key, [])])
  {
  }

  lemma AppendIndex(index: seq<IndexEntry>, last: IndexEntry, tail: seq<TableEntry>, next: seq<TableEntry>)
    requires IndexBefore(index, tail) && last.block.entries == tail && next != []
    requires Separates(last.key, tail, [TableEntry(next[0].key, [])])
    ensures IndexBefore(index + [last], next) && AllEntries(index + [last]) == AllEntries(index) + tail
  {
    assert (index + [last])[..|index|] == index;
    forall i | 0 <= i < |index|
      ensures SeparatesAt(index + [last], next, i)
    {
      assert SeparatesAt(index, tail, i);
    }
  }

  /** Without a last block nothing has been added. */
  lemma NoTail(index: seq<IndexEntry>, tail: seq<TableEntry>)
    requires index != [] ==> tail != []
    ensures tail == [] ==> AllEntries(index) == [] && IndexBefore(index, [])
  {
  }

  lemma LastSeparates(last: TableKey, key: TableKey, entries: seq<TableEntry>)
    requires entries != [] && last == entries[|entries| - 1].key
    requires key == last || (key.sequence == MAX_SEQUENCE && key.kind == Value && Bytewise.Less(last.user, key.user))
    ensures Separates(key, entries, [])
  {
  }

  lemma CloseIndex(index: seq<IndexEntry>, last: IndexEntry, tail: seq<TableEntry>)
    requires IndexBefore(index, tail) && last.block.entries == tail && Separates(last.key, tail, [])
    ensures IndexBefore(index + [last], []) && AllEntries(index + [last]) == AllEntries(index) + tail
  {
    assert (index + [last])[..|index|] == index;
    forall i | 0 <= i < |index|
      ensures SeparatesAt(index + [last], [], i)
    {
      assert SeparatesAt(index, tail, i);
    }
  }

  lemma ExtendTail(index: seq<IndexEntry>, tail: seq<TableEntry>, e: TableEntry)
    requires IndexBefore(index, tail) && (index != [] ==> tail != [])
    ensures IndexBefore(index, tail + [e])
  {
    forall i | 0 <= i < |index|
      ensures SeparatesAt(index, tail + [e], i)
    {
      assert SeparatesAt(index, tail, i);
    }
  }

  /** `BuildTable`: the entries of an iterator, in order. */
  method BuildTable(es: seq<TableEntry>, policy: Policy, hasFilter: bool, blockSize: nat, encodedSize: seq<TableEntry> -> nat)
    returns (index: seq<IndexEntry>, filterBlock: Option<Bytes>, ghost filters: seq<seq<Bytes>>)
    requires KeysIncrease(es) && forall e :: e in es ==> e.key.sequence <= MAX_SEQUENCE
    ensures IsIndex(index) && AllEntries(index) == es && (filterBlock.Some? <==> hasFilter)
    ensures hasFilter ==> FiltersCover(index, filters) && (Fits(policy, filters) ==> filterBlock.value == FilterBlockOf(policy, filters))
    ensures hasFilter ==> (Fits(policy, filters) <==> |filterBlock.value| < 0x1_0000_0000)
    ensures Placed(index, encodedSize)
  {
    hide TableBuilder.Ordered, TableBuilder.Filtered, PlacedSoFar, Placed, FiltersCover, IsIndex, FilterBlockOf, Fits, AllEntries, KeyBefore;
    var builder := new TableBuilder(policy, hasFilter, blockSize, encodedSize);
    for i := 0 to |es|
      invariant builder.Valid() && fresh(builder) && fresh(builder.filter) && builder.entries == es[..i]
      invariant builder.hasFilter == hasFilter && builder.filter.policy == policy && builder.encodedSize == encodedSize
      invariant (builder.dataBlock != [] ==> builder.pending.None?) && (0 < i ==> builder.lastKey == es[i - 1].key)
    {
      assert es[i] in es;
      builder.Add(es[i].key, es[i].val);
      assert es[..i + 1] == es[..i] + [es[i]];
    }
    assert es[..|es|] == es;
    index, filterBlock := builder.Finish();
    filters := builder.filter.filters;
  }

  // ---------- where entries stand ----------

  lemma {:induction false} PlaceOf(index: seq<IndexEntry>, x: nat, q: nat) returns (p: nat)
    requires x < |index| && q < |index[x].block.entries|
    ensures p == |AllEntries(index[..x])| + q < |AllEntries(index)| && AllEntries(index)[p] == index[x].block.entries[q]
    decreases |index|
  {
    var n := |index| - 1;
    p := |AllEntries(index[..x])| + q;
    if x < n {
      var _ := PlaceOf(index[..n], x, q);
      assert index[..n][..x] == index[..x];
    }
  }

  lemma {:induction false} BlockEnds(index: seq<IndexEntry>, x: nat, y: nat)
    requires x < y <= |index|
    ensures |AllEntries(index[..x])| + |index[x].block.entries| <= |AllEntries(index[..y])|
    decreases y
  {
    assert index[..y][..y - 1] == index[..y - 1];
    if x < y - 1 {
      BlockEnds(index, x, y - 1);
    }
  }

  lemma {:induction false} BlockOf(index: seq<IndexEntry>, e: TableEntry) returns (x: nat, q: nat)
    requires e in AllEntries(index)
    ensures x < |index| && q < |index[x].block.entries| && index[x].block.entries[q] == e
    decreases |index|
  {
    var n := |index| - 1;
    if e in AllEntries(index[..n]) {
      x, q := BlockOf(index[..n], e);
    } else {
      x := n;
      q :| q < |index[n].block.entries| && index[n].block.entries[q] == e;
    }
  }

  /** Entries of earlier blocks come first. */
  lemma BlocksInOrder(index: seq<IndexEntry>, x: nat, q: nat, y: nat, r: nat)
    requires IsIndex(index) && x < |index| && y < |index| && q < |index[x].block.entries| && r < |index[y].block.entries|
    requires x < y || (x == y && q < r)
    ensures KeyBefore(index[x].block.entries[q].key, index[y].block.entries[r].key)
  {
    hide KeyBefore;
    var a := PlaceOf(index, x, q);
    var b := PlaceOf(index, y, r);
    if x < y { BlockEnds(index, x, y); }
  }

  /** A block lies between the index key before it and its own. */
  lemma KeyAfterBlock(index: seq<IndexEntry>, x: nat, q: nat)
    requires IsIndex(index) && x < |index| && q < |index[x].block.entries|
    ensures !KeyBefore(index[x].key, index[x].block.entries[q].key)
  {
    var entries := index[x].block.entries;
    var last := |entries| - 1;
    assert SeparatesAt(index, [], x);
    if q < last { BlocksInOrder(index, x, q, x, last); }
    KeyOrder(entries[q].key, entries[last].key, index[x].key);
    KeyOrder(index[x].key, entries[q].key, entries[last].key);
    KeyOrder(index[x].key, entries[last].key, entries[last].key);
    Bytewise.LessIsTotal(entries[last].key.user, index[x].key.user);
  }

  lemma KeyBeforeLaterBlock(index: seq<IndexEntry>, x: nat, y: nat, r: nat)
    requires IsIndex(index) && x < y < |index| && r < |index[y].block.entries|
    ensures index[x].block.entries != []
    ensures KeyBefore(index[x].key, index[y].block.entries[r].key)
    ensures index[x].key == index[x].block.entries[|index[x].block.entries| - 1].key
            || Bytewise.Less(index[x].key.user, index[y].block.entries[r].key.user)
  {
    assert SeparatesAt(index, [], x) && SeparatesAt(index, [], x + 1);
    var first, e := index[x + 1].block.entries[0].key, index[y].block.entries[r].key;
    if x + 1 < y || r > 0 { BlocksInOrder(index, x + 1, 0, y, r); }
    KeyOrder(index[x].key, first, e);
    KeyOrder(first, e, e);
    Bytewise.RankIsOrderEmbedding(index[x].key.user, first.user);
    Bytewise.RankIsOrderEmbedding(index[x].key.user, e.user);
    Bytewise.RankIsOrderEmbedding(e.user, first.user);
  }

  /** Between two keys of a user there is no other user. */
  lemma SameUser(a: TableKey, b: TableKey, c: TableKey)
    requires !KeyBefore(b, a) && !KeyBefore(c, b) && a.user == c.user
    ensures b.user == a.user
  {
    Bytewise.LessIsTotal(a.user, b.user);
    Bytewise.LessIsTotal(b.user, c.user);
  }

  /** The entries a lookup may be after are not before its index position. */
  lemma NotInEarlierBlock(index: seq<IndexEntry>, i: nat, k: TableKey, x: nat, q: nat)
    requires IsIndex(index) && i <= |index| && (forall j :: 0 <= j < i ==> KeyBefore(index[j].key, k))
    requires x < i && q < |index[x].block.entries|
    ensures KeyBefore(index[x].block.entries[q].key, k)
  {
    KeyAfterBlock(index, x, q);
    KeyOrder(index[x].key, index[x].block.entries[q].key, k);
  }

  /** An entry of a later block with the sought user key leaves the last entry of this block with
      the same user key, at or after the sought key. */
  lemma NotInLaterBlock(index: seq<IndexEntry>, i: nat, k: TableKey, x: nat, q: nat)
    requires IsIndex(index) && i < x < |index| && !KeyBefore(index[i].key, k)
    requires q < |index[x].block.entries| && index[x].block.entries[q].key.user == k.user
    ensures index[i].block.entries != []
    ensures var last := index[i].block.entries[|index[i].block.entries| - 1].key; !KeyBefore(last, k) && last.user == k.user
  {
    KeyBeforeLaterBlock(index, i, x, q);
    var last, e := index[i].block.entries[|index[i].block.entries| - 1].key, index[x].block.entries[q].key;
    KeyOrder(index[i].key, k, k);
    Bytewise.LessIsTotal(index[i].key.user, k.user);
    assert index[i].key == last;
    KeyOrder(last, e, e);
    SameUser(k, last, e);
  }

  lemma NotInTable(index: seq<IndexEntry>, k: TableKey)
    requires IsIndex(index) && forall j :: 0 <= j < |index| ==> KeyBefore(index[j].key, k)
    ensures IsAnswer(AllEntries(index), k, None)
  {
    forall e | e in AllEntries(index)
      ensures KeyBefore(e.key, k)
    {
      var x, q := BlockOf(index, e);
      NotInEarlierBlock(index, |index|, k, x, q);
    }
  }

  lemma RuledOut(index: seq<IndexEntry>, i: nat, k: TableKey)
    requires IsIndex(index) && i < |index| && (forall j :: 0 <= j < i ==> KeyBefore(index[j].key, k)) && !KeyBefore(index[i].key, k)
    requires forall e :: e in index[i].block.entries ==> e.key.user != k.user
    ensures IsAnswer(AllEntries(index), k, None)
  {
    hide KeyBefore, IsIndex;
    forall e | e in AllEntries(index) && e.key.user == k.user
      ensures KeyBefore(e.key, k)
    {
      var x, q := BlockOf(index, e);
      if x < i {
        NotInEarlierBlock(index, i, k, x, q);
      } else if i < x {
        NotInLaterBlock(index, i, k, x, q);
      }
    }
  }

  lemma FoundInBlock(index: seq<IndexEntry>, i: nat, j: nat, k: TableKey)
    requires IsIndex(index) && i < |index| && (forall y :: 0 <= y < i ==> KeyBefore(index[y].key, k)) && !KeyBefore(index[i].key, k)
    requires var entries := index[i].block.entries;
             && j <= |entries| && (j < |entries| ==> !KeyBefore(entries[j].key, k))
             && forall y :: 0 <= y < j ==> KeyBefore(entries[y].key, k)
    ensures IsAnswer(AllEntries(index), k, if j < |index[i].block.entries| then Some(index[i].block.entries[j]) else None)
  {
    hide KeyBefore, IsIndex;
    var entries := index[i].block.entries;
    if j < |entries| {
      var p := PlaceOf(index, i, j);
      assert AllEntries(index)[p] in AllEntries(index);
    }
    forall e | e in AllEntries(index) && e.key.user == k.user && !KeyBefore(e.key, k)
      ensures j < |entries| && entries[j].key.user == k.user && !KeyBefore(e.key, entries[j].key)
    {
      var x, q := BlockOf(index, e);
      if x < i {
        NotInEarlierBlock(index, i, k, x, q);
      } else {
        if i < x { NotInLaterBlock(index, i, k, x, q); }
        NextInOrder(index, i, j, k, x, q);
      }
    }
  }

  lemma NextInOrder(index: seq<IndexEntry>, i: nat, j: nat, k: TableKey, x: nat, q: nat)
    requires IsIndex(index) && i <= x < |index| && j < |index[i].block.entries| && q < |index[x].block.entries|
    requires x == i ==> j <= q
    requires index[x].block.entries[q].key.user == k.user && !KeyBefore(index[i].block.entries[j].key, k)
    ensures index[i].block.entries[j].key.user == k.user
    ensures !KeyBefore(index[x].block.entries[q].key, index[i].block.entries[j].key)
  {
    var r, e := index[i].block.entries[j].key, index[x].block.entries[q].key;
    if i < x || j < q { BlocksInOrder(index, i, j, x, q); }
    KeyOrder(r, e, e);
    SameUser(k, r, e);
  }

  // ---------- InternalGet ----------

  /** The first entry of a block at or after a key: `Seek` in the block. */
  method SeekBlock(entries: seq<TableEntry>, k: TableKey) returns (i: nat)
    ensures i <= |entries| && (i < |entries| ==> !KeyBefore(entries[i].key, k))
    ensures forall j :: 0 <= j < i ==> KeyBefore(entries[j].key, k)
  {
    i := 0;
    while i < |entries| && KeyBefore(entries[i].key, k)
      invariant i <= |entries| && forall j :: 0 <= j < i ==> KeyBefore(entries[j].key, k)
    {
      i := i + 1;
    }
  }

  method SeekIndex(index: seq<IndexEntry>, k: TableKey) returns (i: nat)
    ensures i <= |index| && (i < |index| ==> !KeyBefore(index[i].key, k))
    ensures forall j :: 0 <= j < i ==> KeyBefore(index[j].key, k)
  {
    i := 0;
    while i < |index| && KeyBefore(index[i].key, k)
      invariant i <= |index| && forall j :: 0 <= j < i ==> KeyBefore(index[j].key, k)
    {
      i := i + 1;
    }
  }

  /** What a lookup of an internal key must give: the first entry of the table at or after the key,
      if that has the sought user key. Otherwise it may give anything with another user key. */
  ghost predicate IsAnswer(es: seq<TableEntry>, k: TableKey, r: Option<TableEntry>) {
    && (r.Some? ==> r.value in es && !KeyBefore(r.value.key, k))
    && forall e :: e in es && e.key.user == k.user && !KeyBefore(e.key, k) ==>
         r.Some? && r.value.key.user == k.user && !KeyBefore(e.key, r.value.key)
  }

  method InternalGet(index: seq<IndexEntry>, filter: Option<FilterBlockReader>, ghost filters: seq<seq<Bytes>>, k: TableKey)
    returns (r: Option<TableEntry>)
    requires IsIndex(index)
    requires filter.Some? ==> filter.value.Valid() && Reads(filter.value, filter.value.policy, filters)
                              && IsSound(filter.value.policy) && FiltersCover(index, filters)
    ensures IsAnswer(AllEntries(index), k, r)
  {
    hide IsAnswer, IsIndex, KeyBefore, Reads, IsSound;
    var i := SeekIndex(index, k);
    r := None;
    if i == |index| {
      NotInTable(index, k);
    } else if filter.Some? && !filter.value.KeyMayMatch(index[i].block.offset, k.user) {
      forall e | e in index[i].block.entries
        ensures e.key.user != k.user
      {
        if e.key.user == k.user {
          NoKeyMissed(filter.value, filter.value.policy, filters, index[i].block.offset, k.user);
        }
      }
      RuledOut(index, i, k);
    } else {
      var entries := index[i].block.entries;
      var j := SeekBlock(entries, k);
      if j < |entries| {
        r := Some(entries[j]);
      }
      FoundInBlock(index, i, j, k);
    }
  }

  /** What a reader of `u` at `s` is owed by a table. */
  ghost predicate IsNewestIn(es: seq<TableEntry>, u: Bytes, s: nat, e: TableEntry) {
    && e in es && e.key.user == u && e.key.sequence <= s
    && forall x :: x in es && x.key.user == u && x.key.sequence <= s ==> x.key.sequence <= e.key.sequence
  }

  /** Looking up the seek key gives the newest visible entry whenever there is one, and otherwise
      nothing that belongs to the user key. */
  lemma AnswerIsNewest(es: seq<TableEntry>, u: Bytes, s: nat, r: Option<TableEntry>)
    requires IsAnswer(es, TableKey(u, s, Value), r)
    ensures (exists e :: e in es && e.key.user == u && e.key.sequence <= s) ==> r.Some? && IsNewestIn(es, u, s, r.value)
    ensures r.Some? && r.value.key.user == u ==> IsNewestIn(es, u, s, r.value)
  {
    var k := TableKey(u, s, Value);
    forall e | e in es && e.key.user == u
      ensures e.key.sequence <= s <==> !KeyBefore(e.key, k)
    {
      SameUserOrder(e.key, k);
    }
    if r.Some? && r.value.key.user == u {
      forall x | x in es && x.key.user == u && x.key.sequence <= s
        ensures x.key.sequence <= r.value.key.sequence
      {
        SameUserOrder(x.key, r.value.key);
      }
    }
  }

  lemma SameUserOrder(a: TableKey, b: TableKey)
    requires a.user == b.user
    ensures KeyBefore(a, b) <==> PackedTag(a) > PackedTag(b)
  {
    Bytewise.LessIsTotal(a.user, b.user);
  }
}
