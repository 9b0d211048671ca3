/** Tables as the files of a version: what a lookup in a table's blocks gives is what searching the
    file's entries gives (db/table_cache.cc, db/version_set.cc). */
module TableFiles {
  import opened History
  import opened Coding
  import opened Version
  import opened FilterBlock
  import opened Table
  import Bloom
  import Bytewise

  /** The bytes of a value read as characters. */
  function Text(b: Bytes): (t: string)
    ensures |t| == |b|
  {
    seq(|b|, i requires 0 <= i < |b| => b[i] as char)
  }

  function RankedEntry(e: TableEntry): Entry {
    Entry(Ranked(e.key), Text(e.val))
  }

  function RankedEntries(es: seq<TableEntry>): (r: seq<Entry>)
    ensures |r| == |es|
  {
    seq(|es|, i requires 0 <= i < |es| => RankedEntry(es[i]))
  }

  lemma RankedIsSorted(es: seq<TableEntry>)
    requires KeysIncrease(es)
    ensures Sorted(RankedEntries(es))
  {
    hide KeyBefore, Before;
    forall i, j | 0 <= i < j < |es|
      ensures Before(RankedEntries(es)[i].key, RankedEntries(es)[j].key)
    {
      assert KeyBefore(es[i].key, es[j].key);
      KeyBeforeIsBefore(es[i].key, es[j].key);
    }
  }

  /** A table with its metadata, as a version lists it. */
  function FileOf(number: nat, size: nat, es: seq<TableEntry>): File
    requires es != []
  {
    File(number, size, Ranked(es[0].key), Ranked(es[|es| - 1].key), RankedEntries(es))
  }

  lemma TableFileIsValid(number: nat, size: nat, es: seq<TableEntry>)
    requires es != [] && KeysIncrease(es) && forall e :: e in es ==> e.key.sequence <= MAX_SEQUENCE
    ensures ValidFile(FileOf(number, size, es))
  {
    RankedIsSorted(es);
    forall e | e in RankedEntries(es)
      ensures e.key.sequence <= MAX_SEQUENCE
    {
      var i :| 0 <= i < |es| && RankedEntries(es)[i] == e;
      assert es[i] in es;
    }
  }

  // ---------- searching ----------

  /** What a search of a file for the newest entry of `u` at `s` has to find. */
  ghost predicate Answers(S: set<Entry>, u: UserKey, s: nat, state: SaverState) {
    && (state.NotFound? <==> NoneVisible(S, u, s))
    && (!state.NotFound? ==> exists e :: Newest(e, S, u, s) && Verdict(e) == ToLookup(state))
  }

  /** There is only one such answer. */
  lemma AnswerIsUnique(S: set<Entry>, u: UserKey, s: nat, a: SaverState, b: SaverState)
    requires Distinct(S) && Answers(S, u, s, a) && Answers(S, u, s, b)
    ensures a == b
  {
    if !a.NotFound? {
      var e :| Newest(e, S, u, s) && Verdict(e) == ToLookup(a);
      ReadOfNewest(S, u, s, e);
      var x :| Newest(x, S, u, s) && Verdict(x) == ToLookup(b);
      ReadOfNewest(S, u, s, x);
    }
  }

  ghost function RankedSet(es: seq<TableEntry>): set<Entry> {
    set e | e in es :: RankedEntry(e)
  }

  lemma FileOfEntries(number: nat, size: nat, es: seq<TableEntry>)
    requires es != []
    ensures FileEntries(FileOf(number, size, es)) == RankedSet(es)
  {
    forall x | x in RankedSet(es)
      ensures x in RankedEntries(es)
    {
      var e :| e in es && RankedEntry(e) == x;
      var i :| 0 <= i < |es| && es[i] == e;
      assert RankedEntries(es)[i] == x;
    }
  }

  /** `SaveValue`: the entry found counts only if it has the sought user key. */
  function Saved(r: Option<TableEntry>, u: Bytes): SaverState {
    if r.None? || r.value.key.user != u then NotFound
    else if r.value.key.kind.Value? then FoundValue(Text(r.value.val))
    else Deleted
  }

  lemma SavedAnswers(es: seq<TableEntry>, u: Bytes, s: nat, r: Option<TableEntry>)
    requires IsAnswer(es, TableKey(u, s, Value), r)
    ensures Answers(RankedSet(es), Bytewise.Rank(u), s, Saved(r, u))
  {
    AnswerIsNewest(es, u, s, r);
    forall e | e in es
      ensures Visible(RankedEntry(e), Bytewise.Rank(u), s) <==> e.key.user == u && e.key.sequence <= s
    {
      Bytewise.RankIsOrderEmbedding(e.key.user, u);
    }
    if r.Some? && r.value.key.user == u {
      NewestIsRanked(es, u, s, r.value);
    } else {
      assert !exists e :: e in es && e.key.user == u && e.key.sequence <= s;
    }
  }

  lemma NewestIsRanked(es: seq<TableEntry>, u: Bytes, s: nat, e: TableEntry)
    requires IsNewestIn(es, u, s, e)
    ensures Newest(RankedEntry(e), RankedSet(es), Bytewise.Rank(u), s)
  {
    forall x | x in RankedSet(es) && Visible(x, Bytewise.Rank(u), s)
      ensures x.key.sequence <= e.key.sequence
    {
      var y :| y in es && RankedEntry(y) == x;
      Bytewise.RankIsOrderEmbedding(y.key.user, u);
    }
  }

  /** `TableCache::Get` on a table's index, blocks and filter. */
  method TableGet(index: seq<IndexEntry>, filter: Option<FilterBlockReader>, ghost filters: seq<seq<Bytes>>, u: Bytes, s: nat)
    returns (state: SaverState)
    requires IsIndex(index)
    requires filter.Some? ==> filter.value.Valid() && Reads(filter.value, filter.value.policy, filters)
                              && IsSound(filter.value.policy) && FiltersCover(index, filters)
    ensures Answers(RankedSet(Table.AllEntries(index)), Bytewise.Rank(u), s, state)
  {
    hide IsIndex, Reads, IsSound, FiltersCover, Answers;
    var r := InternalGet(index, filter, filters, TableKey(u, s, Value));
    SavedAnswers(Table.AllEntries(index), u, s, r);
    state := Saved(r, u);
  }

  /** A table built from a file's entries, with Bloom filters or without, answers as `Version.SearchTable`
      does on the file. A filter block whose offsets do not fit in 32 bits is not searched. */
  method BuildAndSearch(number: nat, size: nat, es: seq<TableEntry>, hash: Bloom.Hash, bitsPerKey: nat, k: Byte, hasFilter: bool,
                        blockSize: nat, encodedSize: seq<TableEntry> -> nat, u: Bytes, s: nat)
    returns (filterBlock: Option<Bytes>, inTable: Option<SaverState>, inFile: SaverState)
    requires es != [] && KeysIncrease(es) && (forall e :: e in es ==> e.key.sequence <= MAX_SEQUENCE) && Distinct(RankedSet(es))
    ensures filterBlock.Some? <==> hasFilter
    ensures inTable.None? <==> hasFilter && |filterBlock.value| >= 0x1_0000_0000
    ensures inTable.Some? ==> inTable == Some(inFile)
    ensures Answers(RankedSet(es), Bytewise.Rank(u), s, inFile)
  {
    hide KeysIncrease, IsIndex, RankedSet, Ranked, ValidFile, IsSound, FiltersCover, FilterBlock.Reads, FilterBlockOf,
         FilterBlock.Fits, BloomPolicy, Answers;
    TableFileIsValid(number, size, es);
    inFile := SearchTable(FileOf(number, size, es), Bytewise.Rank(u), s);
    FileOfEntries(number, size, es);
    FileAnswers(RankedSet(es), Bytewise.Rank(u), s, inFile);
    var policy := BloomPolicy(hash, bitsPerKey, k);
    BloomIsSound(hash, bitsPerKey, k);
    var index, block, filters := BuildTable(es, policy, hasFilter, blockSize, encodedSize);
    filterBlock := block;
    var reader := None;
    if hasFilter {
      if |block.value| >= 0x1_0000_0000 {
        return filterBlock, None, inFile;
      }
      var r := OpenFilters(policy, filters, block.value);
      ReadsItsPolicy(r, policy, filters);
      reader := Some(r);
    }
    var state := TableGet(index, reader, filters, u, s);
    AnswerIsUnique(RankedSet(es), Bytewise.Rank(u), s, state, inFile);
    inTable := Some(state);
  }

  lemma ReadsItsPolicy(r: FilterBlockReader, policy: Policy, filters: seq<seq<Bytes>>)
    requires FilterBlock.Reads(r, policy, filters)
    ensures r.policy == policy
  {
    hide FilterBlock.Fits, FilterBlockOf;
  }

  lemma FileAnswers(S: set<Entry>, u: UserKey, s: nat, state: SaverState)
    requires (state.NotFound? <==> NoneVisible(S, u, s)) && (!state.NotFound? ==> exists e :: Newest(e, S, u, s) && Verdict(e) == ToLookup(state))
    ensures Answers(S, u, s, state)
  {
  }
}
