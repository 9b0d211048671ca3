/** A table as the bytes of its file: data blocks, filter, metaindex, index and footer, written by a
    builder and read back by lookups (table/format.cc, table/table_builder.cc, table/table.cc). */
module TableBytes {
  import opened History
  import opened Coding
  import opened Slices
  import opened Version
  import opened FilterBlock
  import opened Table
  import opened TableFiles
  import Block
  import Bytewise
  import DiskBytes
  import Log

  // ---------- internal keys in bytes ----------

  /** The key as it is stored; sequence numbers have 56 bits. */
  function KeyBytes(k: TableKey): Bytes {
    if k.sequence <= MAX_SEQUENCE then DiskBytes.InternalKey(k) else k.user
  }

  function UserOf(b: Bytes): Bytes
    requires |b| >= 8
  {
    b[..|b| - 8]
  }

  function TagOf(b: Bytes): nat
    requires |b| >= 8
  {
    DecodeFixed64(b[|b| - 8..])
  }

  /** `InternalKeyComparator::Compare(a, b) < 0`. Too short a string is no internal key; to have an order
      of all strings, such strings come first. */
  predicate InternalLess(a: Bytes, b: Bytes) {
    if |a| < 8 || |b| < 8 then |a| < 8 && (|b| >= 8 || Bytewise.Less(a, b))
    else Bytewise.Less(UserOf(a), UserOf(b)) || (UserOf(a) == UserOf(b) && TagOf(a) > TagOf(b))
  }

  lemma SameWord(a: Bytes, b: Bytes)
    requires |a| >= 4 && |b| >= 4 && DecodeFixed32(a) == DecodeFixed32(b)
    ensures a[..4] == b[..4]
  {
    assert a[0] == b[0] && a[1] == b[1] && a[2] == b[2] && a[3] == b[3];
  }

  lemma SameTag(a: Bytes, b: Bytes)
    requires |a| == 8 && |b| == 8 && DecodeFixed64(a) == DecodeFixed64(b)
    ensures a == b
  {
    hide DecodeFixed32;
    SameWord(a, b);
    SameWord(a[4..], b[4..]);
    assert a == a[..4] + a[4..][..4] && b == b[..4] + b[4..][..4];
  }

  lemma SameParts(a: Bytes, b: Bytes)
    requires |a| >= 8 && |b| >= 8 && UserOf(a) == UserOf(b) && TagOf(a) == TagOf(b)
    ensures a == b
  {
    hide DecodeFixed64;
    SameTag(a[|a| - 8..], b[|b| - 8..]);
    assert a == UserOf(a) + a[|a| - 8..] && b == UserOf(b) + b[|b| - 8..];
  }

  lemma BytewiseIsOrder()
    ensures Block.IsOrder(Bytewise.Less)
  {
    hide Bytewise.Less, Bytewise.Rank;
    forall a, b
      ensures !Bytewise.Less(a, a) && (a != b ==> Bytewise.Less(a, b) || Bytewise.Less(b, a))
    {
      Bytewise.LessIsTotal(a, b);
      Bytewise.LessIsTotal(a, a);
    }
    forall a, b, c | Bytewise.Less(a, b) && Bytewise.Less(b, c)
      ensures Bytewise.Less(a, c)
    {
      LessTransitive(a, b, c);
    }
  }

  lemma LessTransitive(a: Bytes, b: Bytes, c: Bytes)
    requires Bytewise.Less(a, b) && Bytewise.Less(b, c)
    ensures Bytewise.Less(a, c)
  {
    hide Bytewise.Less, Bytewise.Rank;
    Bytewise.RankIsOrderEmbedding(a, b);
    Bytewise.RankIsOrderEmbedding(b, c);
    Bytewise.RankIsOrderEmbedding(a, c);
  }

  lemma InternalIsOrder()
    ensures Block.IsOrder(InternalLess)
  {
    hide Bytewise.Less, DecodeFixed64;
    BytewiseIsOrder();
    forall a, b | a != b
      ensures InternalLess(a, b) || InternalLess(b, a)
    {
      if |a| >= 8 && |b| >= 8 && UserOf(a) == UserOf(b) && TagOf(a) == TagOf(b) {
        SameParts(a, b);
      }
    }
  }

  /** Bytes are ordered as the keys that they stand for. */
  lemma LessOfKeys(a: TableKey, b: TableKey)
    requires a.sequence <= MAX_SEQUENCE && b.sequence <= MAX_SEQUENCE
    ensures InternalLess(KeyBytes(a), KeyBytes(b)) <==> KeyBefore(a, b)
  {
    hide EncodeFixed64, DecodeFixed64, Bytewise.Less;
    KeyParts(a);
    KeyParts(b);
  }

  lemma KeyParts(k: TableKey)
    requires k.sequence <= MAX_SEQUENCE
    ensures |KeyBytes(k)| >= 8 && UserOf(KeyBytes(k)) == k.user && TagOf(KeyBytes(k)) == PackedTag(k)
  {
    hide EncodeFixed64, DecodeFixed64;
    DiskBytes.TagParts(k);
    var tag := EncodeFixed64(PackedTag(k));
    assert KeyBytes(k)[|k.user|..] == tag + [];
    Fixed64RoundTrip(PackedTag(k), []);
  }

  // ---------- blocks ----------

  /** The entries of a data block. */
  function Pairs(es: seq<TableEntry>): (r: seq<Block.KeyValue>)
    ensures |r| == |es| && forall i :: 0 <= i < |es| ==> r[i] == Block.KeyValue(KeyBytes(es[i].key), es[i].val)
  {
    seq(|es|, i requires 0 <= i < |es| => Block.KeyValue(KeyBytes(es[i].key), es[i].val))
  }

  lemma PairsIncrease(es: seq<TableEntry>)
    requires KeysIncrease(es) && forall e :: e in es ==> e.key.sequence <= MAX_SEQUENCE
    ensures Block.Increasing(InternalLess, Pairs(es))
  {
    hide InternalLess, KeyBytes, KeyBefore;
    forall i, j | 0 <= i < j < |es|
      ensures InternalLess(Pairs(es)[i].key, Pairs(es)[j].key)
    {
      assert KeyBefore(es[i].key, es[j].key) && es[i] in es && es[j] in es;
      LessOfKeys(es[i].key, es[j].key);
    }
  }

  /** `CurrentSizeEstimate`: the size of the block when it is finished. */
  function SizeOf(kvs: seq<Block.KeyValue>, interval: nat): nat
    requires 0 < interval
  {
    |Block.DataOf(kvs, interval)| + 4 * |Block.RestartsOf(kvs, interval)| + 4
  }

  lemma SizeIsLength(kvs: seq<Block.KeyValue>, interval: nat)
    requires 0 < interval && SizeOf(kvs, interval) < 0x1_0000_0000
    ensures Block.Fits(kvs, interval) && |Block.BlockOf(kvs, interval)| == SizeOf(kvs, interval)
  {
    hide Block.DataOf, Block.RestartsOf, EncodeFixed32, Block.Fixed32s;
    Block.RestartsAreRight(kvs, interval);
    forall j | 0 <= j < |Block.RestartsOf(kvs, interval)|
      ensures Block.RestartsOf(kvs, interval)[j] < 0x1_0000_0000
    {
      assert Block.IsRestart(kvs, interval, j, Block.RestartsOf(kvs, interval)[j]);
      Block.DataPrefix(kvs, Block.Start(j, interval), interval);
    }
    Block.Fixed32sLength(Block.RestartsOf(kvs, interval));
  }

  /** What follows a block in the file: that it is not compressed, and the checksum. */
  function Trailer(crc: Log.Crc, contents: Bytes): (r: Bytes)
    ensures |r| == BLOCK_TRAILER_SIZE
  {
    [0] + StoredCrc(crc(contents + [0]))
  }

  function RawBlock(crc: Log.Crc, contents: Bytes): Bytes {
    contents + Trailer(crc, contents)
  }

  datatype BlockHandle = BlockHandle(offset: nat, size: nat)

  /** `ReadBlock`, of a file without compressed blocks. */
  function BlockAt(crc: Log.Crc, verifyChecksums: bool, file: Bytes, h: BlockHandle): Option<Bytes> {
    if h.offset + h.size + BLOCK_TRAILER_SIZE > |file| then None
    else if verifyChecksums && LoadedCrc(file[h.offset + h.size + 1..]) != crc(file[h.offset..h.offset + h.size + 1]) then None
    else if file[h.offset + h.size] != 0 then None
    else Some(file[h.offset..h.offset + h.size])
  }

  lemma RawBlockIsRead(crc: Log.Crc, verifyChecksums: bool, file: Bytes, offset: nat, contents: Bytes)
    requires StandsAt(file, offset, RawBlock(crc, contents))
    ensures BlockAt(crc, verifyChecksums, file, BlockHandle(offset, |contents|)) == Some(contents)
  {
    hide StoredCrc, LoadedCrc;
    var n, stored := |contents|, StoredCrc(crc(contents + [0]));
    StandsPart(file, offset, contents, [0] + stored);
    StandsPart(file, offset + n, [0], stored);
    assert file[offset + n] == file[offset + n..offset + n + 1][0] == 0;
    assert file[offset..offset + n + 1] == contents + [0];
    assert file[offset + n + 1..] == stored + file[offset + n + 5..];
    CrcRoundTrip(crc(contents + [0]), file[offset + n + 5..]);
  }

  // ---------- handles ----------

  function HandleBytes(h: BlockHandle): Bytes {
    Varint(h.offset) + Varint(h.size)
  }

  /** `BlockHandle::DecodeFrom`. */
  function HandleAt(s: Bytes, p: nat): (r: Option<(BlockHandle, nat)>)
    ensures r.Some? ==> p < r.value.1 <= |s|
  {
    match Get64(s, p)
    case None => None
    case Some((offset, q)) =>
      match Get64(s, q)
      case None => None
      case Some((size, end)) => Some((BlockHandle(offset, size), end))
  }

  lemma HandleIsRead(s: Bytes, p: nat, h: BlockHandle)
    requires StandsAt(s, p, HandleBytes(h)) && h.offset < TWO64 && h.size < TWO64
    ensures HandleAt(s, p) == Some((h, p + |HandleBytes(h)|))
  {
    hide Varint, Get64;
    StandsPart(s, p, Varint(h.offset), Varint(h.size));
    Written64(s, p, h.offset);
    Written64(s, p + |Varint(h.offset)|, h.size);
  }

  // ---------- the file ----------

  /** Sizes of data blocks, as the builder keeps track of them. */
  function EncodedSize(interval: nat): seq<TableEntry> -> nat
    requires 0 < interval
  {
    es => SizeOf(Pairs(es), interval)
  }

  /** Every data block goes into 32 bits. */
  predicate BlocksFit(index: seq<IndexEntry>, interval: nat)
    requires 0 < interval
  {
    forall i :: 0 <= i < |index| ==> SizeOf(Pairs(index[i].block.entries), interval) < 0x1_0000_0000
  }

  ghost function DataBlockOf(e: IndexEntry, interval: nat): Bytes
    requires 0 < interval && SizeOf(Pairs(e.block.entries), interval) < 0x1_0000_0000
  {
    SizeIsLength(Pairs(e.block.entries), interval);
    Block.BlockOf(Pairs(e.block.entries), interval)
  }

  ghost function DataBytes(crc: Log.Crc, index: seq<IndexEntry>, interval: nat): Bytes
    requires 0 < interval && BlocksFit(index, interval)
  {
    if index == [] then []
    else DataBytes(crc, index[..|index| - 1], interval) + RawBlock(crc, DataBlockOf(index[|index| - 1], interval))
  }

  /** The handle of a data block. */
  function HandleOf(e: IndexEntry, interval: nat): BlockHandle
    requires 0 < interval
  {
    BlockHandle(e.block.offset, SizeOf(Pairs(e.block.entries), interval))
  }

  /** The entries of the index block. */
  function IndexPairs(index: seq<IndexEntry>, interval: nat): (r: seq<Block.KeyValue>)
    requires 0 < interval
    ensures |r| == |index|
    ensures forall i :: 0 <= i < |index| ==> r[i] == Block.KeyValue(KeyBytes(index[i].key), HandleBytes(HandleOf(index[i], interval)))
  {
    seq(|index|, i requires 0 <= i < |index| => Block.KeyValue(KeyBytes(index[i].key), HandleBytes(HandleOf(index[i], interval))))
  }

  /** The entry of the metaindex block, if there is a filter. */
  function MetaPairs(name: Bytes, filter: Option<BlockHandle>): seq<Block.KeyValue> {
    if filter.None? then [] else [Block.KeyValue(name, HandleBytes(filter.value))]
  }

  const FOOTER_SIZE := 48
  const TABLE_MAGIC_NUMBER: nat := 0xdb4775248b80fb57

  /** `Footer::EncodeTo`. */
  function FooterBytes(meta: BlockHandle, index: BlockHandle): (r: Bytes)
    requires |HandleBytes(meta)| + |HandleBytes(index)| <= 40
    ensures |r| == FOOTER_SIZE
  {
    var handles := HandleBytes(meta) + HandleBytes(index);
    handles + seq(40 - |handles|, _ => 0) + EncodeFixed64(TABLE_MAGIC_NUMBER)
  }

  /** `Footer::DecodeFrom`: the handles of metaindex and index. */
  function FooterAt(s: Bytes): Option<(BlockHandle, BlockHandle)>
    requires |s| == FOOTER_SIZE
  {
    if DecodeFixed64(s[40..]) != TABLE_MAGIC_NUMBER then None
    else
      match HandleAt(s, 0)
      case None => None
      case Some((meta, p)) =>
        match HandleAt(s, p)
        case None => None
        case Some((index, _)) => Some((meta, index))
  }

  lemma HandleLength(h: BlockHandle)
    requires h.offset < TWO64 && h.size < TWO64
    ensures |HandleBytes(h)| <= 20
  {
    hide Varint;
    Varint64Length(h.offset);
    Varint64Length(h.size);
  }

  lemma FooterIsRead(meta: BlockHandle, index: BlockHandle)
    requires meta.offset < TWO64 && meta.size < TWO64 && index.offset < TWO64 && index.size < TWO64
    ensures |HandleBytes(meta)| + |HandleBytes(index)| <= 40
    ensures FooterAt(FooterBytes(meta, index)) == Some((meta, index))
  {
    hide HandleBytes, HandleAt, EncodeFixed64, DecodeFixed64;
    HandleLength(meta);
    HandleLength(index);
    var s, a, b := FooterBytes(meta, index), HandleBytes(meta), HandleBytes(index);
    assert s[0..|a|] == a && s[|a|..|a| + |b|] == b;
    HandleIsRead(s, 0, meta);
    HandleIsRead(s, |a|, index);
    assert s[40..] == EncodeFixed64(TABLE_MAGIC_NUMBER) + [];
    Fixed64RoundTrip(TABLE_MAGIC_NUMBER, []);
  }

  /** What a file of a table is made of. */
  datatype Layout = Layout(data: Bytes, filter: Option<Bytes>, meta: Bytes, index: Bytes)

  function FilterPart(crc: Log.Crc, l: Layout): Bytes {
    if l.filter.Some? then RawBlock(crc, l.filter.value) else []
  }

  function FilterHandle(l: Layout): Option<BlockHandle> {
    if l.filter.Some? then Some(BlockHandle(|l.data|, |l.filter.value|)) else None
  }

  function MetaHandle(crc: Log.Crc, l: Layout): BlockHandle {
    BlockHandle(|l.data| + |FilterPart(crc, l)|, |l.meta|)
  }

  function IndexHandle(crc: Log.Crc, l: Layout): BlockHandle {
    BlockHandle(MetaHandle(crc, l).offset + |l.meta| + BLOCK_TRAILER_SIZE, |l.index|)
  }

  function BodyBytes(crc: Log.Crc, l: Layout): Bytes {
    l.data + FilterPart(crc, l) + RawBlock(crc, l.meta) + RawBlock(crc, l.index)
  }

  predicate FileFits(crc: Log.Crc, l: Layout) {
    |BodyBytes(crc, l)| < TWO64
  }

  lemma HandlesFit(crc: Log.Crc, l: Layout)
    requires FileFits(crc, l)
    ensures var m, i := MetaHandle(crc, l), IndexHandle(crc, l);
            && m.offset < TWO64 && m.size < TWO64 && i.offset < TWO64 && i.size < TWO64
            && |HandleBytes(m)| + |HandleBytes(i)| <= 40
    ensures l.filter.Some? ==> FilterHandle(l).value.offset < TWO64 && FilterHandle(l).value.size < TWO64
  {
    hide HandleBytes;
    HandleLength(MetaHandle(crc, l));
    HandleLength(IndexHandle(crc, l));
  }

  function FileBytes(crc: Log.Crc, l: Layout): Bytes
    requires FileFits(crc, l)
  {
    HandlesFit(crc, l);
    BodyBytes(crc, l) + FooterBytes(MetaHandle(crc, l), IndexHandle(crc, l))
  }

  /** Every part stands where its handle says. */
  lemma PartsStand(crc: Log.Crc, l: Layout, verifyChecksums: bool)
    requires FileFits(crc, l)
    ensures var file := FileBytes(crc, l);
            && |file| >= FOOTER_SIZE && FooterAt(file[|file| - FOOTER_SIZE..]) == Some((MetaHandle(crc, l), IndexHandle(crc, l)))
            && BlockAt(crc, verifyChecksums, file, MetaHandle(crc, l)) == Some(l.meta)
            && BlockAt(crc, verifyChecksums, file, IndexHandle(crc, l)) == Some(l.index)
            && (l.filter.Some? ==> BlockAt(crc, verifyChecksums, file, FilterHandle(l).value) == l.filter)
            && l.data <= file
  {
    hide RawBlock, FooterBytes, FooterAt, BlockAt, HandleBytes;
    HandlesFit(crc, l);
    RawSize(crc, l.meta);
    var file, footer := FileBytes(crc, l), FooterBytes(MetaHandle(crc, l), IndexHandle(crc, l));
    var filter, meta, index := FilterPart(crc, l), RawBlock(crc, l.meta), RawBlock(crc, l.index);
    FooterIsRead(MetaHandle(crc, l), IndexHandle(crc, l));
    assert file[|file| - FOOTER_SIZE..] == footer;
    assert file[..|l.data|] == l.data;
    assert file[|l.data|..|l.data| + |filter|] == filter;
    assert file[|l.data| + |filter|..|l.data| + |filter| + |meta|] == meta;
    assert file[|l.data| + |filter| + |meta|..|l.data| + |filter| + |meta| + |index|] == index;
    RawBlockIsRead(crc, verifyChecksums, file, MetaHandle(crc, l).offset, l.meta);
    RawBlockIsRead(crc, verifyChecksums, file, IndexHandle(crc, l).offset, l.index);
    if l.filter.Some? {
      RawBlockIsRead(crc, verifyChecksums, file, |l.data|, l.filter.value);
    }
  }

  lemma RawSize(crc: Log.Crc, contents: Bytes)
    ensures |RawBlock(crc, contents)| == |contents| + BLOCK_TRAILER_SIZE
  {
  }

  // ---------- where the data blocks stand ----------

  lemma PlacedBefore(index: seq<IndexEntry>, encodedSize: seq<TableEntry> -> nat)
    requires Placed(index, encodedSize) && index != []
    ensures Placed(index[..|index| - 1], encodedSize) && index[|index| - 1].block.offset == EndOf(index[..|index| - 1], encodedSize)
  {
    hide EndOf;
    var init := index[..|index| - 1];
    forall i | 0 <= i < |init|
      ensures init[i].block.offset == EndOf(init[..i], encodedSize)
    {
      assert init[..i] == index[..i];
    }
  }

  lemma {:induction false} DataEndsAt(crc: Log.Crc, index: seq<IndexEntry>, interval: nat)
    requires 0 < interval && BlocksFit(index, interval) && Placed(index, EncodedSize(interval))
    ensures |DataBytes(crc, index, interval)| == EndOf(index, EncodedSize(interval))
    decreases |index|
  {
    hide RawBlock, SizeOf, Pairs, Placed;
    if index != [] {
      var init, e := index[..|index| - 1], index[|index| - 1];
      PlacedBefore(index, EncodedSize(interval));
      DataEndsAt(crc, init, interval);
      SizeIsLength(Pairs(e.block.entries), interval);
      RawSize(crc, DataBlockOf(e, interval));
    }
  }

  lemma {:induction false} DataStands(crc: Log.Crc, index: seq<IndexEntry>, interval: nat, i: nat)
    requires 0 < interval && BlocksFit(index, interval) && Placed(index, EncodedSize(interval)) && i < |index|
    ensures StandsAt(DataBytes(crc, index, interval), index[i].block.offset, RawBlock(crc, DataBlockOf(index[i], interval)))
    decreases |index|
  {
    hide RawBlock, SizeOf, Pairs, DataBlockOf, Placed, EndOf;
    var init, e := index[..|index| - 1], index[|index| - 1];
    PlacedBefore(index, EncodedSize(interval));
    var before, raw := DataBytes(crc, init, interval), RawBlock(crc, DataBlockOf(e, interval));
    if i < |init| {
      DataStands(crc, init, interval, i);
      Block.StandsInFront(before, raw, index[i].block.offset, RawBlock(crc, DataBlockOf(index[i], interval)));
    } else {
      DataEndsAt(crc, init, interval);
      assert (before + raw)[|before|..|before| + |raw|] == raw;
    }
  }

  lemma StandsInLonger(data: Bytes, file: Bytes, p: nat, part: Bytes)
    requires StandsAt(data, p, part) && data <= file
    ensures StandsAt(file, p, part)
  {
    assert file[p..p + |part|] == data[p..p + |part|];
  }

  lemma DataBlockSize(e: IndexEntry, interval: nat)
    requires 0 < interval && SizeOf(Pairs(e.block.entries), interval) < 0x1_0000_0000
    ensures |DataBlockOf(e, interval)| == SizeOf(Pairs(e.block.entries), interval)
  {
    hide SizeOf, Pairs;
    SizeIsLength(Pairs(e.block.entries), interval);
  }

  /** A data block is read back from the file by its handle. */
  lemma DataBlockIsRead(crc: Log.Crc, verifyChecksums: bool, index: seq<IndexEntry>, interval: nat, i: nat, file: Bytes)
    requires 0 < interval && BlocksFit(index, interval) && Placed(index, EncodedSize(interval)) && i < |index|
    requires DataBytes(crc, index, interval) <= file
    ensures BlockAt(crc, verifyChecksums, file, HandleOf(index[i], interval)) == Some(DataBlockOf(index[i], interval))
  {
    hide RawBlock, BlockAt, SizeOf, Pairs, DataBytes, StandsAt, Placed, DataBlockOf;
    DataStands(crc, index, interval, i);
    StandsInLonger(DataBytes(crc, index, interval), file, index[i].block.offset, RawBlock(crc, DataBlockOf(index[i], interval)));
    DataBlockSize(index[i], interval);
    RawBlockIsRead(crc, verifyChecksums, file, index[i].block.offset, DataBlockOf(index[i], interval));
  }

  // ---------- writing ----------

  /** A block of the builder. */
  method MakeBlock(kvs: seq<Block.KeyValue>, interval: nat) returns (block: Bytes)
    requires 0 < interval && SizeOf(kvs, interval) < 0x1_0000_0000
    ensures Block.Fits(kvs, interval) && block == Block.BlockOf(kvs, interval) && |block| == SizeOf(kvs, interval)
  {
    hide Block.DataOf, Block.RestartsOf, Block.Fits, Block.BlockOf, Block.BlockBuilder.Valid;
    SizeIsLength(kvs, interval);
    var builder := new Block.BlockBuilder(interval);
    for i := 0 to |kvs|
      invariant builder.Valid() && fresh(builder) && builder.interval == interval && builder.entries == kvs[..i]
    {
      builder.Add(kvs[i].key, kvs[i].val);
      assert kvs[..i + 1] == kvs[..i] + [kvs[i]];
    }
    assert kvs[..|kvs|] == kvs;
    block := builder.Finish();
  }

  /** The data blocks, each with its trailer. */
  method WriteDataBlocks(crc: Log.Crc, index: seq<IndexEntry>, interval: nat) returns (file: Bytes)
    requires 0 < interval && BlocksFit(index, interval)
    ensures file == DataBytes(crc, index, interval)
  {
    hide SizeOf, Pairs, RawBlock, Block.Fits, Block.BlockOf;
    file := [];
    for i := 0 to |index|
      invariant file == DataBytes(crc, index[..i], interval)
    {
      var block := MakeBlock(Pairs(index[i].block.entries), interval);
      file := file + RawBlock(crc, block);
      assert index[..i + 1][..i] == index[..i];
    }
    assert index[..|index|] == index;
  }

  /** The file of a table, written by its builder. */
  ghost predicate IsTableFile(crc: Log.Crc, file: Bytes, index: seq<IndexEntry>, interval: nat, l: Layout, name: Bytes) {
    && 0 < interval && BlocksFit(index, interval) && Placed(index, EncodedSize(interval)) && l.data == DataBytes(crc, index, interval)
    && Block.Fits(IndexPairs(index, interval), 1) && l.index == Block.BlockOf(IndexPairs(index, interval), 1)
    && Block.Fits(MetaPairs(name, FilterHandle(l)), interval) && l.meta == Block.BlockOf(MetaPairs(name, FilterHandle(l)), interval)
    && FileFits(crc, l) && file == FileBytes(crc, l)
  }

  /** The offsets in every block go into 32 bits. */
  ghost predicate PartsFit(crc: Log.Crc, index: seq<IndexEntry>, interval: nat, filter: Option<Bytes>, name: Bytes)
    requires 0 < interval
  {
    && BlocksFit(index, interval) && (filter.Some? ==> |filter.value| < 0x1_0000_0000)
    && SizeOf(MetaPairs(name, FilterHandle(Layout(DataBytes(crc, index, interval), filter, [], []))), interval) < 0x1_0000_0000
    && SizeOf(IndexPairs(index, interval), 1) < 0x1_0000_0000
  }

  /** And those in the file go into 64 bits. */
  ghost predicate TableFits(crc: Log.Crc, index: seq<IndexEntry>, interval: nat, filter: Option<Bytes>, name: Bytes)
    requires 0 < interval
  {
    && PartsFit(crc, index, interval, filter, name)
    && exists l: Layout :: l.data == DataBytes(crc, index, interval) && l.filter == filter && FileFits(crc, l)
         && |l.meta| == SizeOf(MetaPairs(name, FilterHandle(l)), interval) && |l.index| == SizeOf(IndexPairs(index, interval), 1)
  }

  lemma FitsBySize(crc: Log.Crc, a: Layout, b: Layout)
    requires a.data == b.data && a.filter == b.filter && |a.meta| == |b.meta| && |a.index| == |b.index|
    ensures FileFits(crc, a) <==> FileFits(crc, b)
  {
  }

  /** `BuildTable` and the blocks that `TableBuilder` writes. Where the source would cut offsets off, there
      is no file. */
  method BuildFile(es: seq<TableEntry>, policy: Policy, hasFilter: bool, name: Bytes, blockSize: nat, interval: nat, crc: Log.Crc)
    returns (file: Option<Bytes>, ghost index: seq<IndexEntry>, ghost filters: seq<seq<Bytes>>, ghost filter: Option<Bytes>, ghost l: Layout)
    requires KeysIncrease(es) && (forall e :: e in es ==> e.key.sequence <= MAX_SEQUENCE) && 0 < interval
    ensures IsIndex(index) && AllEntries(index) == es
    ensures file.Some? <==> TableFits(crc, index, interval, filter, name)
    ensures file.Some? ==> IsTableFile(crc, file.value, index, interval, l, name) && (l.filter.Some? <==> hasFilter)
    ensures file.Some? && hasFilter ==> FiltersCover(index, filters) && FilterBlock.Fits(policy, filters) && l.filter.value == FilterBlockOf(policy, filters)
  {
    hide KeysIncrease, IsIndex, FiltersCover, FilterBlockOf, FilterBlock.Fits, SizeOf, Pairs, Placed, DataBytes, IndexPairs,
         Block.Fits, Block.BlockOf,
         BodyBytes, FileBytes, RawBlock, HandleBytes, AllEntries;
    var blocks, filterBlock, fs := BuildTable(es, policy, hasFilter, blockSize, EncodedSize(interval));
    index, filter, filters, file := blocks, filterBlock, fs, None;
    if !BlocksFit(blocks, interval) || (hasFilter && |filterBlock.value| >= 0x1_0000_0000) {
      l := Layout([], None, [], []);
      return;
    }
    var data := WriteDataBlocks(crc, blocks, interval);
    var layout := Layout(data, filterBlock, [], []);
    if SizeOf(MetaPairs(name, FilterHandle(layout)), interval) >= 0x1_0000_0000 || SizeOf(IndexPairs(blocks, interval), 1) >= 0x1_0000_0000 {
      l := layout;
      return;
    }
    var meta := MakeBlock(MetaPairs(name, FilterHandle(layout)), interval);
    var indexBlock := MakeBlock(IndexPairs(blocks, interval), 1);
    layout := Layout(data, filterBlock, meta, indexBlock);
    l := layout;
    forall a: Layout | a.data == data && a.filter == filterBlock && |a.meta| == |meta| && |a.index| == |indexBlock|
      ensures FileFits(crc, a) <==> FileFits(crc, layout)
    {
      FitsBySize(crc, a, layout);
    }
    if FileFits(crc, layout) {
      file := Some(FileBytes(crc, layout));
    }
  }

  // ---------- reading ----------

  /** `Seek` in a block, and what the iterator is at then. */
  method SeekIn(block: Bytes, less: Block.Order, ghost kvs: seq<Block.KeyValue>, ghost interval: nat, target: Bytes)
    returns (r: Option<Block.KeyValue>, ghost i: nat)
    requires 0 < interval && Block.Fits(kvs, interval) && block == Block.BlockOf(kvs, interval)
    requires Block.IsOrder(less) && Block.Increasing(less, kvs)
    ensures i <= |kvs| && r == if i < |kvs| then Some(kvs[i]) else None
    ensures (i < |kvs| ==> !less(kvs[i].key, target)) && forall k :: 0 <= k < i ==> less(kvs[k].key, target)
  {
    hide Block.Fits, Block.BlockOf, Block.IsOrder, Block.Increasing, Block.Layout, Block.Off, Block.Start;
    var iter := new Block.Iter(block, less, kvs, interval);
    i := iter.Seek(target);
    Block.OffsetOfEntry(iter.data, iter.restarts, iter.numRestarts, iter.es, iter.interval, i);
    r := if iter.Valid() then Some(Block.KeyValue(iter.key, iter.data[iter.valuePos..iter.valuePos + iter.valueLength])) else None;
  }

  /** `Table::Rep`, as far as lookups need it. */
  datatype OpenTable = OpenTable(file: Bytes, indexBlock: Bytes, filter: Option<FilterBlockReader>)

  /** `Table::Open`. Without a filter policy the metaindex is not read. */
  method Open(crc: Log.Crc, verifyChecksums: bool, file: Bytes, policy: Option<Policy>, name: Bytes,
              ghost index: seq<IndexEntry>, ghost interval: nat, ghost l: Layout, ghost filters: seq<seq<Bytes>>)
    returns (t: Option<OpenTable>)
    requires IsTableFile(crc, file, index, interval, l, name)
    requires l.filter.Some? && policy.Some? ==> FilterBlock.Fits(policy.value, filters) && l.filter.value == FilterBlockOf(policy.value, filters)
    ensures t.Some? && t.value.file == file && t.value.indexBlock == l.index
    ensures t.value.filter.Some? <==> l.filter.Some? && policy.Some?
    ensures t.value.filter.Some? ==> t.value.filter.value.Valid() && FilterBlock.Reads(t.value.filter.value, policy.value, filters)
  {
    hide SizeOf, Pairs, Placed, DataBytes, IndexPairs, Block.Fits, Block.BlockOf, BodyBytes, FileBytes, RawBlock, HandleBytes, HandleAt, FooterAt,
         BlockAt, FilterBlockOf, FilterBlock.Fits, FilterBlock.Reads, Bytewise.Less, Block.IsOrder, Block.Increasing;
    PartsStand(crc, l, verifyChecksums);
    HandlesFit(crc, l);
    if |file| < FOOTER_SIZE {
      return None;
    }
    var footer := FooterAt(file[|file| - FOOTER_SIZE..]);
    if footer.None? {
      return None;
    }
    var indexBlock := BlockAt(crc, verifyChecksums, file, footer.value.1);
    if indexBlock.None? {
      return None;
    }
    var filter := None;
    if policy.Some? {
      var meta := BlockAt(crc, verifyChecksums, file, footer.value.0);
      if meta.Some? {
        BytewiseIsOrder();
        MetaIncreases(name, FilterHandle(l));
        var found, i := SeekIn(meta.value, Bytewise.Less, MetaPairs(name, FilterHandle(l)), interval, name);
        MetaIsFound(name, FilterHandle(l), found, i);
        if found.Some? && found.value.key == name {
          HandleIsWhole(FilterHandle(l).value);
          var handle := HandleAt(found.value.val, 0);
          if handle.Some? {
            var block := BlockAt(crc, verifyChecksums, file, handle.value.0);
            if block.Some? {
              var reader := OpenFilters(policy.value, filters, block.value);
              filter := Some(reader);
            }
          }
        }
      }
    }
    t := Some(OpenTable(file, indexBlock.value, filter));
  }

  lemma MetaIncreases(name: Bytes, filter: Option<BlockHandle>)
    ensures Block.Increasing(Bytewise.Less, MetaPairs(name, filter))
  {
  }

  lemma MetaIsFound(name: Bytes, filter: Option<BlockHandle>, found: Option<Block.KeyValue>, i: nat)
    requires var kvs := MetaPairs(name, filter);
             i <= |kvs| && found == (if i < |kvs| then Some(kvs[i]) else None) && (i > 0 ==> Bytewise.Less(kvs[0].key, name))
    ensures if filter.Some? then found == Some(Block.KeyValue(name, HandleBytes(filter.value))) else found == None
  {
    hide Bytewise.Less, HandleBytes;
    Bytewise.LessIsTotal(name, name);
  }

  lemma HandleIsWhole(h: BlockHandle)
    requires h.offset < TWO64 && h.size < TWO64
    ensures HandleAt(HandleBytes(h), 0) == Some((h, |HandleBytes(h)|))
  {
    hide HandleAt;
    var s := HandleBytes(h);
    assert s[0..|s|] == s;
    HandleIsRead(s, 0, h);
  }

  // ---------- lookups ----------

  /** The entry of a block as it is stored. */
  function Stored(e: Option<TableEntry>): Option<Block.KeyValue> {
    if e.None? then None else Some(Block.KeyValue(KeyBytes(e.value.key), e.value.val))
  }

  /** What a table is opened from, and what of it is in memory. */
  ghost predicate IsOpen(crc: Log.Crc, t: OpenTable, index: seq<IndexEntry>, interval: nat, l: Layout, name: Bytes, filters: seq<seq<Bytes>>) {
    && IsTableFile(crc, t.file, index, interval, l, name) && t.indexBlock == l.index
    && (t.filter.Some? ==>
          && t.filter.value.Valid() && FilterBlock.Reads(t.filter.value, t.filter.value.policy, filters)
          && IsSound(t.filter.value.policy) && FiltersCover(index, filters))
  }

  lemma {:induction false} IndexKeysIncrease(index: seq<IndexEntry>, i: nat, j: nat)
    requires IsIndex(index) && i < j < |index|
    ensures KeyBefore(index[i].key, index[j].key)
    decreases j
  {
    hide KeyBefore, KeysIncrease;
    if i + 1 < j {
      IndexKeysIncrease(index, i, j - 1);
      NextIndexKey(index, j - 1);
      KeyOrder(index[i].key, index[j - 1].key, index[j].key);
    } else {
      NextIndexKey(index, i);
    }
  }

  lemma NextIndexKey(index: seq<IndexEntry>, i: nat)
    requires IsIndex(index) && i + 1 < |index|
    ensures KeyBefore(index[i].key, index[i + 1].key)
  {
    hide KeyBefore, KeysIncrease, AllEntries;
    assert SeparatesAt(index, [], i) && SeparatesAt(index, [], i + 1);
    var a, b, es := index[i].key, index[i + 1].key, index[i + 1].block.entries;
    var first, last := es[0].key, es[|es| - 1].key;
    BlockIncreases(index, i + 1);
    assert |es| > 1 ==> KeyBefore(first, last);
    KeyOrder(a, first, last);
    AfterLast(b, last);
    KeyOrder(a, last, b);
  }

  lemma AfterLast(key: TableKey, last: TableKey)
    requires key == last || Bytewise.Less(last.user, key.user)
    ensures key == last || KeyBefore(last, key)
  {
  }

  lemma {:induction false} BlockIncreases(index: seq<IndexEntry>, i: nat)
    requires IsIndex(index) && i < |index|
    ensures forall a, b :: 0 <= a < b < |index[i].block.entries| ==> KeyBefore(index[i].block.entries[a].key, index[i].block.entries[b].key)
    ensures forall e :: e in index[i].block.entries ==> e in AllEntries(index)
  {
    hide KeyBefore, AllEntries, IndexBefore;
    var es := index[i].block.entries;
    forall a, b | 0 <= a < b < |es|
      ensures KeyBefore(es[a].key, es[b].key)
    {
      var p := Table.PlaceOf(index, i, a);
      var q := Table.PlaceOf(index, i, b);
      assert KeyBefore(AllEntries(index)[p].key, AllEntries(index)[q].key);
    }
    forall e | e in es
      ensures e in AllEntries(index)
    {
      var a :| 0 <= a < |es| && es[a] == e;
      var p := Table.PlaceOf(index, i, a);
      assert AllEntries(index)[p] == e;
    }
  }

  /** Keys in the table and its index are stored as internal keys. */
  lemma IndexIsSeekable(index: seq<IndexEntry>, interval: nat)
    requires IsIndex(index) && 0 < interval && forall e :: e in AllEntries(index) ==> e.key.sequence <= MAX_SEQUENCE
    ensures Block.Increasing(InternalLess, IndexPairs(index, interval))
    ensures forall i :: 0 <= i < |index| ==> index[i].key.sequence <= MAX_SEQUENCE && Block.Increasing(InternalLess, Pairs(index[i].block.entries))
    ensures forall i, e :: 0 <= i < |index| && e in index[i].block.entries ==> e.key.sequence <= MAX_SEQUENCE
  {
    hide KeyBefore, InternalLess, KeyBytes, HandleBytes, AllEntries, Pairs;
    forall i | 0 <= i < |index|
      ensures index[i].key.sequence <= MAX_SEQUENCE && Block.Increasing(InternalLess, Pairs(index[i].block.entries))
      ensures forall e :: e in index[i].block.entries ==> e.key.sequence <= MAX_SEQUENCE
    {
      var es := index[i].block.entries;
      BlockIncreases(index, i);
      PairsIncrease(es);
      assert SeparatesAt(index, [], i);
      assert es[|es| - 1] in es;
    }
    forall i, j | 0 <= i < j < |index|
      ensures InternalLess(IndexPairs(index, interval)[i].key, IndexPairs(index, interval)[j].key)
    {
      IndexKeysIncrease(index, i, j);
      LessOfKeys(index[i].key, index[j].key);
    }
  }

  /** `Table::InternalGet`, over the bytes: the index block, the filter, and one data block of the file. */
  method InternalGet(crc: Log.Crc, verifyChecksums: bool, t: OpenTable, k: TableKey,
                     ghost index: seq<IndexEntry>, ghost interval: nat, ghost l: Layout, ghost name: Bytes, ghost filters: seq<seq<Bytes>>)
    returns (r: Option<Block.KeyValue>, ghost e: Option<TableEntry>)
    requires IsOpen(crc, t, index, interval, l, name, filters) && IsIndex(index) && k.sequence <= MAX_SEQUENCE
    requires forall x :: x in AllEntries(index) ==> x.key.sequence <= MAX_SEQUENCE
    ensures IsAnswer(AllEntries(index), k, e) && r == Stored(e) && (e.Some? ==> e.value in AllEntries(index))
  {
    hide IsIndex, AllEntries, IsAnswer, KeyBefore, InternalLess, Block.IsOrder, Block.Increasing, Block.Fits, Block.BlockOf, BlockAt, HandleAt,
         HandleBytes, FilterBlock.Reads, IsSound, FiltersCover, Placed, DataBytes, BodyBytes, FileBytes, SizeOf, KeyBytes, DataBlockOf;
    InternalIsOrder();
    IndexIsSeekable(index, interval);
    PartsStand(crc, l, verifyChecksums);
    var found, i := SeekIn(t.indexBlock, InternalLess, IndexPairs(index, interval), 1, KeyBytes(k));
    KeysCompare(index, interval, i, k);
    r, e := None, None;
    if found.None? {
      NotInTable(index, k);
      return;
    }
    IndexHandleFits(crc, l, index, interval, i);
    HandleIsWhole(HandleOf(index[i], interval));
    var handle := HandleAt(found.value.val, 0);
    if t.filter.Some? && handle.Some? && !t.filter.value.KeyMayMatch(handle.value.0.offset, k.user) {
      FilterRulesOut(index, i, k, t.filter.value, filters);
      RuledOut(index, i, k);
      return;
    }
    DataBlockIsRead(crc, verifyChecksums, index, interval, i, t.file);
    var block := BlockAt(crc, verifyChecksums, t.file, handle.value.0);
    DataBlockIsBlock(index[i], interval);
    ghost var j;
    r, j := SeekIn(block.value, InternalLess, Pairs(index[i].block.entries), interval, KeyBytes(k));
    PairsCompare(index[i].block.entries, j, k);
    FoundInBlock(index, i, j, k);
    BlockIncreases(index, i);
    e := if j < |index[i].block.entries| then Some(index[i].block.entries[j]) else None;
  }

  lemma DataBlockIsBlock(e: IndexEntry, interval: nat)
    requires 0 < interval && SizeOf(Pairs(e.block.entries), interval) < 0x1_0000_0000
    ensures Block.Fits(Pairs(e.block.entries), interval) && DataBlockOf(e, interval) == Block.BlockOf(Pairs(e.block.entries), interval)
  {
    hide SizeOf, Pairs, Block.Fits, Block.BlockOf;
    SizeIsLength(Pairs(e.block.entries), interval);
  }

  /** Positions among stored keys are positions among keys. */
  lemma PairsCompare(es: seq<TableEntry>, j: nat, k: TableKey)
    requires (forall e :: e in es ==> e.key.sequence <= MAX_SEQUENCE) && k.sequence <= MAX_SEQUENCE && j <= |es|
    requires (j < |es| ==> !InternalLess(Pairs(es)[j].key, KeyBytes(k))) && forall y :: 0 <= y < j ==> InternalLess(Pairs(es)[y].key, KeyBytes(k))
    ensures (j < |es| ==> !KeyBefore(es[j].key, k)) && forall y :: 0 <= y < j ==> KeyBefore(es[y].key, k)
  {
    hide InternalLess, KeyBytes, KeyBefore;
    forall y | 0 <= y < |es|
      ensures InternalLess(Pairs(es)[y].key, KeyBytes(k)) <==> KeyBefore(es[y].key, k)
    {
      assert es[y] in es;
      LessOfKeys(es[y].key, k);
    }
  }

  lemma KeysCompare(index: seq<IndexEntry>, interval: nat, i: nat, k: TableKey)
    requires 0 < interval && (forall x :: 0 <= x < |index| ==> index[x].key.sequence <= MAX_SEQUENCE) && k.sequence <= MAX_SEQUENCE && i <= |index|
    requires i < |index| ==> !InternalLess(IndexPairs(index, interval)[i].key, KeyBytes(k))
    requires forall y :: 0 <= y < i ==> InternalLess(IndexPairs(index, interval)[y].key, KeyBytes(k))
    ensures (i < |index| ==> !KeyBefore(index[i].key, k)) && forall y :: 0 <= y < i ==> KeyBefore(index[y].key, k)
  {
    hide InternalLess, KeyBytes, KeyBefore, HandleBytes;
    forall y | 0 <= y < |index|
      ensures InternalLess(IndexPairs(index, interval)[y].key, KeyBytes(k)) <==> KeyBefore(index[y].key, k)
    {
      LessOfKeys(index[y].key, k);
    }
  }

  lemma FilterRulesOut(index: seq<IndexEntry>, i: nat, k: TableKey, filter: FilterBlockReader, filters: seq<seq<Bytes>>)
    requires filter.Valid() && FilterBlock.Reads(filter, filter.policy, filters) && IsSound(filter.policy) && FiltersCover(index, filters)
    requires i < |index| && !filter.KeyMayMatch(index[i].block.offset, k.user)
    ensures forall e :: e in index[i].block.entries ==> e.key.user != k.user
  {
    hide FilterBlock.Reads, IsSound;
    forall e | e in index[i].block.entries
      ensures e.key.user != k.user
    {
      if e.key.user == k.user {
        NoKeyMissed(filter, filter.policy, filters, index[i].block.offset, k.user);
      }
    }
  }

  lemma IndexHandleFits(crc: Log.Crc, l: Layout, index: seq<IndexEntry>, interval: nat, i: nat)
    requires 0 < interval && BlocksFit(index, interval) && Placed(index, EncodedSize(interval)) && l.data == DataBytes(crc, index, interval)
    requires FileFits(crc, l) && i < |index|
    ensures index[i].block.offset < TWO64 && SizeOf(Pairs(index[i].block.entries), interval) < TWO64
  {
    hide RawBlock, SizeOf, Pairs, DataBytes, Placed;
    DataStands(crc, index, interval, i);
  }

  /** `SaveValue`, on the bytes of an entry. */
  function SavedBytes(r: Option<Block.KeyValue>, u: Bytes): SaverState {
    if r.None? || |r.value.key| < 8 || UserOf(r.value.key) != u then NotFound
    else if TagOf(r.value.key) % 256 == 1 then FoundValue(Text(r.value.val))
    else Deleted
  }

  lemma SavedAsStored(e: Option<TableEntry>, u: Bytes)
    requires e.Some? ==> e.value.key.sequence <= MAX_SEQUENCE
    ensures SavedBytes(Stored(e), u) == Saved(e, u)
  {
    hide KeyBytes, DecodeFixed64;
    if e.Some? {
      KeyParts(e.value.key);
    }
  }

  /** A table that was written to a file, with Bloom filters or without, and opened again, with the filter
      policy or without, answers every lookup as `Version.SearchTable` does on the file's entries. */
  method WriteOpenAndGet(number: nat, size: nat, es: seq<TableEntry>, bloom: Policy, hasFilter: bool, useFilter: bool, name: Bytes,
                         blockSize: nat, interval: nat, crc: Log.Crc, verifyChecksums: bool, u: Bytes, s: nat)
    returns (file: Option<Bytes>, inTable: Option<SaverState>, inFile: SaverState, ghost index: seq<IndexEntry>, ghost filter: Option<Bytes>)
    requires es != [] && KeysIncrease(es) && (forall e :: e in es ==> e.key.sequence <= MAX_SEQUENCE) && Distinct(RankedSet(es))
    requires IsSound(bloom) && 0 < interval && s <= MAX_SEQUENCE
    ensures AllEntries(index) == es && (file.Some? <==> TableFits(crc, index, interval, filter, name))
    ensures file.Some? ==> inTable == Some(inFile)
    ensures Answers(RankedSet(es), Bytewise.Rank(u), s, inFile)
  {
    hide KeysIncrease, IsIndex, RankedSet, Ranked, ValidFile, IsSound, FiltersCover, FilterBlock.Reads, FilterBlockOf,
         FilterBlock.Fits, Answers, IsTableFile, IsAnswer, TableFits;
    TableFileIsValid(number, size, es);
    inFile := SearchTable(FileOf(number, size, es), Bytewise.Rank(u), s);
    FileOfEntries(number, size, es);
    FileAnswers(RankedSet(es), Bytewise.Rank(u), s, inFile);
    inTable := None;
    ghost var filters, l;
    file, index, filters, filter, l := BuildFile(es, bloom, hasFilter, name, blockSize, interval, crc);
    if file.Some? {
      var policy := if useFilter then Some(bloom) else None;
      var t := Open(crc, verifyChecksums, file.value, policy, name, index, interval, l, filters);
      if t.value.filter.Some? { ReadsItsPolicy(t.value.filter.value, bloom, filters); }
      var r, e := InternalGet(crc, verifyChecksums, t.value, TableKey(u, s, Value), index, interval, l, name, filters);
      SavedAsStored(e, u);
      SavedAnswers(es, u, s, e);
      inTable := Some(SavedBytes(r, u));
      AnswerIsUnique(RankedSet(es), Bytewise.Rank(u), s, inTable.value, inFile);
    }
  }
}
